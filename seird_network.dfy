/**
 * The network SEIR-D engine's own phases (src/seird/abm_network_seird.py):
 * construction, which seeds I0 sampled agents in E, the termination test,
 * and the logging of the per-state counts and the full state list.
 *
 * The day loop, the contact graph and the infection phase belong to the
 * ABMNetwork base class, which is not part of this model. random.sample is
 * supplied as the list of seeded indices.
 */
module SeirdNetwork {
  import opened Common
  import opened SeirdAgent
  import opened History

  /** The history keys and the state code each one counts. */
  const Codes: map<string, int> := map["S" := S, "E" := E, "I" := I, "R" := R, "D" := D]

  /** One of the five SEIR-D codes. */
  predicate ValidState(state: int)
  {
    0 <= state < 5
  }

  /** Every recorded day's five counts add up to N. */
  lemma RecordedSumsToN(n: nat, history: map<string, seq<nat>>, historyStates: seq<seq<int>>, t: nat)
    requires Recorded(Codes, 5, n, history, historyStates) && t < |historyStates|
    ensures history["S"][t] + history["E"][t] + history["I"][t] + history["R"][t] + history["D"][t] == n
  {
    var states := historyStates[t];
    CountBelowAll(states, 5);
    assert CountBelow(states, 1) == Count(states, S);
    assert CountBelow(states, 3) == Count(states, S) + Count(states, E) + Count(states, I);
    assert CountBelow(states, 5) == CountBelow(states, 3) + Count(states, R) + Count(states, D);
    assert Codes["S"] == S && Codes["E"] == E && Codes["I"] == I && Codes["R"] == R && Codes["D"] == D;
  }

  /** any(state in [E, I]): some agent is exposed or infectious. */
  function AnyActive(states: seq<int>): (b: bool)
    ensures b <==> exists i :: 0 <= i < |states| && Timed(states[i])
  {
    if states == [] then false
    else AnyActive(states[..|states| - 1]) || Timed(states[|states| - 1])
  }

  /** The termination test holds exactly while E or I is still counted. */
  lemma AnyActiveIffCounted(states: seq<int>)
    ensures AnyActive(states) <==> Count(states, E) > 0 || Count(states, I) > 0
  {
    if AnyActive(states) {
      var i :| 0 <= i < |states| && Timed(states[i]);
      assert states[i] in states;
    }
  }

  /** The N fresh agents of construction, the sampled indices put in E (their timer stays 0). */
  method Population(cfg: ConfigSeird, initialExposed: seq<nat>) returns (agents: seq<AgentSeird>)
    requires forall id :: id in initialExposed ==> id < cfg.n
    ensures |agents| == cfg.n
    ensures forall i :: 0 <= i < cfg.n ==> fresh(agents[i]) && agents[i].params == cfg
    ensures forall i, j :: 0 <= i < j < cfg.n ==> agents[i] != agents[j]
    ensures forall i :: 0 <= i < cfg.n ==> agents[i].Current() == Status(if i in initialExposed then E else S, 0)
  {
    agents := [];
    for k := 0 to cfg.n
      invariant |agents| == k
      invariant forall i :: 0 <= i < k ==> fresh(agents[i]) && agents[i].params == cfg
      invariant forall i, j :: 0 <= i < j < k ==> agents[i] != agents[j]
      invariant forall i :: 0 <= i < k ==> agents[i].Current() == Status(S, 0)
    {
      var a := new AgentSeird(cfg);
      agents := agents + [a];
    }
    for k := 0 to |initialExposed|
      invariant forall i :: 0 <= i < cfg.n ==> agents[i].Current() == Status(if i in initialExposed[..k] then E else S, 0)
    {
      var idx := initialExposed[k];
      assert initialExposed[..k + 1] == initialExposed[..k] + [idx];
      assert idx in initialExposed;
      agents[idx].state := E;
    }
    assert initialExposed[..|initialExposed|] == initialExposed;
  }

  class AbmNetworkSeird {
    const cfg: ConfigSeird
    const agents: seq<AgentSeird>
    var history: map<string, seq<nat>>
    var historyStates: seq<seq<int>>
    var day: int
    var finished: bool

    /** One distinct agent per individual, each with a valid code. */
    ghost predicate AgentsValid()
      reads agents
    {
      && |agents| == cfg.n
      && Distinct(agents)
      && (forall i :: 0 <= i < |agents| ==> ValidState(agents[i].state))
    }

    /** Valid agents and a history that agrees with the recorded lists. */
    ghost predicate Valid()
      reads this, agents
    {
      AgentsValid() && Recorded(Codes, 5, cfg.n, history, historyStates)
    }

    /** The agents' current codes, in order. */
    function States(): (states: seq<int>)
      reads agents
      ensures |states| == |agents|
      ensures forall i :: 0 <= i < |agents| ==> states[i] == agents[i].state
    {
      seq(|agents|, i requires 0 <= i < |agents| reads agents => agents[i].state)
    }

    /**
     * N agents, exactly the I0 distinct sampled ones in E and the other
     * N - I0 in S; the five history lists and the state history empty,
     * day 0, not finished.
     */
    constructor(cfg: ConfigSeird, initialExposed: seq<nat>)
      requires |initialExposed| == cfg.i0 && Distinct(initialExposed)
      requires forall id :: id in initialExposed ==> id < cfg.n
      ensures Valid() && this.cfg == cfg
      ensures forall i :: 0 <= i < cfg.n ==>
                fresh(agents[i]) && agents[i].Current() == Status(if i in initialExposed then E else S, 0)
      ensures Count(States(), E) == cfg.i0 && Count(States(), S) == cfg.n - cfg.i0
      ensures history == Empty(Codes) && historyStates == []
      ensures day == 0 && !finished
    {
      var population := Population(cfg, initialExposed);
      this.cfg := cfg;
      agents := population;
      history := Empty(Codes);
      historyStates := [];
      day := 0;
      finished := false;
      new;
      PickedCounts(States(), initialExposed);
    }

    /** _should_continue: some agent is in E or I. */
    function ShouldContinue(): (b: bool)
      reads agents
      ensures b <==> exists i :: 0 <= i < |agents| && Timed(agents[i].state)
    {
      AnyActive(States())
    }

    /**
     * _log_states: appends the count of each code to its history list and
     * the full state list to history_states; nothing else changes.
     */
    method LogStates()
      requires Valid()
      modifies this
      ensures Valid()
      ensures historyStates == old(historyStates) + [States()]
      ensures history == Logged(Codes, old(history), States())
      ensures day == old(day) && finished == old(finished)
    {
      var states := States();
      LogKeepsRecorded(Codes, 5, cfg.n, history, historyStates, states);
      history := Logged(Codes, history, states);
      historyStates := historyStates + [states];
      assert states == States();
    }
  }

}
