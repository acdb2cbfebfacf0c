/**
 * The network SEIAR-D engine (src/seird/abm_network_seiar.py): construction,
 * which seeds I0 sampled agents in E, the infection scan over the contact
 * graph, and the logging of the per-state counts and the full state list.
 *
 * The engine reads nothing of an agent but its state code, so an agent is
 * modelled by that code. The agent class itself (seird/agent_seiar.py) is
 * not part of this model: its codes and predicates are taken to be those of
 * the SEIAR-D agent (S=0, E=1, IS=2, IA=3, R=4, D=5; infectious means IA or
 * IS, susceptible means S; a fresh agent is in S). The day loop and the
 * construction of the graph belong to the ABMNetwork base class, which is
 * not part of this model either.
 */
module SeiarNetwork {
  import opened Common
  import opened Graph
  import opened History

  const S: int := 0
  const E: int := 1
  const IS: int := 2
  const IA: int := 3
  const R: int := 4
  const D: int := 5

  /** The history keys and the state code each one counts. */
  const Codes: map<string, int> := map["S" := S, "E" := E, "IA" := IA, "IS" := IS, "R" := R, "D" := D]

  /** The parameters the engine reads (ConfigSEIAR). */
  datatype ConfigSeiar = ConfigSeiar(n: nat, i0: nat, contactsPerDay: nat, pInfectIS: real, pInfectIA: real)

  /** is_infectious: IA or IS. */
  predicate Infectious(state: int)
  {
    state == IA || state == IS
  }

  /** One of the six codes. */
  predicate ValidState(state: int)
  {
    0 <= state < 6
  }

  /** p_infect_IS for a symptomatic source, p_infect_IA for any other. */
  function Threshold(source: int, cfg: ConfigSeiar): real
  {
    if source == IS then cfg.pInfectIS else cfg.pInfectIA
  }

  /**
   * The ids one infectious source adds, in attempt order: the contacted
   * neighbours in S whose draw falls below the source's threshold. At most
   * one per attempt.
   */
  function Attempts(states: seq<int>, source: int, neighbors: seq<nat>, picks: seq<nat>, us: seq<Uniform>,
                    cfg: ConfigSeiar): (ids: seq<nat>)
    requires |us| == |picks|
    requires forall c :: 0 <= c < |picks| ==> picks[c] < |neighbors|
    requires forall c :: 0 <= c < |neighbors| ==> neighbors[c] < |states|
    ensures |ids| <= |picks|
    ensures forall id :: id in ids ==> id in neighbors && states[id] == S
  {
    if picks == [] then []
    else
      var last := |picks| - 1;
      var j := neighbors[picks[last]];
      Attempts(states, source, neighbors, picks[..last], us[..last], cfg)
        + (if states[j] == S && us[last] < Threshold(source, cfg) then [j] else [])
  }

  /** One more attempt: its id is appended when the contact is in S and the draw is below the threshold. */
  lemma AttemptsStep(states: seq<int>, source: int, neighbors: seq<nat>, picks: seq<nat>, us: seq<Uniform>,
                     cfg: ConfigSeiar, c: nat)
    requires |us| == |picks| && c < |picks|
    requires forall c :: 0 <= c < |picks| ==> picks[c] < |neighbors|
    requires forall c :: 0 <= c < |neighbors| ==> neighbors[c] < |states|
    ensures var j := neighbors[picks[c]];
            Attempts(states, source, neighbors, picks[..c + 1], us[..c + 1], cfg)
            == Attempts(states, source, neighbors, picks[..c], us[..c], cfg)
               + if states[j] == S && us[c] < Threshold(source, cfg) then [j] else []
  {
    assert picks[..c + 1][..c] == picks[..c] && us[..c + 1][..c] == us[..c];
  }

  /**
   * Draws below p_infect_IA are hits for every source: if every attempt's
   * contact is in S and its draw is below both probabilities, a source makes
   * exactly one hit per attempt, whichever of IA and IS it is.
   */
  lemma {:induction false} AllHit(states: seq<int>, source: int, neighbors: seq<nat>, picks: seq<nat>,
                                  us: seq<Uniform>, cfg: ConfigSeiar)
    requires |us| == |picks|
    requires forall c :: 0 <= c < |picks| ==> picks[c] < |neighbors|
    requires forall c :: 0 <= c < |neighbors| ==> neighbors[c] < |states|
    requires forall c :: 0 <= c < |picks| ==> states[neighbors[picks[c]]] == S
    requires forall c :: 0 <= c < |us| ==> us[c] < cfg.pInfectIA && us[c] < cfg.pInfectIS
    ensures Attempts(states, source, neighbors, picks, us, cfg) == seq(|picks|, c requires 0 <= c < |picks| => neighbors[picks[c]])
  {
    if picks != [] {
      var last := |picks| - 1;
      AllHit(states, source, neighbors, picks[..last], us[..last], cfg);
    }
  }

  /** How many of the codes are infectious. */
  function NumInfectious(states: seq<int>): nat
  {
    if states == [] then 0
    else NumInfectious(states[..|states| - 1]) + (if Infectious(states[|states| - 1]) then 1 else 0)
  }

  /**
   * The newly exposed list after scanning agents 0 .. n-1: only infectious
   * agents with at least one neighbour contribute; every id is a neighbour
   * of such an agent and was in S; each contributes at most k ids, and an
   * id may repeat.
   */
  function Collected(states: seq<int>, graph: seq<seq<nat>>, picks: seq<seq<nat>>, us: seq<seq<Uniform>>,
                     cfg: ConfigSeiar, n: nat): (ids: seq<nat>)
    requires WellFormedGraph(graph, |states|) && WellFormedScanDraws(graph, picks, us, cfg.contactsPerDay)
    requires n <= |states|
    ensures forall id :: id in ids ==> id < |states| && states[id] == S
    ensures forall id :: id in ids ==> exists i :: 0 <= i < n && Infectious(states[i]) && id in graph[i]
    ensures |ids| <= NumInfectious(states[..n]) * cfg.contactsPerDay
  {
    if n == 0 then []
    else
      var before := Collected(states, graph, picks, us, cfg, n - 1);
      var i := n - 1;
      var mine := if Infectious(states[i]) && graph[i] != [] then Attempts(states, states[i], graph[i], picks[i], us[i], cfg) else [];
      assert states[..n][..i] == states[..i];
      assert NumInfectious(states[..n]) == NumInfectious(states[..i]) + (if Infectious(states[i]) then 1 else 0);
      MulStep(NumInfectious(states[..i]), cfg.contactsPerDay);
      before + mine
  }

  /** One more agent scanned: its contribution is appended. */
  lemma CollectedStep(states: seq<int>, graph: seq<seq<nat>>, picks: seq<seq<nat>>, us: seq<seq<Uniform>>,
                      cfg: ConfigSeiar, n: nat)
    requires WellFormedGraph(graph, |states|) && WellFormedScanDraws(graph, picks, us, cfg.contactsPerDay)
    requires n < |states|
    ensures Collected(states, graph, picks, us, cfg, n + 1)
            == Collected(states, graph, picks, us, cfg, n)
               + if Infectious(states[n]) && graph[n] != [] then Attempts(states, states[n], graph[n], picks[n], us[n], cfg) else []
  {
  }

  /**
   * Attempt c of agent i exposes `id`: agent i is infectious and has a
   * neighbour, the neighbour its c-th pick names is `id`, that neighbour is
   * in S, and the draw is below agent i's threshold.
   */
  predicate Exposing(states: seq<int>, graph: seq<seq<nat>>, picks: seq<seq<nat>>, us: seq<seq<Uniform>>,
                     cfg: ConfigSeiar, i: nat, c: nat, id: nat)
    requires WellFormedGraph(graph, |states|) && WellFormedScanDraws(graph, picks, us, cfg.contactsPerDay)
    requires i < |states| && c < cfg.contactsPerDay
  {
    && Infectious(states[i]) && graph[i] != []
    && graph[i][picks[i][c]] == id
    && states[graph[i][picks[i][c]]] == S
    && us[i][c] < Threshold(states[i], cfg)
  }

  /** Attempt c of a source hits: its contact is in S and the draw is below the source's threshold. */
  predicate Hit(states: seq<int>, source: int, neighbors: seq<nat>, picks: seq<nat>, us: seq<Uniform>,
                cfg: ConfigSeiar, c: nat)
    requires |us| == |picks| && c < |picks|
    requires forall c :: 0 <= c < |picks| ==> picks[c] < |neighbors|
    requires forall c :: 0 <= c < |neighbors| ==> neighbors[c] < |states|
  {
    states[neighbors[picks[c]]] == S && us[c] < Threshold(source, cfg)
  }

  /** Every id a source adds is the contact of one of its hits. */
  lemma {:induction false} AttemptsSound(states: seq<int>, source: int, neighbors: seq<nat>, picks: seq<nat>,
                                         us: seq<Uniform>, cfg: ConfigSeiar, id: nat)
    requires |us| == |picks|
    requires forall c :: 0 <= c < |picks| ==> picks[c] < |neighbors|
    requires forall c :: 0 <= c < |neighbors| ==> neighbors[c] < |states|
    requires id in Attempts(states, source, neighbors, picks, us, cfg)
    ensures exists c :: 0 <= c < |picks| && neighbors[picks[c]] == id && Hit(states, source, neighbors, picks, us, cfg, c)
  {
    var last := |picks| - 1;
    var front, ufront := picks[..last], us[..last];
    if id in Attempts(states, source, neighbors, front, ufront, cfg) {
      AttemptsSound(states, source, neighbors, front, ufront, cfg, id);
      var c :| 0 <= c < |front| && neighbors[front[c]] == id && Hit(states, source, neighbors, front, ufront, cfg, c);
      assert picks[c] == front[c] && us[c] == ufront[c];
      assert Hit(states, source, neighbors, picks, us, cfg, c);
    } else {
      assert neighbors[picks[last]] == id && Hit(states, source, neighbors, picks, us, cfg, last);
    }
  }

  /** The contact of every hit of a source is among the ids it adds. */
  lemma {:induction false} AttemptsComplete(states: seq<int>, source: int, neighbors: seq<nat>, picks: seq<nat>,
                                            us: seq<Uniform>, cfg: ConfigSeiar, c: nat)
    requires |us| == |picks| && c < |picks|
    requires forall c :: 0 <= c < |picks| ==> picks[c] < |neighbors|
    requires forall c :: 0 <= c < |neighbors| ==> neighbors[c] < |states|
    requires Hit(states, source, neighbors, picks, us, cfg, c)
    ensures neighbors[picks[c]] in Attempts(states, source, neighbors, picks, us, cfg)
  {
    var last := |picks| - 1;
    var front, ufront := picks[..last], us[..last];
    if c < last {
      assert front[c] == picks[c] && ufront[c] == us[c];
      assert Hit(states, source, neighbors, front, ufront, cfg, c);
      AttemptsComplete(states, source, neighbors, front, ufront, cfg, c);
    }
  }

  /** One source's attempts name exactly the contacts of its hits. */
  lemma AttemptsExactly(states: seq<int>, source: int, neighbors: seq<nat>, picks: seq<nat>,
                        us: seq<Uniform>, cfg: ConfigSeiar, id: nat)
    requires |us| == |picks|
    requires forall c :: 0 <= c < |picks| ==> picks[c] < |neighbors|
    requires forall c :: 0 <= c < |neighbors| ==> neighbors[c] < |states|
    ensures id in Attempts(states, source, neighbors, picks, us, cfg) <==>
              exists c :: 0 <= c < |picks| && neighbors[picks[c]] == id && Hit(states, source, neighbors, picks, us, cfg, c)
  {
    if id in Attempts(states, source, neighbors, picks, us, cfg) {
      AttemptsSound(states, source, neighbors, picks, us, cfg, id);
    }
    if exists c :: 0 <= c < |picks| && neighbors[picks[c]] == id && Hit(states, source, neighbors, picks, us, cfg, c) {
      var c :| 0 <= c < |picks| && neighbors[picks[c]] == id && Hit(states, source, neighbors, picks, us, cfg, c);
      AttemptsComplete(states, source, neighbors, picks, us, cfg, c);
    }
  }

  /** Every id the scan of agents 0 .. n-1 collects comes from an exposing attempt. */
  lemma {:induction false} CollectedSound(states: seq<int>, graph: seq<seq<nat>>, picks: seq<seq<nat>>,
                                          us: seq<seq<Uniform>>, cfg: ConfigSeiar, n: nat, id: nat)
    requires WellFormedGraph(graph, |states|) && WellFormedScanDraws(graph, picks, us, cfg.contactsPerDay)
    requires n <= |states| && id in Collected(states, graph, picks, us, cfg, n)
    ensures exists i, c :: 0 <= i < n && 0 <= c < cfg.contactsPerDay && Exposing(states, graph, picks, us, cfg, i, c, id)
  {
    var i := n - 1;
    CollectedStep(states, graph, picks, us, cfg, i);
    if id in Collected(states, graph, picks, us, cfg, i) {
      CollectedSound(states, graph, picks, us, cfg, i, id);
      var i', c :| 0 <= i' < i && 0 <= c < cfg.contactsPerDay && Exposing(states, graph, picks, us, cfg, i', c, id);
      assert Exposing(states, graph, picks, us, cfg, i', c, id);
    } else {
      assert Infectious(states[i]) && graph[i] != [];
      AttemptsSound(states, states[i], graph[i], picks[i], us[i], cfg, id);
      var c :| 0 <= c < |picks[i]| && graph[i][picks[i][c]] == id && Hit(states, states[i], graph[i], picks[i], us[i], cfg, c);
      assert Exposing(states, graph, picks, us, cfg, i, c, id);
    }
  }

  /** The list after agents 0 .. n-1 is the list after agents 0 .. n-2 followed by agent n - 1's ids. */
  lemma CollectedSplit(states: seq<int>, graph: seq<seq<nat>>, picks: seq<seq<nat>>, us: seq<seq<Uniform>>,
                       cfg: ConfigSeiar, n: nat)
    requires WellFormedGraph(graph, |states|) && WellFormedScanDraws(graph, picks, us, cfg.contactsPerDay)
    requires 0 < n <= |states|
    ensures Collected(states, graph, picks, us, cfg, n)
            == Collected(states, graph, picks, us, cfg, n - 1)
               + if Infectious(states[n - 1]) && graph[n - 1] != []
                 then Attempts(states, states[n - 1], graph[n - 1], picks[n - 1], us[n - 1], cfg) else []
  {
  }

  /** Scanning agent n - 1 keeps everything collected from agents 0 .. n-2. */
  lemma CollectedGrows(states: seq<int>, graph: seq<seq<nat>>, picks: seq<seq<nat>>, us: seq<seq<Uniform>>,
                       cfg: ConfigSeiar, n: nat, id: nat)
    requires WellFormedGraph(graph, |states|) && WellFormedScanDraws(graph, picks, us, cfg.contactsPerDay)
    requires 0 < n <= |states| && id in Collected(states, graph, picks, us, cfg, n - 1)
    ensures id in Collected(states, graph, picks, us, cfg, n)
  {
    CollectedSplit(states, graph, picks, us, cfg, n);
  }

  /** An exposing attempt of agent n - 1 puts its contact in the list once agents 0 .. n-1 are scanned. */
  lemma CollectedLast(states: seq<int>, graph: seq<seq<nat>>, picks: seq<seq<nat>>, us: seq<seq<Uniform>>,
                      cfg: ConfigSeiar, n: nat, c: nat, id: nat)
    requires WellFormedGraph(graph, |states|) && WellFormedScanDraws(graph, picks, us, cfg.contactsPerDay)
    requires 0 < n <= |states| && c < cfg.contactsPerDay && Exposing(states, graph, picks, us, cfg, n - 1, c, id)
    ensures id in Collected(states, graph, picks, us, cfg, n)
  {
    CollectedSplit(states, graph, picks, us, cfg, n);
    assert Hit(states, states[n - 1], graph[n - 1], picks[n - 1], us[n - 1], cfg, c);
    AttemptsComplete(states, states[n - 1], graph[n - 1], picks[n - 1], us[n - 1], cfg, c);
  }

  /** Every exposing attempt of agents 0 .. n-1 puts its contact in the collected list. */
  lemma {:induction false} CollectedComplete(states: seq<int>, graph: seq<seq<nat>>, picks: seq<seq<nat>>,
                                             us: seq<seq<Uniform>>, cfg: ConfigSeiar, n: nat)
    requires WellFormedGraph(graph, |states|) && WellFormedScanDraws(graph, picks, us, cfg.contactsPerDay)
    requires n <= |states|
    ensures forall i, c, id :: 0 <= i < n && 0 <= c < cfg.contactsPerDay && Exposing(states, graph, picks, us, cfg, i, c, id) ==>
              id in Collected(states, graph, picks, us, cfg, n)
  {
    if n > 0 {
      CollectedComplete(states, graph, picks, us, cfg, n - 1);
      forall i, c, id | 0 <= i < n && 0 <= c < cfg.contactsPerDay && Exposing(states, graph, picks, us, cfg, i, c, id)
        ensures id in Collected(states, graph, picks, us, cfg, n)
      {
        if i == n - 1 {
          CollectedLast(states, graph, picks, us, cfg, n, c, id);
        } else {
          CollectedGrows(states, graph, picks, us, cfg, n, id);
        }
      }
    }
  }

  /**
   * The scan of agents 0 .. n-1 is sound and complete: an id is collected
   * exactly when some attempt of one of those agents exposes it.
   */
  lemma CollectedExactly(states: seq<int>, graph: seq<seq<nat>>, picks: seq<seq<nat>>, us: seq<seq<Uniform>>,
                         cfg: ConfigSeiar, n: nat, id: nat)
    requires WellFormedGraph(graph, |states|) && WellFormedScanDraws(graph, picks, us, cfg.contactsPerDay)
    requires n <= |states|
    ensures id in Collected(states, graph, picks, us, cfg, n) <==>
              exists i, c :: 0 <= i < n && 0 <= c < cfg.contactsPerDay && Exposing(states, graph, picks, us, cfg, i, c, id)
  {
    if id in Collected(states, graph, picks, us, cfg, n) {
      CollectedSound(states, graph, picks, us, cfg, n, id);
    }
    if exists i, c :: 0 <= i < n && 0 <= c < cfg.contactsPerDay && Exposing(states, graph, picks, us, cfg, i, c, id) {
      CollectedComplete(states, graph, picks, us, cfg, n);
    }
  }

  /** With nobody infectious, the scan finds nobody. */
  lemma {:induction false} NoSourceNoExposure(states: seq<int>, graph: seq<seq<nat>>, picks: seq<seq<nat>>,
                                              us: seq<seq<Uniform>>, cfg: ConfigSeiar, n: nat)
    requires WellFormedGraph(graph, |states|) && WellFormedScanDraws(graph, picks, us, cfg.contactsPerDay)
    requires n <= |states|
    requires forall i :: 0 <= i < |states| ==> !Infectious(states[i])
    ensures Collected(states, graph, picks, us, cfg, n) == []
  {
    if n > 0 {
      NoSourceNoExposure(states, graph, picks, us, cfg, n - 1);
    }
  }

  /** Every recorded day's six counts add up to N. */
  lemma RecordedSumsToN(n: nat, history: map<string, seq<nat>>, historyStates: seq<seq<int>>, t: nat)
    requires Recorded(Codes, 6, n, history, historyStates) && t < |historyStates|
    ensures history["S"][t] + history["E"][t] + history["IA"][t] + history["IS"][t] + history["R"][t] + history["D"][t] == n
  {
    var states := historyStates[t];
    SixCodes(states);
    assert Codes["S"] == S && Codes["E"] == E && Codes["IA"] == IA && Codes["IS"] == IS;
    assert Codes["R"] == R && Codes["D"] == D;
  }

  class AbmNetworkSeiar {
    const cfg: ConfigSeiar
    const agents: array<int>
    const graph: seq<seq<nat>>
    var history: map<string, seq<nat>>
    var historyStates: seq<seq<int>>
    var day: int

    /** One valid code per individual, a graph over them, and a history that agrees with the recorded lists. */
    ghost predicate Valid()
      reads this, agents
    {
      && agents.Length == cfg.n
      && (forall i :: 0 <= i < agents.Length ==> ValidState(agents[i]))
      && WellFormedGraph(graph, cfg.n)
      && Recorded(Codes, 6, cfg.n, history, historyStates)
    }

    /**
     * N agents, exactly the I0 distinct sampled ones in E and the other
     * N - I0 in S; the six history lists and the state history empty, day 0.
     */
    constructor(cfg: ConfigSeiar, graph: seq<seq<nat>>, initialExposed: seq<nat>)
      requires |initialExposed| == cfg.i0 && Distinct(initialExposed)
      requires forall id :: id in initialExposed ==> id < cfg.n
      requires WellFormedGraph(graph, cfg.n)
      ensures Valid() && this.cfg == cfg && this.graph == graph && fresh(agents)
      ensures forall i :: 0 <= i < cfg.n ==> agents[i] == if i in initialExposed then E else S
      ensures Count(agents[..], E) == cfg.i0 && Count(agents[..], S) == cfg.n - cfg.i0
      ensures history == Empty(Codes) && historyStates == [] && day == 0
    {
      var population := new int[cfg.n](_ => S);
      for k := 0 to |initialExposed|
        invariant forall i :: 0 <= i < cfg.n ==> population[i] == if i in initialExposed[..k] then E else S
      {
        var idx := initialExposed[k];
        assert initialExposed[..k + 1] == initialExposed[..k] + [idx];
        assert idx in initialExposed;
        population[idx] := E;
      }
      assert initialExposed[..|initialExposed|] == initialExposed;
      this.cfg := cfg;
      this.graph := graph;
      agents := population;
      history := Empty(Codes);
      historyStates := [];
      day := 0;
      new;
      PickedCounts(agents[..], initialExposed);
    }

    /**
     * _collect_infections: reads the agents only and returns the newly
     * exposed ids Collected describes for cfg.contacts_per_day.
     */
    method CollectInfections(picks: seq<seq<nat>>, us: seq<seq<Uniform>>) returns (newlyExposed: seq<nat>)
      requires agents.Length == cfg.n && WellFormedGraph(graph, cfg.n)
      requires WellFormedScanDraws(graph, picks, us, cfg.contactsPerDay)
      ensures newlyExposed == Collected(agents[..], graph, picks, us, cfg, cfg.n)
    {
      ghost var states := agents[..];
      newlyExposed := [];
      for i := 0 to agents.Length
        invariant newlyExposed == Collected(states, graph, picks, us, cfg, i)
      {
        var found := ScanAgent(i, picks[i], us[i]);
        CollectedStep(states, graph, picks, us, cfg, i);
        newlyExposed := newlyExposed + found;
      }
    }

    /** One agent of the scan: nothing unless it is infectious and has neighbours, else its attempts. */
    method ScanAgent(i: nat, picks: seq<nat>, us: seq<Uniform>) returns (found: seq<nat>)
      requires i < agents.Length && WellFormedGraph(graph, agents.Length)
      requires |picks| == |us| && (graph[i] != [] ==> forall c :: 0 <= c < |picks| ==> picks[c] < |graph[i]|)
      ensures found == if Infectious(agents[i]) && graph[i] != [] then Attempts(agents[..], agents[i], graph[i], picks, us, cfg) else []
    {
      var agent := agents[i];
      if !Infectious(agent) {
        return [];
      }
      var neighbors := graph[i];
      if neighbors == [] {
        return [];
      }
      found := AttemptContacts(agent, neighbors, picks, us);
    }

    /** The inner loop of the scan: one infectious agent's contacts, drawn from its neighbours. */
    method AttemptContacts(agent: int, neighbors: seq<nat>, picks: seq<nat>, us: seq<Uniform>) returns (found: seq<nat>)
      requires |us| == |picks|
      requires forall c :: 0 <= c < |picks| ==> picks[c] < |neighbors|
      requires forall c :: 0 <= c < |neighbors| ==> neighbors[c] < agents.Length
      ensures found == Attempts(agents[..], agent, neighbors, picks, us, cfg)
    {
      ghost var states := agents[..];
      found := [];
      for c := 0 to |picks|
        invariant found == Attempts(states, agent, neighbors, picks[..c], us[..c], cfg)
      {
        var j := neighbors[picks[c]];
        var target := agents[j];
        AttemptsStep(states, agent, neighbors, picks, us, cfg, c);
        if target == S {
          var p := if agent == IS then cfg.pInfectIS else cfg.pInfectIA;
          if us[c] < p {
            found := found + [j];
          }
        }
      }
      assert picks[..|picks|] == picks && us[..|us|] == us;
    }

    /**
     * _log_states: appends the count of each code to its history list and
     * the full state list to history_states; nothing else changes.
     */
    method LogStates()
      requires Valid()
      modifies this
      ensures Valid()
      ensures historyStates == old(historyStates) + [agents[..]]
      ensures history == Logged(Codes, old(history), agents[..])
      ensures day == old(day)
    {
      var states := agents[..];
      LogKeepsRecorded(Codes, 6, cfg.n, history, historyStates, states);
      history := Logged(Codes, history, states);
      historyStates := historyStates + [states];
    }
  }
}
