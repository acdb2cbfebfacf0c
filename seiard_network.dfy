/**
 * The network SEIAR-D engine's own phases (src/seiard/abm_network_seiard.py):
 * construction, the termination test, the mask- and vaccination-aware
 * infection scan over the contact graph, and the logging of the per-state
 * counts and the full state list.
 *
 * The day loop and the construction of the graph belong to the ABMNetwork
 * base class, which is not part of this model; the graph is given as an
 * adjacency list. random.sample is supplied as the seeded indices,
 * random.choices as positions in an agent's neighbour list, and each
 * attempt's random.random() as a Uniform.
 */
module SeiardNetwork {
  import opened Common
  import opened SeiardAgent
  import opened History
  import opened Interventions
  import opened Graph

  /** The history keys and the state code each one counts. */
  const Codes: map<string, int> := map["S" := S, "E" := E, "IA" := IA, "IS" := IS, "R" := R, "D" := D]

  /** One of the six SEIAR-D codes. */
  predicate ValidState(state: int)
  {
    0 <= state < 6
  }

  /** Every recorded day's six counts add up to N. */
  lemma RecordedSumsToN(n: nat, history: map<string, seq<nat>>, historyStates: seq<seq<int>>, t: nat)
    requires Recorded(Codes, 6, n, history, historyStates) && t < |historyStates|
    ensures history["S"][t] + history["E"][t] + history["IA"][t] + history["IS"][t] + history["R"][t] + history["D"][t] == n
  {
    var states := historyStates[t];
    SixCodes(states);
    assert Codes["S"] == S && Codes["E"] == E && Codes["IA"] == IA && Codes["IS"] == IS;
    assert Codes["R"] == R && Codes["D"] == D;
  }

  /** any(state in [E, IA, IS]): some agent is exposed or infectious. */
  function AnyActive(states: seq<int>): (b: bool)
    ensures b <==> exists i :: 0 <= i < |states| && Timed(states[i])
  {
    if states == [] then false
    else AnyActive(states[..|states| - 1]) || Timed(states[|states| - 1])
  }

  /** What the infection scan reads of an agent. */
  datatype Snap = Snap(state: int, maskEff: real, vaccinated: bool)

  /** p_infect_IS for a symptomatic source, p_infect_IA for any other. */
  function BaseProbability(state: int, cfg: ConfigSeiard): real
  {
    if state == IS then cfg.pInfectIS else cfg.pInfectIA
  }

  /** The transmission probability of a source: its base probability scaled by 1 - mask_eff. */
  function Threshold(source: Snap, cfg: ConfigSeiard): real
  {
    BaseProbability(source.state, cfg) * (1.0 - source.maskEff)
  }

  /**
   * The ids one infectious source adds, in attempt order: the contacted
   * neighbours that are susceptible and not vaccinated and whose draw falls
   * below the source's threshold. At most one per attempt.
   */
  function Attempts(snaps: seq<Snap>, source: Snap, neighbors: seq<nat>, picks: seq<nat>, us: seq<Uniform>,
                    cfg: ConfigSeiard): (ids: seq<nat>)
    requires |us| == |picks|
    requires forall c :: 0 <= c < |picks| ==> picks[c] < |neighbors|
    requires forall c :: 0 <= c < |neighbors| ==> neighbors[c] < |snaps|
    ensures |ids| <= |picks|
    ensures forall id :: id in ids ==> id in neighbors && snaps[id].state == S && !snaps[id].vaccinated
  {
    if picks == [] then []
    else
      var last := |picks| - 1;
      var j := neighbors[picks[last]];
      Attempts(snaps, source, neighbors, picks[..last], us[..last], cfg)
        + (if snaps[j].state == S && !snaps[j].vaccinated && us[last] < Threshold(source, cfg) then [j] else [])
  }

  /** One more attempt: its id is appended when the contact is susceptible, not vaccinated and the draw is low enough. */
  lemma AttemptsStep(snaps: seq<Snap>, source: Snap, neighbors: seq<nat>, picks: seq<nat>, us: seq<Uniform>,
                     cfg: ConfigSeiard, c: nat)
    requires |us| == |picks| && c < |picks|
    requires forall c :: 0 <= c < |picks| ==> picks[c] < |neighbors|
    requires forall c :: 0 <= c < |neighbors| ==> neighbors[c] < |snaps|
    ensures var j := neighbors[picks[c]];
            Attempts(snaps, source, neighbors, picks[..c + 1], us[..c + 1], cfg)
            == Attempts(snaps, source, neighbors, picks[..c], us[..c], cfg)
               + if snaps[j].state == S && !snaps[j].vaccinated && us[c] < Threshold(source, cfg) then [j] else []
  {
    assert picks[..c + 1][..c] == picks[..c] && us[..c + 1][..c] == us[..c];
  }

  /** A source whose mask is fully effective infects nobody. */
  lemma {:induction false} FullMaskAddsNothing(snaps: seq<Snap>, source: Snap, neighbors: seq<nat>, picks: seq<nat>,
                                               us: seq<Uniform>, cfg: ConfigSeiard)
    requires |us| == |picks|
    requires forall c :: 0 <= c < |picks| ==> picks[c] < |neighbors|
    requires forall c :: 0 <= c < |neighbors| ==> neighbors[c] < |snaps|
    requires source.maskEff == 1.0
    ensures Attempts(snaps, source, neighbors, picks, us, cfg) == []
  {
    if picks != [] {
      var last := |picks| - 1;
      FullMaskAddsNothing(snaps, source, neighbors, picks[..last], us[..last], cfg);
      assert Threshold(source, cfg) == 0.0;
    }
  }

  /**
   * Every attempt on a susceptible, unvaccinated contact whose draw is below
   * the source's threshold is a hit: the source then adds exactly the
   * contacted neighbours, one per attempt, repeats included.
   */
  lemma {:induction false} AllHit(snaps: seq<Snap>, source: Snap, neighbors: seq<nat>, picks: seq<nat>,
                                  us: seq<Uniform>, cfg: ConfigSeiard)
    requires |us| == |picks|
    requires forall c :: 0 <= c < |picks| ==> picks[c] < |neighbors|
    requires forall c :: 0 <= c < |neighbors| ==> neighbors[c] < |snaps|
    requires forall c :: 0 <= c < |picks| ==> snaps[neighbors[picks[c]]].state == S && !snaps[neighbors[picks[c]]].vaccinated
    requires forall c :: 0 <= c < |us| ==> us[c] < Threshold(source, cfg)
    ensures Attempts(snaps, source, neighbors, picks, us, cfg) == seq(|picks|, c requires 0 <= c < |picks| => neighbors[picks[c]])
  {
    if picks != [] {
      var last := |picks| - 1;
      AllHit(snaps, source, neighbors, picks[..last], us[..last], cfg);
    }
  }

  /** How many of the agents are infectious (IA or IS). */
  function NumInfectious(snaps: seq<Snap>): nat
  {
    if snaps == [] then 0
    else NumInfectious(snaps[..|snaps| - 1]) + (if Infectious(snaps[|snaps| - 1].state) then 1 else 0)
  }

  /**
   * The newly exposed list after scanning agents 0 .. n-1: only infectious
   * agents with at least one neighbour contribute; every id is a neighbour
   * of such an agent and was susceptible and not vaccinated; each
   * contributes at most k ids, and an id may repeat.
   */
  function Collected(snaps: seq<Snap>, graph: seq<seq<nat>>, picks: seq<seq<nat>>, us: seq<seq<Uniform>>,
                     cfg: ConfigSeiard, k: nat, n: nat): (ids: seq<nat>)
    requires WellFormedGraph(graph, |snaps|) && WellFormedScanDraws(graph, picks, us, k) && n <= |snaps|
    ensures forall id :: id in ids ==> id < |snaps| && snaps[id].state == S && !snaps[id].vaccinated
    ensures forall id :: id in ids ==> exists i :: 0 <= i < n && Infectious(snaps[i].state) && id in graph[i]
    ensures |ids| <= NumInfectious(snaps[..n]) * k
  {
    if n == 0 then []
    else
      var before := Collected(snaps, graph, picks, us, cfg, k, n - 1);
      var i := n - 1;
      var mine := if Infectious(snaps[i].state) && graph[i] != [] then Attempts(snaps, snaps[i], graph[i], picks[i], us[i], cfg) else [];
      assert snaps[..n][..i] == snaps[..i];
      assert NumInfectious(snaps[..n]) == NumInfectious(snaps[..i]) + (if Infectious(snaps[i].state) then 1 else 0);
      MulStep(NumInfectious(snaps[..i]), k);
      before + mine
  }

  /** One more agent scanned: its contribution is appended. */
  lemma CollectedStep(snaps: seq<Snap>, graph: seq<seq<nat>>, picks: seq<seq<nat>>, us: seq<seq<Uniform>>,
                      cfg: ConfigSeiard, k: nat, n: nat)
    requires WellFormedGraph(graph, |snaps|) && WellFormedScanDraws(graph, picks, us, k) && n < |snaps|
    ensures Collected(snaps, graph, picks, us, cfg, k, n + 1)
            == Collected(snaps, graph, picks, us, cfg, k, n)
               + if Infectious(snaps[n].state) && graph[n] != [] then Attempts(snaps, snaps[n], graph[n], picks[n], us[n], cfg) else []
  {
  }

  /**
   * Attempt c of agent i exposes `id`: agent i is infectious and has a
   * neighbour, the neighbour its c-th pick names is `id`, that neighbour is
   * susceptible and not vaccinated, and the draw is below agent i's
   * mask-scaled threshold.
   */
  predicate Exposing(snaps: seq<Snap>, graph: seq<seq<nat>>, picks: seq<seq<nat>>, us: seq<seq<Uniform>>,
                     cfg: ConfigSeiard, k: nat, i: nat, c: nat, id: nat)
    requires WellFormedGraph(graph, |snaps|) && WellFormedScanDraws(graph, picks, us, k)
    requires i < |snaps| && c < k
  {
    && Infectious(snaps[i].state) && graph[i] != []
    && graph[i][picks[i][c]] == id
    && snaps[graph[i][picks[i][c]]].state == S && !snaps[graph[i][picks[i][c]]].vaccinated
    && us[i][c] < Threshold(snaps[i], cfg)
  }

  /** Attempt c of a source hits: its contact is susceptible, not vaccinated, and the draw is below the threshold. */
  predicate Hit(snaps: seq<Snap>, source: Snap, neighbors: seq<nat>, picks: seq<nat>, us: seq<Uniform>,
                cfg: ConfigSeiard, c: nat)
    requires |us| == |picks| && c < |picks|
    requires forall c :: 0 <= c < |picks| ==> picks[c] < |neighbors|
    requires forall c :: 0 <= c < |neighbors| ==> neighbors[c] < |snaps|
  {
    snaps[neighbors[picks[c]]].state == S && !snaps[neighbors[picks[c]]].vaccinated && us[c] < Threshold(source, cfg)
  }

  /** Every id a source adds is the contact of one of its hits. */
  lemma {:induction false} AttemptsSound(snaps: seq<Snap>, source: Snap, neighbors: seq<nat>, picks: seq<nat>,
                                         us: seq<Uniform>, cfg: ConfigSeiard, id: nat)
    requires |us| == |picks|
    requires forall c :: 0 <= c < |picks| ==> picks[c] < |neighbors|
    requires forall c :: 0 <= c < |neighbors| ==> neighbors[c] < |snaps|
    requires id in Attempts(snaps, source, neighbors, picks, us, cfg)
    ensures exists c :: 0 <= c < |picks| && neighbors[picks[c]] == id && Hit(snaps, source, neighbors, picks, us, cfg, c)
  {
    var last := |picks| - 1;
    var front, ufront := picks[..last], us[..last];
    if id in Attempts(snaps, source, neighbors, front, ufront, cfg) {
      AttemptsSound(snaps, source, neighbors, front, ufront, cfg, id);
      var c :| 0 <= c < |front| && neighbors[front[c]] == id && Hit(snaps, source, neighbors, front, ufront, cfg, c);
      assert picks[c] == front[c] && us[c] == ufront[c];
      assert Hit(snaps, source, neighbors, picks, us, cfg, c);
    } else {
      assert neighbors[picks[last]] == id && Hit(snaps, source, neighbors, picks, us, cfg, last);
    }
  }

  /** The contact of every hit of a source is among the ids it adds. */
  lemma {:induction false} AttemptsComplete(snaps: seq<Snap>, source: Snap, neighbors: seq<nat>, picks: seq<nat>,
                                            us: seq<Uniform>, cfg: ConfigSeiard, c: nat)
    requires |us| == |picks| && c < |picks|
    requires forall c :: 0 <= c < |picks| ==> picks[c] < |neighbors|
    requires forall c :: 0 <= c < |neighbors| ==> neighbors[c] < |snaps|
    requires Hit(snaps, source, neighbors, picks, us, cfg, c)
    ensures neighbors[picks[c]] in Attempts(snaps, source, neighbors, picks, us, cfg)
  {
    var last := |picks| - 1;
    var front, ufront := picks[..last], us[..last];
    if c < last {
      assert front[c] == picks[c] && ufront[c] == us[c];
      assert Hit(snaps, source, neighbors, front, ufront, cfg, c);
      AttemptsComplete(snaps, source, neighbors, front, ufront, cfg, c);
    }
  }

  /** One source's attempts name exactly the contacts of its hits. */
  lemma AttemptsExactly(snaps: seq<Snap>, source: Snap, neighbors: seq<nat>, picks: seq<nat>,
                        us: seq<Uniform>, cfg: ConfigSeiard, id: nat)
    requires |us| == |picks|
    requires forall c :: 0 <= c < |picks| ==> picks[c] < |neighbors|
    requires forall c :: 0 <= c < |neighbors| ==> neighbors[c] < |snaps|
    ensures id in Attempts(snaps, source, neighbors, picks, us, cfg) <==>
              exists c :: 0 <= c < |picks| && neighbors[picks[c]] == id && Hit(snaps, source, neighbors, picks, us, cfg, c)
  {
    if id in Attempts(snaps, source, neighbors, picks, us, cfg) {
      AttemptsSound(snaps, source, neighbors, picks, us, cfg, id);
    }
    if exists c :: 0 <= c < |picks| && neighbors[picks[c]] == id && Hit(snaps, source, neighbors, picks, us, cfg, c) {
      var c :| 0 <= c < |picks| && neighbors[picks[c]] == id && Hit(snaps, source, neighbors, picks, us, cfg, c);
      AttemptsComplete(snaps, source, neighbors, picks, us, cfg, c);
    }
  }

  /** Every id the scan of agents 0 .. n-1 collects comes from an exposing attempt. */
  lemma {:induction false} CollectedSound(snaps: seq<Snap>, graph: seq<seq<nat>>, picks: seq<seq<nat>>,
                                          us: seq<seq<Uniform>>, cfg: ConfigSeiard, k: nat, n: nat, id: nat)
    requires WellFormedGraph(graph, |snaps|) && WellFormedScanDraws(graph, picks, us, k)
    requires n <= |snaps| && id in Collected(snaps, graph, picks, us, cfg, k, n)
    ensures exists i, c :: 0 <= i < n && 0 <= c < k && Exposing(snaps, graph, picks, us, cfg, k, i, c, id)
  {
    var i := n - 1;
    CollectedStep(snaps, graph, picks, us, cfg, k, i);
    if id in Collected(snaps, graph, picks, us, cfg, k, i) {
      CollectedSound(snaps, graph, picks, us, cfg, k, i, id);
      var i', c :| 0 <= i' < i && 0 <= c < k && Exposing(snaps, graph, picks, us, cfg, k, i', c, id);
      assert Exposing(snaps, graph, picks, us, cfg, k, i', c, id);
    } else {
      assert Infectious(snaps[i].state) && graph[i] != [];
      AttemptsSound(snaps, snaps[i], graph[i], picks[i], us[i], cfg, id);
      var c :| 0 <= c < |picks[i]| && graph[i][picks[i][c]] == id && Hit(snaps, snaps[i], graph[i], picks[i], us[i], cfg, c);
      assert Exposing(snaps, graph, picks, us, cfg, k, i, c, id);
    }
  }

  /** The list after agents 0 .. n-1 is the list after agents 0 .. n-2 followed by agent n - 1's ids. */
  lemma CollectedSplit(snaps: seq<Snap>, graph: seq<seq<nat>>, picks: seq<seq<nat>>, us: seq<seq<Uniform>>,
                       cfg: ConfigSeiard, k: nat, n: nat)
    requires WellFormedGraph(graph, |snaps|) && WellFormedScanDraws(graph, picks, us, k) && 0 < n <= |snaps|
    ensures Collected(snaps, graph, picks, us, cfg, k, n)
            == Collected(snaps, graph, picks, us, cfg, k, n - 1)
               + if Infectious(snaps[n - 1].state) && graph[n - 1] != []
                 then Attempts(snaps, snaps[n - 1], graph[n - 1], picks[n - 1], us[n - 1], cfg) else []
  {
  }

  /** Scanning agent n - 1 keeps everything collected from agents 0 .. n-2. */
  lemma CollectedGrows(snaps: seq<Snap>, graph: seq<seq<nat>>, picks: seq<seq<nat>>, us: seq<seq<Uniform>>,
                       cfg: ConfigSeiard, k: nat, n: nat, id: nat)
    requires WellFormedGraph(graph, |snaps|) && WellFormedScanDraws(graph, picks, us, k) && 0 < n <= |snaps|
    requires id in Collected(snaps, graph, picks, us, cfg, k, n - 1)
    ensures id in Collected(snaps, graph, picks, us, cfg, k, n)
  {
    CollectedSplit(snaps, graph, picks, us, cfg, k, n);
  }

  /** An exposing attempt of agent n - 1 puts its contact in the list once agents 0 .. n-1 are scanned. */
  lemma CollectedLast(snaps: seq<Snap>, graph: seq<seq<nat>>, picks: seq<seq<nat>>, us: seq<seq<Uniform>>,
                      cfg: ConfigSeiard, k: nat, n: nat, c: nat, id: nat)
    requires WellFormedGraph(graph, |snaps|) && WellFormedScanDraws(graph, picks, us, k) && 0 < n <= |snaps|
    requires c < k && Exposing(snaps, graph, picks, us, cfg, k, n - 1, c, id)
    ensures id in Collected(snaps, graph, picks, us, cfg, k, n)
  {
    CollectedSplit(snaps, graph, picks, us, cfg, k, n);
    assert Hit(snaps, snaps[n - 1], graph[n - 1], picks[n - 1], us[n - 1], cfg, c);
    AttemptsComplete(snaps, snaps[n - 1], graph[n - 1], picks[n - 1], us[n - 1], cfg, c);
  }

  /** Every exposing attempt of agents 0 .. n-1 puts its contact in the collected list. */
  lemma {:induction false} CollectedComplete(snaps: seq<Snap>, graph: seq<seq<nat>>, picks: seq<seq<nat>>,
                                             us: seq<seq<Uniform>>, cfg: ConfigSeiard, k: nat, n: nat)
    requires WellFormedGraph(graph, |snaps|) && WellFormedScanDraws(graph, picks, us, k) && n <= |snaps|
    ensures forall i, c, id :: 0 <= i < n && 0 <= c < k && Exposing(snaps, graph, picks, us, cfg, k, i, c, id) ==>
              id in Collected(snaps, graph, picks, us, cfg, k, n)
  {
    if n > 0 {
      CollectedComplete(snaps, graph, picks, us, cfg, k, n - 1);
      forall i, c, id | 0 <= i < n && 0 <= c < k && Exposing(snaps, graph, picks, us, cfg, k, i, c, id)
        ensures id in Collected(snaps, graph, picks, us, cfg, k, n)
      {
        if i == n - 1 {
          CollectedLast(snaps, graph, picks, us, cfg, k, n, c, id);
        } else {
          CollectedGrows(snaps, graph, picks, us, cfg, k, n, id);
        }
      }
    }
  }

  /**
   * The scan of agents 0 .. n-1 is sound and complete: an id is collected
   * exactly when some attempt of one of those agents exposes it.
   */
  lemma CollectedExactly(snaps: seq<Snap>, graph: seq<seq<nat>>, picks: seq<seq<nat>>, us: seq<seq<Uniform>>,
                         cfg: ConfigSeiard, k: nat, n: nat, id: nat)
    requires WellFormedGraph(graph, |snaps|) && WellFormedScanDraws(graph, picks, us, k) && n <= |snaps|
    ensures id in Collected(snaps, graph, picks, us, cfg, k, n) <==>
              exists i, c :: 0 <= i < n && 0 <= c < k && Exposing(snaps, graph, picks, us, cfg, k, i, c, id)
  {
    if id in Collected(snaps, graph, picks, us, cfg, k, n) {
      CollectedSound(snaps, graph, picks, us, cfg, k, n, id);
    }
    if exists i, c :: 0 <= i < n && 0 <= c < k && Exposing(snaps, graph, picks, us, cfg, k, i, c, id) {
      CollectedComplete(snaps, graph, picks, us, cfg, k, n);
    }
  }

  /** The N fresh agents of construction, the sampled indices put in E (their timer stays 0). */
  method Population(cfg: ConfigSeiard, initialExposed: seq<nat>) returns (agents: seq<AgentSeiard>)
    requires forall id :: id in initialExposed ==> id < cfg.n
    ensures |agents| == cfg.n
    ensures forall i :: 0 <= i < cfg.n ==>
              fresh(agents[i]) && agents[i].params == cfg && agents[i].maskEff == 0.0 && agents[i].ageGroup == "adult"
    ensures forall i, j :: 0 <= i < j < cfg.n ==> agents[i] != agents[j]
    ensures forall i :: 0 <= i < cfg.n ==> agents[i].Current() == Status(if i in initialExposed then E else S, 0)
  {
    agents := [];
    for k := 0 to cfg.n
      invariant |agents| == k
      invariant forall i :: 0 <= i < k ==>
                  fresh(agents[i]) && agents[i].params == cfg && agents[i].maskEff == 0.0 && agents[i].ageGroup == "adult"
      invariant forall i, j :: 0 <= i < j < k ==> agents[i] != agents[j]
      invariant forall i :: 0 <= i < k ==> agents[i].Current() == Status(S, 0)
    {
      var a := new AgentSeiard(cfg);
      agents := agents + [a];
    }
    for k := 0 to |initialExposed|
      invariant forall i :: 0 <= i < cfg.n ==>
                  agents[i].Current() == Status(if i in initialExposed[..k] then E else S, 0)
                  && agents[i].maskEff == 0.0 && agents[i].ageGroup == "adult"
    {
      var idx := initialExposed[k];
      assert initialExposed[..k + 1] == initialExposed[..k] + [idx];
      assert idx in initialExposed;
      agents[idx].state := E;
    }
    assert initialExposed[..|initialExposed|] == initialExposed;
  }

  class AbmNetworkSeiard {
    const cfg: ConfigSeiard
    const agents: seq<AgentSeiard>
    const graph: seq<seq<nat>>
    const interventions: InterventionManager
    var history: map<string, seq<nat>>
    var historyStates: seq<seq<int>>
    var day: int
    var finished: bool
    var currentContactsPerDay: nat

    /**
     * One distinct agent per individual, each with a valid code, a graph over
     * them, and a history that agrees with the recorded lists.
     */
    ghost predicate Valid()
      reads this, agents
    {
      AgentsValid() && Recorded(Codes, 6, cfg.n, history, historyStates)
    }

    /** The agents and the graph part of Valid, which the history does not touch. */
    ghost predicate AgentsValid()
      reads agents
    {
      && |agents| == cfg.n
      && Distinct(agents)
      && (forall i :: 0 <= i < |agents| ==> ValidState(agents[i].state))
      && WellFormedGraph(graph, cfg.n)
    }

    function States(): (states: seq<int>)
      reads agents
      ensures |states| == |agents|
      ensures forall i :: 0 <= i < |agents| ==> states[i] == agents[i].state
    {
      seq(|agents|, i requires 0 <= i < |agents| reads agents => agents[i].state)
    }

    function Snaps(): (snaps: seq<Snap>)
      reads agents
      ensures |snaps| == |agents|
      ensures forall i :: 0 <= i < |agents| ==>
                snaps[i] == Snap(agents[i].state, agents[i].maskEff, agents[i].vaccinated)
    {
      seq(|agents|, i requires 0 <= i < |agents| reads agents =>
        Snap(agents[i].state, agents[i].maskEff, agents[i].vaccinated))
    }

    /**
     * N agents, exactly the I0 distinct sampled ones in E and the other
     * N - I0 in S, all unmasked adults; empty history; a manager over the
     * given interventions (none when absent); today's contacts per day from
     * the config.
     */
    constructor(cfg: ConfigSeiard, graph: seq<seq<nat>>, initialExposed: seq<nat>,
                interventions: Option<seq<Intervention>> := None)
      requires |initialExposed| == cfg.i0 && Distinct(initialExposed)
      requires forall id :: id in initialExposed ==> id < cfg.n
      requires WellFormedGraph(graph, cfg.n)
      ensures Valid() && this.cfg == cfg && this.graph == graph
      ensures forall i :: 0 <= i < cfg.n ==>
                fresh(agents[i]) && agents[i].Current() == Status(if i in initialExposed then E else S, 0)
                && agents[i].maskEff == 0.0 && agents[i].ageGroup == "adult"
      ensures Count(States(), E) == cfg.i0 && Count(States(), S) == cfg.n - cfg.i0
      ensures history == Empty(Codes) && historyStates == []
      ensures day == 0 && !finished
      ensures fresh(this.interventions)
      ensures this.interventions.interventions == if interventions.Some? then interventions.value else []
      ensures currentContactsPerDay == cfg.contactsPerDay
    {
      var population := Population(cfg, initialExposed);
      var manager := new InterventionManager(interventions);
      this.cfg := cfg;
      this.graph := graph;
      agents := population;
      history := Empty(Codes);
      historyStates := [];
      day := 0;
      finished := false;
      this.interventions := manager;
      currentContactsPerDay := cfg.contactsPerDay;
      new;
      PickedCounts(States(), initialExposed);
    }

    /** _should_continue: some agent is in E, IA or IS. */
    function ShouldContinue(): (b: bool)
      reads agents
      ensures b <==> exists i :: 0 <= i < |agents| && Timed(agents[i].state)
    {
      AnyActive(States())
    }

    /**
     * _collect_infections: reads the agents only and returns the newly
     * exposed ids Collected describes for today's current_contacts_per_day.
     */
    method CollectInfections(picks: seq<seq<nat>>, us: seq<seq<Uniform>>) returns (newlyExposed: seq<nat>)
      requires |agents| == cfg.n && WellFormedGraph(graph, cfg.n)
      requires WellFormedScanDraws(graph, picks, us, currentContactsPerDay)
      ensures newlyExposed == Collected(Snaps(), graph, picks, us, cfg, currentContactsPerDay, cfg.n)
    {
      ghost var snaps := Snaps();
      newlyExposed := [];
      for i := 0 to |agents|
        invariant newlyExposed == Collected(snaps, graph, picks, us, cfg, currentContactsPerDay, i)
      {
        var found := ScanAgent(i, picks[i], us[i], snaps);
        CollectedStep(snaps, graph, picks, us, cfg, currentContactsPerDay, i);
        newlyExposed := newlyExposed + found;
      }
      assert snaps == Snaps();
    }

    /** One agent of the scan: nothing unless it is infectious and has neighbours, else its attempts. */
    method ScanAgent(i: nat, picks: seq<nat>, us: seq<Uniform>, ghost snaps: seq<Snap>) returns (found: seq<nat>)
      requires snaps == Snaps() && i < |agents| && WellFormedGraph(graph, |agents|)
      requires |picks| == |us| && (graph[i] != [] ==> forall c :: 0 <= c < |picks| ==> picks[c] < |graph[i]|)
      ensures found == if Infectious(snaps[i].state) && graph[i] != [] then Attempts(snaps, snaps[i], graph[i], picks, us, cfg) else []
    {
      var agent := agents[i];
      assert snaps[i] == Snap(agent.state, agent.maskEff, agent.vaccinated);
      if !agent.IsInfectious() {
        return [];
      }
      var neighbors := graph[i];
      if neighbors == [] {
        return [];
      }
      found := AttemptContacts(agent, neighbors, picks, us, snaps);
    }

    /** The inner loop of the scan: one infectious agent's contacts, drawn from its neighbours. */
    method AttemptContacts(agent: AgentSeiard, neighbors: seq<nat>, picks: seq<nat>, us: seq<Uniform>,
                           ghost snaps: seq<Snap>)
      returns (found: seq<nat>)
      requires snaps == Snaps()
      requires |us| == |picks|
      requires forall c :: 0 <= c < |picks| ==> picks[c] < |neighbors|
      requires forall c :: 0 <= c < |neighbors| ==> neighbors[c] < |agents|
      ensures found == Attempts(snaps, Snap(agent.state, agent.maskEff, agent.vaccinated), neighbors, picks, us, cfg)
    {
      ghost var source := Snap(agent.state, agent.maskEff, agent.vaccinated);
      found := [];
      for c := 0 to |picks|
        invariant found == Attempts(snaps, source, neighbors, picks[..c], us[..c], cfg)
      {
        var j := neighbors[picks[c]];
        var infected := Attempt(agent, j, us[c], snaps);
        AttemptsStep(snaps, source, neighbors, picks, us, cfg, c);
        if infected {
          found := found + [j];
        }
      }
      assert picks[..|picks|] == picks && us[..|us|] == us;
    }

    /** One contact: the target is infected when susceptible, not vaccinated and the draw is below the source's threshold. */
    method Attempt(agent: AgentSeiard, j: nat, u: Uniform, ghost snaps: seq<Snap>) returns (infected: bool)
      requires snaps == Snaps() && j < |agents|
      ensures infected <==> snaps[j].state == S && !snaps[j].vaccinated
                            && u < Threshold(Snap(agent.state, agent.maskEff, agent.vaccinated), cfg)
    {
      var target := agents[j];
      assert snaps[j] == Snap(target.state, target.maskEff, target.vaccinated);
      infected := false;
      if target.IsSusceptible() && !target.vaccinated {
        var p := BaseProbability(agent.state, cfg);
        p := p * (1.0 - agent.maskEff);
        if u < p {
          infected := true;
        }
      }
    }

    /**
     * _log_states: appends the count of each code to its history list and
     * the full state list to history_states; nothing else changes.
     */
    method LogStates()
      requires Valid()
      modifies this
      ensures Valid()
      ensures historyStates == old(historyStates) + [States()]
      ensures history == Logged(Codes, old(history), States())
      ensures day == old(day) && finished == old(finished) && currentContactsPerDay == old(currentContactsPerDay)
    {
      var states := States();
      LogKeepsRecorded(Codes, 6, cfg.n, history, historyStates, states);
      history := Logged(Codes, history, states);
      historyStates := historyStates + [states];
      assert states == States();
    }
  }
}
