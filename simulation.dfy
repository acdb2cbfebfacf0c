/**
 * The script simulation over Person objects (src/SEIR-D/simulation.py):
 * N people on a fixed contact graph, 10 of them infected at the start, then
 * T_MAX days, each of which scans every infectious person's neighbours
 * into a set of newly exposed ids, infects each of those once, progresses
 * every person once and appends the six state counts to the history.
 *
 * The graph comes from networkx and is given here as an adjacency list
 * over 0 .. N-1 (a person's id is its index). random.sample is supplied as
 * the list of initially infected ids; each random.random() of the scan is
 * supplied per (person, neighbour position), and the timer and transition
 * draws of each person's infect and progress calls per person and day.
 */
module Simulation {
  import opened Common
  import opened Graph
  import opened SeirdPerson
  import opened History

  const TMax: nat := 120
  const N: nat := 1000
  /** The size of the initial random.sample. */
  const NumInitial: nat := 10

  /** The history keys and the state code each one counts. */
  const Codes: map<string, int> := map["S" := S, "E" := E, "IA" := IA, "IS" := IS, "R" := R, "D" := D]

  /**
   * The draws of one day: a uniform per neighbour of each person for the
   * scan, an incubation draw per person for infect, and the draws of each
   * person's progress call.
   */
  datatype DayDraws = DayDraws(us: seq<seq<Uniform>>, incubations: seq<int>, progress: seq<Draws>)

  predicate WellFormedDay(graph: seq<seq<nat>>, d: DayDraws)
  {
    && |d.us| == |graph| && |d.incubations| == |graph| && |d.progress| == |graph|
    && forall i :: 0 <= i < |graph| ==> |d.us[i]| == |graph[i]|
  }

  /** The people's current state codes, in order. */
  function States(people: seq<Person>): (states: seq<int>)
    reads people
    ensures |states| == |people|
    ensures forall i :: 0 <= i < |people| ==> states[i] == people[i].state
  {
    seq(|people|, i requires 0 <= i < |people| reads people => people[i].state)
  }

  /** The people's current statuses, in order. */
  function Statuses(people: seq<Person>): (ss: seq<Status>)
    reads people
    ensures |ss| == |people|
    ensures forall i :: 0 <= i < |people| ==> ss[i] == people[i].Current()
  {
    seq(|people|, i requires 0 <= i < |people| reads people => people[i].Current())
  }

  /** The codes of a list of statuses. */
  function StateCodes(ss: seq<Status>): (states: seq<int>)
    ensures |states| == |ss|
    ensures forall i :: 0 <= i < |ss| ==> states[i] == ss[i].state
  {
    seq(|ss|, i requires 0 <= i < |ss| => ss[i].state)
  }

  /** p_infect_IS for a symptomatic source, p_infect_IA for any other. */
  function Threshold(source: int, params: PersonParams): real
  {
    if source == IS then params.pInfectIS else params.pInfectIA
  }

  /**
   * The ids one infectious person exposes: each neighbour in S whose draw
   * falls below the person's threshold.
   */
  function Hits(states: seq<int>, source: int, neighbors: seq<nat>, us: seq<Uniform>, params: PersonParams)
    : (ids: set<nat>)
    requires |us| == |neighbors| && forall c :: 0 <= c < |neighbors| ==> neighbors[c] < |states|
    ensures forall id :: id in ids ==> id in neighbors && states[id] == S
    ensures forall c :: 0 <= c < |neighbors| ==>
              (neighbors[c] in ids <== states[neighbors[c]] == S && us[c] < Threshold(source, params))
  {
    if neighbors == [] then {}
    else
      var last := |neighbors| - 1;
      var j := neighbors[last];
      Hits(states, source, neighbors[..last], us[..last], params)
        + (if states[j] == S && us[last] < Threshold(source, params) then {j} else {})
  }

  /** Every id one person's loop adds is an S neighbour whose draw fell below the person's threshold. */
  lemma {:induction false} HitsSound(states: seq<int>, source: int, neighbors: seq<nat>, us: seq<Uniform>,
                                     params: PersonParams, id: nat)
    requires |us| == |neighbors| && forall c :: 0 <= c < |neighbors| ==> neighbors[c] < |states|
    requires id in Hits(states, source, neighbors, us, params)
    ensures exists c :: 0 <= c < |neighbors| && neighbors[c] == id && states[id] == S && us[c] < Threshold(source, params)
  {
    var last := |neighbors| - 1;
    var front, ufront := neighbors[..last], us[..last];
    if id in Hits(states, source, front, ufront, params) {
      HitsSound(states, source, front, ufront, params, id);
      var c :| 0 <= c < |front| && front[c] == id && states[id] == S && ufront[c] < Threshold(source, params);
      assert neighbors[c] == front[c] && us[c] == ufront[c];
    } else {
      assert neighbors[last] == id && states[id] == S && us[last] < Threshold(source, params);
    }
  }

  /**
   * new_exposed after scanning persons 0 .. n-1; `ExposedExactly` states
   * which ids it holds.
   */
  function Exposed(states: seq<int>, graph: seq<seq<nat>>, us: seq<seq<Uniform>>, params: PersonParams, n: nat)
    : (ids: set<nat>)
    requires WellFormedGraph(graph, |states|) && |us| == |graph| && n <= |states|
    requires forall i :: 0 <= i < |graph| ==> |us[i]| == |graph[i]|
    ensures forall id :: id in ids ==> id < |states| && states[id] == S
  {
    if n == 0 then {}
    else
      var i := n - 1;
      Exposed(states, graph, us, params, i)
        + (if Infectious(states[i]) then Hits(states, states[i], graph[i], us[i], params) else {})
  }

  /**
   * Contact c of person i exposes `id`: the person is infectious, its c-th
   * neighbour is `id`, that neighbour is in S and the draw for the contact
   * is below the person's threshold.
   */
  predicate Exposing(states: seq<int>, graph: seq<seq<nat>>, us: seq<seq<Uniform>>, params: PersonParams,
                     i: nat, c: nat, id: nat)
    requires WellFormedGraph(graph, |states|) && |us| == |graph|
    requires forall i :: 0 <= i < |graph| ==> |us[i]| == |graph[i]|
    requires i < |states| && c < |graph[i]|
  {
    && Infectious(states[i])
    && graph[i][c] == id
    && states[id] == S
    && us[i][c] < Threshold(states[i], params)
  }

  /** Every exposed id comes from an exposing contact of one of the first n persons. */
  lemma {:induction false} ExposedSound(states: seq<int>, graph: seq<seq<nat>>, us: seq<seq<Uniform>>,
                                        params: PersonParams, n: nat, id: nat)
    requires WellFormedGraph(graph, |states|) && |us| == |graph| && n <= |states|
    requires forall i :: 0 <= i < |graph| ==> |us[i]| == |graph[i]|
    requires id in Exposed(states, graph, us, params, n)
    ensures exists i, c :: 0 <= i < n && 0 <= c < |graph[i]| && Exposing(states, graph, us, params, i, c, id)
  {
    var i := n - 1;
    if id !in Exposed(states, graph, us, params, i) {
      assert Infectious(states[i]) && id in Hits(states, states[i], graph[i], us[i], params);
      HitsSound(states, states[i], graph[i], us[i], params, id);
      var c :| 0 <= c < |graph[i]| && graph[i][c] == id && states[id] == S && us[i][c] < Threshold(states[i], params);
      assert Exposing(states, graph, us, params, i, c, id);
    } else {
      ExposedSound(states, graph, us, params, i, id);
      var i', c :| 0 <= i' < i && 0 <= c < |graph[i']| && Exposing(states, graph, us, params, i', c, id);
      assert Exposing(states, graph, us, params, i', c, id);
    }
  }

  /** One more attempt of a person's neighbour loop: its hit is added. */
  lemma HitsStep(states: seq<int>, source: int, neighbors: seq<nat>, us: seq<Uniform>, params: PersonParams, c: nat)
    requires |us| == |neighbors| && c < |neighbors|
    requires forall c :: 0 <= c < |neighbors| ==> neighbors[c] < |states|
    ensures var j := neighbors[c];
            Hits(states, source, neighbors[..c + 1], us[..c + 1], params)
            == Hits(states, source, neighbors[..c], us[..c], params)
               + if states[j] == S && us[c] < Threshold(source, params) then {j} else {}
  {
    assert neighbors[..c + 1][..c] == neighbors[..c] && us[..c + 1][..c] == us[..c];
  }

  /** With nobody infectious, nobody is exposed. */
  lemma {:induction false} NoSourceNoExposure(states: seq<int>, graph: seq<seq<nat>>, us: seq<seq<Uniform>>,
                                              params: PersonParams, n: nat)
    requires WellFormedGraph(graph, |states|) && |us| == |graph| && n <= |states|
    requires forall i :: 0 <= i < |graph| ==> |us[i]| == |graph[i]|
    requires forall i :: 0 <= i < |states| ==> !Infectious(states[i])
    ensures Exposed(states, graph, us, params, n) == {}
  {
    if n > 0 {
      NoSourceNoExposure(states, graph, us, params, n - 1);
    }
  }

  /**
   * An S neighbour of an infectious person whose draw for that contact is
   * below the person's threshold is exposed.
   */
  lemma {:induction false} ExposedComplete(states: seq<int>, graph: seq<seq<nat>>, us: seq<seq<Uniform>>,
                                           params: PersonParams, n: nat, i: nat, c: nat)
    requires WellFormedGraph(graph, |states|) && |us| == |graph| && n <= |states|
    requires forall i :: 0 <= i < |graph| ==> |us[i]| == |graph[i]|
    requires i < n && Infectious(states[i]) && c < |graph[i]|
    requires states[graph[i][c]] == S && us[i][c] < Threshold(states[i], params)
    ensures graph[i][c] in Exposed(states, graph, us, params, n)
  {
    if i < n - 1 {
      ExposedComplete(states, graph, us, params, n - 1, i, c);
    }
  }

  /** new_exposed holds exactly the ids some contact of the first n persons exposes. */
  lemma ExposedExactly(states: seq<int>, graph: seq<seq<nat>>, us: seq<seq<Uniform>>, params: PersonParams,
                       n: nat, id: nat)
    requires WellFormedGraph(graph, |states|) && |us| == |graph| && n <= |states|
    requires forall i :: 0 <= i < |graph| ==> |us[i]| == |graph[i]|
    ensures id in Exposed(states, graph, us, params, n) <==>
              exists i, c :: 0 <= i < n && 0 <= c < |graph[i]| && Exposing(states, graph, us, params, i, c, id)
  {
    if id in Exposed(states, graph, us, params, n) {
      ExposedSound(states, graph, us, params, n, id);
    }
    if exists i, c :: 0 <= i < n && 0 <= c < |graph[i]| && Exposing(states, graph, us, params, i, c, id) {
      var i, c :| 0 <= i < n && 0 <= c < |graph[i]| && Exposing(states, graph, us, params, i, c, id);
      ExposedComplete(states, graph, us, params, n, i, c);
    }
  }

  /** With both infection probabilities at zero, nobody is exposed whatever the draws. */
  lemma NoTransmissionNoExposure(states: seq<int>, graph: seq<seq<nat>>, us: seq<seq<Uniform>>,
                                 params: PersonParams, n: nat)
    requires WellFormedGraph(graph, |states|) && |us| == |graph| && n <= |states|
    requires forall i :: 0 <= i < |graph| ==> |us[i]| == |graph[i]|
    requires params.pInfectIS <= 0.0 && params.pInfectIA <= 0.0
    ensures Exposed(states, graph, us, params, n) == {}
  {
    forall id | id in Exposed(states, graph, us, params, n)
      ensures false
    {
      ExposedSound(states, graph, us, params, n, id);
    }
  }

  /** Every code is one of the six. */
  predicate AllValid(ss: seq<Status>)
  {
    forall i :: 0 <= i < |ss| ==> 0 <= ss[i].state < 6
  }

  /**
   * What one day does to a person: infect when its id is in new_exposed,
   * then progress. A person in R or D stays as it is.
   */
  function AfterDay(s: Status, exposed: bool, incubation: int, d: Draws, params: PersonParams): (r: Status)
    ensures Terminal(s.state) ==> r == s
    ensures s.state != S ==> r == Progressed(s, d, params)
    ensures s.state == S && !exposed ==> r == s
    ensures s.state == S && exposed ==> r.state == E || Infectious(r.state)
    ensures 0 <= s.state < 6 ==> 0 <= r.state < 6
  {
    Progressed(if exposed then Infected(s, incubation) else s, d, params)
  }

  /** The first n people after one day, given the set of newly exposed ids. */
  function Advanced(ss: seq<Status>, exposed: set<nat>, d: DayDraws, params: PersonParams, n: nat): (r: seq<Status>)
    requires n <= |ss| && |d.incubations| == |ss| && |d.progress| == |ss|
    ensures |r| == n
    ensures (forall i :: 0 <= i < n ==> 0 <= ss[i].state < 6) ==> forall i :: 0 <= i < n ==> 0 <= r[i].state < 6
  {
    if n == 0 then []
    else Advanced(ss, exposed, d, params, n - 1) + [AfterDay(ss[n - 1], n - 1 in exposed, d.incubations[n - 1], d.progress[n - 1], params)]
  }

  /** The statuses after one day: new_exposed from the scan, then every person's infect and progress. */
  function Day(ss: seq<Status>, graph: seq<seq<nat>>, d: DayDraws, params: PersonParams): (r: seq<Status>)
    requires WellFormedGraph(graph, |ss|) && WellFormedDay(graph, d)
    ensures |r| == |ss|
    ensures AllValid(ss) ==> AllValid(r)
  {
    Advanced(ss, Exposed(StateCodes(ss), graph, d.us, params, |ss|), d, params, |ss|)
  }

  /** Person i after one day: infected if its id was exposed, then progressed. */
  lemma {:induction false} AdvancedAt(ss: seq<Status>, exposed: set<nat>, d: DayDraws, params: PersonParams, n: nat, i: nat)
    requires n <= |ss| && |d.incubations| == |ss| && |d.progress| == |ss| && i < n
    ensures Advanced(ss, exposed, d, params, n)[i] == AfterDay(ss[i], i in exposed, d.incubations[i], d.progress[i], params)
  {
    if i < n - 1 {
      AdvancedAt(ss, exposed, d, params, n - 1, i);
    }
  }

  /** Person i after one day, in terms of the day's exposed set. */
  lemma DayAt(ss: seq<Status>, graph: seq<seq<nat>>, d: DayDraws, params: PersonParams, i: nat)
    requires WellFormedGraph(graph, |ss|) && WellFormedDay(graph, d) && i < |ss|
    ensures Day(ss, graph, d, params)[i]
            == AfterDay(ss[i], i in Exposed(StateCodes(ss), graph, d.us, params, |ss|), d.incubations[i], d.progress[i], params)
  {
    AdvancedAt(ss, Exposed(StateCodes(ss), graph, d.us, params, |ss|), d, params, |ss|, i);
  }

  /** Nobody leaves R or D, so neither count can fall from one day to the next. */
  lemma TerminalCountsNeverFall(ss: seq<Status>, graph: seq<seq<nat>>, d: DayDraws, params: PersonParams)
    requires WellFormedGraph(graph, |ss|) && WellFormedDay(graph, d)
    ensures NoFall(StateCodes(ss), StateCodes(Day(ss, graph, d, params)))
  {
    var after := StateCodes(Day(ss, graph, d, params));
    forall i | 0 <= i < |ss| {
      DayAt(ss, graph, d, params, i);
    }
    CountMonotone(StateCodes(ss), after, R);
    CountMonotone(StateCodes(ss), after, D);
  }

  /** Every recorded day's six counts add up to N. */
  lemma RecordedSumsToN(n: nat, history: map<string, seq<nat>>, historyStates: seq<seq<int>>, t: nat)
    requires Recorded(Codes, 6, n, history, historyStates) && t < |historyStates|
    ensures history["S"][t] + history["E"][t] + history["IA"][t] + history["IS"][t] + history["R"][t] + history["D"][t] == n
  {
    SixCodes(historyStates[t]);
    assert Codes["S"] == S && Codes["E"] == E && Codes["IA"] == IA && Codes["IS"] == IS;
    assert Codes["R"] == R && Codes["D"] == D;
  }

  /** The statuses after the first t days, starting from ss. */
  function Days(ss: seq<Status>, graph: seq<seq<nat>>, days: seq<DayDraws>, params: PersonParams, t: nat)
    : (r: seq<Status>)
    requires WellFormedGraph(graph, |ss|) && t <= |days|
    requires forall u :: 0 <= u < |days| ==> WellFormedDay(graph, days[u])
    ensures |r| == |ss|
    ensures AllValid(ss) ==> AllValid(r)
  {
    if t == 0 then ss
    else
      Day(Days(ss, graph, days, params, t - 1), graph, days[t - 1], params)
  }

  /** next is one Day of prev under the day's draws d. */
  predicate Stepped(prev: seq<Status>, next: seq<Status>, graph: seq<seq<nat>>, d: DayDraws, params: PersonParams)
  {
    WellFormedGraph(graph, |prev|) && WellFormedDay(graph, d) && next == Day(prev, graph, d, params)
  }

  /** Entry u of the trace is one Day of entry u - 1, under day u - 1's draws. */
  predicate StepAt(trace: seq<seq<Status>>, graph: seq<seq<nat>>, days: seq<DayDraws>, params: PersonParams, u: nat)
  {
    0 < u < |trace| && u <= |days| && Stepped(trace[u - 1], trace[u], graph, days[u - 1], params)
  }

  /** trace[u] is the statuses after u days: each entry is one Day of the entry before. */
  predicate Trace(trace: seq<seq<Status>>, graph: seq<seq<nat>>, days: seq<DayDraws>, params: PersonParams)
  {
    && 0 < |trace| <= |days| + 1
    && forall u: nat :: 0 < u < |trace| ==> StepAt(trace, graph, days, params, u)
  }

  /** A trace from ss lists the statuses Days gives after 0, 1, 2, ... days. */
  lemma {:induction false} TraceIsDays(trace: seq<seq<Status>>, graph: seq<seq<nat>>, days: seq<DayDraws>,
                                       params: PersonParams, t: nat)
    requires Trace(trace, graph, days, params) && t < |trace|
    requires WellFormedGraph(graph, |trace[0]|) && forall u :: 0 <= u < |days| ==> WellFormedDay(graph, days[u])
    ensures trace[t] == Days(trace[0], graph, days, params, t)
  {
    if t > 0 {
      TraceIsDays(trace, graph, days, params, t - 1);
      assert StepAt(trace, graph, days, params, t);
    }
  }

  /**
   * The history of the first t days: Recorded against the day-by-day state
   * lists, none of which has fewer R or D than the one before.
   */
  predicate Logged6(history: map<string, seq<nat>>, hs: seq<seq<int>>)
  {
    && Recorded(Codes, 6, N, history, hs)
    && forall u :: 0 < u < |hs| ==> NoFall(hs[u - 1], hs[u])
  }

  /** The later day has at least as many people in R, and in D, as the earlier. */
  predicate NoFall(earlier: seq<int>, later: seq<int>)
  {
    Count(earlier, R) <= Count(later, R) && Count(earlier, D) <= Count(later, D)
  }

  /**
   * Logging one more day's codes, with no fewer R and D than the day
   * before, keeps the history recorded and R and D non-decreasing.
   */
  lemma DayLogged(history: map<string, seq<nat>>, hs: seq<seq<int>>, before: seq<int>, after: seq<int>,
                  history': map<string, seq<nat>>, hs': seq<seq<int>>)
    requires Logged6(history, hs)
    requires |after| == N && forall i :: 0 <= i < N ==> 0 <= after[i] < 6
    requires |hs| > 0 ==> hs[|hs| - 1] == before
    requires NoFall(before, after)
    requires history' == History.Logged(Codes, history, after) && hs' == hs + [after]
    ensures Logged6(history', hs')
  {
    LogKeepsRecorded(Codes, 6, N, history, hs, after);
    forall u | 0 < u < |hs'|
      ensures NoFall(hs'[u - 1], hs'[u])
    {
      if u < |hs| {
        assert hs'[u - 1] == hs[u - 1] && hs'[u] == hs[u];
      }
    }
  }

  /** The statuses after the initial infections: the sampled people in E, everyone else in S. */
  function Seeded(initialInfected: seq<nat>, incubations: seq<int>): (ss: seq<Status>)
    requires |incubations| == N
    ensures |ss| == N && AllValid(ss)
    ensures forall i :: 0 <= i < N ==> ss[i].state == if i in initialInfected then E else S
  {
    seq(N, i requires 0 <= i < N => if i in initialInfected then Infected(Initial(false), incubations[i]) else Initial(false))
  }

  /** Exactly the NumInitial sampled people start in E, the other N - NumInitial in S. */
  lemma SeededCounts(initialInfected: seq<nat>, incubations: seq<int>)
    requires |incubations| == N && Distinct(initialInfected) && forall id :: id in initialInfected ==> id < N
    ensures Count(StateCodes(Seeded(initialInfected, incubations)), E) == |initialInfected|
    ensures Count(StateCodes(Seeded(initialInfected, incubations)), S) == N - |initialInfected|
  {
    PickedCounts(StateCodes(Seeded(initialInfected, incubations)), initialInfected);
  }

  /** The codes of the people are the codes of their statuses. */
  lemma StatesOfStatuses(people: seq<Person>)
    ensures States(people) == StateCodes(Statuses(people))
  {
  }

  /** The N people, ids 0 .. N-1, none vaccinated, all sharing the parameters. */
  method Population(params: PersonParams) returns (people: seq<Person>)
    ensures |people| == N && Distinct(people)
    ensures forall i :: 0 <= i < N ==>
              fresh(people[i]) && people[i].id == i && people[i].params == params
              && people[i].Current() == Initial(false)
  {
    people := [];
    for k := 0 to N
      invariant |people| == k && Distinct(people)
      invariant forall i :: 0 <= i < k ==>
                  fresh(people[i]) && people[i].id == i && people[i].params == params
                  && people[i].Current() == Initial(false)
    {
      var p := new Person(k, params);
      people := people + [p];
    }
  }

  /**
   * infect() on each initially sampled id: exactly those people move from S
   * to E, with the incubation drawn for them.
   */
  method SeedInfections(people: seq<Person>, initialInfected: seq<nat>, incubations: seq<int>)
    requires Distinct(people) && |incubations| == |people|
    requires forall id :: id in initialInfected ==> id < |people|
    modifies people
    ensures forall i :: 0 <= i < |people| ==>
              people[i].Current() == if i in initialInfected then Infected(old(people[i].Current()), incubations[i])
                                     else old(people[i].Current())
  {
    for k := 0 to |initialInfected|
      invariant forall i :: 0 <= i < |people| ==>
                  people[i].Current() == if i in initialInfected[..k] then Infected(old(people[i].Current()), incubations[i])
                                         else old(people[i].Current())
    {
      var idx := initialInfected[k];
      assert initialInfected[..k + 1] == initialInfected[..k] + [idx];
      assert idx in initialInfected;
      people[idx].Infect(incubations[idx]);
    }
    assert initialInfected[..|initialInfected|] == initialInfected;
  }

  /** The scan of one day: reads the people only and returns new_exposed. */
  method Scan(people: seq<Person>, graph: seq<seq<nat>>, us: seq<seq<Uniform>>, params: PersonParams)
    returns (newExposed: set<nat>)
    requires WellFormedGraph(graph, |people|) && |us| == |graph|
    requires forall i :: 0 <= i < |graph| ==> |us[i]| == |graph[i]|
    requires forall i :: 0 <= i < |people| ==> people[i].id == i && people[i].params == params
    ensures newExposed == Exposed(States(people), graph, us, params, |people|)
  {
    ghost var states := States(people);
    newExposed := {};
    for i := 0 to |people|
      invariant newExposed == Exposed(states, graph, us, params, i)
    {
      var found := ScanPerson(people, i, graph[i], us[i], states);
      newExposed := newExposed + found;
    }
    assert states == States(people);
  }

  /** One person of the scan: nothing unless infectious, else the neighbours it exposes. */
  method ScanPerson(people: seq<Person>, i: nat, neighbors: seq<nat>, us: seq<Uniform>, ghost states: seq<int>)
    returns (found: set<nat>)
    requires states == States(people) && i < |people|
    requires forall j :: 0 <= j < |people| ==> people[j].id == j
    requires |us| == |neighbors| && forall c :: 0 <= c < |neighbors| ==> neighbors[c] < |people|
    ensures found == if Infectious(states[i]) then Hits(states, states[i], neighbors, us, people[i].params) else {}
  {
    var person := people[i];
    found := {};
    if person.IsInfectious() {
      for c := 0 to |neighbors|
        invariant found == Hits(states, states[i], neighbors[..c], us[..c], person.params)
      {
        var neighbor := people[neighbors[c]];
        HitsStep(states, states[i], neighbors, us, person.params, c);
        if neighbor.state == S {
          var p := if person.state == IS then person.params.pInfectIS else person.params.pInfectIA;
          if us[c] < p {
            found := found + {neighbor.id};
          }
        }
      }
      assert neighbors[..|neighbors|] == neighbors && us[..|us|] == us;
    }
  }

  /**
   * infect() on each id of new_exposed, once each: those people that are in
   * S move to E, everyone else is unchanged.
   */
  method InfectExposed(people: seq<Person>, newExposed: set<nat>, incubations: seq<int>)
    requires Distinct(people) && |incubations| == |people|
    requires forall id :: id in newExposed ==> id < |people|
    modifies people
    ensures forall i :: 0 <= i < |people| ==>
              people[i].Current() == if i in newExposed then Infected(old(people[i].Current()), incubations[i])
                                     else old(people[i].Current())
  {
    var rest := newExposed;
    while rest != {}
      invariant rest <= newExposed
      invariant forall i :: 0 <= i < |people| ==>
                  people[i].Current() == if i in newExposed - rest then Infected(old(people[i].Current()), incubations[i])
                                         else old(people[i].Current())
      decreases |rest|
    {
      var idx :| idx in rest;
      people[idx].Infect(incubations[idx]);
      rest := rest - {idx};
    }
  }

  /** progress() on every person, once each, in list order. */
  method ProgressAll(people: seq<Person>, draws: seq<Draws>)
    requires Distinct(people) && |draws| == |people|
    modifies people
    ensures forall i :: 0 <= i < |people| ==>
              people[i].Current() == Progressed(old(people[i].Current()), draws[i], people[i].params)
  {
    for k := 0 to |people|
      invariant forall i :: 0 <= i < |people| ==>
                  people[i].Current() == if i < k then Progressed(old(people[i].Current()), draws[i], people[i].params)
                                         else old(people[i].Current())
    {
      people[k].Progress(draws[k]);
    }
  }

  /** One day of the loop: the scan, the infections, then the progress of everyone. */
  method OneDay(people: seq<Person>, graph: seq<seq<nat>>, d: DayDraws, params: PersonParams)
    requires Distinct(people) && WellFormedGraph(graph, |people|) && WellFormedDay(graph, d)
    requires forall i :: 0 <= i < |people| ==> people[i].id == i && people[i].params == params
    modifies people
    ensures Statuses(people) == Day(old(Statuses(people)), graph, d, params)
  {
    ghost var before := Statuses(people);
    assert States(people) == StateCodes(before);
    var newExposed := Scan(people, graph, d.us, params);
    InfectExposed(people, newExposed, d.incubations);
    ProgressAll(people, d.progress);
    ghost var after := Day(before, graph, d, params);
    forall i | 0 <= i < |people|
      ensures people[i].Current() == after[i]
    {
      DayAt(before, graph, d, params, i);
    }
  }

  /** The population of the script with the sampled people infected. */
  method Setup(params: PersonParams, initialInfected: seq<nat>, seedIncubations: seq<int>) returns (people: seq<Person>)
    requires forall id :: id in initialInfected ==> id < N
    requires |seedIncubations| == N
    ensures |people| == N && Distinct(people)
    ensures forall i :: 0 <= i < N ==> fresh(people[i]) && people[i].id == i && people[i].params == params
    ensures Statuses(people) == Seeded(initialInfected, seedIncubations)
  {
    people := Population(params);
    SeedInfections(people, initialInfected, seedIncubations);
    assert Statuses(people) == Seeded(initialInfected, seedIncubations);
  }

  /**
   * The day loop: T_MAX days, each logged. The trace lists the statuses at
   * the start and after each day, and the t-th logged state list is the
   * codes after day t + 1.
   */
  method RunDays(people: seq<Person>, graph: seq<seq<nat>>, days: seq<DayDraws>, params: PersonParams)
    returns (history: map<string, seq<nat>>, ghost hs: seq<seq<int>>, ghost trace: seq<seq<Status>>)
    requires |people| == N && Distinct(people) && AllValid(Statuses(people))
    requires forall i :: 0 <= i < N ==> people[i].id == i && people[i].params == params
    requires WellFormedGraph(graph, N)
    requires |days| == TMax && forall t :: 0 <= t < TMax ==> WellFormedDay(graph, days[t])
    modifies people
    ensures Logged6(history, hs) && |hs| == TMax
    ensures Trace(trace, graph, days, params) && |trace| == TMax + 1
    ensures trace[0] == old(Statuses(people)) && trace[TMax] == Statuses(people)
    ensures forall t :: 0 <= t < TMax ==> hs[t] == StateCodes(trace[t + 1])
  {
    history := Empty(Codes);
    hs := [];
    trace := [Statuses(people)];
    EmptyRecorded(Codes, 6, N);
    for t := 0 to TMax
      invariant Logged6(history, hs) && |hs| == t
      invariant Trace(trace, graph, days, params) && |trace| == t + 1
      invariant trace[0] == old(Statuses(people)) && trace[t] == Statuses(people) && AllValid(trace[t])
      invariant forall u :: 0 <= u < t ==> hs[u] == StateCodes(trace[u + 1])
    {
      ghost var after;
      history, hs, after := Advance(people, graph, days, t, params, history, hs, trace);
      trace := trace + [after];
    }
  }

  /**
   * Day t of the loop followed by its append to the history: the people
   * move on by one Day, and the trace and the history each grow by that day.
   */
  method Advance(people: seq<Person>, graph: seq<seq<nat>>, days: seq<DayDraws>, t: nat, params: PersonParams,
                 history: map<string, seq<nat>>, ghost hs: seq<seq<int>>, ghost trace: seq<seq<Status>>)
    returns (history': map<string, seq<nat>>, ghost hs': seq<seq<int>>, ghost after: seq<Status>)
    requires |people| == N && Distinct(people)
    requires forall i :: 0 <= i < N ==> people[i].id == i && people[i].params == params
    requires WellFormedGraph(graph, N) && t < |days| && forall u :: 0 <= u < |days| ==> WellFormedDay(graph, days[u])
    requires Trace(trace, graph, days, params) && |trace| == t + 1
    requires trace[t] == Statuses(people) && AllValid(trace[t])
    requires Logged6(history, hs) && (|hs| > 0 ==> hs[|hs| - 1] == StateCodes(trace[t]))
    modifies people
    ensures after == Statuses(people) && AllValid(after) && Trace(trace + [after], graph, days, params)
    ensures Logged6(history', hs') && hs' == hs + [StateCodes(after)]
  {
    ghost var before := trace[t];
    OneDay(people, graph, days[t], params);
    after := Statuses(people);
    assert after == Day(before, graph, days[t], params);
    TraceExtended(trace, after, graph, days, params);
    TerminalCountsNeverFall(before, graph, days[t], params);
    var states := States(people);
    StatesOfStatuses(people);
    assert states == StateCodes(after);
    DayLogged(history, hs, StateCodes(before), states, Logged(Codes, history, states), hs + [states]);
    history' := Logged(Codes, history, states);
    hs' := hs + [states];
  }

  /** One more day appended to a trace keeps it a trace. */
  lemma TraceExtended(trace: seq<seq<Status>>, next: seq<Status>, graph: seq<seq<nat>>, days: seq<DayDraws>,
                      params: PersonParams)
    requires Trace(trace, graph, days, params) && |trace| <= |days|
    requires Stepped(trace[|trace| - 1], next, graph, days[|trace| - 1], params)
    ensures Trace(trace + [next], graph, days, params)
  {
    var trace' := trace + [next];
    forall u: nat | 0 < u < |trace'|
      ensures StepAt(trace', graph, days, params, u)
    {
      if u < |trace| {
        assert StepAt(trace, graph, days, params, u);
        assert trace'[u - 1] == trace[u - 1] && trace'[u] == trace[u];
      }
    }
  }

  /**
   * What a T_MAX-day recorded history says: T_MAX entries per key, six
   * counts adding up to N each day, and R and D never falling.
   */
  lemma HistoryFacts(history: map<string, seq<nat>>, hs: seq<seq<int>>)
    requires Logged6(history, hs) && |hs| == TMax
    ensures history.Keys == Codes.Keys && forall k :: k in Codes ==> |history[k]| == TMax
    ensures forall t :: 0 <= t < TMax ==>
              history["S"][t] + history["E"][t] + history["IA"][t] + history["IS"][t] + history["R"][t] + history["D"][t] == N
    ensures forall t :: 0 < t < TMax ==> history["R"][t - 1] <= history["R"][t] && history["D"][t - 1] <= history["D"][t]
  {
    forall t | 0 <= t < TMax
      ensures history["S"][t] + history["E"][t] + history["IA"][t] + history["IS"][t] + history["R"][t] + history["D"][t] == N
    {
      RecordedSumsToN(N, history, hs, t);
    }
    assert "R" in Codes && "D" in Codes && Codes["R"] == R && Codes["D"] == D;
    forall t | 0 < t < TMax
      ensures history["R"][t - 1] <= history["R"][t] && history["D"][t - 1] <= history["D"][t]
    {
      assert NoFall(hs[t - 1], hs[t]);
      assert history["R"][t - 1] == Count(hs[t - 1], R) && history["R"][t] == Count(hs[t], R);
      assert history["D"][t - 1] == Count(hs[t - 1], D) && history["D"][t] == Count(hs[t], D);
    }
  }

  /**
   * The whole script: N people, the sampled ones infected, then T_MAX days.
   * Each history list ends with T_MAX entries, each day's six counts add up
   * to N, R and D never fall, the people end in the statuses Days gives, and
   * entry t of each list counts its code after day t + 1 of those days.
   */
  method Simulate(params: PersonParams, graph: seq<seq<nat>>, initialInfected: seq<nat>, seedIncubations: seq<int>,
                  days: seq<DayDraws>) returns (people: seq<Person>, history: map<string, seq<nat>>)
    requires WellFormedGraph(graph, N)
    requires |initialInfected| == NumInitial && Distinct(initialInfected) && forall id :: id in initialInfected ==> id < N
    requires |seedIncubations| == N
    requires |days| == TMax && forall t :: 0 <= t < TMax ==> WellFormedDay(graph, days[t])
    ensures |people| == N
    ensures history.Keys == Codes.Keys && forall k :: k in Codes ==> |history[k]| == TMax
    ensures forall t :: 0 <= t < TMax ==>
              history["S"][t] + history["E"][t] + history["IA"][t] + history["IS"][t] + history["R"][t] + history["D"][t] == N
    ensures forall t :: 0 < t < TMax ==> history["R"][t - 1] <= history["R"][t] && history["D"][t - 1] <= history["D"][t]
    ensures Statuses(people) == Days(Seeded(initialInfected, seedIncubations), graph, days, params, TMax)
    ensures forall k, t :: k in Codes && 0 <= t < TMax ==>
              history[k][t] == Count(StateCodes(Days(Seeded(initialInfected, seedIncubations), graph, days, params, t + 1)),
                                     Codes[k])
  {
    people := Setup(params, initialInfected, seedIncubations);
    ghost var start := Statuses(people);
    ghost var hs, trace;
    history, hs, trace := RunDays(people, graph, days, params);
    HistoryFacts(history, hs);
    TraceIsDays(trace, graph, days, params, TMax);
    forall k, t | k in Codes && 0 <= t < TMax
      ensures history[k][t] == Count(StateCodes(Days(start, graph, days, params, t + 1)), Codes[k])
    {
      TraceIsDays(trace, graph, days, params, t + 1);
      assert hs[t] == StateCodes(trace[t + 1]);
    }
  }
}
