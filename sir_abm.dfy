/**
 * The well-mixed SIR engine (src/abm.py). Each day runs four phases in
 * order: a read-only scan in which every infectious agent makes
 * contacts_per_day uniformly random contacts and records the susceptible
 * targets that the transmission draw infects; a batch application that
 * re-checks susceptibility; the timer update with recovery; and the
 * appending of the S/I/R counts.
 *
 * random.sample, random.randrange and random.random are supplied: the
 * seeded agent indices, and one Contact (target, uniform draw) per attempt.
 */
module SirAbm {
  import opened Common
  import opened SirAgent

  /** The parameters the engine reads (src/model_config.py). */
  datatype ModelConfig = ModelConfig(n: nat, i0: nat, contactsPerDay: nat, pTrans: real, infectiousDays: int)

  /** One contact attempt: the random.randrange(N) target and the random.random() draw. */
  datatype Contact = Contact(target: nat, u: Uniform)

  /** One day's draws: contacts[i] holds agent i's contacts_per_day attempts, each aimed at an agent. */
  predicate WellFormedContacts(cfg: ModelConfig, contacts: seq<seq<Contact>>)
  {
    && |contacts| == cfg.n
    && forall i :: 0 <= i < |contacts| ==>
         && |contacts[i]| == cfg.contactsPerDay
         && forall k :: 0 <= k < |contacts[i]| ==> contacts[i][k].target < cfg.n
  }

  // ---------------------------------------------------------------------
  // Phase 1: the candidates for infection.

  /** The candidates one infectious agent's attempts `cs` add, in attempt order. */
  function Attempts(agents: seq<Agent>, cs: seq<Contact>, p: real): (ids: seq<nat>)
    requires forall k :: 0 <= k < |cs| ==> cs[k].target < |agents|
    ensures |ids| <= |cs|
    ensures forall id :: id in ids ==> id < |agents| && IsSusceptible(agents[id])
  {
    if cs == [] then []
    else
      var c := cs[|cs| - 1];
      Attempts(agents, cs[..|cs| - 1], p)
        + (if IsSusceptible(agents[c.target]) && c.u < p then [c.target] else [])
  }

  /**
   * The candidate list after scanning agents 0..n-1: only infectious agents
   * contribute, only susceptible targets are recorded, and each infectious
   * agent adds at most contacts_per_day ids.
   */
  function Candidates(agents: seq<Agent>, contacts: seq<seq<Contact>>, cfg: ModelConfig, n: nat): (ids: seq<nat>)
    requires |agents| == cfg.n && WellFormedContacts(cfg, contacts) && n <= cfg.n
    ensures forall id :: id in ids ==> id < |agents| && IsSusceptible(agents[id])
    ensures |ids| <= Count(States(agents[..n]), INF) * cfg.contactsPerDay
  {
    if n == 0 then []
    else
      var before := Candidates(agents, contacts, cfg, n - 1);
      var mine := if IsInfectious(agents[n - 1]) then Attempts(agents, contacts[n - 1], cfg.pTrans) else [];
      CandidatesStep(agents, cfg.contactsPerDay, n, |before|, |mine|);
      before + mine
  }

  /** The arithmetic step of the bound in Candidates. */
  lemma CandidatesStep(agents: seq<Agent>, k: nat, n: nat, before: nat, mine: nat)
    requires 0 < n <= |agents|
    requires before <= Count(States(agents[..n - 1]), INF) * k
    requires mine <= (if IsInfectious(agents[n - 1]) then k else 0)
    ensures before + mine <= Count(States(agents[..n]), INF) * k
  {
    var s := States(agents[..n]);
    assert s[..|s| - 1] == States(agents[..n - 1]) by {
      assert agents[..n][..n - 1] == agents[..n - 1];
    }
    var c := Count(States(agents[..n - 1]), INF);
    if IsInfectious(agents[n - 1]) {
      assert Count(s, INF) == c + 1;
      MulStep(c, k);
    } else {
      assert Count(s, INF) == c;
    }
  }

  /**
   * Attempt k of agent i names `id` as a candidate: agent i is infectious, the
   * attempt's target is `id`, that target is susceptible and the draw is below
   * p_trans.
   */
  predicate InfectingContact(agents: seq<Agent>, contacts: seq<seq<Contact>>, cfg: ModelConfig, i: nat, k: nat, id: nat)
    requires |agents| == cfg.n && WellFormedContacts(cfg, contacts) && i < cfg.n && k < cfg.contactsPerDay
  {
    && IsInfectious(agents[i])
    && contacts[i][k].target == id
    && IsSusceptible(agents[contacts[i][k].target])
    && contacts[i][k].u < cfg.pTrans
  }

  /** Attempt k of one agent hits: its target is susceptible and the draw is below p. */
  predicate Hit(agents: seq<Agent>, cs: seq<Contact>, p: real, k: nat)
    requires k < |cs| && cs[k].target < |agents|
  {
    IsSusceptible(agents[cs[k].target]) && cs[k].u < p
  }

  /** Every id an agent's attempts add is the target of one of its hits. */
  lemma {:induction false} AttemptsSound(agents: seq<Agent>, cs: seq<Contact>, p: real, id: nat)
    requires forall k :: 0 <= k < |cs| ==> cs[k].target < |agents|
    requires id in Attempts(agents, cs, p)
    ensures exists k :: 0 <= k < |cs| && cs[k].target == id && Hit(agents, cs, p, k)
  {
    var last := |cs| - 1;
    var front := cs[..last];
    if id in Attempts(agents, front, p) {
      AttemptsSound(agents, front, p, id);
      var k :| 0 <= k < |front| && front[k].target == id && Hit(agents, front, p, k);
      assert cs[k] == front[k];
      assert Hit(agents, cs, p, k);
    } else {
      assert cs[last].target == id && Hit(agents, cs, p, last);
    }
  }

  /** The target of every hit of an agent is among the ids its attempts add. */
  lemma {:induction false} AttemptsComplete(agents: seq<Agent>, cs: seq<Contact>, p: real, k: nat)
    requires forall k :: 0 <= k < |cs| ==> cs[k].target < |agents|
    requires k < |cs| && Hit(agents, cs, p, k)
    ensures cs[k].target in Attempts(agents, cs, p)
  {
    var last := |cs| - 1;
    var front := cs[..last];
    if k < last {
      assert front[k] == cs[k];
      assert Hit(agents, front, p, k);
      AttemptsComplete(agents, front, p, k);
    }
  }

  /** One agent's attempts name exactly the targets of its hits. */
  lemma AttemptsExactly(agents: seq<Agent>, cs: seq<Contact>, p: real, id: nat)
    requires forall k :: 0 <= k < |cs| ==> cs[k].target < |agents|
    ensures id in Attempts(agents, cs, p) <==> exists k :: 0 <= k < |cs| && cs[k].target == id && Hit(agents, cs, p, k)
  {
    if id in Attempts(agents, cs, p) {
      AttemptsSound(agents, cs, p, id);
    }
    if exists k :: 0 <= k < |cs| && cs[k].target == id && Hit(agents, cs, p, k) {
      var k :| 0 <= k < |cs| && cs[k].target == id && Hit(agents, cs, p, k);
      AttemptsComplete(agents, cs, p, k);
    }
  }

  /** Every candidate the scan of agents 0..n-1 records comes from an infecting attempt. */
  lemma {:induction false} CandidatesSound(agents: seq<Agent>, contacts: seq<seq<Contact>>, cfg: ModelConfig, n: nat, id: nat)
    requires |agents| == cfg.n && WellFormedContacts(cfg, contacts) && n <= cfg.n
    requires id in Candidates(agents, contacts, cfg, n)
    ensures exists i, k :: 0 <= i < n && 0 <= k < cfg.contactsPerDay && InfectingContact(agents, contacts, cfg, i, k, id)
  {
    var before := Candidates(agents, contacts, cfg, n - 1);
    var mine := if IsInfectious(agents[n - 1]) then Attempts(agents, contacts[n - 1], cfg.pTrans) else [];
    assert Candidates(agents, contacts, cfg, n) == before + mine;
    if id in before {
      CandidatesSound(agents, contacts, cfg, n - 1, id);
      var i, k :| 0 <= i < n - 1 && 0 <= k < cfg.contactsPerDay && InfectingContact(agents, contacts, cfg, i, k, id);
      assert InfectingContact(agents, contacts, cfg, i, k, id);
    } else {
      assert id in mine;
      AttemptsSound(agents, contacts[n - 1], cfg.pTrans, id);
      var k :| 0 <= k < |contacts[n - 1]| && contacts[n - 1][k].target == id && Hit(agents, contacts[n - 1], cfg.pTrans, k);
      assert InfectingContact(agents, contacts, cfg, n - 1, k, id);
    }
  }

  /** Every infecting attempt of agents 0..n-1 puts its target among the candidates. */
  lemma {:induction false} CandidatesComplete(agents: seq<Agent>, contacts: seq<seq<Contact>>, cfg: ModelConfig,
                                              n: nat, i: nat, k: nat, id: nat)
    requires |agents| == cfg.n && WellFormedContacts(cfg, contacts) && n <= cfg.n
    requires i < n && k < cfg.contactsPerDay && InfectingContact(agents, contacts, cfg, i, k, id)
    ensures id in Candidates(agents, contacts, cfg, n)
  {
    var before := Candidates(agents, contacts, cfg, n - 1);
    var mine := if IsInfectious(agents[n - 1]) then Attempts(agents, contacts[n - 1], cfg.pTrans) else [];
    assert Candidates(agents, contacts, cfg, n) == before + mine;
    if i == n - 1 {
      assert Hit(agents, contacts[n - 1], cfg.pTrans, k);
      AttemptsComplete(agents, contacts[n - 1], cfg.pTrans, k);
      assert id in mine;
    } else {
      CandidatesComplete(agents, contacts, cfg, n - 1, i, k, id);
    }
  }

  /**
   * The scan of agents 0..n-1 is sound and complete: an id is a candidate
   * exactly when some attempt of one of those agents infects it.
   */
  lemma CandidatesExactly(agents: seq<Agent>, contacts: seq<seq<Contact>>, cfg: ModelConfig, n: nat, id: nat)
    requires |agents| == cfg.n && WellFormedContacts(cfg, contacts) && n <= cfg.n
    ensures id in Candidates(agents, contacts, cfg, n) <==>
              exists i, k :: 0 <= i < n && 0 <= k < cfg.contactsPerDay && InfectingContact(agents, contacts, cfg, i, k, id)
  {
    if id in Candidates(agents, contacts, cfg, n) {
      CandidatesSound(agents, contacts, cfg, n, id);
    }
    if exists i, k :: 0 <= i < n && 0 <= k < cfg.contactsPerDay && InfectingContact(agents, contacts, cfg, i, k, id) {
      var i, k :| 0 <= i < n && 0 <= k < cfg.contactsPerDay && InfectingContact(agents, contacts, cfg, i, k, id);
      CandidatesComplete(agents, contacts, cfg, n, i, k, id);
    }
  }

  // ---------------------------------------------------------------------
  // Phase 2: the batch application.

  /**
   * Applying the candidates `ids` one by one, each only if its agent is still
   * susceptible: an agent ends up infectious with a fresh timer exactly when
   * it was susceptible and named at least once, so repeated ids change nothing.
   */
  function Infect(agents: seq<Agent>, ids: seq<nat>): (r: seq<Agent>)
    requires forall id :: id in ids ==> id < |agents|
    ensures |r| == |agents|
    ensures forall i :: 0 <= i < |agents| ==>
              r[i] == if i in ids && IsSusceptible(agents[i]) then Agent(INF, 0) else agents[i]
  {
    if ids == [] then agents
    else
      var front := ids[..|ids| - 1];
      var id := ids[|ids| - 1];
      assert ids == front + [id];
      assert forall x :: x in front ==> x in ids;
      assert id in ids;
      var prev := Infect(agents, front);
      if IsSusceptible(prev[id]) then prev[id := Agent(INF, 0)] else prev
  }

  /** A candidate named a second time is a no-op. */
  lemma InfectIgnoresDuplicate(agents: seq<Agent>, ids: seq<nat>, id: nat)
    requires forall x :: x in ids ==> x < |agents|
    requires id in ids
    ensures Infect(agents, ids + [id]) == Infect(agents, ids)
  {
    var a := Infect(agents, ids + [id]);
    var b := Infect(agents, ids);
    forall i | 0 <= i < |agents| ensures a[i] == b[i] {
      assert i in ids + [id] <==> i in ids;
    }
  }

  // ---------------------------------------------------------------------
  // Phase 3: timers and recovery.

  /**
   * An infectious agent's days_infected rises by exactly one and it recovers
   * exactly when the new value reaches infectious_days; every other agent is
   * left as it is.
   */
  function Tick(a: Agent, infectiousDays: int): (r: Agent)
    ensures IsInfectious(a) ==> r.daysInfected == a.daysInfected + 1
    ensures IsInfectious(a) ==> (r.state == REC <==> a.daysInfected + 1 >= infectiousDays)
    ensures IsInfectious(a) ==> (r.state == INF <==> a.daysInfected + 1 < infectiousDays)
    ensures !IsInfectious(a) ==> r == a
  {
    if IsInfectious(a) then
      var days := a.daysInfected + 1;
      Agent(if days >= infectiousDays then REC else INF, days)
    else a
  }

  function Ticked(agents: seq<Agent>, infectiousDays: int): (r: seq<Agent>)
    ensures |r| == |agents|
    ensures forall i :: 0 <= i < |agents| ==> r[i] == Tick(agents[i], infectiousDays)
  {
    if agents == [] then []
    else Ticked(agents[..|agents| - 1], infectiousDays) + [Tick(agents[|agents| - 1], infectiousDays)]
  }

  // ---------------------------------------------------------------------
  // A whole day, and what it preserves.

  /** Phases 1 to 3 of one day, on the agent list. */
  function Day(agents: seq<Agent>, contacts: seq<seq<Contact>>, cfg: ModelConfig): seq<Agent>
    requires |agents| == cfg.n && WellFormedContacts(cfg, contacts)
  {
    Ticked(Infect(agents, Candidates(agents, contacts, cfg, cfg.n)), cfg.infectiousDays)
  }

  /** The agents after the first t days, day u using draws[u]. */
  function Days(agents: seq<Agent>, draws: seq<seq<seq<Contact>>>, cfg: ModelConfig, t: nat): (r: seq<Agent>)
    requires |agents| == cfg.n && t <= |draws|
    requires forall u :: 0 <= u < |draws| ==> WellFormedContacts(cfg, draws[u])
    ensures |r| == cfg.n
  {
    if t == 0 then agents
    else
      var before := Days(agents, draws, cfg, t - 1);
      Day(before, draws[t - 1], cfg)
  }

  /**
   * Within a day nothing re-enters SUSC, REC is absorbing, and every agent
   * keeps a valid state code.
   */
  lemma DayTransitions(agents: seq<Agent>, contacts: seq<seq<Contact>>, cfg: ModelConfig, i: nat)
    requires |agents| == cfg.n && WellFormedContacts(cfg, contacts) && i < cfg.n
    ensures |Day(agents, contacts, cfg)| == cfg.n
    ensures IsSusceptible(Day(agents, contacts, cfg)[i]) ==> IsSusceptible(agents[i])
    ensures agents[i].state == REC ==> Day(agents, contacts, cfg)[i] == agents[i]
    ensures ValidState(agents[i].state) ==> ValidState(Day(agents, contacts, cfg)[i].state)
  {
  }

  lemma DayKeepsValid(agents: seq<Agent>, contacts: seq<seq<Contact>>, cfg: ModelConfig)
    requires |agents| == cfg.n && WellFormedContacts(cfg, contacts) && AllValid(agents)
    ensures AllValid(Day(agents, contacts, cfg))
  {
    forall i | 0 <= i < cfg.n ensures ValidState(Day(agents, contacts, cfg)[i].state) {
      DayTransitions(agents, contacts, cfg, i);
    }
  }

  /** The S/I/R counts of a list of valid agents add up to its length. */
  lemma {:induction false} Conservation(agents: seq<Agent>)
    requires forall i :: 0 <= i < |agents| ==> ValidState(agents[i].state)
    ensures Count(States(agents), SUSC) + Count(States(agents), INF) + Count(States(agents), REC) == |agents|
  {
    var s := States(agents);
    var vs := [SUSC, INF, REC];
    CountsPartition(s, vs);
    assert vs[..2] == [SUSC, INF] && [SUSC, INF][..1] == [SUSC] && [SUSC][..0] == [];
    assert CountAll(s, [SUSC]) == Count(s, SUSC);
    assert CountAll(s, [SUSC, INF]) == Count(s, SUSC) + Count(s, INF);
  }

  /** The number of susceptible agents never grows from one day to the next. */
  lemma {:induction false} SusceptibleNeverGrows(agents: seq<Agent>, contacts: seq<seq<Contact>>, cfg: ModelConfig)
    requires |agents| == cfg.n && WellFormedContacts(cfg, contacts)
    ensures Count(States(Day(agents, contacts, cfg)), SUSC) <= Count(States(agents), SUSC)
  {
    var after := Day(agents, contacts, cfg);
    forall i | 0 <= i < cfg.n && States(after)[i] == SUSC
      ensures States(agents)[i] == SUSC
    {
      DayTransitions(agents, contacts, cfg, i);
    }
    CountMonotone(States(after), States(agents), SUSC);
  }

  /** The number of recovered agents never shrinks from one day to the next. */
  lemma {:induction false} RecoveredNeverShrinks(agents: seq<Agent>, contacts: seq<seq<Contact>>, cfg: ModelConfig)
    requires |agents| == cfg.n && WellFormedContacts(cfg, contacts)
    ensures Count(States(agents), REC) <= Count(States(Day(agents, contacts, cfg)), REC)
  {
    var after := Day(agents, contacts, cfg);
    forall i | 0 <= i < cfg.n && States(agents)[i] == REC
      ensures States(after)[i] == REC
    {
      DayTransitions(agents, contacts, cfg, i);
    }
    CountMonotone(States(agents), States(after), REC);
  }

  /** Every agent carries one of the three SIR codes. */
  predicate AllValid(agents: seq<Agent>)
  {
    forall i :: 0 <= i < |agents| ==> ValidState(agents[i].state)
  }

  /**
   * The S/I/R series of the engine: equally long, every record sums to N,
   * the S series never increases, and its last entry is the current number
   * of susceptible agents.
   */
  predicate Recorded(n: nat, dailyS: seq<nat>, dailyI: seq<nat>, dailyR: seq<nat>, agents: seq<Agent>)
  {
    && |dailyI| == |dailyS| && |dailyR| == |dailyS|
    && (forall t :: 0 <= t < |dailyS| ==> dailyS[t] + dailyI[t] + dailyR[t] == n)
    && (forall t :: 0 < t < |dailyS| ==> dailyS[t] <= dailyS[t - 1])
    && (|dailyS| > 0 ==> dailyS[|dailyS| - 1] == Count(States(agents), SUSC))
  }

  /** Appending a record that sums to N and does not exceed the last S entry keeps both series facts. */
  lemma SeriesAppend(n: nat, dailyS: seq<nat>, dailyI: seq<nat>, dailyR: seq<nat>, s: nat, i: nat, r: nat)
    requires |dailyI| == |dailyS| && |dailyR| == |dailyS|
    requires forall t :: 0 <= t < |dailyS| ==> dailyS[t] + dailyI[t] + dailyR[t] == n
    requires forall t :: 0 < t < |dailyS| ==> dailyS[t] <= dailyS[t - 1]
    requires s + i + r == n
    requires |dailyS| > 0 ==> s <= dailyS[|dailyS| - 1]
    ensures forall t :: 0 <= t <= |dailyS| ==> (dailyS + [s])[t] + (dailyI + [i])[t] + (dailyR + [r])[t] == n
    ensures forall t :: 0 < t <= |dailyS| ==> (dailyS + [s])[t] <= (dailyS + [s])[t - 1]
  {
    var last := |dailyS|;
    var dailyS', dailyI', dailyR' := dailyS + [s], dailyI + [i], dailyR + [r];
    forall t | 0 <= t < |dailyS'| ensures dailyS'[t] + dailyI'[t] + dailyR'[t] == n {
      if t < last {
        assert dailyS'[t] == dailyS[t] && dailyI'[t] == dailyI[t] && dailyR'[t] == dailyR[t];
      }
    }
    forall t | 0 < t < |dailyS'| ensures dailyS'[t] <= dailyS'[t - 1] {
      if t < last {
        assert dailyS'[t] == dailyS[t];
      }
    }
  }

  /** Appending the counts of a day that did not add susceptible agents keeps the series recorded. */
  lemma LogKeepsRecorded(n: nat, dailyS: seq<nat>, dailyI: seq<nat>, dailyR: seq<nat>, before: seq<Agent>,
                         dailyS': seq<nat>, dailyI': seq<nat>, dailyR': seq<nat>, after: seq<Agent>)
    requires Recorded(n, dailyS, dailyI, dailyR, before)
    requires |after| == n && AllValid(after)
    requires Count(States(after), SUSC) <= Count(States(before), SUSC)
    requires dailyS' == dailyS + [Count(States(after), SUSC)]
    requires dailyI' == dailyI + [Count(States(after), INF)]
    requires dailyR' == dailyR + [Count(States(after), REC)]
    ensures Recorded(n, dailyS', dailyI', dailyR', after)
  {
    var s, i, r := Count(States(after), SUSC), Count(States(after), INF), Count(States(after), REC);
    Conservation(after);
    SeriesAppend(n, dailyS, dailyI, dailyR, s, i, r);
    assert dailyS'[|dailyS'| - 1] == s;
  }

  /** One day followed by the logging of its counts keeps the series recorded and the codes valid. */
  lemma DayKeepsRecorded(cfg: ModelConfig, contacts: seq<seq<Contact>>, before: seq<Agent>,
                         dailyS: seq<nat>, dailyI: seq<nat>, dailyR: seq<nat>,
                         dailyS': seq<nat>, dailyI': seq<nat>, dailyR': seq<nat>)
    requires |before| == cfg.n && WellFormedContacts(cfg, contacts) && AllValid(before)
    requires Recorded(cfg.n, dailyS, dailyI, dailyR, before)
    requires dailyS' == dailyS + [Count(States(Day(before, contacts, cfg)), SUSC)]
    requires dailyI' == dailyI + [Count(States(Day(before, contacts, cfg)), INF)]
    requires dailyR' == dailyR + [Count(States(Day(before, contacts, cfg)), REC)]
    ensures AllValid(Day(before, contacts, cfg))
    ensures Recorded(cfg.n, dailyS', dailyI', dailyR', Day(before, contacts, cfg))
  {
    var after := Day(before, contacts, cfg);
    DayKeepsValid(before, contacts, cfg);
    SusceptibleNeverGrows(before, contacts, cfg);
    LogKeepsRecorded(cfg.n, dailyS, dailyI, dailyR, before, dailyS', dailyI', dailyR', after);
  }

  /** The population right after seeding: exactly the sampled agents are INF, all others SUSC. */
  lemma SeededPopulation(agents: seq<Agent>, initialInfected: seq<nat>)
    requires Distinct(initialInfected)
    requires forall id :: id in initialInfected ==> id < |agents|
    requires forall i :: 0 <= i < |agents| ==> agents[i] == NewAgent(if i in initialInfected then INF else SUSC)
    ensures AllValid(agents)
    ensures Count(States(agents), INF) == |initialInfected|
    ensures Count(States(agents), SUSC) == |agents| - |initialInfected|
  {
    var states := States(agents);
    assert forall i :: 0 <= i < |states| ==> states[i] == (if i in initialInfected then INF else SUSC);
    CountOfPicked(states, INF, initialInfected);
    Conservation(agents);
    assert forall i :: 0 <= i < |states| ==> states[i] != REC;
    assert REC !in states;
  }

  // ---------------------------------------------------------------------
  // The engine object.

  /** Record k of the three series holds the S, I and R counts of `agents`. */
  predicate Logs(dailyS: seq<nat>, dailyI: seq<nat>, dailyR: seq<nat>, k: nat, agents: seq<Agent>)
  {
    && k < |dailyS| && k < |dailyI| && k < |dailyR|
    && dailyS[k] == Count(States(agents), SUSC)
    && dailyI[k] == Count(States(agents), INF)
    && dailyR[k] == Count(States(agents), REC)
  }

  /** Record first + t holds the counts after day t + 1 of `draws`, started from `start`. */
  predicate LogsDay(dailyS: seq<nat>, dailyI: seq<nat>, dailyR: seq<nat>, first: nat,
                    start: seq<Agent>, draws: seq<seq<seq<Contact>>>, cfg: ModelConfig, t: nat)
    requires |start| == cfg.n && t < |draws|
    requires forall u :: 0 <= u < |draws| ==> WellFormedContacts(cfg, draws[u])
  {
    Logs(dailyS, dailyI, dailyR, first + t, Days(start, draws, cfg, t + 1))
  }

  /** Appending one record to each series keeps every earlier day's record. */
  lemma LogsKept(dailyS: seq<nat>, dailyI: seq<nat>, dailyR: seq<nat>, x: nat, y: nat, z: nat, first: nat,
                 start: seq<Agent>, draws: seq<seq<seq<Contact>>>, cfg: ModelConfig, t: nat)
    requires |start| == cfg.n && t <= |draws|
    requires forall u :: 0 <= u < |draws| ==> WellFormedContacts(cfg, draws[u])
    requires forall u :: 0 <= u < t ==> LogsDay(dailyS, dailyI, dailyR, first, start, draws, cfg, u)
    ensures forall u :: 0 <= u < t ==> LogsDay(dailyS + [x], dailyI + [y], dailyR + [z], first, start, draws, cfg, u)
  {
    forall u | 0 <= u < t
      ensures LogsDay(dailyS + [x], dailyI + [y], dailyR + [z], first, start, draws, cfg, u)
    {
      assert LogsDay(dailyS, dailyI, dailyR, first, start, draws, cfg, u);
    }
  }

  /** The appended record is day t + 1's. */
  /** The first t logged days and day t together are the first t + 1. */
  lemma LogsMerge(dailyS: seq<nat>, dailyI: seq<nat>, dailyR: seq<nat>, first: nat, start: seq<Agent>,
                  draws: seq<seq<seq<Contact>>>, cfg: ModelConfig, t: nat)
    requires |start| == cfg.n && t < |draws|
    requires forall u :: 0 <= u < |draws| ==> WellFormedContacts(cfg, draws[u])
    requires forall u :: 0 <= u < t ==> LogsDay(dailyS, dailyI, dailyR, first, start, draws, cfg, u)
    requires LogsDay(dailyS, dailyI, dailyR, first, start, draws, cfg, t)
    ensures forall u :: 0 <= u <= t ==> LogsDay(dailyS, dailyI, dailyR, first, start, draws, cfg, u)
  {
  }

  /** Logging the counts after day t extends the logs of the first t days by day t. */
  lemma DayLogged(dailyS: seq<nat>, dailyI: seq<nat>, dailyR: seq<nat>,
                  dailyS': seq<nat>, dailyI': seq<nat>, dailyR': seq<nat>, first: nat, start: seq<Agent>,
                  draws: seq<seq<seq<Contact>>>, cfg: ModelConfig, t: nat, before: seq<Agent>, after: seq<Agent>)
    requires |start| == cfg.n && t < |draws|
    requires forall u :: 0 <= u < |draws| ==> WellFormedContacts(cfg, draws[u])
    requires |dailyS| == |dailyI| == |dailyR| == first + t
    requires forall u :: 0 <= u < t ==> LogsDay(dailyS, dailyI, dailyR, first, start, draws, cfg, u)
    requires before == Days(start, draws, cfg, t) && after == Day(before, draws[t], cfg)
    requires dailyS' == dailyS + [Count(States(after), SUSC)]
    requires dailyI' == dailyI + [Count(States(after), INF)]
    requires dailyR' == dailyR + [Count(States(after), REC)]
    ensures after == Days(start, draws, cfg, t + 1)
    ensures forall u :: 0 <= u <= t ==> LogsDay(dailyS', dailyI', dailyR', first, start, draws, cfg, u)
  {
    assert after == Days(start, draws, cfg, t + 1);
    LogsKept(dailyS, dailyI, dailyR, Count(States(after), SUSC), Count(States(after), INF), Count(States(after), REC),
             first, start, draws, cfg, t);
    LogsLastDay(dailyS, dailyI, dailyR, first, start, draws, cfg, t, after);
    LogsMerge(dailyS', dailyI', dailyR', first, start, draws, cfg, t);
  }

  lemma LogsLastDay(dailyS: seq<nat>, dailyI: seq<nat>, dailyR: seq<nat>, first: nat,
                    start: seq<Agent>, draws: seq<seq<seq<Contact>>>, cfg: ModelConfig, t: nat, after: seq<Agent>)
    requires |start| == cfg.n && t < |draws|
    requires forall u :: 0 <= u < |draws| ==> WellFormedContacts(cfg, draws[u])
    requires |dailyS| == |dailyI| == |dailyR| == first + t
    requires after == Days(start, draws, cfg, t + 1)
    ensures LogsDay(dailyS + [Count(States(after), SUSC)], dailyI + [Count(States(after), INF)],
                    dailyR + [Count(States(after), REC)], first, start, draws, cfg, t)
  {
    assert Logs(dailyS + [Count(States(after), SUSC)], dailyI + [Count(States(after), INF)],
                    dailyR + [Count(States(after), REC)], first + t, after);
  }

  class Abm {
    const cfg: ModelConfig
    const agents: array<Agent>
    var dailyS: seq<nat>
    var dailyI: seq<nat>
    var dailyR: seq<nat>
    var day: int

    /** One agent per individual with a valid code, and one S/I/R record per completed day. */
    ghost predicate Valid()
      reads this, agents
    {
      && agents.Length == cfg.n
      && AllValid(agents[..])
      && |dailyS| == day
      && Recorded(cfg.n, dailyS, dailyI, dailyR, agents[..])
    }

    /**
     * All agents start susceptible, then the I0 distinct sampled indices are
     * made infectious: exactly I0 agents are INF and the other N - I0 SUSC.
     */
    constructor(cfg: ModelConfig, initialInfected: seq<nat>)
      requires |initialInfected| == cfg.i0 && Distinct(initialInfected)
      requires forall id :: id in initialInfected ==> id < cfg.n
      ensures Valid() && fresh(agents)
      ensures this.cfg == cfg && day == 0 && dailyS == [] && dailyI == [] && dailyR == []
      ensures forall i :: 0 <= i < cfg.n ==>
                agents[i] == NewAgent(if i in initialInfected then INF else SUSC)
      ensures Count(States(agents[..]), INF) == cfg.i0
      ensures Count(States(agents[..]), SUSC) == cfg.n - cfg.i0
    {
      var population := Seed(cfg.n, initialInfected);
      SeededPopulation(population[..], initialInfected);
      this.cfg := cfg;
      agents := population;
      dailyS, dailyI, dailyR := [], [], [];
      day := 0;
    }

    /** N fresh susceptible agents, then agents[i].state = INF for every sampled i. */
    static method Seed(n: nat, initialInfected: seq<nat>) returns (population: array<Agent>)
      requires forall id :: id in initialInfected ==> id < n
      ensures fresh(population) && population.Length == n
      ensures forall i :: 0 <= i < n ==>
                population[i] == NewAgent(if i in initialInfected then INF else SUSC)
    {
      population := new Agent[n](_ => NewAgent());
      for k := 0 to |initialInfected|
        invariant forall i :: 0 <= i < n ==>
                    population[i] == NewAgent(if i in initialInfected[..k] then INF else SUSC)
      {
        var idx := initialInfected[k];
        assert initialInfected[..k + 1] == initialInfected[..k] + [idx];
        assert idx in initialInfected;
        population[idx] := population[idx].(state := INF);
      }
      assert initialInfected[..|initialInfected|] == initialInfected;
    }

    /**
     * Phase 1: reads the agents only. Every collected id names an agent that
     * is susceptible at scan time, and the list holds at most
     * (#infectious) * contacts_per_day ids; duplicates are possible.
     */
    method CollectCandidates(contacts: seq<seq<Contact>>) returns (ids: seq<nat>)
      requires agents.Length == cfg.n && WellFormedContacts(cfg, contacts)
      ensures ids == Candidates(agents[..], contacts, cfg, cfg.n)
      ensures forall id :: id in ids ==> id < cfg.n && IsSusceptible(agents[id])
      ensures |ids| <= Count(States(agents[..]), INF) * cfg.contactsPerDay
    {
      ghost var snap := agents[..];
      ids := [];
      for i := 0 to cfg.n
        invariant ids == Candidates(snap, contacts, cfg, i)
      {
        if IsInfectious(agents[i]) {
          var found := AttemptContacts(contacts[i]);
          ids := ids + found;
        }
      }
      assert snap[..cfg.n] == snap;
    }

    /** The inner loop of phase 1: one infectious agent's contacts_per_day attempts. */
    method AttemptContacts(cs: seq<Contact>) returns (found: seq<nat>)
      requires forall k :: 0 <= k < |cs| ==> cs[k].target < agents.Length
      ensures found == Attempts(agents[..], cs, cfg.pTrans)
    {
      found := [];
      for k := 0 to |cs|
        invariant found == Attempts(agents[..], cs[..k], cfg.pTrans)
      {
        var c := cs[k];
        assert cs[..k + 1][..k] == cs[..k];
        if IsSusceptible(agents[c.target]) && c.u < cfg.pTrans {
          found := found + [c.target];
        }
      }
      assert cs[..|cs|] == cs;
    }

    /** Phase 2: each candidate that is still susceptible becomes INF with days_infected 0. */
    method ApplyInfections(ids: seq<nat>)
      requires forall id :: id in ids ==> id < agents.Length
      modifies agents
      ensures agents[..] == Infect(old(agents[..]), ids)
    {
      for k := 0 to |ids|
        invariant forall x :: x in ids[..k] ==> x in ids
        invariant agents[..] == Infect(old(agents[..]), ids[..k])
      {
        assert ids[..k + 1][..k] == ids[..k];
        assert ids[k] in ids;
        var tgt := agents[ids[k]];
        if IsSusceptible(tgt) {
          agents[ids[k]] := tgt.(state := INF, daysInfected := 0);
        }
      }
      assert ids[..|ids|] == ids;
    }

    /** Phase 3: every agent's timer is advanced by Tick. */
    method ProgressTimers()
      modifies agents
      ensures agents[..] == Ticked(old(agents[..]), cfg.infectiousDays)
    {
      for i := 0 to agents.Length
        invariant forall j :: 0 <= j < i ==> agents[j] == Tick(old(agents[j]), cfg.infectiousDays)
        invariant forall j :: i <= j < agents.Length ==> agents[j] == old(agents[j])
      {
        var ag := agents[i];
        if IsInfectious(ag) {
          ag := ag.(daysInfected := ag.daysInfected + 1);
          if ag.daysInfected >= cfg.infectiousDays {
            ag := ag.(state := REC);
          }
        }
        agents[i] := ag;
      }
    }

    /** Phase 4: appends today's S, I and R counts. */
    method LogCounts()
      modifies this
      ensures dailyS == old(dailyS) + [Count(States(agents[..]), SUSC)]
      ensures dailyI == old(dailyI) + [Count(States(agents[..]), INF)]
      ensures dailyR == old(dailyR) + [Count(States(agents[..]), REC)]
      ensures day == old(day)
    {
      var states := States(agents[..]);
      dailyS := dailyS + [Count(states, SUSC)];
      dailyI := dailyI + [Count(states, INF)];
      dailyR := dailyR + [Count(states, REC)];
    }

    /** Phases 1 to 3: the agent list becomes Day of the old one. */
    method Advance(contacts: seq<seq<Contact>>)
      requires agents.Length == cfg.n && WellFormedContacts(cfg, contacts)
      modifies agents
      ensures agents[..] == Day(old(agents[..]), contacts, cfg)
    {
      var ids := CollectCandidates(contacts);
      ApplyInfections(ids);
      ProgressTimers();
    }

    /**
     * One day: the four phases in order, then day + 1. The new agent list is
     * Day of the old one, and the engine invariant (conservation, S never
     * increasing) is preserved.
     */
    method Step(contacts: seq<seq<Contact>>)
      requires Valid() && WellFormedContacts(cfg, contacts)
      modifies this, agents
      ensures Valid()
      ensures agents[..] == Day(old(agents[..]), contacts, cfg)
      ensures dailyS == old(dailyS) + [Count(States(agents[..]), SUSC)]
      ensures dailyI == old(dailyI) + [Count(States(agents[..]), INF)]
      ensures dailyR == old(dailyR) + [Count(States(agents[..]), REC)]
      ensures day == old(day) + 1
    {
      ghost var before := agents[..];
      Advance(contacts);
      LogCounts();
      day := day + 1;
      DayKeepsRecorded(cfg, contacts, before, old(dailyS), old(dailyI), old(dailyR), dailyS, dailyI, dailyR);
    }

    /**
     * run(days): exactly `days` calls of Step, one per day of draws. The
     * agents end as Days gives them, the earlier records are kept, and the
     * t-th new record holds the S, I and R counts after day t + 1.
     */
    method Run(draws: seq<seq<seq<Contact>>>, days: nat := 67)
      requires Valid() && |draws| == days
      requires forall t :: 0 <= t < days ==> WellFormedContacts(cfg, draws[t])
      modifies this, agents
      ensures Valid()
      ensures agents[..] == Days(old(agents[..]), draws, cfg, days)
      ensures day == old(day) + days
      ensures |dailyS| == old(|dailyS|) + days
      ensures forall k :: 0 <= k < old(|dailyS|) ==>
                dailyS[k] == old(dailyS[k]) && dailyI[k] == old(dailyI[k]) && dailyR[k] == old(dailyR[k])
      ensures forall t :: 0 <= t < days ==> LogsDay(dailyS, dailyI, dailyR, old(|dailyS|), old(agents[..]), draws, cfg, t)
    {
      ghost var start := agents[..];
      ghost var s0, i0, r0 := dailyS, dailyI, dailyR;
      for t := 0 to days
        invariant Valid()
        invariant agents[..] == Days(start, draws, cfg, t)
        invariant day == old(day) + t
        invariant |dailyS| == |s0| + t
        invariant forall k :: 0 <= k < |s0| ==> dailyS[k] == s0[k] && dailyI[k] == i0[k] && dailyR[k] == r0[k]
        invariant forall u :: 0 <= u < t ==> LogsDay(dailyS, dailyI, dailyR, |s0|, start, draws, cfg, u)
      {
        RunDay(draws, t, start, s0, i0, r0);
      }
    }

    /** Iteration t of run: one Step, after which records 0 .. t of the run are logged. */
    method RunDay(draws: seq<seq<seq<Contact>>>, t: nat, ghost start: seq<Agent>,
                  ghost s0: seq<nat>, ghost i0: seq<nat>, ghost r0: seq<nat>)
      requires Valid() && t < |draws| && |start| == cfg.n
      requires forall u :: 0 <= u < |draws| ==> WellFormedContacts(cfg, draws[u])
      requires agents[..] == Days(start, draws, cfg, t) && |dailyS| == |s0| + t && |i0| == |r0| == |s0|
      requires forall k :: 0 <= k < |s0| ==> dailyS[k] == s0[k] && dailyI[k] == i0[k] && dailyR[k] == r0[k]
      requires forall u :: 0 <= u < t ==> LogsDay(dailyS, dailyI, dailyR, |s0|, start, draws, cfg, u)
      modifies this, agents
      ensures Valid() && agents[..] == Days(start, draws, cfg, t + 1)
      ensures day == old(day) + 1 && |dailyS| == |s0| + t + 1
      ensures forall k :: 0 <= k < |s0| ==> dailyS[k] == s0[k] && dailyI[k] == i0[k] && dailyR[k] == r0[k]
      ensures forall u :: 0 <= u <= t ==> LogsDay(dailyS, dailyI, dailyR, |s0|, start, draws, cfg, u)
    {
      ghost var s1, i1, r1, before := dailyS, dailyI, dailyR, agents[..];
      Step(draws[t]);
      DayLogged(s1, i1, r1, dailyS, dailyI, dailyR, |s0|, start, draws, cfg, t, before, agents[..]);
    }
  }
}
