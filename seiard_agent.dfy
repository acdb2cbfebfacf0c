/**
 * The SEIAR-D individual (src/seiard/agent_seiard.py): a state code, a
 * days_remaining timer, a mask efficacy, an age group and a vaccination
 * flag. An expiring E agent becomes symptomatic (IS) or asymptomatic (IA)
 * infectious, and an expiring IS/IA agent dies with the mortality of its
 * age group, otherwise recovers.
 *
 * Timer draws are supplied already passed through int(), random.random()
 * as a Uniform. The vaccination flag is read by the engine but never set by
 * the agent, so the model gives it no initial value.
 */
module SeiardAgent {
  import opened Common

  /** State codes, as `range(6)` numbers them (IS is 2 and IA is 3). */
  const S := 0
  const E := 1
  const IS := 2
  const IA := 3
  const R := 4
  const D := 5

  /**
   * The parameters the agent, its engine and the interventions read
   * (src/seiard/config_seiard.py). mortality_by_group and contacts_by_group
   * are read by the code but are not fields of the config class; here they
   * are given maps.
   */
  datatype ConfigSeiard = ConfigSeiard(
    n: nat, i0: nat, contactsPerDay: nat,
    pInfectIS: real, pInfectIA: real, pSymptomatic: real, mortalityRate: real,
    mortalityByGroup: map<string, real>, contactsByGroup: map<string, int>)

  /** The part of an agent its transitions read and write. */
  datatype Status = Status(state: int, daysRemaining: int)

  /** The outcome of progress: done, or the KeyError raised for an age group without a mortality entry. */
  datatype Outcome = Done(status: Status) | MissingAgeGroup(status: Status)

  predicate Timed(state: int)
  {
    state == E || state == IA || state == IS
  }

  predicate Terminal(state: int)
  {
    state == R || state == D
  }

  predicate Infectious(state: int)
  {
    state == IA || state == IS
  }

  /** is_infectious holds in IA and IS only; an exposed agent does not transmit. */
  lemma InfectiousStates(state: int)
    ensures Infectious(state) <==> state == IA || state == IS
    ensures !Infectious(E) && !Infectious(S) && !Infectious(R) && !Infectious(D)
  {
  }

  /** infect: S becomes E with a timer of max(1, draw) days; any other state is left alone. */
  function Infected(s: Status, incubation: int): (r: Status)
    ensures s.state == S ==> r.state == E && r.daysRemaining >= 1
    ensures s.state == S && incubation >= 1 ==> r.daysRemaining == incubation
    ensures s.state == S && incubation < 1 ==> r.daysRemaining == 1
    ensures s.state != S ==> r == s
  {
    if s.state == S then Status(E, AtLeastOneDay(incubation)) else s
  }

  /**
   * become_infectious: IS exactly when the draw is below p_symptomatic,
   * else IA, with a timer of max(1, period) days drawn for that branch.
   */
  function BecameInfectious(symptomatic: Uniform, period: int, pSymptomatic: real): (r: Status)
    ensures Infectious(r.state) && r.daysRemaining >= 1
    ensures r.state == IS <==> symptomatic < pSymptomatic
    ensures period >= 1 ==> r.daysRemaining == period
    ensures period < 1 ==> r.daysRemaining == 1
  {
    Status(if symptomatic < pSymptomatic then IS else IA, AtLeastOneDay(period))
  }

  /** The supplied draws of one progress call. */
  datatype Draws = Draws(symptomatic: Uniform, period: int, death: Uniform)

  /**
   * progress: S, R and D are untouched; in E, IA or IS the timer drops by
   * one and the state changes only when it reaches zero or below: E becomes
   * infectious, IA and IS become D exactly when the draw is below the
   * mortality of the agent's age group, else R. A missing age group fails
   * after the timer has already dropped. Afterwards a timed agent always
   * has at least one day left.
   */
  function Progressed(s: Status, d: Draws, cfg: ConfigSeiard, ageGroup: string): (r: Outcome)
    ensures !Timed(s.state) ==> r == Done(s)
    ensures Timed(s.state) && s.daysRemaining - 1 > 0 ==> r == Done(Status(s.state, s.daysRemaining - 1))
    ensures s.state == E && s.daysRemaining - 1 <= 0 ==>
              r == Done(BecameInfectious(d.symptomatic, d.period, cfg.pSymptomatic))
    ensures Infectious(s.state) && s.daysRemaining - 1 <= 0 && ageGroup in cfg.mortalityByGroup ==>
              r.Done? && Terminal(r.status.state) && r.status.daysRemaining == s.daysRemaining - 1
              && (r.status.state == D <==> d.death < cfg.mortalityByGroup[ageGroup])
    ensures r.MissingAgeGroup? <==> Infectious(s.state) && s.daysRemaining - 1 <= 0 && ageGroup !in cfg.mortalityByGroup
    ensures r.MissingAgeGroup? ==> r.status == Status(s.state, s.daysRemaining - 1)
    ensures r.Done? && Timed(r.status.state) ==> r.status.daysRemaining >= 1
  {
    if Timed(s.state) then
      var days := s.daysRemaining - 1;
      if days <= 0 then
        if s.state == E then Done(BecameInfectious(d.symptomatic, d.period, cfg.pSymptomatic))
        else if ageGroup in cfg.mortalityByGroup then
          Done(Status(if d.death < cfg.mortalityByGroup[ageGroup] then D else R, days))
        else MissingAgeGroup(Status(s.state, days))
      else Done(Status(s.state, days))
    else Done(s)
  }

  /** progress once per element of `draws`, stopping at the first failure. */
  function ProgressedDays(s: Status, draws: seq<Draws>, cfg: ConfigSeiard, ageGroup: string): Outcome
    decreases |draws|
  {
    if draws == [] then Done(s)
    else
      match Progressed(s, draws[0], cfg, ageGroup)
      case Done(next) => ProgressedDays(next, draws[1..], cfg, ageGroup)
      case failed => failed
  }

  /** R and D are terminal: no number of progress calls moves an agent out of them. */
  lemma {:induction false} TerminalStays(s: Status, draws: seq<Draws>, cfg: ConfigSeiard, ageGroup: string)
    requires Terminal(s.state)
    ensures ProgressedDays(s, draws, cfg, ageGroup) == Done(s)
    decreases |draws|
  {
    if draws != [] {
      TerminalStays(s, draws[1..], cfg, ageGroup);
    }
  }

  /**
   * An infectious agent of a known age group with d >= 1 days remaining
   * keeps its state for d - 1 progress calls and is recovered or dead after
   * the d-th.
   */
  lemma {:induction false} InfectiousPeriodEnds(s: Status, draws: seq<Draws>, cfg: ConfigSeiard, ageGroup: string)
    requires Infectious(s.state) && s.daysRemaining >= 1 && ageGroup in cfg.mortalityByGroup
    ensures |draws| < s.daysRemaining ==>
              ProgressedDays(s, draws, cfg, ageGroup) == Done(Status(s.state, s.daysRemaining - |draws|))
    ensures |draws| >= s.daysRemaining ==>
              ProgressedDays(s, draws, cfg, ageGroup).Done? && Terminal(ProgressedDays(s, draws, cfg, ageGroup).status.state)
    decreases |draws|
  {
    if draws != [] {
      var next := Progressed(s, draws[0], cfg, ageGroup).status;
      if s.daysRemaining == 1 {
        TerminalStays(next, draws[1..], cfg, ageGroup);
      } else {
        InfectiousPeriodEnds(next, draws[1..], cfg, ageGroup);
      }
    }
  }

  class AgentSeiard {
    const params: ConfigSeiard
    var state: int
    var daysRemaining: int
    var maskEff: real
    var ageGroup: string
    var vaccinated: bool

    function Current(): Status
      reads this
    {
      Status(state, daysRemaining)
    }

    /** A new agent in the given state (S by default) and age group ("adult" by default), no timer, no mask. */
    constructor(params: ConfigSeiard, state: int := S, ageGroup: string := "adult")
      ensures this.params == params && Current() == Status(state, 0)
      ensures maskEff == 0.0 && this.ageGroup == ageGroup
    {
      this.params := params;
      this.state := state;
      daysRemaining := 0;
      maskEff := 0.0;
      this.ageGroup := ageGroup;
    }

    method Infect(incubation: int)
      modifies this
      ensures Current() == Infected(old(Current()), incubation)
      ensures maskEff == old(maskEff) && ageGroup == old(ageGroup) && vaccinated == old(vaccinated)
    {
      if state == S {
        state := E;
        daysRemaining := AtLeastOneDay(incubation);
      }
    }

    method BecomeInfectious(symptomatic: Uniform, period: int)
      modifies this
      ensures Current() == BecameInfectious(symptomatic, period, params.pSymptomatic)
      ensures maskEff == old(maskEff) && ageGroup == old(ageGroup) && vaccinated == old(vaccinated)
    {
      if symptomatic < params.pSymptomatic {
        state := IS;
        daysRemaining := AtLeastOneDay(period);
      } else {
        state := IA;
        daysRemaining := AtLeastOneDay(period);
      }
    }

    /** `missingAgeGroup` is the KeyError; the decremented timer stays in place when it is raised. */
    method Progress(d: Draws) returns (missingAgeGroup: bool)
      modifies this
      ensures Current() == Progressed(old(Current()), d, params, ageGroup).status
      ensures missingAgeGroup <==> Progressed(old(Current()), d, params, ageGroup).MissingAgeGroup?
      ensures maskEff == old(maskEff) && ageGroup == old(ageGroup) && vaccinated == old(vaccinated)
    {
      missingAgeGroup := false;
      if state == E || state == IA || state == IS {
        daysRemaining := daysRemaining - 1;
        if daysRemaining <= 0 {
          if state == E {
            BecomeInfectious(d.symptomatic, d.period);
          } else if state == IA || state == IS {
            if ageGroup !in params.mortalityByGroup {
              missingAgeGroup := true;
            } else if d.death < params.mortalityByGroup[ageGroup] {
              state := D;
            } else {
              state := R;
            }
          }
        }
      }
    }

    predicate IsInfectious()
      reads this
    {
      Infectious(state)
    }

    /** Inherited from the SIR agent: the code 0, which is S here too. */
    predicate IsSusceptible()
      reads this
    {
      state == S
    }
  }
}
