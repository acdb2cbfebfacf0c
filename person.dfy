/**
 * The older SEIAR-D individual of the script simulation (src/SEIR-D/person.py):
 * an id, a state code, a symptomatic flag and a days_remaining timer. A
 * vaccinated person starts recovered and so can never be infected.
 *
 * The parameter dictionary becomes a record of the entries compared
 * against draws; timer draws are supplied already passed through int(),
 * random.random() as a Uniform.
 */
module SeirdPerson {
  import opened Common

  /** State codes, as `range(6)` numbers them (IS is 2 and IA is 3). */
  const S := 0
  const E := 1
  const IS := 2
  const IA := 3
  const R := 4
  const D := 5

  /**
   * The entries of the parameter dictionary that are compared against draws:
   * the two transmission probabilities the simulation reads and the two
   * the transitions read.
   */
  datatype PersonParams = PersonParams(pInfectIS: real, pInfectIA: real, pSymptomatic: real, mortalityRate: real)

  /** The part of a person its transitions read and write. */
  datatype Status = Status(state: int, daysRemaining: int, symptomatic: bool)

  predicate Timed(state: int)
  {
    state == E || state == IA || state == IS
  }

  predicate Terminal(state: int)
  {
    state == R || state == D
  }

  predicate Infectious(state: int)
  {
    state == IA || state == IS
  }

  /** is_infectious holds in IA and IS only. */
  lemma InfectiousStates(state: int)
    ensures Infectious(state) <==> state == IA || state == IS
    ensures !Infectious(E) && !Infectious(S) && !Infectious(R) && !Infectious(D)
  {
  }

  /** A new person: R when vaccinated, else S, not symptomatic, no timer. */
  function Initial(vaccinated: bool): (s: Status)
    ensures s.state == S <==> !vaccinated
    ensures s.state == R <==> vaccinated
    ensures !s.symptomatic && s.daysRemaining == 0
  {
    Status(if vaccinated then R else S, 0, false)
  }

  /** infect: S becomes E with a timer of max(1, draw) days; any other state is left alone. */
  function Infected(s: Status, incubation: int): (r: Status)
    ensures s.state == S ==> r.state == E && r.daysRemaining >= 1 && r.symptomatic == s.symptomatic
    ensures s.state == S && incubation >= 1 ==> r.daysRemaining == incubation
    ensures s.state == S && incubation < 1 ==> r.daysRemaining == 1
    ensures s.state != S ==> r == s
  {
    if s.state == S then s.(state := E, daysRemaining := AtLeastOneDay(incubation)) else s
  }

  /**
   * become_infectious: IS exactly when the draw is below p_symptomatic,
   * else IA; the symptomatic flag records which, and the timer is
   * max(1, period) days.
   */
  function BecameInfectious(symptomatic: Uniform, period: int, params: PersonParams): (r: Status)
    ensures Infectious(r.state) && r.daysRemaining >= 1
    ensures r.state == IS <==> symptomatic < params.pSymptomatic
    ensures r.symptomatic <==> r.state == IS
    ensures period >= 1 ==> r.daysRemaining == period
    ensures period < 1 ==> r.daysRemaining == 1
  {
    if symptomatic < params.pSymptomatic then Status(IS, AtLeastOneDay(period), true)
    else Status(IA, AtLeastOneDay(period), false)
  }

  /** The supplied draws of one progress call. */
  datatype Draws = Draws(symptomatic: Uniform, period: int, death: Uniform)

  /**
   * progress: nothing happens outside E, IA and IS; inside them the timer
   * drops by exactly one and the state changes only when it reaches zero or
   * below: E becomes infectious, IA and IS become D exactly when the draw
   * is below mortality_rate, else R. Afterwards a timed person always has
   * at least one day left.
   */
  function Progressed(s: Status, d: Draws, params: PersonParams): (r: Status)
    ensures !Timed(s.state) ==> r == s
    ensures Timed(s.state) && s.daysRemaining - 1 > 0 ==> r == s.(daysRemaining := s.daysRemaining - 1)
    ensures s.state == E && s.daysRemaining - 1 <= 0 ==> r == BecameInfectious(d.symptomatic, d.period, params)
    ensures Infectious(s.state) && s.daysRemaining - 1 <= 0 ==>
              Terminal(r.state) && (r.state == D <==> d.death < params.mortalityRate)
              && r.daysRemaining == s.daysRemaining - 1 && r.symptomatic == s.symptomatic
    ensures Timed(r.state) ==> r.daysRemaining >= 1
  {
    if Timed(s.state) then
      var days := s.daysRemaining - 1;
      if days <= 0 then
        if s.state == E then BecameInfectious(d.symptomatic, d.period, params)
        else s.(state := if d.death < params.mortalityRate then D else R, daysRemaining := days)
      else s.(daysRemaining := days)
    else s
  }

  /** What can happen to a person on a day: an infection attempt or a progress call. */
  datatype Event = InfectEvent(incubation: int) | ProgressEvent(draws: Draws)

  function Lived(s: Status, events: seq<Event>, params: PersonParams): Status
    decreases |events|
  {
    if events == [] then s
    else
      var next := match events[0]
        case InfectEvent(incubation) => Infected(s, incubation)
        case ProgressEvent(d) => Progressed(s, d, params);
      Lived(next, events[1..], params)
  }

  /** R and D are terminal under any sequence of infections and progress calls. */
  lemma {:induction false} TerminalStays(s: Status, events: seq<Event>, params: PersonParams)
    requires Terminal(s.state)
    ensures Lived(s, events, params) == s
    decreases |events|
  {
    if events != [] {
      TerminalStays(s, events[1..], params);
    }
  }

  /** A vaccinated person is never infected, whatever happens to them. */
  lemma {:induction false} VaccinatedNeverInfected(events: seq<Event>, params: PersonParams)
    ensures Lived(Initial(true), events, params).state == R
  {
    TerminalStays(Initial(true), events, params);
  }

  class Person {
    const id: int
    const params: PersonParams
    var state: int
    var symptomatic: bool
    var daysRemaining: int

    function Current(): Status
      reads this
    {
      Status(state, daysRemaining, symptomatic)
    }

    constructor(pid: int, params: PersonParams, vaccinated: bool := false)
      ensures id == pid && this.params == params && Current() == Initial(vaccinated)
    {
      id := pid;
      this.params := params;
      state := if vaccinated then R else S;
      symptomatic := false;
      daysRemaining := 0;
    }

    method Infect(incubation: int)
      modifies this
      ensures Current() == Infected(old(Current()), incubation)
    {
      if state == S {
        state := E;
        daysRemaining := AtLeastOneDay(incubation);
      }
    }

    method Progress(d: Draws)
      modifies this
      ensures Current() == Progressed(old(Current()), d, params)
    {
      if state == E || state == IA || state == IS {
        daysRemaining := daysRemaining - 1;
        if daysRemaining <= 0 {
          if state == E {
            BecomeInfectious(d.symptomatic, d.period);
          } else if state == IA || state == IS {
            if d.death < params.mortalityRate {
              state := D;
            } else {
              state := R;
            }
          }
        }
      }
    }

    method BecomeInfectious(symptomaticDraw: Uniform, period: int)
      modifies this
      ensures Current() == BecameInfectious(symptomaticDraw, period, params)
    {
      if symptomaticDraw < params.pSymptomatic {
        state := IS;
        symptomatic := true;
        daysRemaining := AtLeastOneDay(period);
      } else {
        state := IA;
        symptomatic := false;
        daysRemaining := AtLeastOneDay(period);
      }
    }

    predicate IsInfectious()
      reads this
    {
      Infectious(state)
    }
  }
}
