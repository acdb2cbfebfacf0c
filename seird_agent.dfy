/**
 * The SEIR-D individual (src/seird/agent_seird.py): a state code and a
 * days_remaining timer. infect moves S to E, progress counts the timer of
 * an E or I agent down and, when it runs out, moves E to I or I to R/D.
 *
 * The normal timer draws are supplied already passed through int(), and
 * random.random() as a Uniform.
 */
module SeirdAgent {
  import opened Common

  /** State codes, as `range(5)` numbers them (R is 3 and D is 4). */
  const S := 0
  const E := 1
  const I := 2
  const R := 3
  const D := 4

  /** The parameters the agent and its network engine read (src/seird/config_seird.py). */
  datatype ConfigSeird = ConfigSeird(n: nat, i0: nat, contactsPerDay: nat, pInfect: real, mortalityRate: real)

  /** The part of an agent its transitions read and write. */
  datatype Status = Status(state: int, daysRemaining: int)

  /** The states whose timer progress counts down. */
  predicate Timed(state: int)
  {
    state == E || state == I
  }

  /** The states nothing ever leaves. */
  predicate Terminal(state: int)
  {
    state == R || state == D
  }

  predicate Infectious(state: int)
  {
    state == I
  }

  /** is_infectious holds in I only; in particular an exposed agent does not transmit. */
  lemma InfectiousStates(state: int)
    ensures Infectious(state) <==> state == I
    ensures !Infectious(E) && !Infectious(S) && !Infectious(R) && !Infectious(D)
  {
  }

  /** infect: S becomes E with a timer of max(1, draw) days; any other state is left alone. */
  function Infected(s: Status, incubation: int): (r: Status)
    ensures s.state == S ==> r.state == E && r.daysRemaining >= 1
    ensures s.state == S && incubation >= 1 ==> r.daysRemaining == incubation
    ensures s.state == S && incubation < 1 ==> r.daysRemaining == 1
    ensures s.state != S ==> r == s
  {
    if s.state == S then Status(E, AtLeastOneDay(incubation)) else s
  }

  /** become_infectious: I with a timer of max(1, draw) days, whatever the state was. */
  function BecameInfectious(period: int): (r: Status)
    ensures Infectious(r.state) && r.daysRemaining >= 1
    ensures period >= 1 ==> r.daysRemaining == period
    ensures period < 1 ==> r.daysRemaining == 1
  {
    Status(I, AtLeastOneDay(period))
  }

  /**
   * progress: S, R and D are untouched; in E or I the timer drops by one,
   * and the state changes only when it reaches zero or below, E to I with a
   * fresh timer and I to D exactly when the draw is below mortality_rate,
   * else to R. Afterwards a timed agent always has at least one day left.
   */
  function Progressed(s: Status, period: int, u: Uniform, mortalityRate: real): (r: Status)
    ensures !Timed(s.state) ==> r == s
    ensures Timed(s.state) && s.daysRemaining - 1 > 0 ==> r == Status(s.state, s.daysRemaining - 1)
    ensures s.state == E && s.daysRemaining - 1 <= 0 ==> r == BecameInfectious(period)
    ensures s.state == I && s.daysRemaining - 1 <= 0 ==>
              Terminal(r.state) && (r.state == D <==> u < mortalityRate) && r.daysRemaining == s.daysRemaining - 1
    ensures Timed(r.state) ==> r.daysRemaining >= 1
    ensures s.state == S <==> r.state == S
  {
    if Timed(s.state) then
      var days := s.daysRemaining - 1;
      if days <= 0 then
        if s.state == E then BecameInfectious(period)
        else Status(if u < mortalityRate then D else R, days)
      else Status(s.state, days)
    else s
  }

  /** The supplied draws of one progress call. */
  datatype Draws = Draws(period: int, u: Uniform)

  /** progress called once per element of `draws`, in order. */
  function ProgressedDays(s: Status, draws: seq<Draws>, mortalityRate: real): Status
    decreases |draws|
  {
    if draws == [] then s
    else ProgressedDays(Progressed(s, draws[0].period, draws[0].u, mortalityRate), draws[1..], mortalityRate)
  }

  /** R and D are terminal: no number of progress calls moves an agent out of them. */
  lemma {:induction false} TerminalStays(s: Status, draws: seq<Draws>, mortalityRate: real)
    requires Terminal(s.state)
    ensures ProgressedDays(s, draws, mortalityRate) == s
    decreases |draws|
  {
    if draws != [] {
      TerminalStays(s, draws[1..], mortalityRate);
    }
  }

  /**
   * An infectious agent with d >= 1 days remaining is recovered or dead
   * after exactly d progress calls, and still infectious before that.
   */
  lemma {:induction false} InfectiousPeriodEnds(s: Status, draws: seq<Draws>, mortalityRate: real)
    requires s.state == I && s.daysRemaining >= 1
    ensures |draws| < s.daysRemaining ==>
              ProgressedDays(s, draws, mortalityRate) == Status(I, s.daysRemaining - |draws|)
    ensures |draws| >= s.daysRemaining ==> Terminal(ProgressedDays(s, draws, mortalityRate).state)
    decreases |draws|
  {
    if draws != [] {
      var next := Progressed(s, draws[0].period, draws[0].u, mortalityRate);
      if s.daysRemaining == 1 {
        TerminalStays(next, draws[1..], mortalityRate);
      } else {
        InfectiousPeriodEnds(next, draws[1..], mortalityRate);
      }
    }
  }

  /**
   * An exposed agent with d >= 1 days remaining becomes infectious on
   * exactly the d-th progress call, with the timer that call draws.
   */
  lemma {:induction false} IncubationEnds(s: Status, draws: seq<Draws>, mortalityRate: real)
    requires s.state == E && s.daysRemaining >= 1 && |draws| >= s.daysRemaining
    ensures ProgressedDays(s, draws[..s.daysRemaining], mortalityRate)
            == BecameInfectious(draws[s.daysRemaining - 1].period)
    decreases s.daysRemaining
  {
    var next := Progressed(s, draws[0].period, draws[0].u, mortalityRate);
    var prefix := draws[..s.daysRemaining];
    assert prefix[0] == draws[0];
    if s.daysRemaining > 1 {
      IncubationEnds(next, draws[1..], mortalityRate);
      assert prefix[1..] == draws[1..][..next.daysRemaining];
    } else {
      assert prefix[1..] == [];
    }
  }

  class AgentSeird {
    const params: ConfigSeird
    var state: int
    var daysRemaining: int

    /** The agent's status as a value. */
    function Current(): Status
      reads this
    {
      Status(state, daysRemaining)
    }

    /** A new agent in the given state (S by default) with no days remaining. */
    constructor(params: ConfigSeird, state: int := S)
      ensures this.params == params && Current() == Status(state, 0)
    {
      this.params := params;
      this.state := state;
      daysRemaining := 0;
    }

    method Infect(incubation: int)
      modifies this
      ensures Current() == Infected(old(Current()), incubation)
    {
      if state == S {
        state := E;
        daysRemaining := AtLeastOneDay(incubation);
      }
    }

    method BecomeInfectious(period: int)
      modifies this
      ensures Current() == BecameInfectious(period)
    {
      state := I;
      daysRemaining := AtLeastOneDay(period);
    }

    /** `period` is used only when an E agent expires, `u` only when an I agent does. */
    method Progress(period: int, u: Uniform)
      modifies this
      ensures Current() == Progressed(old(Current()), period, u, params.mortalityRate)
    {
      if state == E || state == I {
        daysRemaining := daysRemaining - 1;
        if daysRemaining <= 0 {
          if state == E {
            BecomeInfectious(period);
          } else if state == I {
            if u < params.mortalityRate {
              state := D;
            } else {
              state := R;
            }
          }
        }
      }
    }

    predicate IsInfectious()
      reads this
    {
      Infectious(state)
    }

    /** Inherited from the SIR agent: the code 0, which is S here too. */
    predicate IsSusceptible()
      reads this
    {
      state == S
    }
  }
}
