/**
 * The two concrete interventions (src/intervention/interventions_examples.py).
 * Lockdown replaces the per-group contact counts by int(base * factor)
 * inside its inclusive day window and by a copy of the configured counts
 * outside it; Masks gives every agent the mask efficacy with probability
 * `compliance` inside its window and no mask outside it.
 *
 * Masks draws one random.random() per agent per day inside the window;
 * those draws are supplied.
 */
module InterventionExamples {
  import opened Common
  import opened SeiardAgent

  /** start_day <= day <= end_day, both ends included. */
  predicate InWindow(day: int, startDay: int, endDay: int)
  {
    startDay <= day <= endDay
  }

  /**
   * Lockdown.apply's new current_contacts_by_group: the same groups as
   * contacts_by_group, each truncated to int(base * factor) inside the
   * window and unchanged outside it.
   */
  function LockdownContacts(day: int, startDay: int, endDay: int, factor: real, base: map<string, int>)
    : (m: map<string, int>)
    ensures m.Keys == base.Keys
    ensures InWindow(day, startDay, endDay) ==>
              forall g :: g in base ==> m[g] == Trunc(base[g] as real * factor)
    ensures !InWindow(day, startDay, endDay) ==> m == base
  {
    if InWindow(day, startDay, endDay) then
      map g | g in base :: Trunc(base[g] as real * factor)
    else
      base
  }

  /** With a non-negative base and a factor in [0, 1], every reduced count lies in [0, base]. */
  lemma LockdownBounds(day: int, startDay: int, endDay: int, factor: real, base: map<string, int>, g: string)
    requires g in base && base[g] >= 0 && 0.0 <= factor <= 1.0
    ensures 0 <= LockdownContacts(day, startDay, endDay, factor, base)[g] <= base[g]
  {
    var b := base[g] as real;
    assert 0.0 <= b * factor <= b by {
      ScaleDown(b, factor);
    }
  }

  lemma ScaleDown(b: real, f: real)
    requires 0.0 <= b && 0.0 <= f <= 1.0
    ensures 0.0 <= b * f <= b
  {
    assert b * f <= b * 1.0;
  }

  /**
   * Masks.apply's mask efficacies for n agents: all 0 outside the window;
   * inside it, agent i gets `efficacy` exactly when its draw is below
   * `compliance`, else 0.
   */
  function Masked(day: int, startDay: int, endDay: int, compliance: real, efficacy: real, draws: seq<Uniform>)
    : (effs: seq<real>)
    ensures |effs| == |draws|
    ensures !InWindow(day, startDay, endDay) ==> forall i :: 0 <= i < |effs| ==> effs[i] == 0.0
    ensures InWindow(day, startDay, endDay) ==>
              forall i :: 0 <= i < |effs| ==> effs[i] == if draws[i] < compliance then efficacy else 0.0
  {
    if !InWindow(day, startDay, endDay) then seq(|draws|, _ => 0.0)
    else seq(|draws|, i requires 0 <= i < |draws| => if draws[i] < compliance then efficacy else 0.0)
  }

  /** The agents' mask efficacies, in order. */
  function MaskEffs(agents: seq<AgentSeiard>): (effs: seq<real>)
    reads agents
    ensures |effs| == |agents|
    ensures forall i :: 0 <= i < |agents| ==> effs[i] == agents[i].maskEff
  {
    seq(|agents|, i requires 0 <= i < |agents| reads agents => agents[i].maskEff)
  }

  /**
   * Masks.apply on the agents of a model: every mask efficacy becomes the
   * one Masked gives; states, timers, age groups and vaccination flags are
   * left alone.
   */
  method ApplyMasks(agents: seq<AgentSeiard>, day: int, startDay: int, endDay: int,
                    compliance: real, efficacy: real, draws: seq<Uniform>)
    requires Distinct(agents) && |draws| == |agents|
    modifies agents
    ensures MaskEffs(agents) == Masked(day, startDay, endDay, compliance, efficacy, draws)
    ensures forall i :: 0 <= i < |agents| ==>
              agents[i].Current() == old(agents[i].Current()) && agents[i].ageGroup == old(agents[i].ageGroup)
              && agents[i].vaccinated == old(agents[i].vaccinated)
  {
    if day < startDay || day > endDay {
      for i := 0 to |agents|
        invariant forall j :: 0 <= j < i ==> agents[j].maskEff == 0.0
        invariant forall j :: 0 <= j < |agents| ==>
                    agents[j].Current() == old(agents[j].Current()) && agents[j].ageGroup == old(agents[j].ageGroup)
                    && agents[j].vaccinated == old(agents[j].vaccinated)
      {
        agents[i].maskEff := 0.0;
      }
      return;
    }
    for i := 0 to |agents|
      invariant forall j :: 0 <= j < i ==> agents[j].maskEff == if draws[j] < compliance then efficacy else 0.0
      invariant forall j :: 0 <= j < |agents| ==>
                  agents[j].Current() == old(agents[j].Current()) && agents[j].ageGroup == old(agents[j].ageGroup)
                  && agents[j].vaccinated == old(agents[j].vaccinated)
    {
      if draws[i] < compliance {
        agents[i].maskEff := efficacy;
      } else {
        agents[i].maskEff := 0.0;
      }
    }
  }
}
