/**
 * Interventions and their manager (src/intervention/interventions.py).
 * The base intervention only raises NotImplementedError; the manager keeps
 * a list and applies every entry once, in list order, before the day's
 * phases. An entry that raises stops the loop, with the effects of the
 * entries before it already in place.
 *
 * An intervention acts on the parts of a model it touches: the day, the
 * configured contacts_by_group, the current_contacts_by_group attribute
 * Lockdown writes (absent until then) and the agents' mask efficacies.
 */
module Interventions {
  import opened Common
  import opened SeiardAgent
  import opened InterventionExamples

  /** The base class and its two subclasses, with the subclasses' default parameters. */
  datatype Intervention =
    | Base
    | Lockdown(startDay: int, endDay: int, reductionFactor: real := 0.1)
    | Masks(startDay: int, endDay: int, compliance: real := 0.8, efficacy: real := 0.5)

  /** What interventions can change on a model. */
  datatype Target = Target(currentContactsByGroup: Option<map<string, int>>, maskEffs: seq<real>)

  /** The model afterwards, and whether NotImplementedError was raised. */
  datatype Effect = Effect(target: Target, failed: bool)

  /**
   * One intervention's apply: the base class fails and changes nothing,
   * Lockdown writes only the contact counts and Masks only the mask
   * efficacies.
   */
  function Applied(itv: Intervention, day: int, contactsByGroup: map<string, int>, t: Target, draws: seq<Uniform>)
    : (r: Effect)
    requires |draws| == |t.maskEffs|
    ensures |r.target.maskEffs| == |t.maskEffs|
    ensures r.failed <==> itv.Base?
    ensures itv.Base? ==> r.target == t
    ensures itv.Lockdown? ==>
              r.target.maskEffs == t.maskEffs
              && r.target.currentContactsByGroup
                 == Some(LockdownContacts(day, itv.startDay, itv.endDay, itv.reductionFactor, contactsByGroup))
    ensures itv.Masks? ==>
              r.target.currentContactsByGroup == t.currentContactsByGroup
              && r.target.maskEffs == Masked(day, itv.startDay, itv.endDay, itv.compliance, itv.efficacy, draws)
  {
    match itv
    case Base => Effect(t, true)
    case Lockdown(startDay, endDay, factor) =>
      Effect(t.(currentContactsByGroup := Some(LockdownContacts(day, startDay, endDay, factor, contactsByGroup))), false)
    case Masks(startDay, endDay, compliance, efficacy) =>
      Effect(t.(maskEffs := Masked(day, startDay, endDay, compliance, efficacy, draws)), false)
  }

  /** Supplied draws for a list of interventions: one per agent for each entry. */
  predicate WellFormedDraws(itvs: seq<Intervention>, n: nat, draws: seq<seq<Uniform>>)
  {
    |draws| == |itvs| && forall i :: 0 <= i < |draws| ==> |draws[i]| == n
  }

  /** The manager's apply: the entries in list order, stopping at the first that raises. */
  function AppliedAll(itvs: seq<Intervention>, day: int, contactsByGroup: map<string, int>, t: Target,
                      draws: seq<seq<Uniform>>): (r: Effect)
    requires WellFormedDraws(itvs, |t.maskEffs|, draws)
    ensures |r.target.maskEffs| == |t.maskEffs|
    ensures r.failed <==> Base in itvs
    ensures itvs == [] ==> r == Effect(t, false)
  {
    if itvs == [] then Effect(t, false)
    else
      var n := |itvs| - 1;
      assert WellFormedDraws(itvs[..n], |t.maskEffs|, draws[..n]);
      var before := AppliedAll(itvs[..n], day, contactsByGroup, t, draws[..n]);
      assert itvs == itvs[..n] + [itvs[n]];
      if before.failed then before
      else Applied(itvs[n], day, contactsByGroup, before.target, draws[n])
  }

  /**
   * The entries run in order: applying xs + ys is applying ys to what xs
   * left, as long as no entry of xs raised.
   */
  lemma {:induction false} AppliedAllAppend(xs: seq<Intervention>, ys: seq<Intervention>, day: int,
                                            contactsByGroup: map<string, int>, t: Target,
                                            dx: seq<seq<Uniform>>, dy: seq<seq<Uniform>>)
    requires WellFormedDraws(xs, |t.maskEffs|, dx) && WellFormedDraws(ys, |t.maskEffs|, dy)
    requires Base !in xs
    ensures WellFormedDraws(xs + ys, |t.maskEffs|, dx + dy)
    ensures AppliedAll(xs + ys, day, contactsByGroup, t, dx + dy)
            == AppliedAll(ys, day, contactsByGroup, AppliedAll(xs, day, contactsByGroup, t, dx).target, dy)
    decreases |ys|
  {
    if ys == [] {
      assert xs + ys == xs && dx + dy == dx;
    } else {
      var n := |ys| - 1;
      AppliedAllAppend(xs, ys[..n], day, contactsByGroup, t, dx, dy[..n]);
      assert (xs + ys)[..|xs + ys| - 1] == xs + ys[..n];
      assert (dx + dy)[..|dx + dy| - 1] == dx + dy[..n];
    }
  }

  /** Once an entry has raised, the entries after it are not applied. */
  lemma {:induction false} FailureStops(itvs: seq<Intervention>, m: nat, day: int, contactsByGroup: map<string, int>,
                                        t: Target, draws: seq<seq<Uniform>>)
    requires WellFormedDraws(itvs, |t.maskEffs|, draws) && m <= |itvs|
    requires WellFormedDraws(itvs[..m], |t.maskEffs|, draws[..m])
    requires AppliedAll(itvs[..m], day, contactsByGroup, t, draws[..m]).failed
    ensures AppliedAll(itvs, day, contactsByGroup, t, draws) == AppliedAll(itvs[..m], day, contactsByGroup, t, draws[..m])
    decreases |itvs| - m
  {
    if m < |itvs| {
      var n := |itvs| - 1;
      assert itvs[..n][..m] == itvs[..m] && draws[..n][..m] == draws[..m];
      FailureStops(itvs[..n], m, day, contactsByGroup, t, draws[..n]);
    } else {
      assert itvs[..m] == itvs && draws[..m] == draws;
    }
  }

  /**
   * When two entries write the contact counts, the later one's value is
   * what remains: after a run without failures, the counts are the ones
   * of the last Lockdown in the list.
   */
  lemma {:induction false} LastLockdownWins(itvs: seq<Intervention>, j: nat, day: int,
                                            contactsByGroup: map<string, int>, t: Target,
                                            draws: seq<seq<Uniform>>)
    requires WellFormedDraws(itvs, |t.maskEffs|, draws)
    requires Base !in itvs && j < |itvs| && itvs[j].Lockdown?
    requires forall k :: j < k < |itvs| ==> !itvs[k].Lockdown?
    ensures AppliedAll(itvs, day, contactsByGroup, t, draws).target.currentContactsByGroup
            == Some(LockdownContacts(day, itvs[j].startDay, itvs[j].endDay, itvs[j].reductionFactor, contactsByGroup))
  {
    var n := |itvs| - 1;
    assert itvs == itvs[..n] + [itvs[n]];
    if j < n {
      LastLockdownWins(itvs[..n], j, day, contactsByGroup, t, draws[..n]);
    }
  }

  /** Likewise for the mask efficacies: the last Masks entry decides them. */
  lemma {:induction false} LastMasksWins(itvs: seq<Intervention>, j: nat, day: int,
                                         contactsByGroup: map<string, int>, t: Target,
                                         draws: seq<seq<Uniform>>)
    requires WellFormedDraws(itvs, |t.maskEffs|, draws)
    requires Base !in itvs && j < |itvs| && itvs[j].Masks?
    requires forall k :: j < k < |itvs| ==> !itvs[k].Masks?
    ensures AppliedAll(itvs, day, contactsByGroup, t, draws).target.maskEffs
            == Masked(day, itvs[j].startDay, itvs[j].endDay, itvs[j].compliance, itvs[j].efficacy, draws[j])
  {
    var n := |itvs| - 1;
    assert itvs == itvs[..n] + [itvs[n]];
    if j < n {
      LastMasksWins(itvs[..n], j, day, contactsByGroup, t, draws[..n]);
    }
  }

  /** Lockdown for a fixed day leaves the model as it found it when applied a second time. */
  lemma LockdownIdempotent(itv: Intervention, day: int, contactsByGroup: map<string, int>, t: Target,
                           draws: seq<Uniform>)
    requires itv.Lockdown? && |draws| == |t.maskEffs|
    ensures Applied(itv, day, contactsByGroup, Applied(itv, day, contactsByGroup, t, draws).target, draws)
            == Applied(itv, day, contactsByGroup, t, draws)
  {
  }

  class InterventionManager {
    var interventions: seq<Intervention>

    /** `interventions or []`: None and the empty list both give an empty list. */
    constructor(interventions: Option<seq<Intervention>>)
      ensures this.interventions == if interventions.Some? then interventions.value else []
    {
      this.interventions := if interventions.Some? && interventions.value != [] then interventions.value else [];
    }

    method Add(itv: Intervention)
      modifies this
      ensures interventions == old(interventions) + [itv]
    {
      interventions := interventions + [itv];
    }

    /**
     * apply(model): every entry once, in list order, each with its own
     * per-agent draws; returns the model's new current_contacts_by_group
     * and whether an entry raised. Nothing but the mask efficacies changes
     * on the agents.
     */
    method Apply(day: int, contactsByGroup: map<string, int>, agents: seq<AgentSeiard>,
                 current: Option<map<string, int>>, draws: seq<seq<Uniform>>)
      returns (current': Option<map<string, int>>, failed: bool)
      requires Distinct(agents) && WellFormedDraws(interventions, |agents|, draws)
      modifies agents
      ensures Effect(Target(current', MaskEffs(agents)), failed)
              == AppliedAll(interventions, day, contactsByGroup, Target(current, old(MaskEffs(agents))), draws)
      ensures forall i :: 0 <= i < |agents| ==>
                agents[i].Current() == old(agents[i].Current()) && agents[i].ageGroup == old(agents[i].ageGroup)
                && agents[i].vaccinated == old(agents[i].vaccinated)
    {
      ghost var start := Target(current, MaskEffs(agents));
      current', failed := current, false;
      var k := 0;
      while k < |interventions|
        invariant 0 <= k <= |interventions|
        invariant !failed
        invariant WellFormedDraws(interventions[..k], |agents|, draws[..k])
        invariant Effect(Target(current', MaskEffs(agents)), false)
                  == AppliedAll(interventions[..k], day, contactsByGroup, start, draws[..k])
        invariant forall i :: 0 <= i < |agents| ==>
                    agents[i].Current() == old(agents[i].Current()) && agents[i].ageGroup == old(agents[i].ageGroup)
                    && agents[i].vaccinated == old(agents[i].vaccinated)
      {
        ghost var before := Target(current', MaskEffs(agents));
        assert interventions[..k + 1][..k] == interventions[..k] && draws[..k + 1][..k] == draws[..k];
        assert interventions[..k + 1][k] == interventions[k] && draws[..k + 1][k] == draws[k];
        match interventions[k] {
          case Base =>
            failed := true;
            FailureStops(interventions, k + 1, day, contactsByGroup, start, draws);
            return;
          case Lockdown(startDay, endDay, factor) =>
            current' := Some(LockdownContacts(day, startDay, endDay, factor, contactsByGroup));
          case Masks(startDay, endDay, compliance, efficacy) =>
            ApplyMasks(agents, day, startDay, endDay, compliance, efficacy, draws[k]);
        }
        k := k + 1;
      }
      assert interventions[..k] == interventions && draws[..k] == draws;
    }
  }
}
