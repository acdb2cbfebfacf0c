/**
 * The series derived from a reported cumulative case count
 * (src/data/load_data.py): the active-case estimate over a window of D
 * days, and the S, I and I_cum lists of load_data.
 *
 * Reading the CSV file and parsing its dates and numbers is not part of
 * this model: the parsed list of cumulative totals is the input. A Python
 * IndexError is the Err result.
 */
module LoadData {
  import opened Common

  /** The one error the estimator can raise. */
  datatype LoadError = IndexError

  /** What load_data returns, without the dates. */
  datatype Series = Series(s: seq<int>, i: seq<int>, iCum: seq<int>)

  /**
   * The estimator returns instead of raising: with a negative window only
   * on an empty list (every later index t - D is past the end), with a zero
   * window always, and with a positive window only when index D + 1 exists.
   */
  predicate Estimable(cumulative: seq<int>, window: int)
  {
    if window < 0 then cumulative == [] else window == 0 || window + 1 < |cumulative|
  }

  /** The first loop's list: 0 for the first D days, then the new cases of the last D days. */
  function Differences(cumulative: seq<int>, window: int): (active: seq<int>)
    requires window >= 0 || cumulative == []
    ensures |active| == |cumulative|
  {
    seq(|cumulative|, t requires 0 <= t < |cumulative| =>
      if t < window then 0 else cumulative[t] - cumulative[t - window])
  }

  /** The second loop's list: the first D entries replaced by entry D + 1. */
  function Filled(active: seq<int>, window: nat): (filled: seq<int>)
    requires window + 1 < |active|
    ensures |filled| == |active|
  {
    seq(|active|, t requires 0 <= t < |active| => if t < window then active[window + 1] else active[t])
  }

  /**
   * The estimate: the new cases of the last D days from day D on, and the
   * first D days copied from day D + 1. A zero window gives all zeros.
   */
  function Active(cumulative: seq<int>, window: int): (active: seq<int>)
    requires Estimable(cumulative, window)
    ensures |active| == |cumulative|
    ensures forall t :: 0 <= t < |cumulative| && window <= t ==> active[t] == cumulative[t] - cumulative[t - window]
    ensures forall t :: 0 <= t < window ==> active[t] == active[window + 1]
    ensures window == 0 ==> forall t :: 0 <= t < |active| ==> active[t] == 0
  {
    if window > 0 then Filled(Differences(cumulative, window), window) else Differences(cumulative, window)
  }

  /** Each day's total is at least the day before's. */
  predicate Nondecreasing(cumulative: seq<int>)
  {
    forall t :: 0 < t < |cumulative| ==> cumulative[t - 1] <= cumulative[t]
  }

  /** A non-decreasing list is ordered between any two days. */
  lemma {:induction false} NondecreasingOrdered(cumulative: seq<int>, i: nat, j: nat)
    requires Nondecreasing(cumulative) && i <= j < |cumulative|
    ensures cumulative[i] <= cumulative[j]
    decreases j - i
  {
    if i < j {
      NondecreasingOrdered(cumulative, i, j - 1);
    }
  }

  /**
   * From non-decreasing totals the estimate is never negative, and from
   * non-negative ones it never exceeds the day's total.
   */
  lemma ActiveBounds(cumulative: seq<int>, window: int)
    requires Estimable(cumulative, window) && Nondecreasing(cumulative)
    ensures forall t :: 0 <= t < |cumulative| ==> 0 <= Active(cumulative, window)[t]
    ensures (forall t :: 0 <= t < |cumulative| ==> 0 <= cumulative[t]) ==>
              forall t :: window <= t < |cumulative| && 0 <= t ==> Active(cumulative, window)[t] <= cumulative[t]
  {
    var active := Active(cumulative, window);
    forall t | 0 <= t < |cumulative| && window <= t
      ensures 0 <= active[t]
    {
      NondecreasingOrdered(cumulative, t - window, t);
    }
    if window > 0 {
      assert 0 <= active[window + 1];
    }
  }

  /**
   * estimate_active_from_cumulative: the window differences appended day by
   * day, then the first D entries overwritten with entry D + 1; an
   * IndexError exactly when the list is too short for the window.
   */
  method EstimateActive(cumulative: seq<int>, window: int := 8) returns (r: Result<seq<int>, LoadError>)
    ensures r.Ok? <==> Estimable(cumulative, window)
    ensures r.Ok? ==> r.value == Active(cumulative, window)
  {
    var differences := WindowDifferences(cumulative, window);
    if differences.Err? {
      return differences;
    }
    var active := differences.value;
    if window > 0 {
      r := CopyPrefix(active, window);
    } else {
      r := Ok(active);
    }
  }

  /** The first loop: the window differences appended day by day, or the IndexError of a negative window. */
  method WindowDifferences(cumulative: seq<int>, window: int) returns (r: Result<seq<int>, LoadError>)
    ensures r.Ok? <==> window >= 0 || cumulative == []
    ensures r.Ok? ==> r.value == Differences(cumulative, window)
  {
    var active: seq<int> := [];
    for t := 0 to |cumulative|
      invariant |active| == t
      invariant t == 0 || t - 1 - window < |cumulative|
      invariant forall k {:trigger active[k]} :: 0 <= k < t ==>
                  active[k] == if k < window then 0 else cumulative[k] - cumulative[k - window]
    {
      ghost var previous := active;
      if t < window {
        active := active + [0];
      } else {
        if t - window >= |cumulative| {
          return Err(IndexError);
        }
        active := active + [cumulative[t] - cumulative[t - window]];
      }
      assert forall k :: 0 <= k < t ==> active[k] == previous[k];
    }
    assert window >= 0 || cumulative == [];
    r := Ok(active);
  }

  /** The second loop: the first D entries overwritten with entry D + 1, which must exist. */
  method CopyPrefix(active: seq<int>, window: nat) returns (r: Result<seq<int>, LoadError>)
    requires window > 0
    ensures r.Ok? <==> window + 1 < |active|
    ensures r.Ok? ==> r.value == Filled(active, window)
  {
    var filled := active;
    for t := 0 to window
      invariant |filled| == |active|
      invariant t > 0 ==> window + 1 < |active|
      invariant forall k :: 0 <= k < |filled| ==> filled[k] == if k < t then active[window + 1] else active[k]
    {
      if window + 1 >= |filled| {
        return Err(IndexError);
      }
      filled := filled[t := filled[window + 1]];
    }
    r := Ok(filled);
  }

  /** S = population - I, day by day. */
  function Susceptible(population: int, active: seq<int>): (s: seq<int>)
    ensures |s| == |active|
    ensures forall k :: 0 <= k < |s| ==> s[k] + active[k] == population
  {
    seq(|active|, k requires 0 <= k < |active| => population - active[k])
  }

  /**
   * load_data on the parsed totals: I_cum is the list unchanged, I the
   * estimate with D = inf_period_mean and S its complement in the
   * population; the estimator's IndexError propagates.
   */
  method LoadSeries(cumulative: seq<int>, population: int := 125000, infPeriodMean: int := 8)
    returns (r: Result<Series, LoadError>)
    ensures r.Ok? <==> Estimable(cumulative, infPeriodMean)
    ensures r.Ok? ==> r.value == Series(Susceptible(population, Active(cumulative, infPeriodMean)),
                                        Active(cumulative, infPeriodMean), cumulative)
  {
    var iCumulative := cumulative;
    var estimate := EstimateActive(cumulative, infPeriodMean);
    if estimate.Err? {
      return Err(estimate.error);
    }
    var i := estimate.value;
    var s := seq(|i|, k requires 0 <= k < |i| => population - i[k]);
    r := Ok(Series(s, i, iCumulative));
  }

  /**
   * The loaded series line up day by day: S + I is the population, and
   * from non-decreasing, non-negative totals I is never negative and S
   * never exceeds the population.
   */
  lemma SeriesBounds(cumulative: seq<int>, population: int, infPeriodMean: int)
    requires Estimable(cumulative, infPeriodMean) && Nondecreasing(cumulative)
    ensures var series := Series(Susceptible(population, Active(cumulative, infPeriodMean)),
                                 Active(cumulative, infPeriodMean), cumulative);
            && |series.s| == |series.i| == |series.iCum|
            && forall k :: 0 <= k < |series.s| ==> series.s[k] + series.i[k] == population && series.s[k] <= population
  {
    ActiveBounds(cumulative, infPeriodMean);
  }
}
