/**
 * Shared vocabulary of the epidemic models: supplied random draws,
 * optional and failing results, and counting of state codes
 * (Python's list.count) with the facts the engines need about it.
 */
module Common {

  /** One result of Python's random.random(): a real in [0, 1). */
  type Uniform = u: real | 0.0 <= u < 1.0

  datatype Option<+T> = None | Some(value: T)

  datatype Result<+T, +E> = Ok(value: T) | Err(error: E)

  /**
   * max(1, draw): every timed state is entered with a timer of at least
   * one day, whatever the (already truncated) normal draw was.
   */
  function AtLeastOneDay(draw: int): (days: int)
    ensures days >= 1
    ensures draw >= 1 ==> days == draw
    ensures draw < 1 ==> days == 1
  {
    if draw < 1 then 1 else draw
  }

  /** Python's int() on a float: truncation toward zero. */
  function Trunc(x: real): (n: int)
    ensures 0.0 <= x ==> 0 <= n && n as real <= x < n as real + 1.0
    ensures x < 0.0 ==> n <= 0 && n as real - 1.0 < x <= n as real
  {
    if x >= 0.0 then x.Floor else -((-x).Floor)
  }

  /** One more group of k: the step of every "at most c groups of k" bound. */
  lemma MulStep(c: nat, k: nat)
    ensures (c + 1) * k == c * k + k
  {
  }

  /** Python's `s.count(x)`. */
  function Count(s: seq<int>, x: int): (n: nat)
    ensures n <= |s|
    ensures n == 0 <==> x !in s
  {
    if s == [] then 0
    else Count(s[..|s| - 1], x) + (if s[|s| - 1] == x then 1 else 0)
  }

  /** Sum of `Count(s, v)` over the codes `vs`. */
  function CountAll(s: seq<int>, vs: seq<int>): nat
  {
    if vs == [] then 0 else CountAll(s, vs[..|vs| - 1]) + Count(s, vs[|vs| - 1])
  }

  /** All elements of `s` are pairwise distinct. */
  predicate Distinct<T(==)>(s: seq<T>)
  {
    forall i, j :: 0 <= i < j < |s| ==> s[i] != s[j]
  }

  /** Counting distributes over concatenation. */
  lemma {:induction false} CountAppend(a: seq<int>, b: seq<int>, x: int)
    ensures Count(a + b, x) == Count(a, x) + Count(b, x)
    decreases |b|
  {
    if b == [] {
      assert a + b == a;
    } else {
      var b' := b[..|b| - 1];
      assert (a + b)[..|a + b| - 1] == a + b';
      CountAppend(a, b', x);
    }
  }

  /** How many of the codes `vs` equal `x`. */
  function Occurrences(vs: seq<int>, x: int): nat
  {
    if vs == [] then 0 else Occurrences(vs[..|vs| - 1], x) + (if vs[|vs| - 1] == x then 1 else 0)
  }

  lemma {:induction false} OccurrencesOfDistinct(vs: seq<int>, x: int)
    requires forall i, j :: 0 <= i < j < |vs| ==> vs[i] != vs[j]
    ensures Occurrences(vs, x) == (if x in vs then 1 else 0)
  {
    if vs != [] {
      var vs' := vs[..|vs| - 1];
      OccurrencesOfDistinct(vs', x);
      assert vs == vs' + [vs[|vs| - 1]];
      if vs[|vs| - 1] == x {
        assert x !in vs' by {
          forall i | 0 <= i < |vs'| ensures vs'[i] != x {
            assert vs[i] != vs[|vs| - 1];
          }
        }
      }
    }
  }

  lemma {:induction false} CountAllAppend(s: seq<int>, vs: seq<int>, x: int)
    ensures CountAll(s + [x], vs) == CountAll(s, vs) + Occurrences(vs, x)
  {
    if vs != [] {
      var vs' := vs[..|vs| - 1];
      CountAllAppend(s, vs', x);
      CountAppend(s, [x], vs[|vs| - 1]);
      assert [x][..0] == [];
    }
  }

  /**
   * Conservation: when every element of `s` is one of the distinct codes
   * `vs`, the per-code counts add up to the length of `s`.
   */
  lemma {:induction false} CountsPartition(s: seq<int>, vs: seq<int>)
    requires forall i, j :: 0 <= i < j < |vs| ==> vs[i] != vs[j]
    requires forall i :: 0 <= i < |s| ==> s[i] in vs
    ensures CountAll(s, vs) == |s|
  {
    if s == [] {
      CountAllOfEmpty(vs);
    } else {
      var s' := s[..|s| - 1];
      assert s == s' + [s[|s| - 1]];
      CountsPartition(s', vs);
      CountAllAppend(s', vs, s[|s| - 1]);
      OccurrencesOfDistinct(vs, s[|s| - 1]);
    }
  }

  lemma {:induction false} CountAllOfEmpty(vs: seq<int>)
    ensures CountAll([], vs) == 0
  {
    if vs != [] {
      CountAllOfEmpty(vs[..|vs| - 1]);
    }
  }

  /**
   * A code that no position can leave (every `x` in `a` is still `x` in
   * `b`) is counted at least as often in `b` as in `a`.
   */
  lemma {:induction false} CountMonotone(a: seq<int>, b: seq<int>, x: int)
    requires |a| == |b|
    requires forall i :: 0 <= i < |a| && a[i] == x ==> b[i] == x
    ensures Count(a, x) <= Count(b, x)
  {
    if a != [] {
      CountMonotone(a[..|a| - 1], b[..|b| - 1], x);
    }
  }

  /** The positions of `s` that hold `x`. */
  function Positions(s: seq<int>, x: int): set<nat>
  {
    set i: nat | i < |s| && s[i] == x
  }

  lemma {:induction false} CountIsPositions(s: seq<int>, x: int)
    ensures Count(s, x) == |Positions(s, x)|
  {
    if s != [] {
      var last := |s| - 1;
      var s' := s[..last];
      CountIsPositions(s', x);
      if s[last] == x {
        assert Positions(s, x) == Positions(s', x) + {last};
      } else {
        assert Positions(s, x) == Positions(s', x);
      }
    }
  }

  /** The set of elements of a sequence without repetitions is as large as the sequence. */
  lemma {:induction false} DistinctCardinality(p: seq<nat>)
    requires Distinct(p)
    ensures |Elements(p)| == |p|
  {
    if p != [] {
      var last := p[|p| - 1];
      var p' := p[..|p| - 1];
      assert Distinct(p') by {
        forall i, j | 0 <= i < j < |p'| ensures p'[i] != p'[j] {
          assert p'[i] == p[i] && p'[j] == p[j];
        }
      }
      DistinctCardinality(p');
      assert last !in Elements(p') by {
        forall i | 0 <= i < |p'| ensures p'[i] != last {
          assert p'[i] == p[i];
        }
      }
      assert p == p' + [last];
      assert Elements(p) == Elements(p') + {last};
    }
  }

  function Elements(p: seq<nat>): set<nat>
  {
    set v | v in p
  }

  /**
   * Counting the code `x` in a sequence where exactly the positions named by
   * the distinct indices `picked` hold `x` gives `|picked|`.
   */
  lemma CountOfPicked(s: seq<int>, x: int, picked: seq<nat>)
    requires Distinct(picked)
    requires forall p :: p in picked ==> p < |s|
    requires forall i :: 0 <= i < |s| ==> (s[i] == x <==> i in picked)
    ensures Count(s, x) == |picked|
  {
    CountIsPositions(s, x);
    DistinctCardinality(picked);
    assert Positions(s, x) == Elements(picked);
  }

  /** Sum of `Count(s, c)` over the codes c = 0 .. k-1. */
  function CountBelow(s: seq<int>, k: nat): nat
  {
    if k == 0 then 0 else CountBelow(s, k - 1) + Count(s, k - 1)
  }

  lemma {:induction false} CountBelowAppend(s: seq<int>, x: int, k: nat)
    ensures CountBelow(s + [x], k) == CountBelow(s, k) + (if 0 <= x < k then 1 else 0)
  {
    if k > 0 {
      CountBelowAppend(s, x, k - 1);
      CountAppend(s, [x], k - 1);
      assert [x][..0] == [];
    }
  }

  /** Conservation: when every code lies in 0 .. k-1, the per-code counts add up to the length. */
  lemma {:induction false} CountBelowAll(s: seq<int>, k: nat)
    requires forall i :: 0 <= i < |s| ==> 0 <= s[i] < k
    ensures CountBelow(s, k) == |s|
  {
    if s == [] {
      CountBelowOfEmpty(k);
    } else {
      var s' := s[..|s| - 1];
      assert s == s' + [s[|s| - 1]];
      CountBelowAll(s', k);
      CountBelowAppend(s', s[|s| - 1], k);
    }
  }

  lemma {:induction false} CountBelowOfEmpty(k: nat)
    ensures CountBelow([], k) == 0
  {
    if k > 0 {
      CountBelowOfEmpty(k - 1);
    }
  }

  /** The counts of the six codes 0 .. 5 in a list of such codes add up to its length. */
  lemma SixCodes(states: seq<int>)
    requires forall i :: 0 <= i < |states| ==> 0 <= states[i] < 6
    ensures Count(states, 0) + Count(states, 1) + Count(states, 2) + Count(states, 3) + Count(states, 4) + Count(states, 5)
            == |states|
  {
    CountBelowAll(states, 6);
    assert CountBelow(states, 1) == Count(states, 0);
    assert CountBelow(states, 3) == Count(states, 0) + Count(states, 1) + Count(states, 2);
    assert CountBelow(states, 4) == CountBelow(states, 3) + Count(states, 3);
    assert CountBelow(states, 6) == CountBelow(states, 4) + Count(states, 4) + Count(states, 5);
  }

  /**
   * A list holding 1 at the distinct picked positions and 0 everywhere
   * else counts 1 once per pick and 0 at all other positions.
   */
  lemma PickedCounts(states: seq<int>, picked: seq<nat>)
    requires Distinct(picked)
    requires forall id :: id in picked ==> id < |states|
    requires forall i :: 0 <= i < |states| ==> states[i] == if i in picked then 1 else 0
    ensures Count(states, 1) == |picked|
    ensures Count(states, 0) == |states| - |picked|
  {
    CountOfPicked(states, 1, picked);
    CountBelowAll(states, 2);
    assert CountBelow(states, 1) == Count(states, 0);
    assert CountBelow(states, 2) == Count(states, 0) + Count(states, 1);
  }
}
