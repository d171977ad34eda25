/**
 * The cumulative end-offset encoding shared by block recipes (32-bit
 * offsets) and snapshot recipes (64-bit offsets): on disk each entry keeps
 * the offset right after its last byte, and its size is rebuilt on load as
 * the difference to the previous entry's end offset, in unsigned arithmetic
 * of the field's width.
 */
module Offsets {

  function Sum(s: seq<int>): int
  {
    if s == [] then 0 else Sum(s[..|s| - 1]) + s[|s| - 1]
  }

  /** The size rebuilt for entry `i`: `end[i] - end[i-1]` modulo `m`, with `end[-1] = 0`. */
  function Delta(ends: seq<int>, i: nat, m: nat): (d: int)
    requires i < |ends| && m > 0
    ensures 0 <= d < m
  {
    (ends[i] - (if i == 0 then 0 else ends[i - 1])) % m
  }

  /** All the rebuilt sizes of a recipe, in order. */
  function Deltas(ends: seq<int>, m: nat): (ds: seq<int>)
    requires m > 0
    ensures |ds| == |ends|
  {
    seq(|ends|, i requires 0 <= i < |ends| => Delta(ends, i, m))
  }

  /** `ends` holds the running totals of `sizes`, each wrapped to `m`. */
  ghost predicate Cumulative(sizes: seq<int>, ends: seq<int>, m: nat)
    requires m > 0
  {
    |sizes| == |ends| &&
    forall i :: 0 <= i < |ends| ==> ends[i] == Sum(sizes[..i + 1]) % m
  }

  ghost predicate InRange(s: seq<int>, m: nat)
  {
    forall i :: 0 <= i < |s| ==> 0 <= s[i] < m
  }

  ghost predicate NonDecreasing(s: seq<int>)
  {
    forall i, j :: 0 <= i < j < |s| ==> s[i] <= s[j]
  }

  lemma SumAppend(s: seq<int>, x: int)
    ensures Sum(s + [x]) == Sum(s) + x
  {
    assert (s + [x])[..|s + [x]| - 1] == s;
  }

  /** Euclidean division is determined by its quotient and remainder. */
  lemma DivModUnique(x: int, k: int, r: int, m: nat)
    requires m > 0 && 0 <= r < m && x == k * m + r
    ensures x % m == r && x / m == k
  {
    var q := x / m;
    var s := x % m;
    assert x == q * m + s;
    assert (k - q) * m == s - r;
    MultipleBound(k - q, m);
  }

  lemma MultipleBound(d: int, m: nat)
    requires m > 0
    ensures d > 0 ==> d * m >= m
    ensures d < 0 ==> d * m + m <= 0
  {
    if d > 0 {
      var e := d - 1;
      assert d * m == e * m + m;
      ProductNonNegative(e, m);
    } else if d < 0 {
      var e := -d - 1;
      assert d * m + m == -(e * m);
      ProductNonNegative(e, m);
    }
  }

  lemma {:induction false} ProductNonNegative(a: nat, b: nat)
    ensures a * b >= 0
    decreases a
  {
    if a > 0 {
      ProductNonNegative(a - 1, b);
      assert a * b == (a - 1) * b + b;
    }
  }

  lemma ModShift(x: int, q: int, m: nat)
    requires m > 0
    ensures (x + q * m) % m == x % m
  {
    var k := x / m;
    assert x == k * m + x % m;
    assert x + q * m == (k + q) * m + x % m;
    DivModUnique(x + q * m, k + q, x % m, m);
  }

  /** Wrapping the running total before adding the next size changes nothing modulo `m`. */
  lemma ModAdd(a: int, s: int, m: nat)
    requires m > 0
    ensures (a % m + s) % m == (a + s) % m
  {
    var q := a / m;
    assert a == q * m + a % m;
    assert a + s == (a % m + s) + q * m;
    ModShift(a % m + s, q, m);
  }

  /** The difference of two wrapped running totals is the size added between them. */
  lemma ModDelta(a: int, s: int, m: nat)
    requires m > 0 && 0 <= s < m
    ensures ((a + s) % m - a % m) % m == s
  {
    var qa := a / m;
    var qb := (a + s) / m;
    assert a == qa * m + a % m;
    assert a + s == qb * m + (a + s) % m;
    assert (a + s) % m - a % m == s + (qa - qb) * m;
    ModShift(s, qa - qb, m);
    DivModUnique(s, 0, s, m);
  }

  /**
   * Round trip of the encoding: when every end offset is the wrapped
   * running total of sizes that each fit the field, the rebuilt sizes are
   * exactly the original sizes, even if the running total wrapped around.
   */
  lemma {:induction false} DeltasRecoverSizes(sizes: seq<int>, ends: seq<int>, m: nat)
    requires m > 0
    requires Cumulative(sizes, ends, m) && InRange(sizes, m)
    ensures Deltas(ends, m) == sizes
  {
    forall i | 0 <= i < |ends|
      ensures Delta(ends, i, m) == sizes[i]
    {
      DeltaRecoversSize(sizes, ends, m, i);
    }
  }

  lemma DeltaRecoversSize(sizes: seq<int>, ends: seq<int>, m: nat, i: nat)
    requires m > 0 && i < |ends|
    requires Cumulative(sizes, ends, m) && InRange(sizes, m)
    ensures Delta(ends, i, m) == sizes[i]
  {
    var before := Sum(sizes[..i]);
    assert sizes[..i + 1] == sizes[..i] + [sizes[i]];
    SumAppend(sizes[..i], sizes[i]);
    assert ends[i] == (before + sizes[i]) % m;
    if i == 0 {
      assert sizes[..0] == [];
      ModDelta(0, sizes[0], m);
      assert 0 % m == 0;
    } else {
      assert sizes[..i] == sizes[..(i - 1) + 1];
      assert ends[i - 1] == before % m;
      ModDelta(before, sizes[i], m);
    }
  }

  /**
   * When the end offsets are non-decreasing and fit the field, no
   * subtraction wraps, and the rebuilt sizes add up to the last end offset.
   */
  lemma {:induction false} DeltasSumToLastEnd(ends: seq<int>, m: nat)
    requires m > 0 && |ends| > 0
    requires NonDecreasing(ends) && InRange(ends, m)
    ensures Sum(Deltas(ends, m)) == ends[|ends| - 1]
  {
    var n := |ends|;
    if n == 1 {
      DivModUnique(ends[0], 0, ends[0], m);
      assert Deltas(ends, m) == [] + [ends[0]];
      SumAppend([], ends[0]);
    } else {
      var init := ends[..n - 1];
      DeltasSumToLastEnd(init, m);
      var last := ends[n - 1] - ends[n - 2];
      DivModUnique(last, 0, last, m);
      assert Deltas(ends, m) == Deltas(init, m) + [last];
      SumAppend(Deltas(init, m), last);
    }
  }

  /**
   * Offsets are not validated on load: a decreasing end offset wraps, and
   * the rebuilt size is the difference plus `m`.
   */
  lemma DecreasingOffsetWraps(ends: seq<int>, i: nat, m: nat)
    requires m > 0 && 0 < i < |ends| && InRange(ends, m)
    requires ends[i] < ends[i - 1]
    ensures Delta(ends, i, m) == ends[i] - ends[i - 1] + m
  {
    assert 0 <= ends[i] - ends[i - 1] + m < m;
    ModShift(ends[i] - ends[i - 1] + m, -1, m);
  }
}
