/** Descriptive statistics over the non-missing values of a column, as pandas computes them. */
module Numeric {
  import opened Wrappers

  /** A column of a frame: one cell per row, possibly missing. */
  type Column = seq<Option<real>>

  /** The present values of a column, in row order (Series.dropna). */
  function DropNa(col: Column): (r: seq<real>)
    ensures |r| <= |col|
    ensures forall x :: x in r <==> Some(x) in col
  {
    if col == [] then []
    else if col[0].Some? then [col[0].value] + DropNa(col[1..])
    else DropNa(col[1..])
  }

  /** A column with no missing cell keeps every value, in order. */
  lemma {:induction false} DropNaComplete(col: Column)
    requires forall i :: 0 <= i < |col| ==> col[i].Some?
    ensures |DropNa(col)| == |col|
    ensures forall i :: 0 <= i < |col| ==> DropNa(col)[i] == col[i].value
  {
    if col != [] {
      DropNaComplete(col[1..]);
    }
  }

  /** Nothing is dropped only from a column that is entirely missing. */
  lemma {:induction false} DropNaEmpty(col: Column)
    requires DropNa(col) == []
    ensures forall i :: 0 <= i < |col| ==> col[i].None?
  {
    if col != [] {
      DropNaEmpty(col[1..]);
      assert forall i :: 1 <= i < |col| ==> col[i] == col[1..][i - 1];
    }
  }

  function Sum(xs: seq<real>): real
  {
    if xs == [] then 0.0 else xs[0] + Sum(xs[1..])
  }

  function Min(xs: seq<real>): (m: real)
    requires xs != []
    ensures m in xs
    ensures forall x :: x in xs ==> m <= x
  {
    if |xs| == 1 then xs[0]
    else
      var rest := Min(xs[1..]);
      assert forall x :: x in xs ==> x == xs[0] || x in xs[1..];
      if xs[0] <= rest then xs[0] else rest
  }

  function Max(xs: seq<real>): (m: real)
    requires xs != []
    ensures m in xs
    ensures forall x :: x in xs ==> x <= m
  {
    if |xs| == 1 then xs[0]
    else
      var rest := Max(xs[1..]);
      assert forall x :: x in xs ==> x == xs[0] || x in xs[1..];
      if rest <= xs[0] then xs[0] else rest
  }

  /** Arithmetic mean (Series.mean with skipna). */
  function Mean(xs: seq<real>): real
    requires xs != []
  {
    Sum(xs) / (|xs| as real)
  }

  /** A sum of values bounded by lo and hi lies between |xs|*lo and |xs|*hi. */
  lemma {:induction false} SumBounds(xs: seq<real>, lo: real, hi: real)
    requires forall x :: x in xs ==> lo <= x <= hi
    ensures (|xs| as real) * lo <= Sum(xs) <= (|xs| as real) * hi
  {
    if xs != [] {
      assert forall x :: x in xs[1..] ==> x in xs;
      SumBounds(xs[1..], lo, hi);
      assert xs[0] in xs;
      var n := |xs[1..]| as real;
      assert |xs| as real == n + 1.0;
      Distribute(n, lo);
      Distribute(n, hi);
    }
  }

  lemma Distribute(n: real, x: real)
    ensures (n + 1.0) * x == n * x + x
  {
  }

  /** The mean of a non-empty sample lies between its minimum and maximum. */
  lemma MeanBetweenMinMax(xs: seq<real>)
    requires xs != []
    ensures Min(xs) <= Mean(xs) <= Max(xs)
  {
    SumBounds(xs, Min(xs), Max(xs));
    QuotientBounds(Sum(xs), |xs| as real, Min(xs), Max(xs));
  }

  lemma QuotientBounds(a: real, n: real, lo: real, hi: real)
    requires n > 0.0 && n * lo <= a <= n * hi
    ensures lo <= a / n <= hi
  {
    var q := a / n;
    assert q * n == a;
  }

  ghost predicate Ascending(s: seq<real>)
  {
    forall i, j :: 0 <= i < j < |s| ==> s[i] <= s[j]
  }

  /** Inserts x into an ascending sequence. */
  function Insert(x: real, s: seq<real>): (r: seq<real>)
    requires Ascending(s)
    ensures Ascending(r)
    ensures multiset(r) == multiset(s) + multiset{x}
  {
    if s == [] then [x]
    else if x <= s[0] then [x] + s
    else
      var rest := Insert(x, s[1..]);
      InsertStep(x, s, rest);
      [s[0]] + rest
  }

  /** Putting the head back in front of the insertion into the tail keeps the order and the multiset. */
  lemma InsertStep(x: real, s: seq<real>, rest: seq<real>)
    requires Ascending(s) && s != [] && s[0] < x
    requires Ascending(rest) && multiset(rest) == multiset(s[1..]) + multiset{x}
    ensures Ascending([s[0]] + rest)
    ensures multiset([s[0]] + rest) == multiset(s) + multiset{x}
  {
    assert s == [s[0]] + s[1..];
    forall k | 0 <= k < |rest| ensures s[0] <= rest[k] {
      var y := rest[k];
      assert y in multiset(rest);
      if y != x {
        assert y in multiset(s[1..]);
        assert y in s[1..];
      }
    }
    var r := [s[0]] + rest;
    forall i, j | 0 <= i < j < |r| ensures r[i] <= r[j] {
      if i > 0 { assert r[i] == rest[i - 1] && r[j] == rest[j - 1]; }
      else { assert r[j] == rest[j - 1]; }
    }
  }

  /** The values in ascending order (what pandas sorts to find a median). */
  function Sorted(xs: seq<real>): (r: seq<real>)
    ensures Ascending(r)
    ensures multiset(r) == multiset(xs)
  {
    if xs == [] then []
    else
      assert xs == [xs[0]] + xs[1..];
      Insert(xs[0], Sorted(xs[1..]))
  }

  /** The median of a non-empty sample: the middle value, or the mean of the two middle values. */
  function Median(xs: seq<real>): real
    requires xs != []
  {
    var s := Sorted(xs);
    assert |s| == |multiset(s)| == |multiset(xs)| == |xs|;
    var n := |s|;
    if n % 2 == 1 then s[n / 2] else (s[n / 2 - 1] + s[n / 2]) / 2.0
  }

  /** The median of a non-empty sample lies between its minimum and maximum. */
  lemma MedianBetweenMinMax(xs: seq<real>)
    requires xs != []
    ensures Min(xs) <= Median(xs) <= Max(xs)
  {
    var s := Sorted(xs);
    assert |s| == |multiset(s)| == |multiset(xs)| == |xs|;
    forall i | 0 <= i < |s| ensures Min(xs) <= s[i] <= Max(xs) {
      assert s[i] in multiset(s);
      assert s[i] in multiset(xs);
      assert s[i] in xs;
    }
    var n := |s|;
    if n % 2 == 0 {
      assert Min(xs) <= s[n / 2 - 1] && s[n / 2] <= Max(xs);
    }
  }

  /** Median of a column's present values; missing when none is present. */
  function ColumnMedian(col: Column): (r: Option<real>)
    ensures r.Some? <==> exists i :: 0 <= i < |col| && col[i].Some?
  {
    var xs := DropNa(col);
    if xs == [] then
      DropNaEmpty(col);
      None
    else
      assert xs[0] in xs;
      Some(Median(xs))
  }

  /** Mean of a column's present values; missing when none is present. It lies between two present values. */
  function ColumnMean(col: Column): (r: Option<real>)
    ensures r.Some? <==> exists i :: 0 <= i < |col| && col[i].Some?
    ensures r.Some? ==> exists i, j :: 0 <= i < |col| && 0 <= j < |col| && col[i].Some? && col[j].Some?
                                      && col[i].value <= r.value <= col[j].value
  {
    var xs := DropNa(col);
    if xs == [] then
      DropNaEmpty(col);
      None
    else
      MeanBetweenMinMax(xs);
      assert Some(Min(xs)) in col && Some(Max(xs)) in col;
      Some(Mean(xs))
  }

  /** Python's int() on a float: truncation toward zero. */
  function Trunc(x: real): (n: int)
    ensures 0.0 <= x ==> n == x.Floor
    ensures 0.0 <= x ==> 0 <= n
    ensures x < 0.0 ==> x <= n as real <= 0.0
    ensures 0.0 <= x ==> n as real <= x < n as real + 1.0
    ensures x < 0.0 ==> x <= n as real < x + 1.0
  {
    if x >= 0.0 then x.Floor else -((-x).Floor)
  }

  /** Truncation never reverses the order of two values. */
  lemma TruncMonotone(x: real, y: real)
    requires x <= y
    ensures Trunc(x) <= Trunc(y)
  {
  }
}
