/** The statistics bundle computed for one grading period's grades: the
    pandas/scipy calls on the series of non-missing grades. */
module Statistics {
  import opened Values

  predicate Sorted(s: seq<real>)
  {
    forall i, j :: 0 <= i < j < |s| ==> s[i] <= s[j]
  }

  /** Inserts `x` into a sorted sequence. */
  function Insert(x: real, s: seq<real>): (r: seq<real>)
    requires Sorted(s)
    ensures Sorted(r)
    ensures |r| == |s| + 1
    ensures multiset(r) == multiset(s) + multiset{x}
  {
    if s == [] || x <= s[0] then
      ConsSorted(x, s);
      [x] + s
    else
      assert s == [s[0]] + s[1..];
      var rest := Insert(x, s[1..]);
      BoundSurvivesInsert(s[0], x, s[1..], rest);
      ConsSorted(s[0], rest);
      [s[0]] + rest
  }

  /** A lower bound of `s` placed in front keeps it sorted. */
  lemma ConsSorted(a: real, s: seq<real>)
    requires Sorted(s) && (s != [] ==> a <= s[0])
    ensures Sorted([a] + s)
  {
  }

  /** A lower bound of `s` and of `x` bounds every element of a sequence
      holding `s` and `x`. */
  lemma BoundSurvivesInsert(a: real, x: real, s: seq<real>, r: seq<real>)
    requires Sorted([a] + s) && a <= x && multiset(r) == multiset(s) + multiset{x}
    ensures r != [] ==> a <= r[0]
  {
    if r != [] {
      assert r[0] in multiset(r);
      if r[0] != x {
        assert r[0] in multiset(s);
        assert r[0] in s;
        var i :| 0 <= i < |s| && s[i] == r[0];
        assert ([a] + s)[0] == a && ([a] + s)[i + 1] == s[i];
      }
    }
  }

  /** The grades in ascending order (the order the quantiles are read from). */
  function Sort(s: seq<real>): (r: seq<real>)
    ensures Sorted(r)
    ensures |r| == |s|
    ensures multiset(r) == multiset(s)
  {
    if s == [] then []
    else
      assert s == [s[0]] + s[1..];
      Insert(s[0], Sort(s[1..]))
  }

  function Sum(s: seq<real>): real
  {
    if s == [] then 0.0 else s[0] + Sum(s[1..])
  }

  /** `Series.min()`. */
  function Min(s: seq<real>): (r: real)
    requires s != []
    ensures r in s
    ensures forall x :: x in s ==> r <= x
  {
    if |s| == 1 then s[0]
    else
      var m := Min(s[1..]);
      assert forall x :: x in s ==> x == s[0] || x in s[1..];
      if s[0] <= m then s[0] else m
  }

  /** `Series.max()`. */
  function Max(s: seq<real>): (r: real)
    requires s != []
    ensures r in s
    ensures forall x :: x in s ==> x <= r
  {
    if |s| == 1 then s[0]
    else
      var m := Max(s[1..]);
      assert forall x :: x in s ==> x == s[0] || x in s[1..];
      if s[0] >= m then s[0] else m
  }

  /** `Series.mean()`. */
  function Mean(s: seq<real>): (r: real)
    requires s != []
    ensures exists x :: x in s && x <= r
    ensures exists y :: y in s && r <= y
  {
    var lo, hi := Min(s), Max(s);
    SumBounds(s, lo, hi);
    DivideBounds(Sum(s), |s| as real, lo, hi);
    assert lo in s && hi in s;
    Sum(s) / |s| as real
  }

  /** The sum of squared deviations from `m`. */
  function SquaredDeviations(s: seq<real>, m: real): (r: real)
    ensures r >= 0.0
  {
    if s == [] then 0.0
    else
      SquareNonNegative(s[0] - m);
      (s[0] - m) * (s[0] - m) + SquaredDeviations(s[1..], m)
  }

  lemma SquareNonNegative(x: real)
    ensures x * x >= 0.0
  {
    if x < 0.0 { assert x * x == (-x) * (-x); }
  }

  /** `Series.var()`: the sample variance, denominator n - 1, which pandas
      reports as NaN for a single grade. */
  function Variance(s: seq<real>): (r: Num)
    requires s != []
    ensures r.NaN? <==> |s| == 1
    ensures r.Finite? ==> r.v >= 0.0
  {
    if |s| == 1 then NaN
    else Finite(SquaredDeviations(s, Mean(s)) / (|s| - 1) as real)
  }

  /** `Series.median()`: the middle grade, or the average of the two
      middle grades when the count is even. */
  function Median(s: seq<real>): (r: real)
    requires s != []
    ensures Min(s) <= r <= Max(s)
    ensures |s| % 2 == 1 ==> r in s
  {
    var t := Sort(s);
    var n := |t|;
    SortedEnds(s);
    SameMembers(t, s);
    assert t[n / 2] in t;
    if n % 2 == 1 then t[n / 2] else (t[n / 2 - 1] + t[n / 2]) / 2.0
  }

  /** Linear interpolation in the sorted sequence `t` at position `h / 4`
      (`h` counts quarter steps): numpy's default ("linear") quantile rule. */
  function Interpolate(t: seq<real>, h: nat): real
    requires t != [] && h <= 4 * (|t| - 1)
  {
    var lo := h / 4;
    var frac := (h % 4) as real / 4.0;
    if h % 4 == 0 then t[lo] else t[lo] + frac * (t[lo + 1] - t[lo])
  }

  /** `Series.quantile(k / 4)` for k in 0..4. */
  function Quartile(s: seq<real>, k: nat): (r: real)
    requires s != [] && k <= 4
    ensures Min(s) <= r <= Max(s)
  {
    QuarterSteps(|s|, k);
    var h := k * (|s| - 1);
    InterpolateWithin(s, h);
    Interpolate(Sort(s), h)
  }

  /** An interpolated value lies between the minimum and the maximum. */
  lemma InterpolateWithin(s: seq<real>, h: nat)
    requires s != [] && h <= 4 * (|s| - 1)
    ensures Min(s) <= Interpolate(Sort(s), h) <= Max(s)
  {
    var t := Sort(s);
    SortedEnds(s);
    InterpolateBetween(t, h);
    assert h / 4 < |t|;
    if h / 4 > 0 { assert t[0] <= t[h / 4]; }
    if h % 4 != 0 && h / 4 + 1 < |t| - 1 { assert t[h / 4 + 1] <= t[|t| - 1]; }
    if h % 4 == 0 && h / 4 < |t| - 1 { assert t[h / 4] <= t[|t| - 1]; }
  }

  lemma QuarterSteps(n: nat, k: nat)
    requires n > 0 && k <= 4
    ensures k * (n - 1) <= 4 * (n - 1)
  {
  }

  /** How often `v` occurs in `s`. */
  function Count(s: seq<real>, v: real): nat
  {
    multiset(s)[v]
  }

  /** `x` beats `y` as a mode candidate: more frequent, or as frequent and
      not larger. */
  predicate Beats(s: seq<real>, x: real, y: real)
  {
    Count(s, x) > Count(s, y) || (Count(s, x) == Count(s, y) && x <= y)
  }

  /** The best mode candidate among `c`: most frequent in `s`, smallest
      among equally frequent ones. */
  function BestCandidate(s: seq<real>, c: seq<real>): (r: real)
    requires c != []
    ensures r in c
    ensures forall x :: x in c ==> Count(s, x) <= Count(s, r)
    ensures forall x :: x in c && Count(s, x) == Count(s, r) ==> r <= x
  {
    if |c| == 1 then c[0]
    else
      var b := BestCandidate(s, c[1..]);
      assert forall x :: x in c ==> x == c[0] || x in c[1..];
      if Beats(s, c[0], b) then c[0] else b
  }

  /** `scipy.stats.mode(s)[0][0]`: the most frequent grade, ties going to
      the smallest of them. */
  function Mode(s: seq<real>): (r: real)
    requires s != []
    ensures r in s
    ensures forall x :: Count(s, x) <= Count(s, r)
    ensures forall x :: Count(s, x) == Count(s, r) ==> r <= x
  {
    var r := BestCandidate(s, s);
    assert forall x :: x !in s ==> Count(s, x) == 0;
    assert Count(s, r) > 0;
    r
  }

  /** The statistics dictionary stored for one period. */
  datatype Bundle = Bundle(
    media: real, mediana: real, moda: real, varianza: Num,
    q1: real, q2: real, q3: real,
    max: real, min: real, rango: real, total: nat)

  /** The statistics of a non-empty series. */
  function Summary(s: seq<real>): (b: Bundle)
    requires s != []
    ensures b.total == |s|
  {
    var maximo := Max(s);
    var minimo := Min(s);
    Bundle(
      media := Mean(s), mediana := Median(s), moda := Mode(s), varianza := Variance(s),
      q1 := Quartile(s, 1), q2 := Quartile(s, 2), q3 := Quartile(s, 3),
      max := maximo, min := minimo, rango := maximo - minimo, total := |s|)
  }

  /** The per-period statistics; no bundle for an empty series. */
  function Compute(s: seq<real>): (r: Option<Bundle>)
    ensures r.None? <==> s == []
  {
    if s == [] then None else Some(Summary(s))
  }

  /** Two sequences with the same multiset have the same members. */
  lemma SameMembers(a: seq<real>, b: seq<real>)
    requires multiset(a) == multiset(b)
    ensures forall x :: x in a <==> x in b
  {
    forall x ensures x in a <==> x in b {
      assert x in a <==> x in multiset(a);
      assert x in b <==> x in multiset(b);
    }
  }

  /** The sorted series starts at the minimum and ends at the maximum. */
  lemma SortedEnds(s: seq<real>)
    requires s != []
    ensures Sort(s)[0] == Min(s) && Sort(s)[|s| - 1] == Max(s)
  {
    var t := Sort(s);
    SameMembers(t, s);
    SortedFirst(t, Min(s));
    SortedLast(t, Max(s));
  }

  lemma SortedFirst(t: seq<real>, m: real)
    requires Sorted(t) && m in t && forall x :: x in t ==> m <= x
    ensures t[0] == m
  {
    var i :| 0 <= i < |t| && t[i] == m;
    assert t[0] in t;
    if i > 0 { assert t[0] <= t[i]; }
  }

  lemma SortedLast(t: seq<real>, m: real)
    requires Sorted(t) && m in t && forall x :: x in t ==> x <= m
    ensures t[|t| - 1] == m
  {
    var i :| 0 <= i < |t| && t[i] == m;
    assert t[|t| - 1] in t;
    if i < |t| - 1 { assert t[i] <= t[|t| - 1]; }
  }

  lemma ProductNonNegative(a: real, b: real)
    requires a >= 0.0 && b >= 0.0
    ensures a * b >= 0.0
  {
  }

  lemma ScaleBelow(f: real, d: real)
    requires 0.0 <= f <= 1.0 && d >= 0.0
    ensures 0.0 <= f * d <= d
  {
    ProductNonNegative(f, d);
    ProductNonNegative(1.0 - f, d);
    assert (1.0 - f) * d == d - f * d;
  }

  lemma ScaleMonotone(f1: real, f2: real, d: real)
    requires f1 <= f2 && d >= 0.0
    ensures f1 * d <= f2 * d
  {
    ProductNonNegative(f2 - f1, d);
    assert (f2 - f1) * d == f2 * d - f1 * d;
  }

  /** An interpolated value lies between the two grades it is read from. */
  lemma InterpolateBetween(t: seq<real>, h: nat)
    requires Sorted(t) && t != [] && h <= 4 * (|t| - 1)
    ensures t[h / 4] <= Interpolate(t, h)
    ensures h % 4 != 0 ==> h / 4 + 1 < |t| && Interpolate(t, h) <= t[h / 4 + 1]
    ensures h % 4 == 0 ==> Interpolate(t, h) == t[h / 4]
  {
    if h % 4 != 0 {
      var lo := h / 4;
      assert h == 4 * lo + h % 4;
      assert lo + 1 < |t|;
      var frac := (h % 4) as real / 4.0;
      var d := t[lo + 1] - t[lo];
      assert 0.0 <= d;
      ScaleBelow(frac, d);
      assert Interpolate(t, h) == t[lo] + frac * d;
    }
  }

  /** Every grade bounds the sum of the series from the side it lies on. */
  lemma {:induction false} SumBounds(s: seq<real>, lo: real, hi: real)
    requires forall x :: x in s ==> lo <= x <= hi
    ensures |s| as real * lo <= Sum(s) <= |s| as real * hi
  {
    if s != [] {
      assert s[0] in s;
      assert forall x :: x in s[1..] ==> x in s;
      SumBounds(s[1..], lo, hi);
      Distribute(|s| as real, |s[1..]| as real, lo);
      Distribute(|s| as real, |s[1..]| as real, hi);
      assert lo <= s[0] <= hi;
      assert Sum(s) == s[0] + Sum(s[1..]);
    }
  }

  lemma Distribute(n: real, m: real, x: real)
    requires n == m + 1.0
    ensures n * x == m * x + x
  {
  }

  lemma DivideBounds(a: real, n: real, lo: real, hi: real)
    requires n > 0.0 && n * lo <= a <= n * hi
    ensures lo <= a / n <= hi
  {
    var q := a / n;
    assert a == q * n;
    if q < lo { ScaleMonotone(q, lo, n); }
    if q > hi { ScaleMonotone(hi, q, n); }
  }

}

/** What the statistics bundle promises: the order statistics are
    ordered, q2 is the median, the mode is the smallest most frequent
    grade, and the spread measures are non-negative. */
module StatisticsFacts {
  import opened Values
  import opened Statistics

  /** Interpolation is monotone in the position. */
  lemma InterpolateMonotone(t: seq<real>, h1: nat, h2: nat)
    requires Sorted(t) && t != [] && h1 <= h2 <= 4 * (|t| - 1)
    ensures Interpolate(t, h1) <= Interpolate(t, h2)
  {
    InterpolateBetween(t, h1);
    InterpolateBetween(t, h2);
    var lo1, lo2 := h1 / 4, h2 / 4;
    if lo1 == lo2 {
      if h1 % 4 != 0 {
        var d := t[lo1 + 1] - t[lo1];
        assert h1 == 4 * lo1 + h1 % 4 && h2 == 4 * lo2 + h2 % 4;
        assert h1 % 4 <= h2 % 4;
        var f1, f2 := (h1 % 4) as real / 4.0, (h2 % 4) as real / 4.0;
        assert d >= 0.0 && f1 <= f2;
        ScaleMonotone(f1, f2, d);
        assert Interpolate(t, h1) == t[lo1] + f1 * d;
        assert Interpolate(t, h2) == t[lo1] + f2 * d;
      }
    } else {
      assert lo1 < lo2;
      if h1 % 4 != 0 {
        assert t[lo1 + 1] <= t[lo2];
      } else {
        assert t[lo1] <= t[lo2];
      }
    }
  }

  /** min <= q1 <= q2 <= q3 <= max; quantile 0 is the minimum and quantile
      1 the maximum. */
  lemma QuartilesOrdered(s: seq<real>)
    requires s != []
    ensures Quartile(s, 0) == Min(s) && Quartile(s, 4) == Max(s)
    ensures Min(s) <= Quartile(s, 1) <= Quartile(s, 2) <= Quartile(s, 3) <= Max(s)
  {
    QuartileEnds(s);
    QuartileStep(s, 0, 1);
    QuartileStep(s, 1, 2);
    QuartileStep(s, 2, 3);
    QuartileStep(s, 3, 4);
  }

  lemma QuartileEnds(s: seq<real>)
    requires s != []
    ensures Quartile(s, 0) == Min(s) && Quartile(s, 4) == Max(s)
  {
    var t, m := Sort(s), |s| - 1;
    SortedEnds(s);
    assert Quartile(s, 0) == Interpolate(t, 0);
    assert Quartile(s, 4) == Interpolate(t, 4 * m);
    assert (4 * m) / 4 == m && (4 * m) % 4 == 0;
  }

  lemma QuartileStep(s: seq<real>, j: nat, k: nat)
    requires s != [] && j <= k <= 4
    ensures Quartile(s, j) <= Quartile(s, k)
  {
    QuarterSteps(|s|, k);
    MulMonotone(j, k, |s| - 1);
    InterpolateMonotone(Sort(s), j * (|s| - 1), k * (|s| - 1));
  }

  lemma MulMonotone(j: nat, k: nat, m: nat)
    requires j <= k
    ensures j * m <= k * m
  {
    assert k * m == j * m + (k - j) * m;
  }

  /** q2 (`quantile(0.5)`) is the median. */
  lemma MedianIsSecondQuartile(s: seq<real>)
    requires s != []
    ensures Median(s) == Quartile(s, 2)
  {
    var t, n := Sort(s), |s|;
    assert Median(s) == if n % 2 == 1 then t[n / 2] else (t[n / 2 - 1] + t[n / 2]) / 2.0;
    assert Quartile(s, 2) == Interpolate(t, 2 * (n - 1));
    MiddleInterpolated(t);
  }

  /** Interpolating half-way through a sorted series reads the middle
      grade, or the average of the two middle grades. */
  lemma MiddleInterpolated(t: seq<real>)
    requires t != []
    ensures Interpolate(t, 2 * (|t| - 1)) ==
      if |t| % 2 == 1 then t[|t| / 2] else (t[|t| / 2 - 1] + t[|t| / 2]) / 2.0
  {
    var n := |t|;
    var h := 2 * (n - 1);
    if n % 2 == 1 {
      assert h % 4 == 0 && h / 4 == n / 2;
    } else {
      assert h % 4 == 2 && h / 4 == n / 2 - 1;
      assert (h % 4) as real / 4.0 == 0.5;
      assert Interpolate(t, h) == t[n / 2 - 1] + 0.5 * (t[n / 2] - t[n / 2 - 1]);
    }
  }

  /** Everything the bundle of a non-empty period promises. */
  lemma BundleInvariants(s: seq<real>)
    requires s != []
    ensures Compute(s).Some?
    ensures var b := Compute(s).value;
      && b.min <= b.q1 <= b.q2 <= b.q3 <= b.max
      && b.q2 == b.mediana
      && b.rango == b.max - b.min && b.rango >= 0.0
      && b.q3 - b.q1 >= 0.0
      && b.min <= b.media <= b.max
      && b.min in s && b.max in s
      && (forall x :: x in s ==> b.min <= x <= b.max)
      && b.moda in s
      && (forall x :: Count(s, x) <= Count(s, b.moda))
      && (forall x :: Count(s, x) == Count(s, b.moda) ==> b.moda <= x)
      && (b.varianza.NaN? <==> b.total == 1)
      && (b.varianza.Finite? ==> b.varianza.v >= 0.0)
      && b.total == |s|
  {
    QuartilesOrdered(s);
    MedianIsSecondQuartile(s);
  }

  /** The worked example: grades 7, 8, 9, 9 and 10. */
  const Example: seq<real> := [7.0, 8.0, 9.0, 9.0, 10.0]

  lemma FiveGradesExample()
    ensures var b := Compute(Example).value;
      && b.total == 5 && b.media == 8.6 && b.mediana == 9.0 && b.moda == 9.0
      && b.min == 7.0 && b.max == 10.0 && b.rango == 3.0
      && b.q1 == 8.0 && b.q2 == 9.0 && b.q3 == 9.0
      && b.varianza == Finite(1.3)
  {
    ExampleOrderStatistics();
    ExampleMode();
    ExampleMoments();
  }

  lemma ExampleOrderStatistics()
    ensures Median(Example) == 9.0 && Min(Example) == 7.0 && Max(Example) == 10.0
    ensures Quartile(Example, 1) == 8.0 && Quartile(Example, 2) == 9.0 && Quartile(Example, 3) == 9.0
  {
    ExampleSorted();
    ExampleExtremes();
    ExampleQuartiles();
  }

  lemma ExampleSorted()
    ensures Sort(Example) == Example
  {
    assert Sorted(Example);
    SortedIsFixed(Example);
  }

  lemma ExampleExtremes()
    ensures Min(Example) == 7.0 && Max(Example) == 10.0
  {
    ExampleSorted();
    SortedEnds(Example);
  }

  lemma ExampleQuartiles()
    ensures Median(Example) == 9.0
    ensures Quartile(Example, 1) == 8.0 && Quartile(Example, 2) == 9.0 && Quartile(Example, 3) == 9.0
  {
    var s := Example;
    ExampleSorted();
    assert Quartile(s, 1) == Interpolate(s, 4);
    assert Quartile(s, 2) == Interpolate(s, 8);
    assert Quartile(s, 3) == Interpolate(s, 12);
  }

  lemma ExampleMode()
    ensures Mode(Example) == 9.0
  {
    var s := Example;
    assert Count(s, 9.0) == 2;
    assert Count(s, 7.0) == 1 && Count(s, 8.0) == 1 && Count(s, 10.0) == 1;
  }

  lemma ExampleMoments()
    ensures Mean(Example) == 8.6 && Variance(Example) == Finite(1.3)
  {
    ExampleMean();
    ExampleSquares();
    VarianceFrom(Example, 8.6, 5.2);
  }

  lemma VarianceFrom(s: seq<real>, m: real, d: real)
    requires |s| > 1 && Mean(s) == m && SquaredDeviations(s, m) == d
    ensures Variance(s) == Finite(d / (|s| - 1) as real)
  {
  }

  lemma ExampleMean()
    ensures Mean(Example) == 8.6
  {
    assert Sum(Example) == 43.0;
  }

  lemma ExampleSquares()
    ensures SquaredDeviations(Example, 8.6) == 5.2
  {
  }

  /** Sorting an already sorted series changes nothing. */
  lemma {:induction false} SortedIsFixed(s: seq<real>)
    requires Sorted(s)
    ensures Sort(s) == s
  {
    if s != [] {
      SortedIsFixed(s[1..]);
    }
  }
}
