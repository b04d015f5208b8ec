/** The grade ranges of the pie charts: `pd.cut` of each period's grades
    into five half-open ranges, the count per range and its percentage. */
module GradeBins {
  import opened Values
  import opened Periods

  /** Strictly increasing bin edges, as `pd.cut` demands. */
  predicate Increasing(edges: seq<real>)
  {
    forall i, j :: 0 <= i < j < |edges| ==> edges[i] < edges[j]
  }

  /** `rango_bins`: the last edge is 10.1 so that a 10 falls in "9-10". */
  const Edges: seq<real> := [5.0, 6.0, 7.0, 8.0, 9.0, 10.1]

  /** `rango_labels`, one per bin. */
  const Labels: seq<string> := ["5-6", "6-7", "7-8", "8-9", "9-10"]

  /** `rango_colores`: the colour of each range. */
  const Colors: map<string, string> := map[
    "5-6" := "#e74c3c", "6-7" := "#e67e22", "7-8" := "#f1c40f",
    "8-9" := "#58a8d6", "9-10" := "#09ff6fcf"]

  /** `pd.cut(g, bins=edges, right=False)`: the index of the half-open bin
      `[edges[k], edges[k+1])` holding `g`, or None (pandas' NaN) outside
      all of them. */
  function Cut(edges: seq<real>, g: real): (r: Option<nat>)
    requires Increasing(edges)
    ensures r.Some? ==> r.value + 1 < |edges| && edges[r.value] <= g < edges[r.value + 1]
    ensures r.None? <==> |edges| < 2 || g < edges[0] || edges[|edges| - 1] <= g
  {
    if |edges| < 2 || g < edges[0] then None
    else if g < edges[1] then Some(0)
    else match Cut(edges[1..], g)
      case Some(k) => Some(k + 1)
      case None => None
  }

  /** The bins do not overlap: a grade inside bin k is cut into k and no
      other. */
  lemma CutFindsTheBin(edges: seq<real>, g: real, k: nat)
    requires Increasing(edges) && k + 1 < |edges|
    ensures Cut(edges, g) == Some(k) <==> edges[k] <= g < edges[k + 1]
  {
  }

  /** The five labels, colours and bins line up. */
  lemma BinsAgree()
    ensures Increasing(Edges)
    ensures |Edges| == |Labels| + 1
    ensures forall k :: 0 <= k < |Labels| ==> Labels[k] in Colors
  {
  }

  /** `pd.cut` on the dashboard's own bins. */
  function Range(g: real): (r: Option<nat>)
    ensures r.Some? <==> 5.0 <= g < 10.1
    ensures r.Some? ==> r.value < |Labels| && Edges[r.value] <= g < Edges[r.value + 1]
  {
    BinsAgree();
    Cut(Edges, g)
  }

  /** The number of grades falling in bin k. */
  function CountIn(grades: seq<real>, k: nat): (n: nat)
    ensures n <= |grades|
  {
    if grades == [] then 0
    else CountIn(grades[..|grades| - 1], k) + (if Range(grades[|grades| - 1]) == Some(k) then 1 else 0)
  }

  /** The number of grades inside some bin. */
  function Binned(grades: seq<real>): (n: nat)
    ensures n <= |grades|
  {
    if grades == [] then 0
    else Binned(grades[..|grades| - 1]) + (if Range(grades[|grades| - 1]).Some? then 1 else 0)
  }

  /** `ranges.value_counts(sort=False).values`: one count per label, in
      label order, zero counts included. */
  function Counts(grades: seq<real>): (r: seq<nat>)
    ensures |r| == |Labels|
    ensures forall k :: 0 <= k < |Labels| ==> r[k] == CountIn(grades, k)
  {
    seq(|Labels|, k requires 0 <= k < |Labels| => CountIn(grades, k))
  }

  function Total(c: seq<nat>): nat
  {
    if c == [] then 0 else Total(c[..|c| - 1]) + c[|c| - 1]
  }

  lemma TotalOfFive(c: seq<nat>)
    requires |c| == 5
    ensures Total(c) == c[0] + c[1] + c[2] + c[3] + c[4]
  {
    var c4 := c[..4];
    var c3 := c4[..3];
    var c2 := c3[..2];
    var c1 := c2[..1];
    assert c1[..0] == [];
    assert Total(c) == Total(c4) + c[4];
    assert Total(c4) == Total(c3) + c[3];
    assert Total(c3) == Total(c2) + c[2];
    assert Total(c2) == Total(c1) + c[1];
  }

  /** `valores.sum()` counts exactly the grades inside the bins: grades
      below 5 or from 10.1 up are dropped by `pd.cut`. */
  lemma {:induction false} CountsTotalBinned(grades: seq<real>)
    ensures Total(Counts(grades)) == Binned(grades)
    decreases |grades|
  {
    TotalOfFive(Counts(grades));
    if grades != [] {
      var init := grades[..|grades| - 1];
      CountsTotalBinned(init);
      TotalOfFive(Counts(init));
    }
  }

  /** When every grade is in 5..10.1 the pie accounts for all of them. */
  lemma {:induction false} AllInRangeAllBinned(grades: seq<real>)
    requires forall i :: 0 <= i < |grades| ==> 5.0 <= grades[i] < 10.1
    ensures Binned(grades) == |grades|
    decreases |grades|
  {
    if grades != [] {
      AllInRangeAllBinned(grades[..|grades| - 1]);
    }
  }

  /** Each count's share of `t`, in percent. */
  function Shares(c: seq<nat>, t: nat): (r: seq<Num>)
    requires t > 0
    ensures |r| == |c|
    ensures forall k :: 0 <= k < |c| ==> r[k].Finite?
  {
    seq(|c|, k requires 0 <= k < |c| => Finite(c[k] as real / t as real * 100.0))
  }

  /** `valores / total * 100`: NaN throughout when no grade was binned
      (0/0 in numpy), otherwise each count's share of the total. */
  function Percentages(c: seq<nat>): (r: seq<Num>)
    ensures |r| == |c|
    ensures Total(c) == 0 ==> forall k :: 0 <= k < |r| ==> r[k].NaN?
    ensures Total(c) > 0 ==> forall k :: 0 <= k < |r| ==> r[k].Finite?
  {
    var t := Total(c);
    if t == 0 then seq(|c|, k => NaN) else Shares(c, t)
  }

  /** The sum of the finite entries. */
  function SumFinite(r: seq<Num>): real
  {
    if r == [] then 0.0
    else SumFinite(r[..|r| - 1]) + (if r[|r| - 1].Finite? then r[|r| - 1].v else 0.0)
  }

  lemma {:induction false} ShareSum(c: seq<nat>, t: nat)
    requires t > 0
    ensures SumFinite(Shares(c, t)) == Total(c) as real / t as real * 100.0
    decreases |c|
  {
    if c != [] {
      var init := c[..|c| - 1];
      ShareSum(init, t);
      SharesPrefix(c, t);
      SplitShare(Total(init) as real, c[|c| - 1] as real, t as real);
    }
  }

  lemma SharesPrefix(c: seq<nat>, t: nat)
    requires t > 0 && c != []
    ensures Shares(c, t)[..|c| - 1] == Shares(c[..|c| - 1], t)
  {
  }

  lemma SplitShare(a: real, b: real, t: real)
    requires t > 0.0
    ensures (a + b) / t * 100.0 == a / t * 100.0 + b / t * 100.0
  {
  }

  lemma {:induction false} TotalBoundsEach(c: seq<nat>, k: nat)
    requires k < |c|
    ensures c[k] <= Total(c)
    decreases |c|
  {
    if k < |c| - 1 {
      TotalBoundsEach(c[..|c| - 1], k);
    }
  }

  lemma ShareBounds(c: seq<nat>, k: nat)
    requires k < |c| && Total(c) > 0
    ensures 0.0 <= Shares(c, Total(c))[k].v <= 100.0
  {
    TotalBoundsEach(c, k);
    FractionBounds(c[k] as real, Total(c) as real);
  }

  lemma FractionBounds(a: real, t: real)
    requires 0.0 <= a <= t && t > 0.0
    ensures 0.0 <= a / t * 100.0 <= 100.0
  {
    var q := a / t;
    assert q * t == a;
  }

  /** With some grade binned, the percentages are between 0 and 100 and
      add up to 100. */
  lemma PercentagesSumTo100(c: seq<nat>)
    requires Total(c) > 0
    ensures SumFinite(Percentages(c)) == 100.0
    ensures forall k :: 0 <= k < |c| ==> 0.0 <= Percentages(c)[k].v <= 100.0
  {
    var t := Total(c);
    assert Percentages(c) == Shares(c, t);
    ShareSum(c, t);
    WholeShare(t as real);
    SharesBounded(c);
  }

  lemma WholeShare(t: real)
    requires t > 0.0
    ensures t / t * 100.0 == 100.0
  {
  }

  lemma SharesBounded(c: seq<nat>)
    requires Total(c) > 0
    ensures forall k :: 0 <= k < |c| ==> 0.0 <= Shares(c, Total(c))[k].v <= 100.0
  {
    forall k | 0 <= k < |c| ensures 0.0 <= Shares(c, Total(c))[k].v <= 100.0 {
      ShareBounds(c, k);
    }
  }

  /** What a period's pie is drawn from: `colores`, `etiquetas`,
      `porcentajes`. */
  datatype Pie = Pie(colores: seq<string>, etiquetas: seq<string>, porcentajes: seq<Num>)

  /** The lists left standing for a period with no grades. */
  const NoPie := Pie([], [], [])

  function Palette(): (r: seq<string>)
    ensures |r| == |Labels|
    ensures forall k :: 0 <= k < |Labels| ==> r[k] == Colors[Labels[k]]
  {
    BinsAgree();
    seq(|Labels|, k requires 0 <= k < |Labels| => Colors[Labels[k]])
  }

  /** The pie of one period's grades: one slice per label, in label
      order, painted in that label's colour. */
  function Slices(grades: seq<real>): (r: Pie)
    ensures r.etiquetas == Labels
    ensures |r.colores| == |r.porcentajes| == |Labels|
    ensures forall k :: 0 <= k < |Labels| ==> r.etiquetas[k] in Colors && r.colores[k] == Colors[r.etiquetas[k]]
  {
    BinsAgree();
    Pie(Palette(), Labels, Percentages(Counts(grades)))
  }

  /** The pass over `['P1', 'P2']` that fills `colores1, etiquetas1,
      porcentajes1` and their P2 counterparts, skipping periods without
      grades. */
  method PieData(calificaciones: map<Period, seq<real>>) returns (pie1: Pie, pie2: Pie)
    requires P1 in calificaciones && P2 in calificaciones
    ensures pie1 == (if calificaciones[P1] == [] then NoPie else Slices(calificaciones[P1]))
    ensures pie2 == (if calificaciones[P2] == [] then NoPie else Slices(calificaciones[P2]))
  {
    pie1, pie2 := NoPie, NoPie;
    var periods := [P1, P2];
    for idx := 0 to |periods|
      invariant pie1 == (if 0 < idx && calificaciones[P1] != [] then Slices(calificaciones[P1]) else NoPie)
      invariant pie2 == (if 1 < idx && calificaciones[P2] != [] then Slices(calificaciones[P2]) else NoPie)
    {
      var parcial := periods[idx];
      var grades := calificaciones[parcial];
      if grades == [] {
        continue;
      }
      var counts := Counts(grades);
      var pie := Pie(Palette(), Labels, Percentages(counts));
      if parcial == P1 {
        pie1 := pie;
      } else {
        pie2 := pie;
      }
    }
  }

  /** A pie over grades of which at least one, `grades[i]`, lies in
      5..10.1 has percentages summing to 100; grades outside every range
      are left out of both the counts and the total. */
  lemma PieOfGradesSumsTo100(grades: seq<real>, i: nat)
    requires i < |grades| && 5.0 <= grades[i] < 10.1
    ensures SumFinite(Slices(grades).porcentajes) == 100.0
    ensures |Slices(grades).porcentajes| == |Slices(grades).colores| == |Labels|
  {
    SomeBinned(grades, i);
    CountsTotalBinned(grades);
    PercentagesSumTo100(Counts(grades));
  }

  /** One grade in range is enough for the binned count to be positive. */
  lemma {:induction false} SomeBinned(grades: seq<real>, i: nat)
    requires i < |grades| && 5.0 <= grades[i] < 10.1
    ensures Binned(grades) > 0
    decreases |grades|
  {
    if i < |grades| - 1 {
      var init := grades[..|grades| - 1];
      assert init[i] == grades[i];
      SomeBinned(init, i);
    }
  }

  /** A period whose grades are all below 5 gets a pie of NaN shares. */
  lemma FailingGradesGiveNaNShares(grades: seq<real>)
    requires forall i :: 0 <= i < |grades| ==> grades[i] < 5.0
    ensures forall k :: 0 <= k < |Labels| ==> Slices(grades).porcentajes[k].NaN?
  {
    NoneBinned(grades);
    CountsTotalBinned(grades);
  }

  lemma {:induction false} NoneBinned(grades: seq<real>)
    requires forall i :: 0 <= i < |grades| ==> grades[i] < 5.0
    ensures Binned(grades) == 0
    decreases |grades|
  {
    if grades != [] {
      NoneBinned(grades[..|grades| - 1]);
    }
  }
}
