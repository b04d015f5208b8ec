/** The loop over the two grading periods that fills the grades
    dictionary and the statistics dictionary. */
module Periods {
  import opened Values
  import opened Statistics

  datatype Period = P1 | P2

  /** One spreadsheet cell of a grade column: empty (NaN in pandas) or a grade. */
  datatype Cell = Missing | Score(value: real)

  /** The filtered group's grade table: its P1 and P2 columns. */
  datatype Table = Table(p1: seq<Cell>, p2: seq<Cell>) {
    /** `grupo_df[parcial]`. */
    function Column(p: Period): seq<Cell>
    {
      match p
      case P1 => p1
      case P2 => p2
    }
  }

  /** `Series.dropna()`: the grades in their order, without the empty cells. */
  function DropMissing(col: seq<Cell>): (r: seq<real>)
    ensures |r| == |col| - multiset(col)[Missing]
    ensures forall x :: x in r <==> Score(x) in col
    ensures forall x {:trigger multiset(r)[x]} :: multiset(r)[x] == multiset(col)[Score(x)]
  {
    if col == [] then []
    else
      assert col == [col[0]] + col[1..];
      var rest := DropMissing(col[1..]);
      if col[0].Missing? then rest
      else
        assert multiset([col[0].value] + rest) == multiset([col[0].value]) + multiset(rest);
        [col[0].value] + rest
  }

  /** The grades dictionary after the loop has handled the periods `ps`:
      every handled period has its grades, and nothing else is there. */
  function Graded(grupo: Table, ps: seq<Period>): (r: map<Period, seq<real>>)
    ensures forall p :: p in r <==> p in ps
    ensures forall p :: p in r ==> r[p] == DropMissing(grupo.Column(p))
  {
    if ps == [] then map[]
    else
      var p := ps[|ps| - 1];
      assert ps == ps[..|ps| - 1] + [p];
      Graded(grupo, ps[..|ps| - 1])[p := DropMissing(grupo.Column(p))]
  }

  /** The statistics dictionary after the loop has handled the periods
      `ps`: a period without grades is skipped (`continue`), so exactly
      the handled periods with some grade have a bundle, the bundle of
      their grades. */
  function Summarized(grupo: Table, ps: seq<Period>): (r: map<Period, Bundle>)
    ensures forall p :: p in r <==> p in ps && DropMissing(grupo.Column(p)) != []
    ensures forall p :: p in r ==> r[p] == Summary(DropMissing(grupo.Column(p)))
  {
    if ps == [] then map[]
    else
      var p := ps[|ps| - 1];
      assert ps == ps[..|ps| - 1] + [p];
      var rest := Summarized(grupo, ps[..|ps| - 1]);
      var grades := DropMissing(grupo.Column(p));
      if grades == [] then rest else rest[p := Summary(grades)]
  }

  /** What one turn of the loop adds. */
  lemma LoopStep(grupo: Table, ps: seq<Period>, p: Period)
    ensures Graded(grupo, ps + [p]) == Graded(grupo, ps)[p := DropMissing(grupo.Column(p))]
    ensures DropMissing(grupo.Column(p)) == [] ==> Summarized(grupo, ps + [p]) == Summarized(grupo, ps)
    ensures DropMissing(grupo.Column(p)) != [] ==>
      Summarized(grupo, ps + [p]) == Summarized(grupo, ps)[p := Summary(DropMissing(grupo.Column(p)))]
  {
    var qs := ps + [p];
    assert qs != [] && qs[..|qs| - 1] == ps && qs[|qs| - 1] == p;
    GradedStep(grupo, qs);
    SummarizedStep(grupo, qs);
  }

  lemma GradedStep(grupo: Table, qs: seq<Period>)
    requires qs != []
    ensures Graded(grupo, qs) == Graded(grupo, qs[..|qs| - 1])[qs[|qs| - 1] := DropMissing(grupo.Column(qs[|qs| - 1]))]
  {
  }

  lemma SummarizedStep(grupo: Table, qs: seq<Period>)
    requires qs != []
    ensures var p, grades := qs[|qs| - 1], DropMissing(grupo.Column(qs[|qs| - 1]));
      Summarized(grupo, qs) == if grades == [] then Summarized(grupo, qs[..|qs| - 1])
        else Summarized(grupo, qs[..|qs| - 1])[p := Summary(grades)]
  {
  }

  /** The loop `for idx, parcial in enumerate(['P1', 'P2'])`: every period
      gets its grades; only a period with at least one grade gets a
      statistics bundle, the bundle of its grades. */
  method FillPeriods(grupo: Table) returns (calificaciones: map<Period, seq<real>>, estadisticas: map<Period, Bundle>)
    ensures calificaciones == Graded(grupo, [P1, P2])
    ensures estadisticas == Summarized(grupo, [P1, P2])
  {
    calificaciones, estadisticas := map[], map[];
    var periods := [P1, P2];
    for idx := 0 to |periods|
      invariant calificaciones == Graded(grupo, periods[..idx])
      invariant estadisticas == Summarized(grupo, periods[..idx])
    {
      assert periods[..idx + 1] == periods[..idx] + [periods[idx]];
      var parcial := periods[idx];
      var grades := DropMissing(grupo.Column(parcial));
      LoopStep(grupo, periods[..idx], parcial);
      calificaciones := calificaciones[parcial := grades];
      if grades == [] {
        continue;
      }
      var bundle := Summary(grades);
      estadisticas := estadisticas[parcial := bundle];
    }
    assert periods[..2] == periods;
  }

  /** After the loop both periods have their grades, and exactly the
      periods with some grade have a bundle: the bundle of those grades. */
  lemma FilledPeriods(grupo: Table)
    ensures var calificaciones, estadisticas := Graded(grupo, [P1, P2]), Summarized(grupo, [P1, P2]);
      && calificaciones.Keys == {P1, P2}
      && (forall p :: p in calificaciones ==> calificaciones[p] == DropMissing(grupo.Column(p)))
      && (forall p :: p in estadisticas <==> p in calificaciones && calificaciones[p] != [])
      && (forall p :: p in estadisticas ==> Compute(calificaciones[p]) == Some(estadisticas[p]))
  {
  }

  /** A period gets no bundle exactly when every one of its cells is
      empty; otherwise its `total` is the number of non-empty cells. */
  lemma {:induction false} TotalCountsGradedCells(col: seq<Cell>)
    ensures Compute(DropMissing(col)).None? <==> forall i :: 0 <= i < |col| ==> col[i] == Missing
    ensures Compute(DropMissing(col)).Some? ==>
      Compute(DropMissing(col)).value.total == |col| - multiset(col)[Missing]
  {
    var r := DropMissing(col);
    if r == [] {
      forall i | 0 <= i < |col| ensures col[i] == Missing {
      }
    } else {
      assert r[0] in r;
      var i :| 0 <= i < |col| && col[i] == Score(r[0]);
    }
  }
}
