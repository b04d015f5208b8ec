/** EduBot: routes a free-text question to one statistic by an ordered
    chain of substring triggers and narrates how that statistic changed
    from P1 to P2. */
module EduBot {
  import opened Values
  import opened PyText
  import opened Statistics
  import opened Periods

  /** The statistics EduBot can compare. */
  datatype Metric = Media | Moda | Mediana | Rango | Q1 | Q2 | Q3 | Iqr | Total | Varianza

  /** What a question asks for. */
  datatype Intent = Compare(metric: Metric) | BoxplotHelp | PdfHelp | Unrecognized

  /** One link of the chain: if any trigger occurs in the lower-cased
      question, the question gets this intent. */
  datatype Rule = Rule(triggers: seq<string>, intent: Intent)

  /** The triggers in the order they are tested. */
  const Rules: seq<Rule> := [
    Rule(["media"], Compare(Media)),
    Rule(["moda"], Compare(Moda)),
    Rule(["mediana"], Compare(Mediana)),
    Rule(["rango"], Compare(Rango)),
    Rule(["q1", "cuartil 1"], Compare(Q1)),
    Rule(["q2", "cuartil 2"], Compare(Q2)),
    Rule(["q3", "cuartil 3"], Compare(Q3)),
    Rule(["iqr", "rango intercuartilico", "rango intercuartílico"], Compare(Iqr)),
    Rule(["total", "alumnos"], Compare(Total)),
    Rule(["varianza"], Compare(Varianza)),
    Rule(["boxplot"], BoxplotHelp),
    Rule(["pdf", "descargar"], PdfHelp)
  ]

  predicate Fires(r: Rule, q: string)
  {
    exists t | t in r.triggers :: Contains(q, t)
  }

  /** The index of the first rule that fires on `q`, or `|rules|` if none does. */
  function FirstHit(rules: seq<Rule>, q: string): (k: nat)
    ensures k <= |rules|
    ensures k < |rules| ==> Fires(rules[k], q)
    ensures forall i :: 0 <= i < k ==> !Fires(rules[i], q)
  {
    if rules == [] then 0
    else if Fires(rules[0], q) then 0
    else 1 + FirstHit(rules[1..], q)
  }

  /** The intent of a question, by the table: the first rule firing on
      the lower-cased text, or Unrecognized when none fires. */
  function TableRoute(question: string): (r: Intent)
    ensures r == Unrecognized <==> forall i :: 0 <= i < |Rules| ==> !Fires(Rules[i], Lower(question))
    ensures r != Unrecognized ==> exists k ::
      && 0 <= k < |Rules| && r == Rules[k].intent && Fires(Rules[k], Lower(question))
      && forall i :: 0 <= i < k ==> !Fires(Rules[i], Lower(question))
  {
    var k := FirstHit(Rules, Lower(question));
    assert forall i :: 0 <= i < |Rules| ==> Rules[i].intent != Unrecognized;
    if k < |Rules| then Rules[k].intent else Unrecognized
  }

  /** The chain as the chat handler writes it: lower-case the question,
      then test the triggers one `elif` after another. "mediana" contains
      "media", which is tested first, so the median branch is never taken. */
  function Route(question: string): (r: Intent)
    ensures r != Compare(Mediana)
  {
    var pregunta := Lower(question);
    MedianaContainsMedia(pregunta);
    if Contains(pregunta, "media") then Compare(Media)
    else if Contains(pregunta, "moda") then Compare(Moda)
    else if Contains(pregunta, "mediana") then Compare(Mediana)
    else if Contains(pregunta, "rango") then Compare(Rango)
    else if Contains(pregunta, "q1") || Contains(pregunta, "cuartil 1") then Compare(Q1)
    else if Contains(pregunta, "q2") || Contains(pregunta, "cuartil 2") then Compare(Q2)
    else if Contains(pregunta, "q3") || Contains(pregunta, "cuartil 3") then Compare(Q3)
    else if Contains(pregunta, "iqr") || Contains(pregunta, "rango intercuartilico")
         || Contains(pregunta, "rango intercuartílico") then Compare(Iqr)
    else if Contains(pregunta, "total") || Contains(pregunta, "alumnos") then Compare(Total)
    else if Contains(pregunta, "varianza") then Compare(Varianza)
    else if Contains(pregunta, "boxplot") then BoxplotHelp
    else if Contains(pregunta, "pdf") || Contains(pregunta, "descargar") then PdfHelp
    else Unrecognized
  }

  /** Every occurrence of "mediana" is an occurrence of "media". */
  lemma MedianaContainsMedia(q: string)
    ensures Contains(q, "mediana") ==> Contains(q, "media")
  {
    if Contains(q, "mediana") {
      ContainsPrefix(q, "mediana", 5);
      assert "mediana"[..5] == "media";
    }
  }

  /** The three conclusions: "subió/aumentó", "bajó/disminuyó", "se mantuvo igual". */
  datatype Verdict = Up | Down | Same

  /** `if p2 > p1: ... elif p2 < p1: ... else: ...` on pandas floats. */
  function Judge(p1: Num, p2: Num): (r: Verdict)
    ensures r == Up <==> Gt(p2, p1)
    ensures r == Down <==> Lt(p2, p1)
    ensures r == Same <==> !Gt(p2, p1) && !Lt(p2, p1)
  {
    GtIsFlippedLt(p2, p1);
    if Gt(p2, p1) then Up else if Lt(p2, p1) then Down else Same
  }

  /** The value of a metric in one period's bundle; IQR is q3 - q1. */
  function Value(b: Bundle, m: Metric): Num
  {
    match m
    case Media => Finite(b.media)
    case Moda => Finite(b.moda)
    case Mediana => Finite(b.mediana)
    case Rango => Finite(b.rango)
    case Q1 => Finite(b.q1)
    case Q2 => Finite(b.q2)
    case Q3 => Finite(b.q3)
    case Iqr => Finite(b.q3 - b.q1)
    case Total => Finite(b.total as real)
    case Varianza => b.varianza
  }

  /** The lines of a reply. The wording is fixed text chosen by these keys;
      a value line shows the period's value. */
  datatype Line =
    | Title(m: Metric)
    | Definition(m: Metric)
    | ValueLine(period: Period, value: Num)
    | Conclusion(m: Metric, verdict: Verdict)
    | BoxplotText
    | PdfHelpText
    | FallbackText

  /** What the chat panel does with a question: nothing, one bubble, or the
      KeyError raised when a period needed by the reply has no bundle. */
  datatype Outcome = Silent | Bubble(lines: seq<Line>) | KeyError(missing: Period)

  /** The comparison reply for a metric: its title first, both periods'
      values, and exactly the one conclusion the values call for. */
  function Narrate(m: Metric, b1: Bundle, b2: Bundle): (r: seq<Line>)
    ensures r != [] && r[0] == Title(m)
    ensures ValueLine(P1, Value(b1, m)) in r && ValueLine(P2, Value(b2, m)) in r
    ensures forall v :: Conclusion(m, v) in r <==> v == Judge(Value(b1, m), Value(b2, m))
  {
    var p1 := Value(b1, m);
    var p2 := Value(b2, m);
    [Title(m), Definition(m), ValueLine(P1, p1), ValueLine(P2, p2), Conclusion(m, Judge(p1, p2))]
  }

  /** The reply to a question: silence exactly for a blank question, and
      a KeyError only for a comparison whose period has no bundle. */
  function Respond(question: string, estadisticas: map<Period, Bundle>): (r: Outcome)
    ensures r.Silent? <==> IsBlank(question)
    ensures r.KeyError? ==> Route(question).Compare? && r.missing !in estadisticas
  {
    StripSpaceEmpty(question);
    if StripSpace(question) == [] then Silent
    else
      match Route(question)
      case Compare(m) =>
        if P1 !in estadisticas then KeyError(P1)
        else if P2 !in estadisticas then KeyError(P2)
        else Bubble(Narrate(m, estadisticas[P1], estadisticas[P2]))
      case BoxplotHelp => Bubble([BoxplotText])
      case PdfHelp => Bubble([PdfHelpText])
      case Unrecognized => Bubble([FallbackText])
  }

  /** Each rule of the table fires exactly on its own triggers. */
  lemma RulesFire(q: string)
    ensures Fires(Rules[0], q) <==> Contains(q, "media")
    ensures Fires(Rules[1], q) <==> Contains(q, "moda")
    ensures Fires(Rules[2], q) <==> Contains(q, "mediana")
    ensures Fires(Rules[3], q) <==> Contains(q, "rango")
    ensures Fires(Rules[4], q) <==> Contains(q, "q1") || Contains(q, "cuartil 1")
    ensures Fires(Rules[5], q) <==> Contains(q, "q2") || Contains(q, "cuartil 2")
    ensures Fires(Rules[6], q) <==> Contains(q, "q3") || Contains(q, "cuartil 3")
    ensures Fires(Rules[7], q) <==>
      Contains(q, "iqr") || Contains(q, "rango intercuartilico") || Contains(q, "rango intercuartílico")
    ensures Fires(Rules[8], q) <==> Contains(q, "total") || Contains(q, "alumnos")
    ensures Fires(Rules[9], q) <==> Contains(q, "varianza")
    ensures Fires(Rules[10], q) <==> Contains(q, "boxplot")
    ensures Fires(Rules[11], q) <==> Contains(q, "pdf") || Contains(q, "descargar")
  {
    RulesFireLow(q);
    RulesFireMid(q);
    RulesFireHigh(q);
  }

  lemma RulesFireLow(q: string)
    ensures Fires(Rules[0], q) <==> Contains(q, "media")
    ensures Fires(Rules[1], q) <==> Contains(q, "moda")
    ensures Fires(Rules[2], q) <==> Contains(q, "mediana")
    ensures Fires(Rules[3], q) <==> Contains(q, "rango")
  {
  }

  lemma RulesFireMid(q: string)
    ensures Fires(Rules[4], q) <==> Contains(q, "q1") || Contains(q, "cuartil 1")
    ensures Fires(Rules[5], q) <==> Contains(q, "q2") || Contains(q, "cuartil 2")
    ensures Fires(Rules[6], q) <==> Contains(q, "q3") || Contains(q, "cuartil 3")
    ensures Fires(Rules[7], q) <==>
      Contains(q, "iqr") || Contains(q, "rango intercuartilico") || Contains(q, "rango intercuartílico")
  {
  }

  lemma RulesFireHigh(q: string)
    ensures Fires(Rules[8], q) <==> Contains(q, "total") || Contains(q, "alumnos")
    ensures Fires(Rules[9], q) <==> Contains(q, "varianza")
    ensures Fires(Rules[10], q) <==> Contains(q, "boxplot")
    ensures Fires(Rules[11], q) <==> Contains(q, "pdf") || Contains(q, "descargar")
  {
  }

  /** One ordinary branch of the chain: look the metric up in P1's and
      P2's bundles, then append the conclusion. */
  method Report(m: Metric, estadisticas: map<Period, Bundle>) returns (out: Outcome)
    ensures P1 !in estadisticas ==> out == KeyError(P1)
    ensures P1 in estadisticas && P2 !in estadisticas ==> out == KeyError(P2)
    ensures P1 in estadisticas && P2 in estadisticas ==>
      out == Bubble(Narrate(m, estadisticas[P1], estadisticas[P2]))
  {
    if P1 !in estadisticas {
      return KeyError(P1);
    }
    var p1 := Value(estadisticas[P1], m);
    if P2 !in estadisticas {
      return KeyError(P2);
    }
    var p2 := Value(estadisticas[P2], m);
    var respuesta := [Title(m), Definition(m), ValueLine(P1, p1), ValueLine(P2, p2)];
    if Gt(p2, p1) {
      respuesta := respuesta + [Conclusion(m, Up)];
    } else if Lt(p2, p1) {
      respuesta := respuesta + [Conclusion(m, Down)];
    } else {
      respuesta := respuesta + [Conclusion(m, Same)];
    }
    out := Bubble(respuesta);
  }

  /** The IQR branch, which computes q3 - q1 itself and tests `<` before `>`. */
  method ReportIqr(estadisticas: map<Period, Bundle>) returns (out: Outcome)
    ensures P1 !in estadisticas ==> out == KeyError(P1)
    ensures P1 in estadisticas && P2 !in estadisticas ==> out == KeyError(P2)
    ensures P1 in estadisticas && P2 in estadisticas ==>
      out == Bubble(Narrate(Iqr, estadisticas[P1], estadisticas[P2]))
  {
    if P1 !in estadisticas {
      return KeyError(P1);
    }
    var p1_q1 := estadisticas[P1].q1;
    var p1_q3 := estadisticas[P1].q3;
    if P2 !in estadisticas {
      return KeyError(P2);
    }
    var p2_q1 := estadisticas[P2].q1;
    var p2_q3 := estadisticas[P2].q3;
    var iqr_p1 := p1_q3 - p1_q1;
    var iqr_p2 := p2_q3 - p2_q1;
    var respuesta := [Title(Iqr), Definition(Iqr), ValueLine(P1, Finite(iqr_p1)), ValueLine(P2, Finite(iqr_p2))];
    if iqr_p2 < iqr_p1 {
      respuesta := respuesta + [Conclusion(Iqr, Down)];
    } else if iqr_p2 > iqr_p1 {
      respuesta := respuesta + [Conclusion(Iqr, Up)];
    } else {
      respuesta := respuesta + [Conclusion(Iqr, Same)];
    }
    out := Bubble(respuesta);
  }

  /** The chat handler: nothing for a blank question, otherwise the reply
      of the intent the chain selects. */
  method Answer(question: string, estadisticas: map<Period, Bundle>) returns (out: Outcome)
    ensures out == Respond(question, estadisticas)
  {
    if StripSpace(question) == [] {
      return Silent;
    }
    match Route(question)
    case Compare(m) =>
      if m == Iqr {
        out := ReportIqr(estadisticas);
      } else {
        out := Report(m, estadisticas);
      }
    case BoxplotHelp =>
      out := Bubble([BoxplotText]);
    case PdfHelp =>
      out := Bubble([PdfHelpText]);
    case Unrecognized =>
      out := Bubble([FallbackText]);
  }

  /** The chain selects what the ordered trigger table selects: the intent
      of the first rule one of whose triggers occurs in the question. */
  lemma RouteFollowsTable(question: string)
    ensures Route(question) == TableRoute(question)
  {
    var q := Lower(question);
    RulesFire(q);
    if FirstHit(Rules, q) < 6 {
      RouteFollowsTableEarly(question);
    } else {
      RouteFollowsTableLate(question);
    }
  }

  lemma RouteFollowsTableEarly(question: string)
    requires FirstHit(Rules, Lower(question)) < 6
    ensures Route(question) == TableRoute(question)
  {
    var q := Lower(question);
    var k := FirstHit(Rules, q);
    RulesFireLow(q);
    RulesFireMid(q);
    // A case split on the first rule that fires, one branch per rule, so
    // that the solver unfolds the chain for one concrete index at a time.
    if k == 0 {
    } else if k == 1 {
    } else if k == 2 {
    } else if k == 3 {
    } else if k == 4 {
    } else {
    }
  }

  lemma RouteFollowsTableLate(question: string)
    requires FirstHit(Rules, Lower(question)) >= 6
    ensures Route(question) == TableRoute(question)
  {
    var q := Lower(question);
    var k := FirstHit(Rules, q);
    RulesFire(q);
    // The same case split on the first rule that fires, for the later rules.
    if k == 6 {
    } else if k == 7 {
    } else if k == 8 {
    } else if k == 9 {
    } else if k == 10 {
    } else if k == 11 {
    } else {
    }
  }
}
