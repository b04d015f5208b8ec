/** What the ordering of EduBot's triggers and its verdicts imply. */
module EduBotFacts {
  import opened Values
  import opened PyText
  import opened Statistics
  import opened StatisticsFacts
  import opened Periods
  import opened EduBot

  /** "mediana" contains "media", which is tested first: every question
      mentioning the median gets the mean's reply. */
  lemma MedianaGetsMediaReply(question: string)
    requires Contains(Lower(question), "mediana")
    ensures Route(question) == Compare(Media)
  {
    MedianaContainsMedia(Lower(question));
  }

  /** "rango" is tested before the IQR triggers: a question mentioning
      "rango" and neither "media" nor "moda" gets the range reply, however
      it also mentions "iqr" or "intercuartil". */
  lemma RangoBeforeIqr(question: string)
    requires Contains(Lower(question), "rango")
    requires !Contains(Lower(question), "media") && !Contains(Lower(question), "moda")
    ensures Route(question) == Compare(Rango)
  {
    if Contains(Lower(question), "mediana") {
      MedianaGetsMediaReply(question);
    }
  }

  /** The IQR reply needs "iqr" and no "rango": its two "rango
      intercuartilico" triggers can never be what selects it. */
  lemma IqrNeedsIqrWithoutRango(question: string)
    requires Route(question) == Compare(Iqr)
    ensures Contains(Lower(question), "iqr")
    ensures !Contains(Lower(question), "rango")
    ensures !Contains(Lower(question), "media") && !Contains(Lower(question), "moda")
  {
    var q := Lower(question);
    if Contains(q, "rango intercuartilico") || Contains(q, "rango intercuartílico") {
      RangoPhrasesHaveRango(q);
    }
  }

  lemma RangoPhrasesHaveRango(q: string)
    requires Contains(q, "rango intercuartilico") || Contains(q, "rango intercuartílico")
    ensures Contains(q, "rango")
  {
    if Contains(q, "rango intercuartilico") {
      ContainsPrefix(q, "rango intercuartilico", 5);
      assert "rango intercuartilico"[..5] == "rango";
    } else {
      ContainsPrefix(q, "rango intercuartílico", 5);
      assert "rango intercuartílico"[..5] == "rango";
    }
  }

  /** No character of `s` is one of `cs` or one of their capitals. */
  predicate Shuns(s: string, cs: string)
  {
    forall i, k :: 0 <= i < |s| && 0 <= k < |cs| ==> s[i] != cs[k] && s[i] as int != cs[k] as int - 32
  }

  /** A question that shuns one of the characters of trigger `t` does not
      contain `t` once lower-cased. */
  lemma ShunnedTrigger(question: string, cs: string, k: nat, t: string)
    requires Shuns(question, cs) && k < |cs| && cs[k] in t
    ensures !Contains(Lower(question), t)
  {
    var q := Lower(question);
    LowerShuns(question, cs, k);
    assert [] + q == q;
    NotContainsSplit([], q, t, cs[k]);
  }

  /** Lower-casing cannot bring in a shunned character. */
  lemma LowerShuns(s: string, cs: string, k: nat)
    requires Shuns(s, cs) && k < |cs|
    ensures cs[k] !in Lower(s)
  {
    forall i | 0 <= i < |s| ensures Lower(s)[i] != cs[k] {
      if Lower(s)[i] == cs[k] {
        LowerCharInverse(cs[k], s[i]);
      }
    }
  }

  /** The questions the suggestion buttons put in the chat box. */
  const MediaButton := "¿Cuál es la media?"
  const MedianaButton := "¿Cuál es la mediana?"
  const BoxplotButton := "¿Qué es un boxplot?"
  const ModaButton := "¿Cuál es la moda?"
  const VarianzaButton := "¿Qué es la varianza?"
  const IqrButton := "¿Qué es el rango intercuartil (IQR)?"

  lemma MediaButtonGetsMediaReply()
    ensures Route(MediaButton) == Compare(Media)
  {
    assert At(Lower(MediaButton), "media", 12);
  }

  /** The "Mediana" button gets the mean's reply. */
  lemma MedianaButtonGetsMediaReply()
    ensures Route(MedianaButton) == Compare(Media)
  {
    assert At(Lower(MedianaButton), "mediana", 12);
    MedianaGetsMediaReply(MedianaButton);
  }

  lemma ModaButtonShuns()
    ensures Shuns(ModaButton, "i")
  {
  }

  lemma ModaButtonGetsModaReply()
    ensures Route(ModaButton) == Compare(Moda)
  {
    ModaButtonShuns();
    ShunnedTrigger(ModaButton, "i", 0, "media");
    assert At(Lower(ModaButton), "moda", 12);
  }

  lemma IqrButtonShuns()
    ensures Shuns(IqrButton, "m")
  {
  }

  lemma IqrButtonHasRango()
    ensures Contains(Lower(IqrButton), "rango")
  {
    assert At(Lower(IqrButton), "rango", 11);
  }

  /** The "Rango IQR" button asks about the interquartile range but gets
      the range reply. */
  lemma IqrButtonGetsRangoReply()
    ensures Route(IqrButton) == Compare(Rango)
  {
    IqrButtonShuns();
    IqrButtonHasRango();
    ShunnedTrigger(IqrButton, "m", 0, "media");
    ShunnedTrigger(IqrButton, "m", 0, "moda");
    RangoBeforeIqr(IqrButton);
  }

  lemma BoxplotButtonShuns()
    ensures Shuns(BoxplotButton, "mg123iav")
  {
  }

  lemma BoxplotButtonHasBoxplot()
    ensures Contains(Lower(BoxplotButton), "boxplot")
  {
    assert At(Lower(BoxplotButton), "boxplot", 11);
  }

  /** A question shunning m, g, the digits 1-3, i, a and v and mentioning
      "boxplot" gets the boxplot explanation. */
  lemma BoxplotRoute(question: string)
    requires Shuns(question, "mg123iav") && Contains(Lower(question), "boxplot")
    ensures Route(question) == BoxplotHelp
  {
    var cs := "mg123iav";
    ShunnedTrigger(question, cs, 0, "media");
    ShunnedTrigger(question, cs, 0, "moda");
    ShunnedTrigger(question, cs, 0, "mediana");
    ShunnedTrigger(question, cs, 1, "rango");
    ShunnedTrigger(question, cs, 2, "q1");
    ShunnedTrigger(question, cs, 2, "cuartil 1");
    ShunnedTrigger(question, cs, 3, "q2");
    ShunnedTrigger(question, cs, 3, "cuartil 2");
    ShunnedTrigger(question, cs, 4, "q3");
    ShunnedTrigger(question, cs, 4, "cuartil 3");
    ShunnedTrigger(question, cs, 5, "iqr");
    if Contains(Lower(question), "rango intercuartilico") || Contains(Lower(question), "rango intercuartílico") {
      RangoPhrasesHaveRango(Lower(question));
    }
    ShunnedTrigger(question, cs, 6, "total");
    ShunnedTrigger(question, cs, 6, "alumnos");
    ShunnedTrigger(question, cs, 7, "varianza");
  }

  lemma BoxplotButtonGetsBoxplotHelp()
    ensures Route(BoxplotButton) == BoxplotHelp
  {
    BoxplotButtonShuns();
    BoxplotButtonHasBoxplot();
    BoxplotRoute(BoxplotButton);
  }

  /** "iqr" cannot occur across a cut with no "i" before it and no "q"
      after it. */
  lemma IqrAbsentAcross(question: string, n: nat)
    requires n <= |question| && Shuns(question[..n], "i") && Shuns(question[n..], "q")
    ensures !Contains(Lower(question), "iqr")
  {
    var head, tail := question[..n], question[n..];
    assert head + tail == question;
    LowerConcat(head, tail);
    LowerShuns(head, "i", 0);
    LowerShuns(tail, "q", 0);
    NotContainsSplit(Lower(head), Lower(tail), "iqr", 'q');
  }

  lemma VarianzaButtonCut()
    ensures Shuns(VarianzaButton[..2], "i") && Shuns(VarianzaButton[2..], "q")
  {
  }

  /** The variance button's question holds an "i" and a "q", but never
      "iqr": its only "q" follows "¿". */
  lemma VarianzaButtonLacksIqr()
    ensures !Contains(Lower(VarianzaButton), "iqr")
  {
    VarianzaButtonCut();
    IqrAbsentAcross(VarianzaButton, 2);
  }

  lemma VarianzaButtonShuns()
    ensures Shuns(VarianzaButton, "mg123t")
  {
  }

  lemma VarianzaButtonHasVarianza()
    ensures Contains(Lower(VarianzaButton), "varianza")
  {
    assert At(Lower(VarianzaButton), "varianza", 11);
  }

  /** A question shunning m, g, the digits 1-3 and t, without "iqr" and
      mentioning "varianza", gets the variance reply. */
  lemma VarianzaRoute(question: string)
    requires Shuns(question, "mg123t") && !Contains(Lower(question), "iqr")
    requires Contains(Lower(question), "varianza")
    ensures Route(question) == Compare(Varianza)
  {
    var cs := "mg123t";
    ShunnedTrigger(question, cs, 0, "media");
    ShunnedTrigger(question, cs, 0, "moda");
    ShunnedTrigger(question, cs, 0, "mediana");
    ShunnedTrigger(question, cs, 1, "rango");
    ShunnedTrigger(question, cs, 2, "q1");
    ShunnedTrigger(question, cs, 2, "cuartil 1");
    ShunnedTrigger(question, cs, 3, "q2");
    ShunnedTrigger(question, cs, 3, "cuartil 2");
    ShunnedTrigger(question, cs, 4, "q3");
    ShunnedTrigger(question, cs, 4, "cuartil 3");
    if Contains(Lower(question), "rango intercuartilico") || Contains(Lower(question), "rango intercuartílico") {
      RangoPhrasesHaveRango(Lower(question));
    }
    ShunnedTrigger(question, cs, 5, "total");
    ShunnedTrigger(question, cs, 0, "alumnos");
  }

  lemma VarianzaButtonGetsVarianzaReply()
    ensures Route(VarianzaButton) == Compare(Varianza)
  {
    VarianzaButtonShuns();
    VarianzaButtonLacksIqr();
    VarianzaButtonHasVarianza();
    VarianzaRoute(VarianzaButton);
  }

  lemma IqrQuestionShuns()
    ensures Shuns("qué es el iqr", "mg123")
  {
  }

  lemma IqrQuestionHasIqr()
    ensures Contains(Lower("qué es el iqr"), "iqr")
  {
    assert At(Lower("qué es el iqr"), "iqr", 10);
  }

  /** Asked by its own name, the interquartile range does get its reply. */
  lemma IqrQuestionGetsIqrReply()
    ensures Route("qué es el iqr") == Compare(Iqr)
  {
    var question, cs := "qué es el iqr", "mg123";
    IqrQuestionShuns();
    IqrQuestionHasIqr();
    ShunnedTrigger(question, cs, 0, "media");
    ShunnedTrigger(question, cs, 0, "moda");
    ShunnedTrigger(question, cs, 0, "mediana");
    ShunnedTrigger(question, cs, 1, "rango");
    ShunnedTrigger(question, cs, 2, "q1");
    ShunnedTrigger(question, cs, 2, "cuartil 1");
    ShunnedTrigger(question, cs, 3, "q2");
    ShunnedTrigger(question, cs, 3, "cuartil 2");
    ShunnedTrigger(question, cs, 4, "q3");
    ShunnedTrigger(question, cs, 4, "cuartil 3");
  }

  lemma UnknownQuestionShuns()
    ensures Shuns("banana", "mgqctlvxpd")
  {
  }

  /** A question shunning m, g, q, c, t, l, v, x, p and d fires no
      trigger at all. */
  lemma UnknownRoute(question: string)
    requires Shuns(question, "mgqctlvxpd")
    ensures Route(question) == Unrecognized
  {
    UnknownMissesStatistics(question);
    UnknownMissesTheRest(question);
  }

  lemma UnknownMissesStatistics(question: string)
    requires Shuns(question, "mgqctlvxpd")
    ensures var q := Lower(question);
      && !Contains(q, "media") && !Contains(q, "moda") && !Contains(q, "mediana")
      && !Contains(q, "rango") && !Contains(q, "q1") && !Contains(q, "cuartil 1")
      && !Contains(q, "q2") && !Contains(q, "cuartil 2") && !Contains(q, "q3")
      && !Contains(q, "cuartil 3")
  {
    var cs := "mgqctlvxpd";
    ShunnedTrigger(question, cs, 0, "media");
    ShunnedTrigger(question, cs, 0, "moda");
    ShunnedTrigger(question, cs, 0, "mediana");
    ShunnedTrigger(question, cs, 1, "rango");
    ShunnedTrigger(question, cs, 2, "q1");
    ShunnedTrigger(question, cs, 3, "cuartil 1");
    ShunnedTrigger(question, cs, 2, "q2");
    ShunnedTrigger(question, cs, 3, "cuartil 2");
    ShunnedTrigger(question, cs, 2, "q3");
    ShunnedTrigger(question, cs, 3, "cuartil 3");
  }

  lemma UnknownMissesTheRest(question: string)
    requires Shuns(question, "mgqctlvxpd")
    ensures var q := Lower(question);
      && !Contains(q, "iqr") && !Contains(q, "rango intercuartilico")
      && !Contains(q, "rango intercuartílico") && !Contains(q, "total")
      && !Contains(q, "alumnos") && !Contains(q, "varianza") && !Contains(q, "boxplot")
      && !Contains(q, "pdf") && !Contains(q, "descargar")
  {
    var cs := "mgqctlvxpd";
    ShunnedTrigger(question, cs, 2, "iqr");
    UnknownMissesStatistics(question);
    if Contains(Lower(question), "rango intercuartilico") || Contains(Lower(question), "rango intercuartílico") {
      RangoPhrasesHaveRango(Lower(question));
    }
    UnknownMissesTheLast(question);
  }

  lemma UnknownMissesTheLast(question: string)
    requires Shuns(question, "mgqctlvxpd")
    ensures var q := Lower(question);
      && !Contains(q, "total") && !Contains(q, "alumnos") && !Contains(q, "varianza")
      && !Contains(q, "boxplot") && !Contains(q, "pdf") && !Contains(q, "descargar")
  {
    var cs := "mgqctlvxpd";
    ShunnedTrigger(question, cs, 4, "total");
    ShunnedTrigger(question, cs, 5, "alumnos");
    ShunnedTrigger(question, cs, 6, "varianza");
    ShunnedTrigger(question, cs, 7, "boxplot");
    ShunnedTrigger(question, cs, 8, "pdf");
    ShunnedTrigger(question, cs, 9, "descargar");
  }

  /** A question about nothing EduBot knows gets the fallback. */
  lemma UnknownQuestionIsUnrecognized()
    ensures Route("banana") == Unrecognized
  {
    UnknownQuestionShuns();
    UnknownRoute("banana");
  }

  /** No rule of the table stands for "unrecognized". */
  lemma RulesRecognize()
    ensures forall i :: 0 <= i < |Rules| ==> Rules[i].intent != Unrecognized
  {
  }

  /** A question is unrecognized exactly when no trigger of the table
      fires on it. */
  lemma UnrecognizedIffNoTrigger(question: string)
    ensures Route(question) == Unrecognized <==> forall r :: r in Rules ==> !Fires(r, Lower(question))
  {
    RouteFollowsTable(question);
    RulesRecognize();
    var q := Lower(question);
    var k := FirstHit(Rules, q);
    if k < |Rules| {
      assert Rules[k] in Rules;
    } else {
      forall r | r in Rules ensures !Fires(r, q) {
        var i :| 0 <= i < |Rules| && Rules[i] == r;
      }
    }
  }

  /** The fixed fallback message is the reply exactly to a non-blank
      question on which no trigger of the table fires. */
  lemma FallbackIffNoTrigger(question: string, estadisticas: map<Period, Bundle>)
    ensures Respond(question, estadisticas) == Bubble([FallbackText]) <==>
      !IsBlank(question) && forall r :: r in Rules ==> !Fires(r, Lower(question))
  {
    StripSpaceEmpty(question);
    UnrecognizedIffNoTrigger(question);
  }

  /** A KeyError is raised exactly for a comparison whose period has no
      bundle, P1 being looked up first. */
  lemma KeyErrorIffMissingBundle(question: string, estadisticas: map<Period, Bundle>, p: Period)
    ensures Respond(question, estadisticas) == KeyError(p) <==>
      && !IsBlank(question) && Route(question).Compare?
      && (if p == P1 then P1 !in estadisticas else P1 in estadisticas && P2 !in estadisticas)
  {
    StripSpaceEmpty(question);
  }

  /** For finite values exactly one conclusion is drawn, by the order of
      p2 against p1. */
  lemma JudgeTrichotomy(p1: real, p2: real)
    ensures Judge(Finite(p1), Finite(p2)) == Up <==> p2 > p1
    ensures Judge(Finite(p1), Finite(p2)) == Down <==> p2 < p1
    ensures Judge(Finite(p1), Finite(p2)) == Same <==> p2 == p1
  {
  }

  /** A NaN on either side falls through to "se mantuvo igual". */
  lemma JudgeNaNIsSame(p1: Num, p2: Num)
    requires p1.NaN? || p2.NaN?
    ensures Judge(p1, p2) == Same
  {
  }

  /** Swapping the periods swaps "up" and "down" and keeps "same". */
  lemma JudgeSwapped(p1: Num, p2: Num)
    ensures Judge(p1, p2) == Up <==> Judge(p2, p1) == Down
    ensures Judge(p1, p2) == Same <==> Judge(p2, p1) == Same
  {
  }

  /** A comparison reply shows both values and carries exactly one
      conclusion: "up" iff P2's value is above P1's, "down" iff below,
      "same" otherwise. */
  lemma ReplyConclusion(question: string, estadisticas: map<Period, Bundle>, m: Metric)
    requires !IsBlank(question) && Route(question) == Compare(m)
    requires P1 in estadisticas && P2 in estadisticas
    ensures Respond(question, estadisticas).Bubble?
    ensures var lines := Respond(question, estadisticas).lines;
      var v1 := Value(estadisticas[P1], m);
      var v2 := Value(estadisticas[P2], m);
      && ValueLine(P1, v1) in lines && ValueLine(P2, v2) in lines
      && (Conclusion(m, Up) in lines <==> Gt(v2, v1))
      && (Conclusion(m, Down) in lines <==> Lt(v2, v1))
      && (Conclusion(m, Same) in lines <==> !Gt(v2, v1) && !Lt(v2, v1))
      && (forall v :: Conclusion(m, v) in lines ==> v == Judge(v1, v2))
  {
    StripSpaceEmpty(question);
    var lines := Respond(question, estadisticas).lines;
    assert lines == Narrate(m, estadisticas[P1], estadisticas[P2]);
  }

  /** The range and the IQR compared by EduBot are never negative, nor is
      a finite variance. */
  lemma SpreadsNonNegative(s: seq<real>)
    requires s != []
    ensures Value(Compute(s).value, Rango).v >= 0.0
    ensures Value(Compute(s).value, Iqr).v >= 0.0
    ensures Value(Compute(s).value, Varianza).Finite? ==> Value(Compute(s).value, Varianza).v >= 0.0
  {
    BundleInvariants(s);
  }

  /** With one grade in a period its variance is NaN, so the variance
      reply concludes "se mantuvo igual" whatever the other period holds. */
  lemma SingleGradeVarianzaIsSame(single: seq<real>, other: seq<real>)
    requires |single| == 1 && other != []
    ensures Judge(Value(Compute(single).value, Varianza), Value(Compute(other).value, Varianza)) == Same
    ensures Judge(Value(Compute(other).value, Varianza), Value(Compute(single).value, Varianza)) == Same
  {
    BundleInvariants(single);
    NaNVarianceIsSame(Compute(single).value, Compute(other).value);
  }

  lemma NaNVarianceIsSame(b1: Bundle, b2: Bundle)
    requires b1.varianza.NaN?
    ensures Judge(Value(b1, Varianza), Value(b2, Varianza)) == Same
    ensures Judge(Value(b2, Varianza), Value(b1, Varianza)) == Same
  {
  }
}
