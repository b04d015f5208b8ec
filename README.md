# Grades dashboard decision core, in Dafny

`prueba2.py` is a Streamlit dashboard. It filters a spreadsheet of grades down to one group and then does five things:

- computes a statistics bundle for each of the two grading periods P1 and P2;
- answers questions typed into the EduBot chat panel by comparing P1 and P2;
- cuts each period's grades into five grade ranges for the pie charts;
- reads the colour of each range back as RGB for the PDF legend;
- filters the PDF text to ASCII.

This project models the decisions behind those five things and proves what they promise.

| file | module | models |
|---|---|---|
| `values.dfy` | `Values` | `Option`, and pandas floats as `Num = Finite(real) \| NaN` with Python's `>`/`<` (false on NaN) |
| `pytext.dfy` | `PyText` | `str.lower`, `str.strip()`/`str.isspace`, `str.strip('#')`, slicing, `t in s` |
| `statistics.dfy` | `Statistics`, `StatisticsFacts` | the bundle (mean, median, mode, sample variance, quartiles, max, min, range, count) and its invariants |
| `periods.dfy` | `Periods` | the loop over `['P1', 'P2']` that fills the grades and statistics dictionaries |
| `edubot.dfy` | `EduBot` | the question router (an ordered chain of substring triggers), the replies and their three-way conclusion |
| `edubot_facts.dfy` | `EduBotFacts` | what the trigger order implies: shadowed branches, which reply the suggestion buttons get, blank and unrecognised questions |
| `bins.dfy` | `GradeBins` | `pd.cut` into [5,6) … [9,10.1), the counts, percentages and colours of each pie |
| `pdftext.dfy` | `PdfText` | the ASCII filter of the PDF text and `int(c.strip('#')[j:j+2], 16)` |

Modelling conventions:

- Grades are `real`.
- A spreadsheet cell is `Missing` or `Score(v)`, and `Series.dropna()` keeps the scores in order.
- The replies are sequences of `Line` keys (`Title(m)`, `Definition(m)`, `ValueLine(period, value)`, `Conclusion(m, verdict)`, …). They stand for the fixed Spanish texts the source prints.
- The `KeyError` the source raises when one of the two periods has no bundle is an `Outcome` of its own.
- The router exists twice:
  - `EduBot.Route` follows the source's `if`/`elif` chain;
  - `EduBot.TableRoute` reads the ordered trigger table `EduBot.Rules`.
  - `EduBot.RouteFollowsTable` proves the two agree.
- The imperative parts of the source are methods, each proved against a function:
  - the period loop: `Periods.FillPeriods`;
  - the `respuesta +=` branches: `EduBot.Report` and `EduBot.ReportIqr`;
  - the chat handler: `EduBot.Answer`;
  - the pie-data loop: `GradeBins.PieData`.

Two behaviours of the code deserve a note:

- **Variance of a single grade.** `Series.var()` (ddof=1) of a single grade is NaN and no error is raised; the model follows that. EduBot's `p2 > p1` and `p2 < p1` are then both false, so the variance reply concludes "se mantuvo igual". See `EduBotFacts.SingleGradeVarianzaIsSame`.
- **Menu buttons.** The "Mediana" and "Rango IQR" suggestion buttons are labelled for the median and the IQR. Because of the order of the triggers, they get the mean's and the range's replies instead. See `EduBotFacts.MedianaButtonGetsMediaReply` and `EduBotFacts.IqrButtonGetsRangoReply`.

## Model

| member | source | states |
|---|---|---|
| Values.GtIsFlippedLt | prueba2.py:312-315 | `p2 > p1` is `p1 < p2` even with NaN, and the two tests never both hold |
| PyText.Lower | prueba2.py:293 | the lower-cased question has the same length and lower-cases each character in place |
| PyText.LowerIdempotent | prueba2.py:293 | lower-casing an already lower-cased question changes nothing |
| PyText.StripSpaceEmpty | prueba2.py:292 | `pregunta.strip()` is empty exactly when the question is empty or all whitespace |
| PyText.StripChar | prueba2.py:988 | `c.strip('#')` is no longer than `c` and, when non-empty, neither starts nor ends with '#' |
| PyText.StripCharSpec | prueba2.py:988 | `c.strip('#')` is the piece of `c` left after removing a prefix and a suffix made only of '#' |
| PyText.StripSpace | prueba2.py:292 | `pregunta.strip()` is no longer than the question and, when non-empty, neither starts nor ends with whitespace |
| PyText.StripSpaceSpec | prueba2.py:292 | `strip()` removes a prefix and a suffix made only of whitespace: the result is the piece of the input between them |
| PyText.ContainsIffSlice | prueba2.py:300 | Python's `t in s` holds exactly when some slice of `s` of the length of `t` equals `t` |
| PyText.Slice | prueba2.py:988 | Python's clamped slice `[lo:hi]`: the exact sub-sequence when in bounds, the rest of the string when `hi` runs past the end, and empty when `lo` is past the end or the bounds cross |
| Statistics.Min | prueba2.py:147 | the minimum is a grade of the period and no grade is below it |
| Statistics.Max | prueba2.py:146 | the maximum is a grade of the period and no grade is above it |
| Statistics.Variance | prueba2.py:140 | the sample variance is NaN exactly for one grade and otherwise non-negative |
| Statistics.Mode | prueba2.py:139 | the mode is a grade of the period, no grade occurs more often, and among equally frequent grades it is the smallest |
| Statistics.Compute | prueba2.py:132-164 | a period gets a bundle exactly when it has at least one grade |
| Statistics.Summary | prueba2.py:136-164 | the bundle's `total` is the number of grades |
| StatisticsFacts.QuartilesOrdered | prueba2.py:141-147 | quantile 0 is the minimum, quantile 1 the maximum, and min ≤ q1 ≤ q2 ≤ q3 ≤ max |
| StatisticsFacts.MedianIsSecondQuartile | prueba2.py:138-142 | `median()` equals `quantile(0.50)` |
| Statistics.Mean | prueba2.py:137 | the mean of a non-empty series has a grade at or below it and a grade at or above it, so it lies between the minimum and the maximum |
| Statistics.Median | prueba2.py:138 | the median lies between the minimum and the maximum and, for an odd count, is one of the grades |
| Statistics.Quartile | prueba2.py:141-143 | the linear quantile at k/4, for k from 0 to 4, lies between the minimum and the maximum |
| Statistics.SortedEnds | prueba2.py:141-147 | the sorted grades start at the minimum and end at the maximum |
| StatisticsFacts.BundleInvariants | prueba2.py:136-164 | every field of a non-empty period's bundle: ordered quartiles, q2 = median, rango = max − min ≥ 0, IQR ≥ 0, mean within [min, max], min and max and mode are grades, the mode law, variance NaN iff one grade, total = number of grades |
| StatisticsFacts.FiveGradesExample | prueba2.py:136-164 | for grades 7, 8, 9, 9, 10 the bundle is mean 8.6, median 9, mode 9, variance 1.3, q1 8, q2 9, q3 9, max 10, min 7, range 3, total 5 |
| StatisticsFacts.SortedIsFixed | prueba2.py:141-143 | sorting already ordered grades returns them unchanged |
| Periods.DropMissing | prueba2.py:128 | `dropna()` keeps one grade per non-empty cell: the count of each grade equals the count of cells holding it, and the length is the number of non-empty cells |
| Periods.LoopStep | prueba2.py:127-152 | one turn of the loop stores the period's grades, and stores a bundle only when they are non-empty |
| Periods.FillPeriods | prueba2.py:127-164 | the loop leaves the grades and statistics dictionaries that the loop's specification functions give |
| Periods.Graded | prueba2.py:128-129 | after the handled periods, the grades dictionary holds exactly those periods, each with its column without empty cells |
| Periods.Summarized | prueba2.py:132-164 | after the handled periods, exactly those with some grade have a bundle, and it is the bundle of that period's grades |
| Periods.FilledPeriods | prueba2.py:127-164 | after the loop P1 and P2 both have grades, and a period has a bundle exactly when its grades are non-empty; the bundle is theirs |
| Periods.TotalCountsGradedCells | prueba2.py:128-149 | no bundle exactly when every cell is empty; otherwise `total` counts the non-empty cells |
| EduBot.Route | prueba2.py:293-533 | the `if`/`elif` chain on the lower-cased question never selects the median, whose branch is shadowed by "media" |
| EduBot.TableRoute | prueba2.py:300-533 | a question is unrecognised exactly when no rule fires; otherwise it gets the intent of the first rule that fires |
| EduBot.Judge | prueba2.py:312-317 | "up" exactly when `p2 > p1`, "down" exactly when `p2 < p1`, "same" exactly when neither holds (NaN included) |
| EduBot.Narrate | prueba2.py:303-317 | a comparison reply opens with the title, shows both periods' values, and carries exactly the conclusion the values call for |
| EduBot.Respond | prueba2.py:292-533 | EduBot stays silent exactly on a blank question, and raises a KeyError only for a comparison whose period has no bundle |
| EduBot.FirstHit | prueba2.py:300-533 | the first rule firing on the question: every earlier rule misses |
| EduBot.RulesFire | prueba2.py:300-528 | each rule of the table fires exactly when one of that branch's trigger words occurs |
| EduBot.RouteFollowsTable | prueba2.py:300-533 | the `if`/`elif` chain selects the intent of the first trigger rule that fires on the lower-cased question |
| EduBot.Report | prueba2.py:300-317 | a comparison branch raises KeyError for P1, then for P2, or gives title, definition, both values, and the conclusion |
| EduBot.ReportIqr | prueba2.py:450-474 | the IQR branch, which computes q3 − q1 and tests `<` first, gives the same reply as the generic comparison of the IQR |
| EduBot.Answer | prueba2.py:292-533 | the chat handler gives exactly the specified outcome: silence, a KeyError, or one bubble |
| EduBotFacts.MedianaGetsMediaReply | prueba2.py:300-345 | every question containing "mediana" gets the mean's reply, because "media" is tested first |
| EduBotFacts.RangoBeforeIqr | prueba2.py:366-450 | a question with "rango" and without "media" or "moda" gets the range reply, even with an IQR trigger |
| EduBotFacts.IqrNeedsIqrWithoutRango | prueba2.py:450 | the IQR reply needs "iqr" and no "rango", "media" or "moda" in the question, so its two "rango intercuartílico" triggers never decide anything |
| EduBotFacts.MediaButtonGetsMediaReply | prueba2.py:266-268 | the "Media" suggestion gets the mean's reply |
| EduBotFacts.MedianaButtonGetsMediaReply | prueba2.py:269-271 | the "Mediana" suggestion gets the mean's reply |
| EduBotFacts.ModaButtonGetsModaReply | prueba2.py:276-278 | the "Moda" suggestion gets the mode's reply |
| EduBotFacts.IqrButtonGetsRangoReply | prueba2.py:282-284 | the "Rango IQR" suggestion gets the range reply, not the IQR reply |
| EduBotFacts.BoxplotButtonGetsBoxplotHelp | prueba2.py:272-274 | the "Boxplot" suggestion gets the boxplot explanation |
| EduBotFacts.VarianzaButtonLacksIqr | prueba2.py:279-281 | the "Varianza" suggestion has an "i" and a "q" but never the trigger "iqr" |
| EduBotFacts.VarianzaButtonGetsVarianzaReply | prueba2.py:279-281 | the "Varianza" suggestion gets the variance reply |
| EduBotFacts.IqrQuestionGetsIqrReply | prueba2.py:450 | "qué es el iqr" does get the IQR reply |
| EduBotFacts.UnknownRoute | prueba2.py:531-533 | a question without m, g, q, c, t, l, v, x, p or d (either case) fires no trigger and is unrecognised |
| EduBotFacts.UnknownQuestionIsUnrecognized | prueba2.py:531-533 | "banana" gets the fallback |
| EduBotFacts.RulesRecognize | prueba2.py:300-530 | no rule of the trigger chain selects the fallback reply |
| EduBotFacts.UnrecognizedIffNoTrigger | prueba2.py:531-533 | a question is unrecognised exactly when no trigger of any rule occurs in it |
| EduBotFacts.FallbackIffNoTrigger | prueba2.py:531-533 | the fallback message is the reply exactly to a non-blank question that fires no trigger |
| EduBotFacts.KeyErrorIffMissingBundle | prueba2.py:301-302 | a KeyError for a period is raised exactly for a comparison question when that period (P1 first) has no bundle |
| EduBotFacts.JudgeTrichotomy | prueba2.py:312-317 | on finite values: "up" iff p2 > p1, "down" iff p2 < p1, "same" iff equal |
| EduBotFacts.JudgeNaNIsSame | prueba2.py:312-317 | a NaN on either side concludes "se mantuvo igual" |
| EduBotFacts.JudgeSwapped | prueba2.py:312-317 | swapping P1 and P2 swaps "up" and "down" and keeps "same" |
| EduBotFacts.ReplyConclusion | prueba2.py:305-317 | a comparison reply is one bubble showing both values and ending in "up" iff P2 > P1, "down" iff P2 < P1 |
| EduBotFacts.SpreadsNonNegative | prueba2.py:148 | the range and IQR compared are never negative, nor is a finite variance |
| EduBotFacts.SingleGradeVarianzaIsSame | prueba2.py:497-513 | with a single grade in either period, whatever the other holds, the variance reply concludes "se mantuvo igual" |
| GradeBins.Cut | prueba2.py:619 | `pd.cut(right=False)` gives the half-open bin holding the grade, and no bin exactly outside [first, last edge) |
| GradeBins.CutFindsTheBin | prueba2.py:619 | a grade is cut into bin k exactly when it lies in [edge k, edge k+1) |
| GradeBins.BinsAgree | prueba2.py:110-120 | the edges increase, there is one label per bin, and each label has a colour |
| GradeBins.Range | prueba2.py:119-120 | a grade gets a range exactly when 5 ≤ g < 10.1, and then the range whose edges enclose it |
| GradeBins.Counts | prueba2.py:620-621 | one count per label, in label order, each the number of grades in that range |
| GradeBins.CountsTotalBinned | prueba2.py:620-624 | `valores.sum()` is the number of grades inside some range; out-of-range grades are dropped |
| GradeBins.AllInRangeAllBinned | prueba2.py:619-624 | when every grade is in 5..10.1, every grade is counted |
| GradeBins.Percentages | prueba2.py:625 | all shares are NaN when nothing was counted, and all are finite otherwise |
| GradeBins.PercentagesSumTo100 | prueba2.py:624-625 | with a positive total the percentages each lie in [0, 100] and sum to 100 |
| GradeBins.Palette | prueba2.py:623 | the colours are those of the labels, in label order |
| GradeBins.Slices | prueba2.py:619-625 | a period's pie has one slice per label, in label order, each painted in its label's colour |
| GradeBins.PieData | prueba2.py:1022-1038 | each period's pie is that period's ranges, or stays empty for a period without grades |
| GradeBins.PieOfGradesSumsTo100 | prueba2.py:1027-1033 | a pie over grades of which at least one is in range, failing grades allowed, has one slice per label and percentages summing to 100 |
| GradeBins.FailingGradesGiveNaNShares | prueba2.py:1027-1033 | a period whose grades are all below 5 gets only NaN percentages |
| PdfText.AsciiOnly | prueba2.py:861-862 | the filtered text is no longer than the original and holds only ASCII |
| PdfText.AsciiOnlyKeepsAscii | prueba2.py:861-862 | the filter leaves a text unchanged exactly when it is all ASCII |
| PdfText.AsciiOnlyIdempotent | prueba2.py:861-862 | filtering twice is filtering once |
| PdfText.AsciiOnlyConcat | prueba2.py:861-862 | the filter works character by character: it distributes over concatenation |
| PdfText.AsciiOnlyCounts | prueba2.py:861-862 | each ASCII character is kept as often as it occurs; every other character is dropped |
| PdfText.AsciiOnlyDrops | prueba2.py:861-862 | a non-ASCII character in the middle of the text is removed and its neighbours are joined |
| PdfText.ParseInt16 | prueba2.py:988 | what `int(_, 16)` accepts from a string of at most two characters lies within ±255 |
| PdfText.ParseTwo | prueba2.py:988 | two hex digits parse as 16 × first + second, at most 255 |
| PdfText.Field | prueba2.py:988 | a two-character field that parses lies within ±255 |
| PdfText.HexToRgb | prueba2.py:988 | every component that parses lies within ±255 |
| PdfText.HexColor | prueba2.py:988 | "#" followed by six hex digits and anything else gives the three bytes those six digits spell |
| PdfText.ShortColorRaises | prueba2.py:988 | a colour with at most four digits after stripping '#' raises ValueError |
| PdfText.PaletteIsHex | prueba2.py:110-116 | every range colour is "#" followed by at least six hex digits |
| PdfText.PaletteParses | prueba2.py:984-989 | painting the PDF legend never raises: each range colour gives three components in 0..255 |

## Left out

- The Streamlit user interface is not modelled. That covers the selection filters, the session state, the typing animation, the spinner and `time.sleep`, and the HTML tables.
- Reading the Excel file and filtering it to one group happens before the core. The model starts from the group's P1 and P2 columns.
- The histograms, box plots and pie drawing (matplotlib) are left out. So is the PDF layout (FPDF pages, fonts, positions). Of the PDF, only the ASCII filter and the colour parsing are modelled.
- The regular-expression emoji stripper at `prueba2.py:839-849` is left out. It is a Unicode regex over code-point ranges.
- Floats are modelled as exact reals, so rounding in `mean`, `var` and `quantile` is not captured. The `:.2f` and `:.1f` formatting is not captured either.
- The Spanish wording of the replies is represented by `Line` keys. The text itself is not.
- PyText.Lower: `str.lower` is modelled for A-Z and the Latin-1 capitals only. Other Unicode case mappings are not modelled, because the triggers and suggestion questions use only those letters.
- PdfText.ParseInt16: Unicode decimal digits, the `0x` prefix and underscores are not modelled. In the two-character slices read here, the last two cannot occur.
- PdfText.PaletteParses: states the bound 0..255 rather than the exact RGB values of each colour. The exact values are proved for any "#" + hex colour by `PdfText.HexColor`.
