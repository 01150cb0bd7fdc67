# Saxton lender commission tool — Dafny model

This project models the calculation at the heart of the Saxton4x4 lender
commission tool (`app.py`). A dealer picks a finance product (PCP, HP or LP),
a deal amount, and whether least-favourite lenders are included. The tool then:

1. filters its hard-coded lender table to the rows whose product list contains
   the product code, and, unless least-favourite lenders are included, to the
   rows marked favourite;
2. walks the remaining rows in order and resolves each row's commission
   percentage from its text. A dual-rate text such as `"HP:9.15 PCP:11.15"` is
   split on the `"<product>:"` marker and the first word after it is converted
   with `float`; any other text is converted as a whole, and text that is not a
   number gives 0;
3. takes that percentage of the deal amount and lowers it to the row's cap when
   a non-zero cap is set, appending one result row (lender, advance band, rate,
   commission) per table row;
4. groups the results by lender, keeps each lender's largest commission and
   sorts the lenders from the largest commission down.

The model is split by concern:

- `Wrappers.dfy`: `Option`, the Python exceptions that can escape the loop
  (`IndexError`, `ValueError`), and `Collect`, the semantics of a loop whose
  body may raise: the first exception ends it.
- `Text.dfy`: the Python `str` operations the calculation uses — substring
  search, `split(sep)` (with its `join` round trip), `split()` and `strip()`,
  over Python's own whitespace set.
- `Decimal.dfy`: `float(text)` for plain decimal numerals, with exact `real`
  values.
- `Lenders.dfy`: the lender table, transcribed row by row, and the two
  filters.
- `Commission.dfy`: rate resolution, the cap clamp, the result row of one
  table row, and the results loop as a method with loop invariants, proved
  equal to the functional specification `Quotes`.
- `Ranking.dfy`: group-by-lender-maximum and the descending sort, specified by
  the predicate `IsRanking` (ties between lenders may come in any order).
- `Pipeline.dfy`: the whole calculation from table to ranking.
- `Scenarios.dfy`: concrete facts about the table for a PCP deal of £20,000.
- `WholeTable.dfy`: the whole built-in table never makes the calculation
  raise, for any product, amount and favourite setting.

`app.py` does not match the deal amount against the advance band, applies no
per-lender rules, does not reorder ZOPA, does not sort stably and never orders
by APR. The advance band is carried into the results unchanged and never
filters. APR is never read. The ZOPA line is a display message only. The model
does none of these things either.

## Model

| member | source | states |
|---|---|---|
| Lenders.TableShape | app.py:9-66 | The table has twenty rows; exactly Oodle, Blue and the two Startline rows are least-favourite; exactly rows 4 to 6 are ZOPA's; exactly those and Mann Island carry a cap of 3,000 |
| Lenders.Eligible | app.py:81-83 | Every row that reaches the loop is a row of the table that offers the product and is a favourite unless least-favourite lenders are included; there are no more of them than table rows |
| Lenders.Filter | app.py:81-83 | A boolean-mask selection: every kept row passes the mask, and each row occurs in the result as often as in the input if it passes and not at all otherwise |
| Lenders.FilterAppend | app.py:81-83 | Selection keeps order: filtering a concatenation is the concatenation of the filtered parts |
| Lenders.ProductFilter | app.py:81 | Exactly the rows whose product list contains the product code are kept, with their multiplicities |
| Lenders.FavouriteFilter | app.py:82-83 | Without least-favourite lenders every kept row is a favourite and exactly the favourite rows are kept; with them the rows are unchanged |
| Lenders.EligibleAppend | app.py:81-83 | The combined filters keep table order |
| Lenders.EligibleRows | app.py:81-83 | A row reaches the loop exactly when it is in the table, offers the product, and is a favourite or least-favourite lenders are included |
| Lenders.EligibleAll | app.py:81-83 | When every row offers the product and passes the favourite test, the filters change nothing |
| Text.Contains | app.py:81 | The substring test holds exactly when the pattern occurs at some index of the text |
| Text.IndexFrom | app.py:91 | The search returns the first occurrence at or after the start index, or reports that there is none |
| Text.JoinSplit | app.py:91 | `split(sep)` loses nothing: joining the pieces with the separator gives back the text |
| Text.SplitSingle | app.py:91 | Splitting yields a single piece exactly when the separator does not occur, which is when indexing piece 1 raises IndexError |
| Text.SplitAtFirst | app.py:91 | The first piece is the text before the first separator, and the rest is split in turn |
| Text.Split | app.py:91 | `split(sep)` yields at least one piece; `JoinSplit` is its round trip |
| Text.WordsShape | app.py:91 | `split()` yields non-empty words free of whitespace, and no words exactly when the text is all whitespace |
| Text.FirstWord | app.py:91 | A word followed by whitespace or by nothing opens `split()`, and the remaining words are those of what follows it |
| Text.WordsSkip | app.py:91 | A whitespace character in front of a text adds no word to `split()` |
| Text.WordsSpaces | app.py:91 | Any run of whitespace in front of a text adds no word to `split()` |
| Text.LeadingWord | app.py:91 | Whitespace, then a word ending at whitespace or at the end: `split()` yields that word followed by the words of the rest |
| Text.StripKeeps | app.py:91 | A non-whitespace character survives `strip()`, shifted by the leading whitespace |
| Text.Strip | app.py:91 | `strip()` leaves no whitespace at either end and is a contiguous slice of the text with only whitespace around it |
| Decimal.ParseFloat | app.py:97 | `float` accepts only text with something besides whitespace, and a negative value only with a leading minus sign |
| Decimal.NotANumber | app.py:96-99 | Text holding a character that is not a digit, point, sign or whitespace makes `float` raise, so the fallback rate 0 applies |
| Decimal.NotANumeral | app.py:91 | A numeral with a character that is neither a digit nor the point is rejected |
| Decimal.ParseWhole | app.py:97 | `float` of a string of decimal digits is the whole number it denotes |
| Decimal.PointNumeral | app.py:91 | `float` of `whole.frac` is exactly whole + frac / 10^len(frac) |
| Decimal.NatDigits | app.py:97 | The decimal digits written for a number read back as that number |
| Commission.ResolveRate | app.py:90-99 | Only the dual-rate branch can raise |
| Commission.FlatRate | app.py:95-99 | Text that does not take the dual-rate branch never raises: it yields its number, or 0 when it is not one |
| Commission.MissingMarker | app.py:90-91 | A dual-rate text without the requested product's marker raises IndexError |
| Commission.WordAfterMarker | app.py:91 | When the first marker is followed by optional whitespace and then a word that ends at whitespace or at the end, the piece after the marker exists and its first word is that word |
| Commission.DualRateWord | app.py:90-91 | In that case the rate is that word read by `float`, and ValueError when it is not a number |
| Commission.EffectiveCap | app.py:89 | A cap takes effect exactly when it is present and non-zero (0 is falsy) |
| Commission.Clamp | app.py:92-93 | The clamped value never exceeds the amount; under an effective cap it is the smaller of the two; with none it is the amount |
| Commission.ClampIdempotent | app.py:92-93 | Clamping twice by the same cap is clamping once |
| Commission.PercentOf | app.py:92 | The percentage times 100 is the rate times the amount, and a non-negative rate earns a non-negative amount |
| Commission.PercentOfMonotone | app.py:92 | A larger non-negative rate never earns less |
| Commission.CommissionOn | app.py:92-93 | The commission is the rate's percentage of the amount without an effective cap, and the smaller of that percentage and the cap under one |
| Commission.QuoteRow | app.py:88-102 | A result row raises exactly when its rate raises; otherwise it carries its table row's lender and band unchanged and the resolved rate, and its commission is the percentage, or the smaller of the percentage and an effective cap |
| Commission.Quotes | app.py:86-102 | The results hold one entry per row; no rows give no results |
| Commission.QuotesOk | app.py:86-102 | The loop yields results exactly when every row's rate resolves, always for LP, and then result `i` is the result row of row `i`, with its lender and band |
| Commission.Calculate | app.py:86-102 | The loop returns `Quotes`: one result per row in row order, each the result row of its row, or the first exception |
| Wrappers.CollectOk | app.py:86-102 | A run of the loop succeeds exactly when every row succeeds, and then holds each row's result at that row's place |
| Wrappers.CollectAll | app.py:86-102 | When every row yields a result, the run yields exactly those results in row order |
| Wrappers.CollectFirstRaise | app.py:86-102 | A run that fails raises the exception of the first failing row, all rows before it having succeeded |
| Wrappers.CollectRaise | app.py:86-102 | Once a prefix of the rows raises, the whole loop raises that exception |
| Ranking.MaxFor | app.py:105 | The per-lender maximum is the commission of one of that lender's results and no smaller than any of them |
| Ranking.Lenders | app.py:105 | The group keys are distinct, and are exactly the lenders with results |
| Ranking.Group | app.py:105 | One entry per lender with results, each holding that lender's maximum |
| Ranking.Insert | app.py:105 | Inserting into a descending list keeps it descending and adds exactly that entry |
| Ranking.SortDesc | app.py:105 | The sort is descending and a permutation of its input |
| Ranking.Rank | app.py:105 | Group-by-maximum then sort yields a ranking: descending, one entry per lender with results and none other, each the lender's maximum |
| Ranking.RankingHead | app.py:105 | The first entry of a ranking holds the largest commission of all results |
| Ranking.RankingsAgree | app.py:105 | Any two rankings of the same results hold the same entries, so only the order of tied lenders is open |
| Ranking.DistinctBound | app.py:105 | A ranking over lenders drawn from a set has at most as many entries as the set |
| Ranking.RankingOfTwo | app.py:105 | With results from two lenders, the lender with the larger maximum comes first |
| Pipeline.Recommend | app.py:81-105 | The calculation raises exactly when the loop over the filtered rows raises; otherwise it has one result per filtered row and its ranking satisfies `IsRanking` |
| Pipeline.ResolvedRatesRank | app.py:81-105 | When every row's rate resolves, the calculation reaches a ranking with one result per filtered row, whatever the amount |
| Scenarios.SantanderPcp | app.py:42 | Santander's first band, "9.05" with no cap, earns 1,810 on a £20,000 PCP deal |
| Scenarios.SantanderBand2 | app.py:42 | Santander's second band, "6.8", earns 1,360 |
| Scenarios.SantanderBand3 | app.py:42 | Santander's third band, "5.15", earns 1,030 |
| Scenarios.SantanderBand4 | app.py:42 | Santander's fourth band, "4", earns 800 |
| Scenarios.ZopaPcpRate | app.py:43 | For PCP, "HP:9.15 PCP:11.15" resolves to 11.15 |
| Scenarios.ZopaHpRate | app.py:43 | For HP, "HP:9.15 PCP:11.15" resolves to 9.15 |
| Scenarios.ZopaLpRate | app.py:43 | For LP the same text is not a number and resolves to 0 without raising |
| Scenarios.ZopaPcp | app.py:43-51 | ZOPA's first band earns 2,230 on a £20,000 PCP deal, under its 3,000 cap |
| Scenarios.MissingPcpMarker | app.py:91 | "HP:9.15" asked for PCP raises IndexError |
| Scenarios.SpacedMarker | app.py:91 | "HP: 9.15" asked for HP resolves to 9.15: `split()` skips the space after the marker |
| Scenarios.FirstRowsEligible | app.py:26-27 | The first five table rows all offer PCP and are favourites, so both filters keep them |
| Scenarios.FirstRowsQuotes | app.py:86-102 | The loop over those rows yields their five results in table order |
| Scenarios.FirstRowsRanking | app.py:105 | Every ranking of those results lists ZOPA (2,230) before Santander (1,810) |
| Scenarios.FirstRowsRecommendation | app.py:81-105 | The whole calculation on those rows yields the five results and the ranking ZOPA, then Santander |
| WholeTable.DualHp | app.py:90-91 | For HP, "HP:<a> PCP:<b>" with one-word numerals resolves to `a` |
| WholeTable.DualPcp | app.py:90-91 | For PCP the same text resolves to `b`, since no "PCP:" starts before the one in the text |
| WholeTable.Flat | app.py:90-99 | A commission text without a colon does not take the dual-rate branch and always resolves |
| WholeTable.FlatRow | app.py:42-47 | Every commission text of the table except ZOPA's three has no colon |
| WholeTable.TableRates | app.py:90-99 | Every row's rate resolves, for every product |
| WholeTable.TableNeverRaises | app.py:9-105 | The calculation over the built-in table reaches a ranking for every product, amount and favourite setting, with one result per filtered row |

## Left out

- The Streamlit page: page configuration, title, input widgets, tabs, tables, the CSV download and the bar chart (app.py:6, 71-78, 108-128). They are display and input only. The model takes the product, the amount and the least-favourite switch as parameters.
- The results table shown sorted by commission in the calculator tab (app.py:116). It is display only and does not feed the ranking.
- The top-3 rank labels (app.py:121-123). They are presentation.
- The "Zopa PCP is prioritized" message (app.py:125-126). It is a display string and reorders nothing.
- IEEE-754 floating point. Rates and commissions are exact `real`s, so rounding is not modelled.
- Decimal.ParseFloat: covers optional surrounding whitespace, one sign, and digits with at most one point. Exponents, `inf`/`nan`, underscores between digits and non-ASCII digits are not accepted by the model; no commission text in the table uses them.
- Lenders.ProductFilter: pandas `str.contains` treats the product code as a regular expression. It is modelled as a plain substring test, which agrees because no product code contains a regular-expression metacharacter.
- Caps: pandas stores the table's missing caps as NaN. NaN is truthy and `min(x, nan)` is `x`, so such a row is uncapped. The model writes those caps as `None`.
- Ranking.Rank: pandas groups with sorted keys and sorts with an unstable quicksort, so the order of lenders with equal commissions is not promised. `IsRanking` leaves it open. `Rank` itself is one concrete insertion sort that satisfies it.
- The deal amount's input limits (0 to 500,000 in steps of 500) belong to the input widget. The model takes any natural number.
- APR and advance band: they take no part in any computation in `app.py`. The band is carried into the results unchanged, and the APR is only stored in the table.
