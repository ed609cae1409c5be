# Lost-lead scoring core of Contourline Strategic BI

The dashboard in `app.py` loads a table of lost leads and infers which columns hold the
reason, value, name, product and seller. It synthesises the product and seller columns when
they are missing and converts Brazilian currency strings into a `Valor_Calc` column. An
optional junk-reason filter then drops rows, with a count of those removed. Every remaining
lead goes to a language model, and a 0-100 score plus a reason are read from each reply. The
scores are clipped to [0, 100], and the final screen shows the leads whose score reaches a
threshold. This project models that deterministic core in Dafny and proves what it does.

Modules, one per file:

- `Chars`, `Strings`, `Sequences`, `Options`: character classes (`\b` word characters,
  `str.isspace`, `str.lower`, the case folding of `re.IGNORECASE`) and the Python string
  operations the core uses: `split`, `strip`, `replace`, `in`, `lower`. Also an
  order-preserving filter.
- `PyFloat`: the strings Python's `float()` accepts, as a scanner over the float grammar, and
  the exact value of plain decimals.
- `Currency`: `converter_valor_br`.
- `ScoreParser`: `extrair_nota_segura`, with `re.findall(r'\b\d+\b', ...)` as a function and the
  loop with early return as a method, plus the reply parsing of `pontuar_lead`.
- `Columns`: the `next(...)` column lookups and their defaults.
- `Tables`: the DataFrame as a class `LeadTable` whose columns are assigned in place.
- `Scoring`: the order-preserving batch map into an array, and the in-place clip.
- `Pipeline`: the main flow from the loaded table to the rows shown.
- `CurrencyExamples`, `ScoreExamples`: sample inputs worked out, among them the docstring's own
  example of `converter_valor_br` ("1.000,00" is 1000.00).

The per-lead completion call of `pontuar_lead` (app.py:76) is a function
`ask: Row -> Option<string>`, the ideal-customer profile in its prompt held fixed. `None` stands
for a call that raised, or that returned no content. Loading the won deals and asking for the
profile (app.py:150-151) are an input `profile: Option<string>`, which is `None` when either
of them raised.

Behaviour of the code a reader may not expect:

- A converted value is not always non-negative or a number: `"-5"` reaches `float()` with its
  sign, and `"NaN"` is a literal `float()` accepts (`CurrencyExamples.NegativeAmount`,
  `CurrencyExamples.CapitalisedNaN`).
- `\b\d+\b` never matches part of a longer digit run or of a word, so `"105"` gives no
  candidate and scores 0. It is not read as `"10"` (`ScoreExamples.OutOfRangeIsSkipped`,
  `ScoreExamples.GluedNumbersAreIgnored`).
- With no column whose name contains "motivo", the default name "Motivo" is not a column.
  With the junk filter on, `df_l[col_motivo]` raises `KeyError` (app.py:123). With it off, the
  reason charts raise instead (`px.pie` and `groupby`, app.py:139-141). Either way nothing is
  scored, and the model returns `None` for that run (`Pipeline.FlowFails`).
- Neither loading the won deals nor the profile call (app.py:150-151) is inside a `try`, so
  when either raises the run aborts before any lead is scored. The model returns `None` then.
- With no column whose name contains "nome" or "cliente" and no column named "Lead", the
  export's `df_show[cols_show]` raises `KeyError` (app.py:179), so no row is shown. The model
  returns `None` for that run too.
- `\w` is what `str.isalnum` accepts, and the underscore, so a number glued to a superscript
  or a vulgar fraction ("85½") has no word boundary and is not found
  (`ScoreExamples.GluedFractionIsIgnored`).

## Model

| member | source | states |
|---|---|---|
| ScoreParser.FindNumbers | app.py:66 | every string `findall` returns is a non-empty run of digits |
| ScoreParser.NextScan | app.py:66 | each step of the scan moves forward: by one character, or to the end of the digit run starting there |
| ScoreParser.SafeScore | app.py:65-71 | the score `extrair_nota_segura` returns is in [0, 100] |
| ScoreParser.FindNumbersSound | app.py:66 | every string `findall` returns is a digit run bounded by a non-word character or an end of the text on both sides |
| ScoreParser.FindNumbersComplete | app.py:66 | every such bounded digit run is among the matches |
| ScoreParser.MatchesAreNumerals | app.py:66-69 | every match is a non-empty string of ASCII digits, a numeral `int(num)` reads in base 10 |
| ScoreParser.FirstInRange | app.py:67-71 | the loop's result is in [0, 100], and a non-zero result is the value of one of the matches |
| ScoreParser.ExtractScore | app.py:65-71 | the `for` loop with early return computes the first match in [0, 100] (or 0), and the result lies in [0, 100] |
| ScoreParser.ScoreIsFirstCandidate | app.py:66-70 | the score is the value of the leftmost bounded digit run whose value is at most 100 |
| ScoreParser.ScoreWithoutCandidate | app.py:67-71 | text with no bounded digit run in [0, 100] scores 0 |
| ScoreParser.ParseReply | app.py:77-80 | a reply's parsed score is in [0, 100] |
| ScoreParser.LeadScore | app.py:73-81 | every outcome's score is in [0, 100], and a failed call gives (0, "Erro") |
| ScoreParser.ScoreLead | app.py:73-81 | `pontuar_lead` returns the parsed outcome of the reply, its score is in [0, 100], and a failed call gives (0, "Erro") |
| ScoreParser.ReplyWithPipe | app.py:77-79 | with a `\|`, the score comes from the text before the first `\|`, and the reason is the stripped text between the first and second `\|` |
| ScoreParser.ReplyWithReason | app.py:77-79 | a reply in the requested form "NOTA \| MOTIVO" yields the score of NOTA and exactly MOTIVO |
| ScoreParser.ScoreIgnoresTail | app.py:77-78 | nothing after the first `\|` changes the score |
| ScoreParser.ReplyWithoutPipe | app.py:77-79 | without a `\|`, the score is read from the whole reply, and the reason is the whole reply, unstripped |
| ScoreExamples.OutOfRangeIsSkipped | app.py:66-71 | "105 " scores 0 |
| ScoreExamples.NextInRangeIsTaken | app.py:68-70 | "150 or 85" skips 150 and scores 85 |
| ScoreExamples.TwoNumbersFound | app.py:66 | "150 or 85" has the matches "150" and "85", in that order |
| ScoreExamples.GluedNumbersAreIgnored | app.py:66 | "abc85" and "85a" score 0 |
| ScoreExamples.GluedFractionIsIgnored | app.py:66 | "85½" scores 0: ½ is a word character, so there is no boundary after 85 |
| ScoreExamples.PlainNumber | app.py:66-70 | "85 " scores 85 |
| ScoreExamples.NumberInsideSentence | app.py:66-70 | a number followed by '%' inside prose ("an 85% fit") is found |
| ScoreExamples.NoNumberScoresZero | app.py:67 | text without digits scores 0 |
| ScoreExamples.WellFormedReply | app.py:77-80 | "85 \| good fit" gives score 85 and reason "good fit" |
| ScoreExamples.ReplyWithoutSeparator | app.py:77-79 | "maybe?" gives score 0 and reason "maybe?" |
| ScoreExamples.FailedCall | app.py:81 | a failed call gives score 0 and reason "Erro" |
| Strings.JoinSplit | app.py:77 | joining the parts of `split(c)` with `c` gives back the string |
| Strings.SplitCount | app.py:77 | `split(c)` has one part more than the string has `c` characters |
| Strings.StripParts | app.py:36 | `strip()` removes only whitespace from the two ends, and its result neither starts nor ends with whitespace |
| Scoring.Outcomes | app.py:155 | `executor.map` gives one outcome per row, in row order, each from that row's reply |
| Scoring.ScoreBatch | app.py:154-155 | the loop fills a fresh array of the batch's size with the outcome of row i at index i |
| Scoring.Clip | app.py:161 | a clipped score is in [0, 100]; a score in range is unchanged, one below becomes 0 and one above becomes 100 |
| Scoring.ClipScores | app.py:161 | the in-place clip replaces each array entry by its clipped value |
| Scoring.ClippedInRange | app.py:161 | every entry of a clipped column lies in [0, 100] |
| Scoring.ClipKeepsOutcomes | app.py:155-161 | the clip changes none of the scores the batch produces |
| Currency.Rewrite | app.py:36-38 | the string handed to `float()` never holds a comma |
| Currency.ConvertBR | app.py:32-41 | the sentinels give 0.0; an exact amount is never negative; any other result is the `float` of an accepted literal without a comma |
| Currency.SentinelsAreZero | app.py:35 | "N/A", "nan" and "" convert to 0.0 |
| Currency.SentinelTextsRejected | app.py:35-41 | `float()` would give 0.0 (the `except` branch) for "N/A" and "" anyway |
| Currency.RewriteWithComma | app.py:36-38 | with a comma present, no comma is left after the rewrite, and every '.' stands for one of the original commas |
| Currency.RewriteWithoutComma | app.py:36-37 | without a comma, the text is only cleared of "R$" and stripped, so a '.' stays the decimal point |
| Currency.ManyCommasGiveZero | app.py:37-41 | two or more commas make a string with two or more '.', which `float()` rejects, so the result is 0.0 |
| Currency.BrazilianAmount | app.py:36-39 | digits with thousands dots, a comma and decimals give the integer digits without dots plus the decimals as a fraction |
| Currency.DotDecimal | app.py:36-39 | a '.' without a comma is a decimal point |
| Currency.PassesThrough | app.py:35-39 | a text with no "R$", no comma and no space at either end, that is not a sentinel, reaches `float()` unchanged |
| Currency.CurrencySymbolIgnored | app.py:35-36 | a leading "R$ " changes nothing, except before "nan", which is a sentinel only without the symbol |
| CurrencyExamples.DocstringAmount | app.py:32-39 | the docstring's example "1.000,00" converts to 1000.00 |
| CurrencyExamples.BrazilianThousands | app.py:32-39 | "1.234,56" converts to 1234.56 |
| CurrencyExamples.LargeAmount | app.py:32-39 | "400.000,00" converts to 400000 |
| CurrencyExamples.LargeAmountWithSymbol | app.py:32-39 | "R$ 400.000,00" converts to 400000 |
| CurrencyExamples.DotWithoutComma | app.py:36-39 | "1.234" converts to 1.234, not 1234 |
| CurrencyExamples.TwoCommas | app.py:37-41 | "1,2,3" becomes "1.2.3", which `float()` rejects: 0.0 |
| CurrencyExamples.NegativeAmount | app.py:36-39 | "-5" is a literal `float()` accepts, so the result is its `float`, not 0.0 |
| CurrencyExamples.CapitalisedNaN | app.py:35-39 | "NaN" is not a sentinel and reaches `float()`, which accepts it |
| PyFloat.FloatValue | app.py:39-41 | a string `float()` rejects gives 0.0 (the `except` branch); an accepted literal that is not a plain decimal keeps its spelling; an exact value is never negative |
| PyFloat.FloatLiteralDots | app.py:39 | `float()` rejects every string with two or more '.' |
| PyFloat.PlainDecimalIsFloatLiteral | app.py:39 | every plain decimal is a literal `float()` accepts |
| PyFloat.DecimalPointValue | app.py:39 | the value of "a.b" is the integer a plus the fraction 0.b |
| Columns.InferColumn | app.py:98-100 | `next(gen, default)` is the default or an existing column whose lower-cased name contains a keyword |
| Columns.InferRoles | app.py:98-104 | the reason and name are existing columns or their defaults; a value, product or seller found is an existing column matching its keywords |
| Columns.InferIcpColumns | app.py:48-54 | a product or value column `extrair_icp` finds exists and matches its keywords |
| Columns.NameColumnExists | app.py:100-179 | the name column exists exactly when some name contains "nome" or "cliente", or a column is named "Lead" |
| Columns.FindColumn | app.py:98-104 | no column is found exactly when no column name, lower-cased, contains a keyword; a column found is the first one that does |
| Columns.FoundIsColumn | app.py:98-104 | a column found is one of the table's columns |
| Columns.FirstMatchChosen | app.py:98-104 | when column i is the first that matches, it is the one returned, and no later one |
| Columns.DefaultWhenNoMatch | app.py:98-100 | with no matching column the default is returned |
| Columns.MatchingDefaultIsNew | app.py:98 | a default that contains its own keyword is a column of the table exactly when a column was found |
| Columns.ReasonColumnExists | app.py:98 | the reason column is a column of the table exactly when some column name contains "motivo" |
| Columns.FallbacksAreNew | app.py:101-112 | "Equipamento_Interesse" and "Vendedor_Resp" are never existing columns when they are synthesised |
| Tables.Assign | app.py:107-118 | `df[name] = cells` keeps the row count, and the columns after it are the old ones plus `name` |
| Tables.AssignWellFormed | app.py:107-118 | assigning a column keeps the table well formed and its rows, lists the name once, and keeps the other columns |
| Tables.AssignRead | app.py:157-158 | the column read back after an assignment holds the cells written |
| Tables.AssignOthers | app.py:157-161 | an assignment changes no other column's cells |
| Tables.LeadTable.SetColumn | app.py:116 | `df[name] = cells` in place: the column is overwritten when it exists and appended otherwise, and no row is added or removed |
| Tables.LeadTable.SetConstant | app.py:107-118 | `df[name] = value` in place: every row gets the same cell |
| Pipeline.Prepare | app.py:98-118 | the in-place preparation leaves exactly the prepared table and returns the mapping of the original columns |
| Pipeline.AddFallback | app.py:106-112 | a constant "N/A" column is added in place when no column was found |
| Pipeline.AddValue | app.py:115-118 | `Valor_Calc` in place: the converted value column, or 0.0 throughout |
| Pipeline.Prepared | app.py:98-118 | the prepared table is well formed, has the same rows, keeps the columns, and adds only the fallbacks and `Valor_Calc` |
| Pipeline.PreparedShape | app.py:98-118 | preparation keeps the rows and the existing columns, makes the product, seller and `Valor_Calc` columns present, and adds no other column |
| Pipeline.PreparedKeeps | app.py:106-118 | preparation keeps every cell of the original columns, except in an existing `Valor_Calc` |
| Pipeline.PreparedValue | app.py:115-118 | each row's `Valor_Calc` is `converter_valor_br` of its value cell, or 0.0 when no "valor" column exists |
| Pipeline.PreparedFallbacks | app.py:106-112 | a synthesised product or seller column holds "N/A" in every row |
| Pipeline.WrittenNamesDiffer | app.py:98-118 | the three column names preparation writes differ from each other and from "Motivo" |
| Pipeline.DefaultNameNotWritten | app.py:100-161 | no column the flow writes is named "Lead" |
| Pipeline.ReasonNotAdded | app.py:98-118 | when the reason column does not exist, preparation does not create it either |
| Pipeline.JunkIgnoresCase | app.py:123 | the junk filter (`IsJunkText`) is case-insensitive: lower-casing a reason first changes nothing |
| Pipeline.CleanRows | app.py:122-126 | the filter fails exactly when it is on and the reason column does not exist |
| Pipeline.CleanKeepsOrder | app.py:122-126 | the rows kept are an order-preserving subsequence |
| Pipeline.CleanKeepsExactly | app.py:123-124 | with the filter on, a row is kept exactly when its reason contains no junk keyword, case-insensitively |
| Pipeline.RemovedCount | app.py:121-129 | `removidos` is the number of junk rows when the filter is on and 0 when it is off, and is never negative |
| Pipeline.Scored | app.py:154-161 | scoring keeps the row count and adds exactly the columns `Score_Pct` and `Justificativa` |
| Pipeline.ScoreTable | app.py:154-161 | scoring the clean table in place leaves the scored table and keeps it well formed |
| Pipeline.ScoreRows | app.py:154-161 | scoring the clean rows in a table of their own gives the scored table |
| Pipeline.ScoredRow | app.py:155-161 | each row gets its own outcome's score and reason, the score is in [0, 100], and no other cell changes |
| Pipeline.ScoredShape | app.py:157-161 | scoring keeps the rows and the columns, and adds `Score_Pct` and `Justificativa` |
| Pipeline.FailedCallRow | app.py:81 | a lead whose call failed is kept with score 0 and reason "Erro" |
| Pipeline.Shown | app.py:174 | the threshold never adds rows |
| Pipeline.ShownExactly | app.py:174 | the threshold keeps an order-preserving subsequence, and a row is kept exactly when its `Score_Pct` reaches `min_score` |
| Pipeline.ThresholdBounds | app.py:161-174 | a threshold of 0 or less shows every scored lead, and one above 100 shows none |
| Pipeline.FlowFrom | app.py:121-179 | a report exists only when the reason column exists and the profile was given; it carries that profile; its total is every lead; the leads shown and removed together never outnumber them |
| Pipeline.Screen | app.py:121-179 | the flow on the prepared table, left as it is: `None` without the reason column (filter or charts), without the profile, or without the name column (export); otherwise the counts, the profile and the rows shown |
| Pipeline.FlowFromWithoutReason | app.py:123-141 | without the reason column the run aborts, with the filter on or off |
| Pipeline.FlowFromWithoutProfile | app.py:150-151 | when loading the won deals or the profile call raised, the run aborts |
| Pipeline.FlowFromWithoutName | app.py:179 | without the name column the run aborts at the export |
| Pipeline.FlowReport | app.py:121-174 | in a report, the removed leads are the junk ones (none with the filter off), and the rows shown are, in order, exactly the scored clean rows whose score reaches the threshold |
| Pipeline.Flow | app.py:98-179 | the shown and removed leads together never outnumber the loaded ones, the total is every lead, and the profile shown is the one given |
| Pipeline.Run | app.py:98-179 | the whole flow: the table is left prepared in place, and the result is the flow from the loaded table |
| Pipeline.FlowCounts | app.py:121-129 | the report counts every lead; the removed count lies between 0 and the total, is the number of junk rows of the prepared table with the filter on, and is 0 with it off |
| Pipeline.FlowFails | app.py:98-179 | the flow fails exactly when no column name contains "motivo" (with the filter on or off), when loading the won deals or the profile call raised, or when the name column is not a column |
| Pipeline.ReasonInPrepared | app.py:98-118 | the reason column exists after preparation exactly when some column name contains "motivo" |
| Pipeline.NameInPrepared | app.py:100-179 | the name column exists after preparation and scoring exactly when it existed before |
| Pipeline.FlowFailsWithoutReason | app.py:98-141 | without a "motivo" column the flow fails, whether the junk filter is on or off |

## Left out

- Streamlit: widgets, layout, `st.session_state`, `st.rerun`, the metrics, and the Plotly charts with their `groupby` and `nlargest` (app.py:14-21, 51, 85-92, 132-206); of the charts only their failure on a missing reason column is modelled. The model's inputs stand in for the sidebar's checkbox and slider.
- The language-model calls and their prompts are not modelled. The per-lead call (app.py:75-76) is the function `ask`. The profile call (app.py:62-63), with the load of the won deals before it, is the input `profile`, and the model does not compute its text. `extrair_icp`'s `value_counts`, sort and `head(20)` feed only the prompt and are not modelled; its two column lookups are (`Columns.InferIcpColumns`).
- Pipeline.ScoreTable, Pipeline.Scored: `ask` is a function of the row, so two equal rows get the same reply; the service may answer them differently, and no property here depends on it.
- `ThreadPoolExecutor` (app.py:154): only the order-preserving result of `executor.map` is modelled, as a sequential loop.
- `limpar_csv_seguro` (app.py:25-30): decoding, delimiter sniffing and `read_csv` are a foreign library. The model starts from the loaded table, in which every cell is text and blanks are "N/A".
- `formatar_brl`, the currency metric string, the `Nota_0_5` rounding, and the export's rename, sort and CSV download (app.py:43-45, 136, 162, 176-206): float formatting and rounding. Of the column selection only its failure on a missing name column is modelled; the other seven columns it selects always exist once the reason column does.
- A `float()` result for a literal that is not a plain decimal ("-5", "1e3", "1_000", "inf", "NaN") is a value left unspecified (`FloatOf`). Plain decimals get their exact rational value, not the nearest binary double. `float()` also accepts decimal digits of other scripts ("８５" is 85.0); the model accepts only ASCII digits and gives 0.0 for such a text.
- Currency.ConvertBR: `pd.isna` and `str()` of a non-string cell are not modelled, because every cell is text after loading. The bare `except` catches only `float()`'s `ValueError` in the model.
- ScoreParser.SafeScore, ScoreParser.MatchesAreNumerals: since CPython 3.11 (and 3.7.14, 3.8.14, 3.9.14, 3.10.7), `int()` raises `ValueError` on a string of more than 4300 digits. When the loop of app.py:68-70 reaches such a run before a number in [0, 100], `pontuar_lead`'s bare `except` gives the lead (0, "Erro"). The model reads that run as a number over 100 and goes on: `"1"*4301 + " 85"` scores 85 here, and `"1"*4301 + " | ok"` keeps the reason "ok". The limit depends on the interpreter version and its settings.
- Scoring.ClipScores: `pd.to_numeric(errors='coerce').fillna(0)` is the identity on the integer scores the batch produces, so only the clip is modelled.
- Pipeline.IsJunk: a reason cell that is not text is never junk, since `astype(str)` of a number holds none of the keywords. Case-insensitivity covers ASCII and Latin-1 (with the special folds of `re.IGNORECASE`), not the rest of Unicode.
- Chars.IsWordChar, Chars.Lower: `\w` (letters, the numerics ¹²³¼½¾, digits and `_`) and `str.lower` are modelled for ASCII and Latin-1 only; word characters of other scripts are left out. `\d` is modelled as ASCII digits, so a decimal digit of another script is neither a digit nor a word character here.
- Owner rotation and date parsing: `app.py` has neither.
