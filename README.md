# Postbank transaction organiser: parser and categorisation rules

This project models the logic of `app.py`, a small Streamlit application. It
reads a Postbank text report of account transactions, lets the user give each
transaction a category, sums the amounts per category and exports the
transactions of one category. The model covers two parts:

- **The report parser** `parse_postbank_txt`:
  - It drops blank lines and strips the others.
  - It moves a cursor over the lines. At each date line with at least four lines after it, it reads a five-line block (date, amount, payee, purpose, kind) into a record with an empty category.
  - The amount line goes through the replacement chain `.`→"", `,`→`.`, ` EUR`→"", `€`→"", then through Python's `float()`. When `float()` fails, the `ValueError` ends the parse.
- **The categorisation rules**:
  - *similar* rows: same payee, another row, no category yet;
  - the bulk assignment of the ticked similar rows, and the assignment of a row's own selection;
  - the categorised view, the per-category summary, and the export subset.

Modules:

- `Wrappers`: `Option`.
- `Text`:
  - Python's `str.isspace`, `str.strip()` and `str.replace` on code-point strings;
  - the count of a character is `multiset(s)[c]`.
- `Amount`:
  - the normalisation `Normalize`;
  - `float()` as an exact parse of a decimal literal into a `real` (`ToFloat`), after trimming the whitespace `float()` ignores (`TrimFloat`). That set differs from `str.strip()`'s: it leaves out U+001C to U+001F;
  - `ConvertAmount`, which gives the value or the `ValueError` with the string `float()` was handed;
  - a German-format amount writer (`GermanAmount`), used to state the round trip the normalisation is written for.
- `Filters`:
  - order-preserving boolean-mask selections (`Filter`) and the positions they keep;
  - membership, multiplicity, order and nesting lemmas.
- `Report`:
  - `Clean` is the line preprocessing;
  - `Scan` and `ParsePostbank` are the parser as a function;
  - `ParsePostbankTxt` is the parser as the source's `while` loop, proved equal to the function;
  - lemmas about where the blocks are and what each record holds.
  - `Scan` and its lemmas take the amount reader as a parameter (`Reader`); the parser passes `ConvertAmount`. The block-position facts therefore do not depend on how an amount is read.
- `Ledger`:
  - the categorisation pass as functions (`Step`, `Pass`) and as the class `Frame`, whose methods update the table's rows in place;
  - the views `Categorized`, `Export` and `Summary`.

The user's actions in the expander of row `i` are an input, `Choice`: the
category chosen in the selector, and the set of rows whose checkbox is
ticked. Streamlit hands these to the script on each rerun; the model takes them as given.

## Model

| member | source | states |
|---|---|---|
| Text.StripEnds | app.py:15 | `strip()` keeps one contiguous piece of the line. What it removes on each side is whitespace, and the kept piece neither starts nor ends with whitespace. |
| Text.StripEmptyIff | app.py:15 | A line strips to the empty string exactly when it is all whitespace. This is the blank-line test of the comprehension. |
| Text.StripNoOp | app.py:15 | A line that neither starts nor ends with whitespace is its own strip. |
| Text.StripIdempotent | app.py:15 | Stripping twice is stripping once. |
| Text.StripTrailingSpace | app.py:15 | A stripped line followed by one whitespace character strips back to itself. |
| Text.ReplaceKeepsOut | app.py:24 | `replace` brings in no character that is in neither the string nor the replacement. |
| Text.ReplaceCharGone | app.py:24 | After replacing a character by a string without it, no occurrence is left. |
| Text.ReplaceSkipsPrefix | app.py:24 | A prefix without the pattern's first character passes through `replace` unchanged. |
| Text.ReplaceCharConcat | app.py:24 | Replacing a single character distributes over concatenation. |
| Text.RemoveKeepsCount | app.py:24 | Removing a pattern keeps the count of every character not in the pattern. |
| Text.ReplaceCharCount | app.py:24 | Replacing `x` by `y` adds the count of `x` to `y` and leaves no `x`. |
| Amount.NormalizeDropsCommaAndEuro | app.py:24 | The normalised amount contains no `,` and no `€`. |
| Amount.NormalizeDotCount | app.py:24 | The normalised amount has as many `.` as the amount line had `,`. |
| Amount.ParseGermanAmount | app.py:24 | Round trip: an amount written as the report writes it is read back as exactly its value. The format is an optional minus sign, thousands dots, a decimal comma and two cent digits, followed by no suffix, ` EUR`, `€` or ` €`. |
| Amount.ThousandsExample | app.py:24 | `"1.234,56 EUR"` normalises to `"1234.56"` and reads as 1234.56. |
| Amount.NegativeExample | app.py:24 | `"-5,00€"` reads as -5.0. |
| Amount.NotAnAmountExample | app.py:24 | `"n/a"` passes through the normalisation unchanged, and `float()` rejects it. |
| Amount.TrimFloatIsStrip | app.py:24 | On a string without the separators U+001C to U+001F, the whitespace trim of `float()` is `str.strip()`. |
| Amount.SeparatorRejected | app.py:24 | A trailing U+001F is removed by `str.strip()`, but `float()` keeps it and rejects `"1.00"` followed by it. |
| Amount.Digits | app.py:24 | The decimal digits of `n` are non-empty ASCII digits without a dot, and they denote `n`. |
| Amount.DigitRunFacts | app.py:24 | The opening digit run of a string is all digits, and the character after it is not a digit. |
| Report.Clean | app.py:15 | Preprocessing never yields more lines than it is given. |
| Report.CleanLines | app.py:15 | Every line after preprocessing is non-empty and already stripped. |
| Report.CleanKeepsOrder | app.py:15 | The cleaned lines are the stripped input lines at increasing positions. A line is kept exactly when it is not blank. |
| Report.ParsePostbankTxt | app.py:12-41 | The imperative cursor loop (steps of 1 or 5, appending records, an early `ValueError`) equals the functional parse `ParsePostbank`. Its loop invariant says that the records so far, followed by the scan from the cursor, are the whole scan. |
| Report.StartsShape | app.py:19-40 | Every block starts at a date line that has four lines after it, and each block starts at least five lines after the previous one. The windows are disjoint and in order. |
| Report.StartsBound | app.py:19-40 | There are at most (lines - i)/5 blocks from cursor `i`. |
| Report.StartsCover | app.py:19-40 | A date line with four lines after it either starts a block or lies inside an earlier block's window. No transaction is skipped otherwise. |
| Report.ScanRecords | app.py:19-38 | A successful scan gives one record per block, in block order. Each record holds its window's date, payee, purpose and kind, the value read from its amount line, and an empty category. |
| Report.ScanFails | app.py:24 | The scan fails exactly when some block's amount line is rejected. It then reports the string `float()` was handed for the first such block. |
| Report.ParsedFromBlocks | app.py:12-41 | The same facts for the whole parser on the cleaned report, with the amount read by the normalisation and `float()`. |
| Report.RecordBound | app.py:19-40 | A parsed report has at most a fifth as many records as cleaned lines, and none when fewer than five lines remain. |
| Report.RecordsUncategorized | app.py:36 | Every parsed record has the empty category. |
| Report.ShortReportEmpty | app.py:19 | A report of fewer than five non-blank lines parses without error to no records. |
| Report.NoBlockEmpty | app.py:19-40 | A report in which no date line has four lines after it parses without error to no records. |
| Filters.FilterAt | app.py:99 | A mask selection keeps exactly the elements at the selected positions, in their original order. A position is selected exactly when its element passes the mask. |
| Filters.FilterMember | app.py:99 | An element is selected exactly when it occurs and passes the mask. |
| Filters.FilterCount | app.py:107 | A selected element keeps its multiplicity; a rejected one is gone. |
| Filters.FilterNarrow | app.py:99-107 | Selecting by a weaker mask first changes nothing. |
| Filters.FilterEmptyIff | app.py:99-100 | The selection is empty exactly when no element passes the mask. |
| Ledger.SimilarIff | app.py:78-82 | Row `j` is offered as similar to row `anchor` exactly when it is another row with the same payee and an empty category. The anchor itself is never offered, and the offered rows come in table order. |
| Ledger.AssignLocal | app.py:91-93 | Setting a row's category changes that row's category and nothing else. |
| Ledger.AssignIdempotent | app.py:91-93 | Setting the same category twice gives the same table as setting it once. |
| Ledger.BulkAt | app.py:85-91 | After the bulk assignment, a row has the chosen category exactly when it is offered and ticked. Otherwise it is unchanged. |
| Ledger.StepAt | app.py:69-93 | One expander gives its row the row's own selection, even an empty one. It gives the ticked similar rows the chosen category, but only when one was chosen, and leaves every other row unchanged. |
| Ledger.PassKeepsFields | app.py:63-93 | The whole pass changes no date, amount, payee, purpose or kind. It adds, drops and moves no row. |
| Ledger.OwnChoiceKept | app.py:69-93 | A row whose own selector names a category ends the pass with that category. |
| Ledger.CategorySource | app.py:69-93 | A row's final category is its own selection. When that selection is empty, the category comes from a later row of the same payee that chose it and ticked this row. |
| Ledger.OwnChoiceEmpty | app.py:69-93 | A row without a category after its own expander had an empty selection. |
| Ledger.PassKeepsOptions | app.py:69-74 | If every category and every selection is empty or one of the six categories, every category stays so after the pass. The six categories are the list at lines 8-10. This keeps the `KATEGORIEN.index` call of line 72 from failing. |
| Ledger.HandedForwardLost | app.py:91-93 | Two rows of the same payee: the first chooses "Miete" and ticks the second, and the second's selector stays empty. The second row ends with no category. |
| Ledger.Frame.SetCategory | app.py:91-93 | The in-place `df.at[i, "Kategorie"] = c` leaves the rows as `Assign` describes. |
| Ledger.Frame.CategorizeRow | app.py:69-93 | The in-place expander, with its loop over the offered rows, leaves the rows as `Step` describes. |
| Ledger.Frame.CategorizeAll | app.py:63-93 | The in-place loop over all rows leaves the rows as `Pass` describes. |
| Ledger.CategorizedRows | app.py:99 | The categorised view holds the rows with a non-empty category, in table order, and only those. |
| Ledger.NothingCategorizedIff | app.py:99-100 | The categorised view is empty, and the notice of lines 117-118 is shown, exactly when no row has a category. |
| Ledger.ExportRows | app.py:106-107 | For a category the export selector offers, the export is the order-preserving selection of that category's rows from the whole table. Every exported row has that category, and every such row is exported as often as it occurs. |
| Ledger.GroupKey | app.py:102 | The grouping has a key exactly for each category that occurs. |
| Ledger.GroupTotal | app.py:102 | Each group's value is the sum of the amounts of its category's rows. |
| Ledger.SummaryKey | app.py:99-102 | The summary has a row exactly for each non-empty category that some transaction has. |
| Ledger.SummaryTotal | app.py:99-102 | The summary's value for a category is the total of that category's amounts over the whole table. |
| Ledger.EmptyReportRaises | app.py:99 | For every report that parses to no records, the categorised view of the resulting table raises as written. The table comes from `pd.DataFrame` at line 41. |
| Ledger.OneLineReportRaises | app.py:99 | The one-line report `Kontoumsaetze` parses to no records, and the categorised view of its table raises. |
| Ledger.EmptyReportNotice | app.py:99-100 | With the view computed on the rows, such a report gives the empty view, and the notice of lines 117-118 is shown. |

## Left out

- The Streamlit user interface is not modelled. This covers the page setup, title, expanders, widget rendering and labels, the bar chart, the download button and the CSS (app.py:6, 43-52, 64-68, 83-84, 100-101, 103-105, 108-128). It is framework glue. The user's selections and ticks are the `Choice` inputs.
- The session-state handling (app.py:54-58) is not modelled: reusing an earlier upload's table instead of a fresh one. `Frame` starts from the records of the current parse.
- Reading the upload and decoding it as UTF-8 (app.py:14) are I/O and not modelled. The model starts from the decoded lines, so `splitlines` is not modelled either.
- Ledger.Pass: the `row` values of `iterrows` are a snapshot taken when the loop starts. The rules read two of them. The category sets the selector's initial position, which is part of the `Choice` input. The payee is used by the similar-row mask (app.py:79), and `PassKeepsFields` proves that the pass never changes a payee. So the snapshot's payee is the table's, and the model reads the current rows.
- Amount.ToFloat:
  - it is exact real arithmetic, so the binary64 rounding of `float()` and of the sum in `groupby(...).sum()` (app.py:24, 102) is not modelled;
  - the proved properties do not depend on rounding;
  - `float()`'s acceptance of underscores between digits, of `inf`/`nan` and of non-ASCII digits is not modelled: such lines are rejected here.
- Report.IsDateLine: it tests ASCII digits only. Python's `\d` also matches other Unicode decimal digits.
- Building the `DataFrame` (app.py:41) and writing the tab-separated export with `to_csv` (app.py:109-111) are library behaviour. Records are a sequence of `Transaction` values, and the export is the selected sequence.
- Ledger.Group: it is a map, so the sort order pandas gives the grouped keys is not modelled.

## Findings

| source | as written | input that shows it | evidently intended | confidence | as-written member | corrected member |
|---|---|---|---|---|---|---|
| app.py:99 | `pd.DataFrame(transactions)` of an empty record list has no columns, so `df["Kategorie"]` raises `KeyError`. | a report without a transaction block, e.g. the single line `Kontoumsaetze` | the notice "Noch keine kategorisierten Transaktionen." of line 118 | high; not executed | Ledger.CategorizedAsWritten, Ledger.EmptyReportRaises, Ledger.OneLineReportRaises | Ledger.Categorized, Ledger.EmptyReportNotice, Ledger.NothingCategorizedIff |
