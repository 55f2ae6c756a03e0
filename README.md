# Invoice reconciliation, modelled in Dafny

This project models the invoice-reconciliation pipeline. The pipeline turns a
pay journal (CSV) and a workbook of job classifications and charge rates into
one PDF invoice per cost centre. It runs in four stages:

1. **Loading** (`loader.dfy`). Each input path is routed by its extension:
   `.csv` goes to the journal branch, `.xlsx`/`.xlsm` goes to the workbook
   branch, and anything else is skipped. The journal has its NaN cells
   filled with 0 and is regrouped by `Cost Centre`. The workbook contributes
   its `Job_Classifications` and `Charge Sheet` sheets, each regrouped by
   `Job Classification`. Each grouping is then concatenated back into a
   frame, which fails when it has no group at all.
2. **Join and partition** (`join.dfy`, over the table operations of
   `tables.dfy`).
   - The job sheet's `Employee Number` and `First Name` columns are renamed.
   - The job sheet is inner-joined to the journal on (`Employee No.`,
     `Last Name`). The job side's `Given Names` is kept.
   - The merged rows are split by cost centre in order of first appearance.
   - Each part is inner-joined to the charge sheet on `Job Classification`.
   - Each part is written as `<cost centre with spaces as _>.csv`.
3. **Rate expansion** (`rates.dfy`). Each partition file is walked through
   the twelve (quantity column, rate column) pairs in order. Each priced pair
   adds one invoice line per row: unit, rate, amount = unit × rate, a
   dash-joined description, and the serviced period. The serviced period is
   the week ending on the first row's `Period End Date` (`calendar.dfy`). The
   lines are then ordered by (given names, last name) (`sorting.dfy`) and
   written as `<stem>_invoice.csv`.
4. **Invoice assembly** (`pdf.dfy`).
   - Lines whose Amount is 0 are dropped, and the rest are printed again with
     two decimals.
   - Subtotal, 10% GST and grand total are computed.
   - A blank row opens every run of lines with the same given names.

Two revisions of stages 1–3 exist:
- the service `app/processor.py`
- the earlier script `app.py`

They differ in three ways:
- the description prefix;
- two extra columns, and the reads of `Cost Centre` and `Payroll Name
  Selection` that fill them, which only the service can fail on;
- the service making no pass when no file was loaded.

`Rates.Revision` selects one, and `Loader.Inputs` takes it too. Two copies of stage 4 exist, the class in
`app/generate_pdf.py` and the script `pdf.py`. They do the same thing and
share one model.

Money is held in integer cents (`money.dfy`):
- "format to two decimals" is `Money.FormatCents`, with its inverse
  `Money.ParseCents`;
- one rounding function, `Money.RoundDiv` (nearest cent, ties away from
  zero), serves both unit × rate and the GST.

Tables are a set of column labels plus a sequence of rows, where each row
maps labels to values. A value is `Num(cents)`, `Text(s)` or `Missing` (NaN).
Reading files is outside the model. What each read returns is a parameter:
- `journalOf` and `sheetsOf` for the inputs;
- a listing plus a folder map for the output and invoice folders.

Operations that fail in the source (a `KeyError`, a `TypeError`, a
`ValueError` from `strptime`) return `Err` with the reason. Loops that fail
stop at the first failing item, as the exception does.

A pair is skipped only when a whole column is falsy (`not any(...)`). A line with unit 0 or rate 0 is still written by the rate
stage, and it is dropped only later by the PDF stage's `Amount != 0` filter.

## Model

| member | source | states |
|---|---|---|
| Loader.ProcessCsv | app.py:12-17 | succeeds iff the journal has a `Cost Centre` column; the regrouped rows are, as a multiset, exactly the journal's rows with every NaN filled by 0, so no row is lost to the NaN-key drop of groupby; there are rows iff the journal has rows, so an empty journal gives a grouping with no group (which the concat in `Loader.FileDataOutcome` refuses); the same code is at app/processor.py:15-20 |
| Loader.ProcessXlsx | app/processor.py:22-29 | succeeds iff both `Job_Classifications` and `Charge Sheet` exist and have `Job Classification`; a missing sheet fails with that sheet's name; each result holds exactly that sheet's rows with a job classification, so a sheet without one gives a grouping with no group (refused later, `Loader.FileDataOutcome`) |
| Loader.ProcessXlsxIgnoresOtherSheets | app/processor.py:25-27 | adding or changing any other sheet does not change the result |
| Loader.Load | app/processor.py:31-40 | succeeds iff every path's branch succeeds; the keys are exactly the `.csv`/`.xlsx`/`.xlsm` paths, each mapped to its own branch's result; a failure is the error of some path; the same code is at app.py:28-37 |
| Loader.SkippedPaths | app/processor.py:38-39 | the skipped paths are exactly the inputs with no supported extension |
| Loader.LoadStopsAtFirstError | app/processor.py:33-37 | when a path fails after all earlier ones succeeded, the whole load fails with that path's error |
| Loader.LoadStep | app/processor.py:33-39 | one iteration adds the path's grouped data, or nothing for a skipped path, and extends the skipped list exactly for skipped paths |
| Loader.ProcessOne | app/processor.py:34-39 | the branch taken for one path gives the result of that branch |
| Loader.ProcessAndReturnData | app/processor.py:31-40 | the loop that fills `grouped_data` returns exactly `Load` of the paths, and announces exactly the skipped paths |
| Loader.FileDataOutcome | app/processor.py:56-67 | after a clean load, the concat loop raises ValueError exactly when some journal has no row or some workbook sheet has no row with a job classification; a KeyError of the load comes first, because every path is grouped before the loop; the same code is at app.py:50-57 |
| Loader.Inputs | app/processor.py:70-77 | in the service revision, nothing loaded means no pass, no error and nothing written, since the lookups sit inside `for file_path in file_data`; otherwise the three tables are found iff the journal path was loaded as a journal and the workbook path as a workbook, and then they are its journal, jobs sheet and charge sheet; a failure is the KeyError of the journal path or of the workbook path with `_0`; the script revision does the same lookups unconditionally at app.py:59-61 |
| Tables.FillNa | app/processor.py:18 | same columns and row count; every NaN cell becomes 0; no cell is NaN afterwards; every non-NaN cell is unchanged |
| Tables.Regroup | app/processor.py:58-67 | `groupby(key)` with its groups taken in iteration order: succeeds iff the key column exists; keeps the columns; the rows are, as a multiset, exactly the rows whose key is not NaN; there is no group iff no row has a key |
| Tables.RegroupOrder | app/processor.py:58-67 | the regrouped rows are sorted by key, and rows with equal keys keep their original order |
| Tables.KeyOrderIsTotalPreorder | app/processor.py:58-60 | the key order (numbers before strings, NaN last) is total and transitive |
| Tables.RowsWithKeyAll | app/processor.py:18-19 | when no key is NaN, no row is dropped |
| Tables.RenameColumns | app/processor.py:84 | succeeds iff no two labels are renamed to the same label; the columns are the relabelled set; every cell is found under its new label in the same row |
| Tables.JoinPairs | app/processor.py:85-87 | a pair (i, j) is emitted iff left row i and right row j agree on every key; pairs come in left order, then right order |
| Tables.MatchesOf | app/processor.py:85-87 | the partners of one left row are exactly the agreeing right rows, in right order |
| Tables.MergeRow | app/processor.py:85-88 | the merged row's labels are the merged column set; each left cell is under its `_x`-suffixed label, each right cell under its `_y`-suffixed label |
| Tables.MissingKey | app/processor.py:85-87 | no key is reported iff every join key is a column of both sides; a reported key is missing from one side |
| Tables.Merge | app/processor.py:85-87 | on success the join keys are columns and the overlapping labels get `_x`/`_y` suffixes without clashing; the k-th row is the merge of the k-th agreeing pair |
| Tables.MergeLeftCell | app/processor.py:85-88 | the k-th merged row holds its left row's cell c under c's `_x`-suffixed label |
| Tables.DropColumn | app/processor.py:88 | succeeds iff the column exists; removes exactly that column; every other cell is unchanged |
| Tables.Unique | app/processor.py:90 | holds each value of the column exactly once |
| Tables.UniqueOrder | app/processor.py:90 | the values come in order of first appearance: wherever a later value occurs, every earlier one has already occurred before it |
| Tables.RowsWhere | app/processor.py:94-96 | the selection holds exactly the rows whose cell equals the value |
| Tables.RowsWhereSplit | app/processor.py:93-96 | selecting for v then for the rest of the values is, as a multiset, selecting for all of them |
| Tables.SelectionsMultiset | app/processor.py:93-96 | the per-value selections, for distinct values, together hold each matching row once |
| Tables.PartitionIsPermutation | app/processor.py:90-96 | selecting every unique value of a column, one after another, gives back a permutation of the rows |
| JoinEngine.MergeSources | app/processor.py:79-89 | the renamed-merged-dropped-renamed table is well formed, has no `Given Names_y` column, and exists only when the rename succeeds |
| JoinEngine.MergeSourcesSteps | app/processor.py:84-89 | the intermediate frames exist; `Given Names` is suffixed `_x` on the job side; the join keys are not suffixed; the merge, drop and rename keep the row count, which is the number of agreeing pairs |
| JoinEngine.MergeSourcesKeepsJobSide | app/processor.py:84-89 | every merged row is one agreeing (job row, journal row) pair in job-row order, and carries the job row's `Given Names`, `Employee No.` and `Last Name`; the same code is at app.py:75-79 |
| JoinEngine.MergeSourcesRowName | app/processor.py:88-89 | the merged row's `Given Names` is the job side's |
| JoinEngine.FileName | app/processor.py:102 | the partition file name has no space, ends in `.csv` and is 4 characters longer than the cost centre |
| JoinEngine.FileNameCollision | app/processor.py:102 | two cost centres get the same file name iff they differ only by a space against an underscore |
| JoinEngine.Selected | app/processor.py:94-96 | the selection holds exactly the merged rows whose cost centre equals the value, and none for NaN |
| JoinEngine.PartitionFor | app/processor.py:93-104 | a partition exists only for a string cost centre; it is named by `FileName`; its table is exactly the inner join of the selected rows with the charge sheet on `Job Classification`, one row per agreeing (selected row, charge row) pair; a join without `Employee No.` makes `set_index` fail |
| JoinEngine.EachCentreOutcome | app/processor.py:93-104 | the partition loop succeeds iff every cost centre's step does; then its k-th partition is the k-th centre's |
| JoinEngine.Partitions | app/processor.py:90-104 | on success, one partition per unique cost centre, in first-appearance order, with no cost centre twice; partition k is exactly what `PartitionFor` gives for its cost centre, that is the selection joined to the charge sheet; the same code is at app.py:80-92 |
| JoinEngine.PartitionsCoverMergedRows | app/processor.py:90-96 | when no merged cost centre is NaN, the selections together are a permutation of the merged rows: every row falls in exactly one partition |
| JoinEngine.SelectedRowsAreSelections | app/processor.py:93-96 | the loop's selections, one centre after another, are the table selections for those centres |
| JoinEngine.Checkpoints | app/processor.py:102-104 | the output folder holds exactly the partition file names, and the last partition written under a name is what it holds |
| JoinEngine.CheckpointsLastWriter | app/processor.py:102-104 | a partition's file holds its table unless a later partition has the same name |
| JoinEngine.CollidingCostCentresOverwrite | app/processor.py:102-104 | the cost centres "Ops A" and "Ops_A" write one file, which holds only the later partition |
| Calendar.DaysInMonth | app/processor.py:160-163 | every month has 28 to 31 days |
| Calendar.DaysBeforeYearClosedForm | app/processor.py:163 | the days before year y are 365(y-1) plus the Gregorian leap-day count (y-1)/4 - (y-1)/100 + (y-1)/400 |
| Calendar.PrevDay | app/processor.py:163 | the previous day exists iff the date is not 01/01/0001, is valid, and has day number one less |
| Calendar.NextDay | app/processor.py:163 | the next day exists iff the date is not 31/12/9999, is valid, and has day number one more |
| Calendar.NextOfPrev | app/processor.py:163 | stepping back a day and forward again gives the same date |
| Calendar.PrevOfNext | app/processor.py:163 | stepping forward a day and back again gives the same date |
| Calendar.OrdinalInjective | app/processor.py:163 | two valid dates with the same day number are the same date |
| Calendar.DaysBefore | app/processor.py:163 | stepping back n days gives a valid date when it gives one |
| Calendar.DaysBeforeOrdinal | app/processor.py:163 | stepping back n days succeeds iff the day number stays at least 1, and then lowers the day number by exactly n, across month, year and leap-year boundaries |
| Calendar.ParseDayField | app/processor.py:160-162 | a day read by `%d` lies in 1..31 |
| Calendar.ParseMonthField | app/processor.py:160-162 | a month read by `%m` lies in 1..12 |
| Calendar.ParseDate | app/processor.py:160-162 | a date read with `%d/%m/%Y` is a valid calendar date |
| Calendar.FormatDate | app/processor.py:164 | `%d/%m/%Y` prints 10 characters with `/` at positions 2 and 5 |
| Calendar.ParseFormatDate | app/processor.py:160-164 | reading a printed valid date gives that date back |
| Calendar.ServicedPeriodSpan | app.py:143-145 | the period is 23 characters, "start - end", where end reads back as the period end and start reads back as the date 6 days earlier; the same code is at app/processor.py:160-164 |
| Money.RoundDiv | app/processor.py:169 | the quotient is within half a divisor of n/d; exact halves round away from zero |
| Money.RoundDivNearest | app/processor.py:169 | no other integer is closer to n/d than the rounded quotient |
| Money.FormatCents | app/processor.py:167-169 | the printed amount has at least four characters, a point third from the end, exactly two digits after it, and a leading `-` iff it is negative |
| Money.ParseFormatCents | app/processor.py:171 | `float("{:.2f}")` of an amount in cents reads back exactly that amount |
| Money.FormatCentsInjective | app/processor.py:167-169 | two different amounts never print the same |
| Money.ParseUnsignedParts | app/generate_pdf.py:20 | "w.ff" with digits w and two digits ff reads as 100·w + ff cents |
| Strings.ReplaceChar | app/processor.py:102 | same length; each space becomes `_`, and every other character is unchanged |
| Strings.BeforeFirst | app/processor.py:132 | the part before the first `-`: a prefix with no `-`, followed by `-` unless it is the whole string |
| Strings.BeforeFirstUnique | app/processor.py:132 | any prefix with no `-` that is followed by `-`, or is the whole string, is that part |
| Strings.JoinSplit | app/processor.py:132 | joining the pieces of a split with the separator gives back the string |
| Strings.SplitExt | app/processor.py:190 | `os.path.splitext`: the stem plus the extension is the path, and the extension is empty or a final `.` part with no `/` |
| Strings.RFind | app/processor.py:190 | the last occurrence of a character, or -1 when there is none |
| Strings.LexLeTotal | app/processor.py:187 | any two strings are ordered one way or the other |
| Strings.LexLeTransitive | app/processor.py:187 | string order is transitive |
| Strings.LexLeAntisymmetric | app/processor.py:187 | strings ordered both ways are equal |
| Strings.DigitsRoundTrip | app/processor.py:167-169 | printing a number's decimal digits and reading them back gives the number |
| Sorting.InsertionSort | app/processor.py:187 | the sorted sequence is a permutation of the input |
| Sorting.SortSorted | app/processor.py:187 | under a total preorder the result is sorted |
| Sorting.SortStable | app/processor.py:187 | elements that tie keep their relative order (stable sort) |
| Rates.Numbers | app/processor.py:135-140 | the multiplication succeeds iff every cell of the column is a number, and then reads them row by row; a NaN cell is refused, where numpy would multiply it (the NaN line under Left out) |
| Rates.Texts | app/processor.py:141-151 | the concatenation succeeds iff the column exists and every cell is a string, failing with `KeyError` for a missing column and `TypeError` otherwise |
| Rates.Serviced | app/processor.py:160-164 | a missing column, an empty file, a non-string or unreadable first date fail with that reason; otherwise the period ends on the first row's date and starts 6 days earlier; the same code is at app.py:143-145 |
| Rates.Prepare | app/processor.py:135-164 | a priced pair's reads carry the file's period; the service revision also needs `Cost Centre` and a string `Payroll Name Selection` cell |
| Rates.PrepareReads | app/processor.py:135-158 | the reads hold, row by row, the two numeric cells and the three name strings |
| Rates.Prefix | app/processor.py:132 | `csv_file.split("-")[0]`: the file name up to its first `-`, with no `-` in it |
| Rates.PayrollName | app/processor.py:156-158 | column 0 of the payroll-name split is the string up to its first `-`, and NaN for a cell that is not a string |
| Rates.PairLines | app/processor.py:133-140 | a pair whose column is absent or all falsy emits nothing; a priced pair emits one line per row |
| Rates.PairLineFields | app/processor.py:141-184 | line k has unit and rate = row k's cells and amount = their rounded product; its names are row k's; its description is `class-prefix-target-given-last` for the service; its period is the file's; the service's cost centre and payroll name come from row k; at app.py:128-170 the script's description is `class-target-given-last` and its lines have no cost centre or payroll name |
| Rates.RevisionsAgree | app.py:121-170 | whenever the service writes a pair's lines the script writes as many, differing only in the description's file prefix and the extra columns |
| Rates.PrefixOfCheckpoint | app/processor.py:102 | for a file named from a cost centre, the prefix is that cost centre up to its first `-` (spaces as `_`), or the whole file name, `.csv` included, when it has no `-` |
| Rates.ConcatOutcome | app/processor.py:133-184 | the pair loop succeeds iff every pair's step does, and otherwise fails with the first failing pair's error |
| Rates.ExpandOutcome | app/processor.py:133-184 | a file's expansion succeeds iff every pair's reads succeed, failing with the first pair's error |
| Rates.ExpandLength | app/processor.py:133-184 | a file expands to (number of priced pairs) × (number of rows) lines |
| Rates.ExpandStopsAtFirstError | app/processor.py:133-184 | a pair that fails after all earlier pairs succeeded fails the whole file with its error |
| Rates.ExpandStep | app/processor.py:133-184 | one pair appends exactly its lines |
| Rates.TotalAppend | app/processor.py:171 | the total of appended lines is the sum of the two totals |
| Rates.TotalPermutation | app/processor.py:171 | the total of the amounts does not depend on the order of the lines |
| Rates.ExpandRates | app/processor.py:130-184 | the loop that appends to `final_data` and adds to `total_amount` builds exactly the file's expansion, and `total_amount` is the sum of its amounts; the same code is at app.py:118-170 |
| Rates.AppendPair | app/processor.py:133-184 | one pair appends exactly its lines and adds exactly their amounts, or fails with its reads' error |
| Rates.AppendLines | app/processor.py:165-184 | the row loop appends line 0..n-1 in order and adds their amounts |
| Rates.NameLeTotalPreorder | app/processor.py:187 | ordering by (given names, last name) is total and transitive |
| Rates.SortInvoice | app/processor.py:186-187 | an empty line list fails (the empty frame has no `Given Names`); otherwise the sorted invoice is a permutation of the lines |
| Rates.SortInvoiceOrdered | app.py:172-173 | the invoice is ordered by (given names, last name), and lines with equal names keep their appended order; the same code is at app/processor.py:187 |
| Rates.InvoiceEmpty | app/processor.py:186-187 | a file whose reads succeed fails only when no pair is priced or it has no rows; otherwise its invoice is a permutation of its expanded lines |
| Rates.InvoiceTotal | app/processor.py:186-187 | sorting the invoice keeps its total: the sorted lines add up to the same total as the lines the loop over the mapping appended |
| Rates.InvoiceFileName | app/processor.py:190 | the invoice name ends in `_invoice.csv` |
| Rates.InvoiceFileNameOfCsv | app/processor.py:190 | "<stem>.csv" becomes "<stem>_invoice.csv" |
| Rates.BatchOutcome | app/processor.py:124-192 | the file loop succeeds iff every `.csv` file's step does; then each is written under its invoice name, and every name written holds some `.csv` file's result |
| Rates.BatchStopsAtFirstError | app/processor.py:126-192 | a file that fails after all earlier files succeeded stops the loop with its error |
| Rates.BatchStep | app/processor.py:126-192 | one file adds its invoice under its invoice name, or nothing for a non-`.csv` name |
| Rates.InvoicesOutcome | app/processor.py:124-192 | the rate stage succeeds iff every `.csv` checkpoint's invoice does; each is written under its invoice name and nothing else is written |
| Rates.InvoiceOne | app/processor.py:126-192 | one file's loop and sort give exactly its invoice |
| Rates.WriteInvoices | app/processor.py:124-192 | the loop over the checkpoint folder writes exactly the rate stage's invoices; the same code is at app.py:112-178 |
| Pdf.Reformat | app/generate_pdf.py:20 | re-printing fails iff the cell is a non-empty string that `Money.ParseCents` cannot read, which is narrower than what `float` reads (the `Money.ParseCents` line under Left out); an empty string prints `0.00`; NaN stays NaN |
| Pdf.ReformatReadsBack | app/generate_pdf.py:20 | the printed amount reads back to the number the cell held |
| Pdf.ReformatIdempotent | app/generate_pdf.py:20 | printing an already printed amount again changes nothing |
| Pdf.ReformattedOutcome | app/generate_pdf.py:20 | the apply succeeds iff every kept amount is readable, and then holds each row's amount; otherwise it fails with the first unreadable one |
| Pdf.GstNearest | app/generate_pdf.py:23 | the GST is the cent nearest to a tenth of the subtotal |
| Pdf.TotalsOf | app/generate_pdf.py:22-35 | the subtotal and GST print amounts that read back exactly; the grand total reads back as their exact sum; the same code is at pdf.py:21-34 |
| Pdf.EntriesAppend | app/generate_pdf.py:47-53 | the invoice rows of two laid-out pieces are those of the first, then those of the second |
| Pdf.SpacedLaid | app/generate_pdf.py:37-55 | the layout without its blank rows is the input rows in order; every blank row is followed by a row; a row has a blank row right above it iff it is the first or its given names differ from the previous row's (NaN equals nothing); the same code is at pdf.py:36-54 |
| Pdf.SpacedOpens | app/generate_pdf.py:47-50 | a non-empty layout starts with a blank row |
| Pdf.InsertBlanks | pdf.py:36-54 | the loop over the rows builds exactly the spaced layout; the same code is at app/generate_pdf.py:37-55 |
| Pdf.AssembleSucceeds | app/generate_pdf.py:17-55 | a file assembles iff it has `Amount`, every nonzero amount is readable, and `Given Names` exists whenever a row is kept; a missing `Amount` fails first |
| Pdf.KeptReadable | app/generate_pdf.py:18-20 | the kept amounts are readable iff every row with a nonzero amount is; none are kept iff every amount is 0 |
| Pdf.AssembleShows | app/generate_pdf.py:18-55 | the layout separates exactly the runs of given names, and shows exactly the rows whose Amount is not 0, each with its amount printed again |
| Pdf.ShownRows | app/generate_pdf.py:20 | each kept row is shown with its own amount printed again, and each shown row is such a row |
| Pdf.AssembleFile | app/generate_pdf.py:17-55 | the one-file steps, with the row loop, give exactly the assembled document |
| Pdf.AssembledTotals | app/generate_pdf.py:22-35 | the totals are those of the sum of the kept amounts |
| Pdf.KeptSubtotal | app/generate_pdf.py:18-22 | dropping zero amounts does not change the sum: the subtotal equals the total of the lines the file holds |
| Pdf.InvoiceTotals | app/generate_pdf.py:17-35 | an invoice file that holds a list of lines' amounts assembles; its subtotal reads back as the total of those lines, its GST as the rounded tenth, and its grand total as their sum |
| Pdf.InvoiceFileTotals | app/generate_pdf.py:17-22 | for the invoice file the rate stage writes, whose lines are sorted by name, the PDF subtotal reads back as the `total_amount` that stage added up over its lines in their unsorted order |
| Pdf.PdfNameOfInvoice | pdf.py:62 | "<stem>_invoice.csv" is rendered as "<stem>_invoice.pdf"; the same code is at app/generate_pdf.py:63 |
| Pdf.InvoicesBecomePdfs | app/generate_pdf.py:13 | every invoice name the rate stage writes passes the `_invoice.csv` filter, and "<stem>.csv" ends as "<stem>_invoice.pdf" |
| Pdf.RenderOutcome | app/generate_pdf.py:13-65 | the file loop succeeds iff every invoice file's step does; then each is written under its PDF name, and every name written holds some invoice file's result |
| Pdf.RenderStopsAtFirstError | app/generate_pdf.py:16-65 | a file that fails after all earlier files succeeded stops the loop with its error |
| Pdf.RenderStep | app/generate_pdf.py:16-65 | one file adds its document under its PDF name, or nothing for a name that is not an invoice |
| Pdf.DocumentsOutcome | app/generate_pdf.py:13-65 | the PDF stage succeeds iff every invoice file assembles; each is written under its PDF name and nothing else is written |
| Pdf.WriteDocuments | app/generate_pdf.py:12-65 | the loop over the invoice folder writes exactly the PDF stage's documents; the same code is at pdf.py:10-64 |

## Left out

- Reading and writing files is not modelled: `read_csv`, `read_excel`, `load_workbook`, `to_csv`, `os.listdir` and `os.makedirs`. Each read is a parameter. A directory listing is a sequence in unspecified order plus a map from name to table. A partition is handed on as in-memory rows, not written and read back. So the type changes of a CSV round trip (an empty string read back as NaN, numbers read back from text) are not modelled.
- `Pdf.InvoiceTotals` assumes that the file read back holds the rate stage's amounts as numbers (`HoldsAmounts`). That is the link between the two stages the model can state without modelling `read_csv`.
- The Jinja2 template and pdfkit rendering are not modelled. A document is the laid-out lines plus the three totals. The blank row is the `Blank` constructor, not a row of empty strings.
- Floating point is not modelled. Amounts are integer cents, rounded by one function (`Money.RoundDiv`, half away from zero). Python's binary floats and the half-even rounding of `"{:.2f}"` can differ on ties. A negative amount that rounds to zero prints `-0.00` in Python and `0.00` here.
- `Money.ParseCents`: reads only an optional `-`, digits, and an optional `.` with one or two digits. Python's `float` also accepts spaces, a leading `+` or `.`, exponents, `nan`, `inf` and more decimals. So an Amount text outside these forms is treated as unreadable.
- `Pdf.Reformat`: an Amount text that Python's `float` reads but `Money.ParseCents` does not (see the line above) is refused as unreadable.
- Amounts with more than two decimals in the input sheets are not modelled, since every cell holds whole cents.
- `Rates.Numbers`: NaN arithmetic is not modelled. A NaN unit or rate is refused, where numpy would print `nan`.
- `Rates.Texts`: a NaN `Job Classification`, `Given Names` or `Last Name` cell fails, where pandas' string concatenation carries NaN into the description. A string multiplied by a number, which Python repeats, also fails.
- `Tables.RenameColumns`: a rename that would give two columns one label fails, where pandas keeps both columns under that label.
- Python's `\d` in `strptime` also accepts non-ASCII digits. The model accepts only ASCII digits. It reads `%Y` as exactly four digits.
- Dates are limited to years 1 to 9999 (Python's `datetime`). The narrower range of `pd.Timestamp` is not modelled.
- Printing the period computes it once per file instead of once per priced pair. It reads only the first row, so the value is the same, and a file with no priced pair never reads it. `Rates.Prepare` still fails on it at the pair's point in the reads.
- The outer `for file_path in file_data` loop of `app/processor.py` is modelled as at most one pass. When `file_data` is empty the body never runs, and `Loader.Inputs` gives no pass in the service revision. Otherwise every iteration repeats the same join, partition and rate stage with the same inputs, so the model runs that stage once. The hard-coded upload paths are parameters of `Loader.Inputs`.
- `Tables.Merge`: columns carry no dtype, so pandas' ValueError for merging a key column of strings with a numeric one is not modelled. An example is an `Employee Number` stored as text against the journal's integer `Employee No.`. Such a merge succeeds here and finds no matching pairs, so those rows are dropped without an error. Also, a suffixed label that equals a label of the other side (left columns `k`, `a` and right columns `k`, `a`, `a_x`, merged on `k`) makes the merge fail, where pandas keeps both columns under the label `a_x`: a row here maps each label to one cell.
- Files written partly before an exception are not modelled: a failing loop returns only its error.
- `app/csv_reader.py` and `main.py` are not part of this model. They wrap `read_csv` and orchestrate the stages.
- `Pdf.SpacedLaid`: states where the blank rows are (one right before each row that opens a run of given names, and nowhere else), not their count as a number.
