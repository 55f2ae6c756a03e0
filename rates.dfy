/** The rate stage of process_data: every cost-centre checkpoint file is read
    back and expanded into invoice lines. For each (quantity column, rate
    column) pair of the mapping, in order, a pair whose two columns exist and
    each hold some truthy cell contributes one line per row, priced unit x
    rate; the lines are then ordered by given names and last name and written
    as <stem>_invoice.csv. */
module Rates {
  import opened Wrappers
  import opened Strings
  import opened Money
  import opened Calendar
  import opened Tables
  import Sorting

  /** The service (app/processor.py) puts the checkpoint file's name before
      its first '-' into each description and attributes each line to a cost
      centre and payroll name; the earlier script (app.py) does neither. */
  datatype Revision = Service | Script

  /** Quantity column and the rate column that prices it, in dictionary order. */
  const Mapping: seq<(string, string)> := [
    ("Normal Hourly (Qty)", "NT"),
    ("Overtime 2.0 (Qty)", "OT"),
    ("AMWU - Meal Allowance (Meal)", "Overtime Meal Allowance"),
    ("Site Allowance - VIC (Qty)", "Site Allowance"),
    ("AMWU - Travel & Fares (Travel)", "Travel & Fares Allowance"),
    ("Overtime Productivity Allowance-VIC (Qty)", "Overtime Productivity Allowance"),
    ("Overtime 1.8 (Qty)", "OT"),
    ("Nightshift 1.8 (Qty)", "NT Shift"),
    ("Night Shift 200% (Qty)", "NT Shift"),
    ("AWU - Travel Allowance (Travel)", "Travel & Fares Allowance"),
    ("AWU - Overtime Meal Allowance (Meal)", "Overtime Meal Allowance"),
    ("Rain Work 1.0 (Qty)", "NT")
  ]

  /** The service's "Cost Centre" and "Payroll Name" columns of a line. */
  datatype Attribution = Attribution(costCentre: Value, payrollName: Value)

  /** One row of the invoice frame. Unit, rate and amount are held in cents;
      the frame holds each as "{:.2f}" prints it, which is FormatCents, and
      reading that text back gives the same cents (Money.ParseFormatCents). */
  datatype InvoiceLine = InvoiceLine(
    serviced: string,
    description: string,
    unit: int,
    rate: int,
    amount: int,
    givenNames: string,
    lastName: string,
    attribution: Option<Attribution>)

  /** Truth of a cell as any() sees it; NaN counts as true. */
  predicate Truthy(v: Value) {
    match v
    case Num(c) => c != 0
    case Text(s) => s != []
    case Missing => true
  }

  predicate AnyTruthy(t: Table, c: string) {
    exists k :: 0 <= k < |t.rows| && Truthy(Cell(t.rows[k], c))
  }

  /** The pair is priced: both columns exist and neither is all falsy. */
  predicate Applies(t: Table, src: string, tgt: string) {
    src in t.columns && tgt in t.columns && AnyTruthy(t, src) && AnyTruthy(t, tgt)
  }

  /** The column's numbers, row by row; a cell that is not a number fails the
      multiplication. */
  function Numbers(t: Table, c: string): (r: Result<seq<int>, Error>)
    ensures r.Ok? <==> forall k :: 0 <= k < |t.rows| ==> Cell(t.rows[k], c).Num?
    ensures r.Err? ==> r.error == NotNumeric(c)
    ensures r.Ok? ==> |r.value| == |t.rows| && forall k :: 0 <= k < |t.rows| ==> Cell(t.rows[k], c) == Num(r.value[k])
  {
    match CentsOf(t.rows, c)
    case Some(v) => Ok(v)
    case None => Err(NotNumeric(c))
  }

  function CentsOf(rows: seq<Row>, c: string): (r: Option<seq<int>>)
    ensures r.Some? <==> forall k :: 0 <= k < |rows| ==> Cell(rows[k], c).Num?
    ensures r.Some? ==> |r.value| == |rows| && forall k :: 0 <= k < |rows| ==> Cell(rows[k], c) == Num(r.value[k])
    decreases |rows|
  {
    if rows == [] then Some([])
    else
      var init := rows[..|rows| - 1];
      assert forall k :: 0 <= k < |init| ==> init[k] == rows[k];
      match (CentsOf(init, c), Cell(rows[|rows| - 1], c))
      case (Some(v), Num(x)) => Some(v + [x])
      case _ => None
  }

  /** The column's strings, row by row, as the description concatenation
      needs them: a KeyError when the column is absent, a TypeError on a cell
      that is not a string. */
  function Texts(t: Table, c: string): (r: Result<seq<string>, Error>)
    ensures r.Ok? <==> c in t.columns && forall k :: 0 <= k < |t.rows| ==> Cell(t.rows[k], c).Text?
    ensures r.Err? ==> r.error == if c in t.columns then NotText(c) else MissingColumn(c)
    ensures r.Ok? ==> |r.value| == |t.rows| && forall k :: 0 <= k < |t.rows| ==> Cell(t.rows[k], c) == Text(r.value[k])
  {
    if c !in t.columns then Err(MissingColumn(c))
    else
      match StringsOf(t.rows, c)
      case Some(v) => Ok(v)
      case None => Err(NotText(c))
  }

  function StringsOf(rows: seq<Row>, c: string): (r: Option<seq<string>>)
    ensures r.Some? <==> forall k :: 0 <= k < |rows| ==> Cell(rows[k], c).Text?
    ensures r.Some? ==> |r.value| == |rows| && forall k :: 0 <= k < |rows| ==> Cell(rows[k], c) == Text(r.value[k])
    decreases |rows|
  {
    if rows == [] then Some([])
    else
      var init := rows[..|rows| - 1];
      assert forall k :: 0 <= k < |init| ==> init[k] == rows[k];
      match (StringsOf(init, c), Cell(rows[|rows| - 1], c))
      case (Some(v), Text(x)) => Some(v + [x])
      case _ => None
  }

  predicate HasText(t: Table, c: string) {
    exists k :: 0 <= k < |t.rows| && Cell(t.rows[k], c).Text?
  }

  /** The serviced period of a file: the first row's "Period End Date" read
      with "%d/%m/%Y", and the six days before it through that date. */
  function Serviced(t: Table): (r: Result<string, Error>)
    ensures "Period End Date" !in t.columns ==> r == Err(MissingColumn("Period End Date"))
    ensures "Period End Date" in t.columns && t.rows == [] ==> r == Err(NoRows)
    ensures "Period End Date" in t.columns && t.rows != [] && !Cell(t.rows[0], "Period End Date").Text? ==>
              r == Err(NotText("Period End Date"))
    ensures "Period End Date" in t.columns && t.rows != [] && Cell(t.rows[0], "Period End Date").Text? &&
            ParseDate(Cell(t.rows[0], "Period End Date").s).None? ==>
              r == Err(BadDate(Cell(t.rows[0], "Period End Date").s))
    ensures r.Ok? ==>
              && t.rows != [] && Cell(t.rows[0], "Period End Date").Text?
              && var end := ParseDate(Cell(t.rows[0], "Period End Date").s);
              && end.Some?
              && |r.value| == 23 && r.value[10..13] == " - "
              && ParseDate(r.value[13..]) == end
              && ParseDate(r.value[..10]).Some?
              && Ordinal(ParseDate(r.value[..10]).value) == Ordinal(end.value) - 6
  {
    if "Period End Date" !in t.columns then Err(MissingColumn("Period End Date"))
    else if t.rows == [] then Err(NoRows)
    else
      match Cell(t.rows[0], "Period End Date")
      case Text(s) =>
        (match ParseDate(s)
         case None => Err(BadDate(s))
         case Some(end) =>
           (match ServicedPeriod(end)
            case None => Err(DateOutOfRange)
            case Some(p) => ServicedPeriodSpan(end); Ok(p)))
      case _ => Err(NotText("Period End Date"))
  }

  /** One checkpoint file as the pair loop sees it: the frame read back, the
      file's name and the revision running. The serviced period depends on
      the first row only, so it is the same for every pair and is held here
      once, as the value (or the error) that reading it gives. */
  datatype Sheet = Sheet(table: Table, fileName: string, rev: Revision, period: Result<string, Error>)

  function SheetOf(t: Table, fileName: string, rev: Revision): (sh: Sheet)
    ensures sh.table == t && sh.fileName == fileName && sh.rev == rev && sh.period == Serviced(t)
  {
    Sheet(t, fileName, rev, Serviced(t))
  }

  /** What a priced pair reads from the file before writing its lines. */
  datatype Setup = Setup(units: seq<int>, rates: seq<int>, classes: seq<string>,
                         given: seq<string>, last: seq<string>, serviced: string)

  predicate Fits(s: Setup, n: int) {
    |s.units| == n && |s.rates| == n && |s.classes| == n && |s.given| == n && |s.last| == n
  }

  /** The reads of a priced pair, failing as the source does and in its order:
      the product, the three name columns of the description, the service's
      cost centre and payroll-name split, then the period end date. */
  function Prepare(sh: Sheet, src: string, tgt: string): (r: Result<Setup, Error>)
    ensures r.Ok? ==> sh.period == Ok(r.value.serviced)
    ensures r.Ok? && sh.rev == Service ==>
              && "Cost Centre" in sh.table.columns && "Payroll Name Selection" in sh.table.columns
              && HasText(sh.table, "Payroll Name Selection")
  {
    var t := sh.table;
    var units :- Numbers(t, src);
    var rates :- Numbers(t, tgt);
    var classes :- Texts(t, "Job Classification");
    var given :- Texts(t, "Given Names");
    var last :- Texts(t, "Last Name");
    if sh.rev == Service && "Cost Centre" !in t.columns then Err(MissingColumn("Cost Centre"))
    else if sh.rev == Service && "Payroll Name Selection" !in t.columns then Err(MissingColumn("Payroll Name Selection"))
    else if sh.rev == Service && !HasText(t, "Payroll Name Selection") then Err(NotText("Payroll Name Selection"))
    else
      var serviced :- sh.period;
      Ok(Setup(units, rates, classes, given, last, serviced))
  }

  /** A successful read holds one value of each column per row: the two
      numeric columns' cells and the three name columns' strings. */
  lemma PrepareReads(sh: Sheet, src: string, tgt: string)
    requires Prepare(sh, src, tgt).Ok?
    ensures var s := Prepare(sh, src, tgt).value;
            && Fits(s, |sh.table.rows|)
            && forall k :: 0 <= k < |sh.table.rows| ==>
                 && Cell(sh.table.rows[k], src) == Num(s.units[k])
                 && Cell(sh.table.rows[k], tgt) == Num(s.rates[k])
                 && Cell(sh.table.rows[k], "Job Classification") == Text(s.classes[k])
                 && Cell(sh.table.rows[k], "Given Names") == Text(s.given[k])
                 && Cell(sh.table.rows[k], "Last Name") == Text(s.last[k])
  {
  }

  /** The service's description prefix: the file name up to its first '-'. */
  function Prefix(fileName: string): (p: string)
    ensures '-' !in p && |p| <= |fileName| && fileName[..|p|] == p
  {
    BeforeFirst(fileName, '-')
  }

  function Description(rev: Revision, fileName: string, tgt: string, jc: string, gn: string, ln: string): string {
    jc + "-" + (if rev == Service then Prefix(fileName) + "-" else "") + tgt + "-" + gn + "-" + ln
  }

  /** Column 0 of the payroll-name split: a string cell up to its first '-';
      NaN for anything else. */
  function PayrollName(v: Value): (r: Value)
    ensures v.Text? <==> r.Text?
    ensures r.Text? ==> v.Text? && '-' !in r.s && |r.s| <= |v.s| && v.s[..|r.s|] == r.s
    ensures r.Text? ==> v.Text? && (|r.s| < |v.s| ==> v.s[|r.s|] == '-')
  {
    match v
    case Text(s) => Text(BeforeFirst(s, '-'))
    case _ => Missing
  }

  /** Line k of a priced pair. */
  function LineAt(sh: Sheet, tgt: string, s: Setup, k: int): InvoiceLine
    requires Fits(s, |sh.table.rows|) && 0 <= k < |sh.table.rows|
  {
    InvoiceLine(
      s.serviced,
      Description(sh.rev, sh.fileName, tgt, s.classes[k], s.given[k], s.last[k]),
      s.units[k],
      s.rates[k],
      Product(s.units[k], s.rates[k]),
      s.given[k],
      s.last[k],
      if sh.rev == Service then
        Some(Attribution(Cell(sh.table.rows[k], "Cost Centre"),
                         PayrollName(Cell(sh.table.rows[k], "Payroll Name Selection"))))
      else None)
  }

  /** The lines one pair contributes: none when it is not priced, otherwise
      one per row in row order, or the error its reads raise. */
  function PairLines(sh: Sheet, src: string, tgt: string): (r: Result<seq<InvoiceLine>, Error>)
    ensures !Applies(sh.table, src, tgt) ==> r == Ok([])
    ensures r.Ok? && Applies(sh.table, src, tgt) ==> |r.value| == |sh.table.rows|
  {
    if !Applies(sh.table, src, tgt) then Ok([])
    else
      var s :- Prepare(sh, src, tgt);
      PrepareReads(sh, src, tgt);
      Ok(Lines(sh, tgt, s, |sh.table.rows|))
  }

  /** The first n lines of a priced pair. */
  function Lines(sh: Sheet, tgt: string, s: Setup, n: nat): (r: seq<InvoiceLine>)
    requires Fits(s, |sh.table.rows|) && n <= |sh.table.rows|
    ensures |r| == n
    decreases n
  {
    if n == 0 then [] else Lines(sh, tgt, s, n - 1) + [LineAt(sh, tgt, s, n - 1)]
  }

  lemma {:induction false} LinesAt(sh: Sheet, tgt: string, s: Setup, n: nat, k: nat)
    requires Fits(s, |sh.table.rows|) && k < n <= |sh.table.rows|
    ensures Lines(sh, tgt, s, n)[k] == LineAt(sh, tgt, s, k)
    decreases n
  {
    if k < n - 1 {
      LinesAt(sh, tgt, s, n - 1, k);
    }
  }

  /** Each line reads back to its row: the unit and rate print the row's two
      cells, the amount prints their rounded product, the names are the row's,
      the description joins job classification, (for the service) the file
      prefix, rate column and names with '-', and the period is the file's. */
  lemma PairLineFields(sh: Sheet, src: string, tgt: string, k: int)
    requires PairLines(sh, src, tgt).Ok? && Applies(sh.table, src, tgt) && 0 <= k < |sh.table.rows|
    ensures var line := PairLines(sh, src, tgt).value[k];
            var row := sh.table.rows[k];
            && Cell(row, src) == Num(line.unit)
            && Cell(row, tgt) == Num(line.rate)
            && line.amount == Product(line.unit, line.rate)
            && Cell(row, "Given Names") == Text(line.givenNames)
            && Cell(row, "Last Name") == Text(line.lastName)
            && Cell(row, "Job Classification").Text?
            && line.description
               == Cell(row, "Job Classification").s + "-"
                  + (if sh.rev == Service then BeforeFirst(sh.fileName, '-') + "-" else "")
                  + tgt + "-" + line.givenNames + "-" + line.lastName
            && sh.period == Ok(line.serviced)
            && (sh.rev == Service <==> line.attribution.Some?)
            && (sh.rev == Service ==>
                  line.attribution.value
                  == Attribution(Cell(row, "Cost Centre"), PayrollName(Cell(row, "Payroll Name Selection"))))
  {
    var s := Prepare(sh, src, tgt).value;
    LinesAt(sh, tgt, s, |sh.table.rows|, k);
  }

  /** The two revisions agree line for line: whenever the service writes a
      pair's lines the script writes as many, differing only in the file
      prefix inside the description and in the attribution. */
  lemma RevisionsAgree(sh: Sheet, src: string, tgt: string)
    requires sh.rev == Service && PairLines(sh, src, tgt).Ok?
    ensures PairLines(sh.(rev := Script), src, tgt).Ok?
    ensures var sv := PairLines(sh, src, tgt).value;
            var sc := PairLines(sh.(rev := Script), src, tgt).value;
            && |sv| == |sc|
            && forall k :: 0 <= k < |sv| ==> SameButPrefix(sv[k], sc[k], BeforeFirst(sh.fileName, '-'))
  {
    var script := sh.(rev := Script);
    if Applies(sh.table, src, tgt) {
      var s := Prepare(sh, src, tgt).value;
      PrepareRevisions(sh, src, tgt);
      var sv := PairLines(sh, src, tgt).value;
      var sc := PairLines(script, src, tgt).value;
      assert sv == Lines(sh, tgt, s, |sh.table.rows|);
      assert sc == Lines(script, tgt, s, |sh.table.rows|);
      forall k | 0 <= k < |sv|
        ensures SameButPrefix(sv[k], sc[k], BeforeFirst(sh.fileName, '-'))
      {
        LinesAt(sh, tgt, s, |sh.table.rows|, k);
        LinesAt(script, tgt, s, |sh.table.rows|, k);
        LineAtRevisions(sh, tgt, s, k);
      }
    }
  }

  /** A service line and a script line that differ only in the file prefix
      after the job classification and in the attribution. */
  ghost predicate SameButPrefix(service: InvoiceLine, script: InvoiceLine, prefix: string) {
    && script == service.(description := script.description, attribution := None)
    && exists jc, tail ::
         script.description == jc + "-" + tail && service.description == jc + "-" + prefix + "-" + tail
  }

  /** The service's extra reads only add failures. */
  lemma PrepareRevisions(sh: Sheet, src: string, tgt: string)
    requires sh.rev == Service && Prepare(sh, src, tgt).Ok?
    ensures Prepare(sh.(rev := Script), src, tgt) == Prepare(sh, src, tgt)
  {
  }

  lemma LineAtRevisions(sh: Sheet, tgt: string, s: Setup, k: int)
    requires sh.rev == Service && Fits(s, |sh.table.rows|) && 0 <= k < |sh.table.rows|
    ensures SameButPrefix(LineAt(sh, tgt, s, k), LineAt(sh.(rev := Script), tgt, s, k), BeforeFirst(sh.fileName, '-'))
  {
    var tail := tgt + "-" + s.given[k] + "-" + s.last[k];
    assert LineAt(sh.(rev := Script), tgt, s, k).description == s.classes[k] + "-" + tail;
    assert LineAt(sh, tgt, s, k).description == s.classes[k] + "-" + BeforeFirst(sh.fileName, '-') + "-" + tail;
  }

  /** A checkpoint file is named after its cost centre with spaces replaced by
      '_' and ".csv" appended. The service's prefix is then the part of that
      name before the first '-' of the cost centre, and the whole file name,
      ".csv" included, when the cost centre has no '-'. */
  lemma PrefixOfCheckpoint(costCentre: string)
    ensures var fileName := ReplaceChar(costCentre, ' ', '_') + ".csv";
            Prefix(fileName)
            == if '-' in costCentre then ReplaceChar(BeforeFirst(costCentre, '-'), ' ', '_') else fileName
  {
    var replaced := ReplaceChar(costCentre, ' ', '_');
    if '-' in costCentre {
      var b := BeforeFirst(costCentre, '-');
      PrefixOfReplaced(costCentre, b);
      BeforeFirstOfAppend(replaced, ".csv", '-', ReplaceChar(b, ' ', '_'));
    } else {
      NoDashReplaced(costCentre);
      BeforeFirstAbsent(replaced + ".csv", '-');
    }
  }

  lemma NoDashReplaced(s: string)
    requires '-' !in s
    ensures '-' !in ReplaceChar(s, ' ', '_') + ".csv"
  {
    var r := ReplaceChar(s, ' ', '_') + ".csv";
    assert forall i :: 0 <= i < |s| ==> r[i] == ReplaceChar(s, ' ', '_')[i];
    assert forall i :: |s| <= i < |r| ==> r[i] == ".csv"[i - |s|];
  }

  /** Replacing ' ' by '_' maps the part before the first '-' to the part
      before the first '-' of the result. */
  lemma PrefixOfReplaced(s: string, b: string)
    requires '-' in s && b == BeforeFirst(s, '-')
    ensures var p := ReplaceChar(b, ' ', '_');
            var r := ReplaceChar(s, ' ', '_');
            |p| < |r| && r[..|p|] == p && r[|p|] == '-' && '-' !in p
  {
    var p := ReplaceChar(b, ' ', '_');
    var r := ReplaceChar(s, ' ', '_');
    assert |b| < |s|;
    forall i | 0 <= i < |p|
      ensures r[i] == p[i] && p[i] != '-'
    {
      assert b[i] == s[i] && b[i] != '-';
    }
    assert r[..|p|] == p;
    assert s[|b|] == '-';
  }

  /** The number of pairs that are priced. */
  function Priced(t: Table, pairs: seq<(string, string)>): (n: nat)
    ensures n <= |pairs|
    decreases |pairs|
  {
    if pairs == [] then 0
    else Priced(t, pairs[..|pairs| - 1]) + (if Applies(t, pairs[|pairs| - 1].0, pairs[|pairs| - 1].1) then 1 else 0)
  }

  /** The lines of all pairs, pair after pair, for a per-pair step; the first
      pair whose step fails ends the file with its error. */
  function Concat(pairs: seq<(string, string)>, step: ((string, string)) -> Result<seq<InvoiceLine>, Error>)
    : Result<seq<InvoiceLine>, Error>
    decreases |pairs|
  {
    if pairs == [] then Ok([])
    else
      var before := Concat(pairs[..|pairs| - 1], step);
      var more := step(pairs[|pairs| - 1]);
      if before.Err? then before
      else if more.Err? then Err(more.error)
      else Ok(before.value + more.value)
  }

  /** The concatenation succeeds exactly when every pair's step does, and
      otherwise fails with the error of the first pair that fails. */
  lemma {:induction false} ConcatOutcome(pairs: seq<(string, string)>,
                                         step: ((string, string)) -> Result<seq<InvoiceLine>, Error>)
    ensures Concat(pairs, step).Ok? <==> forall i :: 0 <= i < |pairs| ==> step(pairs[i]).Ok?
    ensures Concat(pairs, step).Err? ==>
              exists i :: 0 <= i < |pairs| && step(pairs[i]) == Err(Concat(pairs, step).error)
                          && forall j :: 0 <= j < i ==> step(pairs[j]).Ok?
    decreases |pairs|
  {
    if pairs != [] {
      var init := pairs[..|pairs| - 1];
      assert forall i :: 0 <= i < |init| ==> init[i] == pairs[i];
      ConcatOutcome(init, step);
    }
  }

  /** The step of the pair loop for one file. */
  function PairStep(sh: Sheet): ((string, string)) -> Result<seq<InvoiceLine>, Error> {
    (pair: (string, string)) => PairLines(sh, pair.0, pair.1)
  }

  /** The lines of all pairs of one file, pair after pair; the first pair
      whose reads fail ends the file with its error. */
  function Expand(sh: Sheet, pairs: seq<(string, string)>): Result<seq<InvoiceLine>, Error> {
    Concat(pairs, PairStep(sh))
  }

  /** A file expands without error exactly when every pair's reads succeed,
      and otherwise fails with the error of the first pair that fails. */
  lemma ExpandOutcome(sh: Sheet, pairs: seq<(string, string)>)
    ensures Expand(sh, pairs).Ok? <==> forall i :: 0 <= i < |pairs| ==> PairLines(sh, pairs[i].0, pairs[i].1).Ok?
    ensures Expand(sh, pairs).Err? ==>
              exists i :: 0 <= i < |pairs| && PairLines(sh, pairs[i].0, pairs[i].1) == Err(Expand(sh, pairs).error)
                          && forall j :: 0 <= j < i ==> PairLines(sh, pairs[j].0, pairs[j].1).Ok?
  {
    ConcatOutcome(pairs, PairStep(sh));
  }

  /** Every priced pair contributes one line per row, the others none. */
  lemma {:induction false} ExpandLength(sh: Sheet, pairs: seq<(string, string)>)
    requires Expand(sh, pairs).Ok?
    ensures |Expand(sh, pairs).value| == Priced(sh.table, pairs) * |sh.table.rows|
    decreases |pairs|
  {
    if pairs != [] {
      var init := pairs[..|pairs| - 1];
      var last := pairs[|pairs| - 1];
      ExpandLast(sh, pairs);
      var before := Expand(sh, init).value;
      var more := PairLines(sh, last.0, last.1).value;
      ExpandLength(sh, init);
      var applies := Applies(sh.table, last.0, last.1);
      assert |more| == if applies then |sh.table.rows| else 0;
      assert Priced(sh.table, pairs) == Priced(sh.table, init) + (if applies then 1 else 0);
      PricedStep(Priced(sh.table, init), |sh.table.rows|, applies);
    }
  }

  lemma ExpandLast(sh: Sheet, pairs: seq<(string, string)>)
    requires pairs != [] && Expand(sh, pairs).Ok?
    ensures var init := pairs[..|pairs| - 1];
            var last := pairs[|pairs| - 1];
            Expand(sh, init).Ok? && PairLines(sh, last.0, last.1).Ok?
            && Expand(sh, pairs).value == Expand(sh, init).value + PairLines(sh, last.0, last.1).value
  {
  }

  lemma PricedStep(n: nat, rows: nat, applies: bool)
    ensures n * rows + (if applies then rows else 0) == (n + if applies then 1 else 0) * rows
  {
  }

  lemma {:induction false} ExpandStopsAtFirstError(sh: Sheet, pairs: seq<(string, string)>, p: nat)
    requires p < |pairs|
    requires Expand(sh, pairs[..p]).Ok?
    requires PairLines(sh, pairs[p].0, pairs[p].1).Err?
    ensures Expand(sh, pairs) == Err(PairLines(sh, pairs[p].0, pairs[p].1).error)
    decreases |pairs|
  {
    var init := pairs[..|pairs| - 1];
    if p == |pairs| - 1 {
      assert pairs[..p] == init;
    } else {
      assert init[..p] == pairs[..p] && init[p] == pairs[p];
      ExpandStopsAtFirstError(sh, init, p);
    }
  }

  lemma ExpandStep(sh: Sheet, pairs: seq<(string, string)>, p: nat, before: seq<InvoiceLine>, more: seq<InvoiceLine>)
    requires p < |pairs|
    requires Expand(sh, pairs[..p]) == Ok(before)
    requires PairLines(sh, pairs[p].0, pairs[p].1) == Ok(more)
    ensures Expand(sh, pairs[..p + 1]) == Ok(before + more)
  {
    assert pairs[..p + 1][..p] == pairs[..p];
  }

  /** total_amount: the sum of the amounts. */
  function Total(lines: seq<InvoiceLine>): int
    decreases |lines|
  {
    if lines == [] then 0
    else
      Total(lines[..|lines| - 1]) + lines[|lines| - 1].amount
  }

  /** The total splits over consecutive runs of lines. */
  lemma {:induction false} TotalAppend(a: seq<InvoiceLine>, b: seq<InvoiceLine>)
    ensures Total(a + b) == Total(a) + Total(b)
    decreases |b|
  {
    if b == [] {
      assert a + b == a;
    } else {
      assert (a + b)[..|a + b| - 1] == a + b[..|b| - 1];
      assert (a + b)[|a + b| - 1] == b[|b| - 1];
      TotalAppend(a, b[..|b| - 1]);
    }
  }

  /** The total does not depend on the order of the lines. */
  lemma {:induction false} TotalPermutation(a: seq<InvoiceLine>, b: seq<InvoiceLine>)
    requires multiset(a) == multiset(b)
    ensures Total(a) == Total(b)
    decreases |a|
  {
    if a != [] {
      var x := a[|a| - 1];
      assert x in multiset(b);
      var j :| 0 <= j < |b| && b[j] == x;
      DropLast(a);
      DropOne(b, j);
      TotalPermutation(a[..|a| - 1], b[..j] + b[j + 1..]);
      TotalSplit(b, j);
    }
  }

  lemma DropOne<T>(s: seq<T>, j: int)
    requires 0 <= j < |s|
    ensures multiset(s[..j] + s[j + 1..]) == multiset(s) - multiset{s[j]}
  {
    assert s == s[..j] + [s[j]] + s[j + 1..];
  }

  lemma DropLast<T>(s: seq<T>)
    requires s != []
    ensures multiset(s[..|s| - 1]) == multiset(s) - multiset{s[|s| - 1]}
  {
    assert s == s[..|s| - 1] + [s[|s| - 1]];
  }

  lemma TotalSplit(b: seq<InvoiceLine>, j: int)
    requires 0 <= j < |b|
    ensures Total(b) == Total(b[..j] + b[j + 1..]) + b[j].amount
  {
    var x := b[j];
    assert b == (b[..j] + [x]) + b[j + 1..];
    TotalAppend(b[..j] + [x], b[j + 1..]);
    TotalAppend(b[..j], b[j + 1..]);
    assert Total(b[..j] + [x]) == Total(b[..j]) + x.amount by {
      assert (b[..j] + [x])[..j] == b[..j];
    }
  }

  /** One file's loop over the mapping: the lines in the order they are
      appended and the running total of their amounts. */
  method ExpandRates(sh: Sheet, pairs: seq<(string, string)>)
    returns (res: Result<seq<InvoiceLine>, Error>, total: int)
    ensures res == Expand(sh, pairs)
    ensures res.Ok? ==> total == Total(res.value)
  {
    var lines: seq<InvoiceLine> := [];
    total := 0;
    var p := 0;
    while p < |pairs|
      invariant 0 <= p <= |pairs|
      invariant Expand(sh, pairs[..p]) == Ok(lines)
      invariant total == Total(lines)
    {
      var (src, tgt) := pairs[p];
      var more, sum := AppendPair(sh, src, tgt, lines, total);
      if more.Err? {
        ExpandStopsAtFirstError(sh, pairs, p);
        return Err(more.error), total;
      }
      ExpandStep(sh, pairs, p, lines, PairLines(sh, src, tgt).value);
      TotalAppend(lines, PairLines(sh, src, tgt).value);
      lines, total := more.value, sum;
      p := p + 1;
    }
    assert pairs[..p] == pairs;
    res := Ok(lines);
  }

  /** One pair of the loop: a pair that is not priced adds nothing; a priced
      pair's reads either fail or its lines are appended and added up. */
  method AppendPair(sh: Sheet, src: string, tgt: string, lines0: seq<InvoiceLine>, total0: int)
    returns (res: Result<seq<InvoiceLine>, Error>, total: int)
    ensures PairLines(sh, src, tgt).Err? ==> res == Err(PairLines(sh, src, tgt).error)
    ensures PairLines(sh, src, tgt).Ok? ==>
              res == Ok(lines0 + PairLines(sh, src, tgt).value)
              && total == total0 + Total(PairLines(sh, src, tgt).value)
  {
    if !Applies(sh.table, src, tgt) {
      assert lines0 + [] == lines0;
      return Ok(lines0), total0;
    }
    var s := Prepare(sh, src, tgt);
    if s.Err? {
      return Err(s.error), total0;
    }
    var lines;
    lines, total := AppendLines(sh, tgt, s.value, lines0, total0);
    res := Ok(lines);
  }

  lemma TotalLinesStep(sh: Sheet, tgt: string, s: Setup, k: nat)
    requires Fits(s, |sh.table.rows|) && k < |sh.table.rows|
    ensures LineAt(sh, tgt, s, k).amount == Product(s.units[k], s.rates[k])
    ensures Lines(sh, tgt, s, k + 1) == Lines(sh, tgt, s, k) + [LineAt(sh, tgt, s, k)]
    ensures Total(Lines(sh, tgt, s, k + 1)) == Total(Lines(sh, tgt, s, k)) + Product(s.units[k], s.rates[k])
  {
    assert Lines(sh, tgt, s, k + 1)[..k] == Lines(sh, tgt, s, k);
  }

  /** The row loop of a priced pair: each row's line is appended and its
      amount, as written, added to the running total. */
  method AppendLines(sh: Sheet, tgt: string, s: Setup, lines0: seq<InvoiceLine>, total0: int)
    returns (lines: seq<InvoiceLine>, total: int)
    requires Fits(s, |sh.table.rows|)
    ensures lines == lines0 + Lines(sh, tgt, s, |sh.table.rows|)
    ensures total == total0 + Total(Lines(sh, tgt, s, |sh.table.rows|))
  {
    lines, total := lines0, total0;
    var k := 0;
    while k < |sh.table.rows|
      invariant 0 <= k <= |sh.table.rows|
      invariant lines == lines0 + Lines(sh, tgt, s, k)
      invariant total == total0 + Total(Lines(sh, tgt, s, k))
    {
      var line := LineAt(sh, tgt, s, k);
      TotalLinesStep(sh, tgt, s, k);
      // the amount is added as float() reads its printed text back
      var printed := FormatCents(line.amount);
      ParseFormatCents(line.amount);
      total := total + ParseCents(printed).value;
      assert lines0 + Lines(sh, tgt, s, k + 1) == lines + [line];
      lines := lines + [line];
      k := k + 1;
    }
  }

  /** sort_values(by=["Given Names", "Last Name"]): by given names, then last
      name, as str compares them. */
  predicate NameLe(a: InvoiceLine, b: InvoiceLine) {
    LexLe(a.givenNames, b.givenNames) && (a.givenNames == b.givenNames ==> LexLe(a.lastName, b.lastName))
  }

  lemma NameLeTotalPreorder()
    ensures Sorting.TotalPreorder(NameLe)
  {
    forall a, b ensures NameLe(a, b) || NameLe(b, a) {
      LexLeTotal(a.givenNames, b.givenNames);
      LexLeTotal(a.lastName, b.lastName);
      if LexLe(a.givenNames, b.givenNames) && LexLe(b.givenNames, a.givenNames) {
        LexLeAntisymmetric(a.givenNames, b.givenNames);
      }
    }
    forall a, b, c | NameLe(a, b) && NameLe(b, c) ensures NameLe(a, c) {
      LexLeTransitive(a.givenNames, b.givenNames, c.givenNames);
      if a.givenNames == c.givenNames {
        LexLeAntisymmetric(a.givenNames, b.givenNames);
        LexLeTransitive(a.lastName, b.lastName, c.lastName);
      }
    }
  }

  /** The invoice frame sorted; a frame built from no lines has no "Given
      Names" column, so sort_values raises. */
  function SortInvoice(lines: seq<InvoiceLine>): (r: Result<seq<InvoiceLine>, Error>)
    ensures r.Err? <==> lines == []
    ensures r.Err? ==> r.error == EmptyInvoice
    ensures r.Ok? ==> multiset(r.value) == multiset(lines)
  {
    if lines == [] then Err(EmptyInvoice) else Ok(Sorting.InsertionSort(lines, NameLe))
  }

  /** The sorted invoice is ordered by name, and lines with the same names keep
      the order in which they were appended. */
  lemma SortInvoiceOrdered(lines: seq<InvoiceLine>, y: InvoiceLine)
    requires lines != []
    ensures Sorting.Sorted(SortInvoice(lines).value, NameLe)
    ensures Sorting.Filter(SortInvoice(lines).value, e => Sorting.Tie(NameLe, e, y))
         == Sorting.Filter(lines, e => Sorting.Tie(NameLe, e, y))
  {
    NameLeTotalPreorder();
    Sorting.SortSorted(lines, NameLe);
    Sorting.SortStable(lines, NameLe, y);
  }

  /** One checkpoint file's invoice. */
  function Invoice(t: Table, fileName: string, rev: Revision): Result<seq<InvoiceLine>, Error> {
    var lines :- Expand(SheetOf(t, fileName, rev), Mapping);
    SortInvoice(lines)
  }

  /** A file whose reads succeed fails only when no pair is priced or it has
      no rows; otherwise its invoice holds exactly the expanded lines. */
  lemma InvoiceEmpty(t: Table, fileName: string, rev: Revision)
    requires Expand(SheetOf(t, fileName, rev), Mapping).Ok?
    ensures Invoice(t, fileName, rev) == Err(EmptyInvoice) <==> Priced(t, Mapping) == 0 || |t.rows| == 0
    ensures Invoice(t, fileName, rev).Ok? ==>
              multiset(Invoice(t, fileName, rev).value) == multiset(Expand(SheetOf(t, fileName, rev), Mapping).value)
  {
    var sh := SheetOf(t, fileName, rev);
    var lines := Expand(sh, Mapping).value;
    ExpandLength(sh, Mapping);
    NoLinesWithoutFactor(Priced(t, Mapping), |t.rows|);
    InvoiceOfLines(t, fileName, rev, lines);
  }

  /** Sorting the invoice keeps total_amount: the invoice file's amounts add up
      to the total the loop over the mapping returns. */
  lemma InvoiceTotal(t: Table, fileName: string, rev: Revision)
    requires Invoice(t, fileName, rev).Ok?
    ensures Expand(SheetOf(t, fileName, rev), Mapping).Ok?
    ensures Total(Invoice(t, fileName, rev).value) == Total(Expand(SheetOf(t, fileName, rev), Mapping).value)
  {
    var lines := Expand(SheetOf(t, fileName, rev), Mapping).value;
    InvoiceOfLines(t, fileName, rev, lines);
    TotalPermutation(Invoice(t, fileName, rev).value, lines);
  }

  lemma NoLinesWithoutFactor(n: nat, rows: nat)
    ensures n * rows == 0 <==> n == 0 || rows == 0
  {
    if n != 0 && rows != 0 {
      assert n * rows >= 1 * rows;
    }
  }

  lemma InvoiceOfLines(t: Table, fileName: string, rev: Revision, lines: seq<InvoiceLine>)
    requires Expand(SheetOf(t, fileName, rev), Mapping) == Ok(lines)
    ensures Invoice(t, fileName, rev) == SortInvoice(lines)
  {
  }

  /** os.path.splitext(csv_file)[0] + "_invoice.csv". */
  function InvoiceFileName(fileName: string): (r: string)
    ensures EndsWith(r, "_invoice.csv")
  {
    var r := SplitExt(fileName).0 + "_invoice.csv";
    assert r[|r| - 12..] == "_invoice.csv";
    r
  }

  /** For a checkpoint name "<stem>.csv" whose stem is more than dots, the
      invoice is "<stem>_invoice.csv". */
  lemma InvoiceFileNameOfCsv(stem: string)
    requires '/' !in stem && exists k :: 0 <= k < |stem| && stem[k] != '.'
    ensures InvoiceFileName(stem + ".csv") == stem + "_invoice.csv"
  {
    var f := stem + ".csv";
    var k :| 0 <= k < |stem| && stem[k] != '.';
    assert f[k] == stem[k];
    assert RFind(f, '/') == -1 by {
      assert forall j :: 0 <= j < |f| ==> f[j] != '/' by {
        assert forall j :: 0 <= j < |stem| ==> f[j] == stem[j];
      }
    }
    assert RFind(f, '.') == |stem| by {
      assert f[|stem|] == '.';
      assert forall j :: |stem| < j < |f| ==> f[j] != '.';
    }
    assert f[..|stem|] == stem;
  }

  /** The file loop, for a per-file step `make`: each ".csv" name of the
      listing, in listing order, is read from the folder, and what `make`
      gives for it is written under its invoice name; the first file that
      fails stops the loop with its error. */
  function Batch(listing: seq<string>, folder: map<string, Table>,
                 make: (Table, string) -> Result<seq<InvoiceLine>, Error>)
    : Result<map<string, seq<InvoiceLine>>, Error>
    requires forall f :: f in listing ==> f in folder
    decreases |listing|
  {
    if listing == [] then Ok(map[])
    else
      var init := listing[..|listing| - 1];
      var f := listing[|listing| - 1];
      assert forall k :: 0 <= k < |init| ==> init[k] == listing[k];
      var written :- Batch(init, folder, make);
      if !EndsWith(f, ".csv") then Ok(written)
      else
        var lines :- make(folder[f], f);
        Ok(written[InvoiceFileName(f) := lines])
  }

  /** The loop succeeds exactly when every ".csv" file's step does; then every
      ".csv" file has its result written under its invoice name, and every
      name written holds the result of some ".csv" file of the listing. */
  lemma {:induction false} BatchOutcome(listing: seq<string>, folder: map<string, Table>,
                                        make: (Table, string) -> Result<seq<InvoiceLine>, Error>)
    requires forall f :: f in listing ==> f in folder
    ensures var r := Batch(listing, folder, make);
            r.Ok? <==> forall k :: 0 <= k < |listing| && EndsWith(listing[k], ".csv") ==>
                         make(folder[listing[k]], listing[k]).Ok?
    ensures var r := Batch(listing, folder, make);
            r.Ok? ==> forall k :: 0 <= k < |listing| && EndsWith(listing[k], ".csv") ==>
                        InvoiceFileName(listing[k]) in r.value
    ensures var r := Batch(listing, folder, make);
            r.Ok? ==> forall name :: name in r.value ==>
              exists k :: 0 <= k < |listing| && EndsWith(listing[k], ".csv") && InvoiceFileName(listing[k]) == name
                          && r.value[name] == make(folder[listing[k]], listing[k]).value
    decreases |listing|
  {
    if listing != [] {
      var init := listing[..|listing| - 1];
      assert forall k :: 0 <= k < |init| ==> init[k] == listing[k];
      BatchOutcome(init, folder, make);
    }
  }

  lemma {:induction false} BatchStopsAtFirstError(listing: seq<string>, folder: map<string, Table>,
                                                  make: (Table, string) -> Result<seq<InvoiceLine>, Error>, k: nat)
    requires forall f :: f in listing ==> f in folder
    requires k < |listing| && EndsWith(listing[k], ".csv")
    requires Batch(listing[..k], folder, make).Ok?
    requires make(folder[listing[k]], listing[k]).Err?
    ensures Batch(listing, folder, make) == Err(make(folder[listing[k]], listing[k]).error)
    decreases |listing|
  {
    var init := listing[..|listing| - 1];
    if k == |listing| - 1 {
      assert listing[..k] == init;
    } else {
      assert init[..k] == listing[..k] && init[k] == listing[k];
      BatchStopsAtFirstError(init, folder, make, k);
    }
  }

  lemma BatchStep(listing: seq<string>, folder: map<string, Table>,
                  make: (Table, string) -> Result<seq<InvoiceLine>, Error>, k: nat)
    requires forall f :: f in listing ==> f in folder
    requires k < |listing|
    ensures forall f :: f in listing[..k + 1] ==> f in folder
    ensures forall f :: f in listing[..k] ==> f in folder
    ensures Batch(listing[..k + 1], folder, make)
         == (var written :- Batch(listing[..k], folder, make);
             if !EndsWith(listing[k], ".csv") then Ok(written)
             else
               var lines :- make(folder[listing[k]], listing[k]);
               Ok(written[InvoiceFileName(listing[k]) := lines]))
  {
    assert listing[..k + 1][..k] == listing[..k];
  }

  /** The invoice folder the rate stage writes from the checkpoint folder. */
  function Invoices(listing: seq<string>, folder: map<string, Table>, rev: Revision)
    : Result<map<string, seq<InvoiceLine>>, Error>
    requires forall f :: f in listing ==> f in folder
  {
    Batch(listing, folder, (t, f) => Invoice(t, f, rev))
  }

  /** The rate stage succeeds exactly when every ".csv" checkpoint file's
      invoice does; then each is written under its invoice name and nothing
      else is written. */
  lemma InvoicesOutcome(listing: seq<string>, folder: map<string, Table>, rev: Revision)
    requires forall f :: f in listing ==> f in folder
    ensures var r := Invoices(listing, folder, rev);
            r.Ok? <==> forall k :: 0 <= k < |listing| && EndsWith(listing[k], ".csv") ==>
                         Invoice(folder[listing[k]], listing[k], rev).Ok?
    ensures var r := Invoices(listing, folder, rev);
            r.Ok? ==> forall k :: 0 <= k < |listing| && EndsWith(listing[k], ".csv") ==>
                        InvoiceFileName(listing[k]) in r.value
    ensures var r := Invoices(listing, folder, rev);
            r.Ok? ==> forall name :: name in r.value ==>
              exists k :: 0 <= k < |listing| && EndsWith(listing[k], ".csv") && InvoiceFileName(listing[k]) == name
                          && r.value[name] == Invoice(folder[listing[k]], listing[k], rev).value
  {
    BatchOutcome(listing, folder, (t, f) => Invoice(t, f, rev));
  }

  /** One checkpoint file's invoice: its lines expanded, then sorted. */
  method InvoiceOne(t: Table, fileName: string, rev: Revision)
    returns (lines: Result<seq<InvoiceLine>, Error>)
    ensures lines == Invoice(t, fileName, rev)
  {
    var expanded, total := ExpandRates(SheetOf(t, fileName, rev), Mapping);
    if expanded.Err? {
      return Err(expanded.error);
    }
    lines := SortInvoice(expanded.value);
  }

  /** The loop over the checkpoint folder's ".csv" files: each is expanded,
      sorted and written under its invoice name. */
  method WriteInvoices(listing: seq<string>, folder: map<string, Table>, rev: Revision)
    returns (res: Result<map<string, seq<InvoiceLine>>, Error>)
    requires forall f :: f in listing ==> f in folder
    ensures res == Invoices(listing, folder, rev)
  {
    ghost var make := (t, f) => Invoice(t, f, rev);
    var written: map<string, seq<InvoiceLine>> := map[];
    var k := 0;
    assert listing[..0] == [];
    while k < |listing|
      invariant 0 <= k <= |listing|
      invariant Batch(listing[..k], folder, make) == Ok(written)
    {
      var f := listing[k];
      BatchStep(listing, folder, make, k);
      if EndsWith(f, ".csv") {
        var lines := InvoiceOne(folder[f], f, rev);
        if lines.Err? {
          BatchStopsAtFirstError(listing, folder, make, k);
          return Err(lines.error);
        }
        written := written[InvoiceFileName(f) := lines.value];
      }
      k := k + 1;
    }
    assert listing[..k] == listing;
    res := Ok(written);
  }
}
