/** The PDF stage (InvoiceProcessor.process_invoices, and the earlier pdf.py):
    every "<name>_invoice.csv" of the invoice folder is read back, its lines
    whose Amount is the number 0 are dropped, its amounts are printed again
    with two decimals, its subtotal, 10% GST and grand total are computed, and
    its lines are laid out with a blank row opening each run of one person's
    lines, to be rendered as "<name>_invoice.pdf". */
module Pdf {
  import opened Wrappers
  import opened Strings
  import opened Money
  import opened Tables
  import Sorting
  import Rates

  /** gst_rate = 0.10, as a percentage. */
  const GstPercent := 10

  /** data[data["Amount"] != 0]: a string or NaN amount never equals 0. */
  predicate Kept(r: Row) {
    Cell(r, "Amount") != Num(0)
  }

  /** An amount as the PDF prints it: cents, or NaN (printed "nan"). */
  datatype Amount = Cents(cents: int) | NotANumber

  function AmountText(a: Amount): string {
    match a
    case Cents(c) => FormatCents(c)
    case NotANumber => "nan"
  }

  /** The "{:.2f}".format(float(x)) if x else "0.00" of one Amount cell: an
      empty string is falsy and prints "0.00", NaN is truthy and float keeps
      it, and a string float cannot read raises. */
  function Reformat(v: Value): (r: Result<Amount, Error>)
    ensures r.Err? <==> v.Text? && v.s != [] && ParseCents(v.s).None?
    ensures r.Err? ==> r.error == BadAmount(v.s)
    ensures r.Ok? ==> (r.value.NotANumber? <==> v.Missing?)
  {
    match v
    case Num(c) => Ok(Cents(c))
    case Missing => Ok(NotANumber)
    case Text(s) =>
      if s == [] then Ok(Cents(0))
      else match ParseCents(s)
        case Some(c) => Ok(Cents(c))
        case None => Err(BadAmount(s))
  }

  /** The printed amount reads back to the number the cell held. */
  lemma ReformatReadsBack(v: Value)
    requires Reformat(v).Ok? && !v.Missing?
    ensures ParseCents(AmountText(Reformat(v).value))
         == (if v.Num? then Some(v.cents) else if v.s == [] then Some(0) else ParseCents(v.s))
  {
    ParseFormatCents(Reformat(v).value.cents);
  }

  /** Printing again what was printed changes nothing. */
  lemma ReformatIdempotent(c: int)
    ensures Reformat(Text(AmountText(Cents(c)))) == Ok(Cents(c))
  {
    ParseFormatCents(c);
  }

  /** The apply over the kept rows, in order; the first unreadable amount raises. */
  function Reformatted(rows: seq<Row>): (r: Result<seq<Amount>, Error>)
    ensures r.Ok? ==> |r.value| == |rows|
    decreases |rows|
  {
    if rows == [] then Ok([])
    else
      var a :- Reformat(Cell(rows[0], "Amount"));
      var rest :- Reformatted(rows[1..]);
      Ok([a] + rest)
  }

  /** The apply succeeds exactly when every amount is readable, and then holds
      each row's amount; otherwise it fails with the first unreadable one. */
  lemma {:induction false} ReformattedOutcome(rows: seq<Row>)
    ensures Reformatted(rows).Ok? <==> forall i :: 0 <= i < |rows| ==> Reformat(Cell(rows[i], "Amount")).Ok?
    ensures Reformatted(rows).Ok? ==>
              forall i :: 0 <= i < |rows| ==> Reformatted(rows).value[i] == Reformat(Cell(rows[i], "Amount")).value
    ensures Reformatted(rows).Err? ==>
              exists i :: 0 <= i < |rows| && Reformat(Cell(rows[i], "Amount")).Err?
                          && Reformatted(rows).error == Reformat(Cell(rows[i], "Amount")).error
                          && forall j :: 0 <= j < i ==> Reformat(Cell(rows[j], "Amount")).Ok?
    decreases |rows|
  {
    if rows != [] {
      ReformattedOutcome(rows[1..]);
      assert forall i :: 1 <= i < |rows| ==> rows[1..][i - 1] == rows[i];
      if Reformat(Cell(rows[0], "Amount")).Ok? && Reformatted(rows[1..]).Err? {
        var i :| 0 <= i < |rows[1..]| && Reformat(Cell(rows[1..][i], "Amount")).Err?
                  && Reformatted(rows[1..]).error == Reformat(Cell(rows[1..][i], "Amount")).error
                  && forall j :: 0 <= j < i ==> Reformat(Cell(rows[1..][j], "Amount")).Ok?;
        assert forall j :: 1 <= j < i + 1 ==> Reformat(Cell(rows[j], "Amount")).Ok? by {
          forall j | 1 <= j < i + 1 ensures Reformat(Cell(rows[j], "Amount")).Ok? {
            assert rows[j] == rows[1..][j - 1];
          }
        }
        assert rows[i + 1] == rows[1..][i];
      }
    }
  }

  /** A row as the PDF shows it: its Amount cell replaced by the printed amount. */
  function Reprinted(r: Row, a: Amount): Row {
    r["Amount" := Text(AmountText(a))]
  }

  /** data["Amount"].astype(float).sum(): the sum skips NaN. */
  function Subtotal(amounts: seq<Amount>): int
    decreases |amounts|
  {
    if amounts == [] then 0
    else (if amounts[0].Cents? then amounts[0].cents else 0) + Subtotal(amounts[1..])
  }

  /** The GST on a subtotal in cents, rounded to the cent. */
  function Gst(subtotal: int): int {
    RoundDiv(subtotal * GstPercent, 100)
  }

  /** The GST is the cent nearest to a tenth of the subtotal. */
  lemma GstNearest(subtotal: int, k: int)
    ensures -5 <= subtotal - 10 * Gst(subtotal) <= 5
    ensures var e := subtotal * 10 - 100 * Gst(subtotal);
            var f := subtotal * 10 - 100 * k;
            (if e < 0 then -e else e) <= (if f < 0 then -f else f)
  {
    RoundDivNearest(subtotal * GstPercent, 100, k);
  }

  /** The totals handed to the template, each as "{:.2f}" prints it. */
  datatype Totals = Totals(subtotal: string, gst: string, grandTotal: string)

  /** The grand total is the sum of the subtotal and GST as printed, read back. */
  function TotalsOf(subtotal: int): (r: Totals)
    ensures ParseCents(r.subtotal) == Some(subtotal)
    ensures ParseCents(r.gst) == Some(Gst(subtotal))
    ensures ParseCents(r.grandTotal) == Some(subtotal + Gst(subtotal))
  {
    var sub := FormatCents(subtotal);
    var gst := FormatCents(Gst(subtotal));
    ParseFormatCents(subtotal);
    ParseFormatCents(Gst(subtotal));
    var grand := ParseCents(sub).value + ParseCents(gst).value;
    ParseFormatCents(grand);
    Totals(sub, gst, FormatCents(grand))
  }

  /** One row of the frame handed to the template: the blank separator row
      (empty Serviced, Description, Unit, Rate and Amount) or an invoice row. */
  datatype Line = Blank | Entry(row: Row)

  /** given_names != current_given_names with pandas' equality: NaN equals nothing. */
  predicate SameName(a: Value, b: Value) {
    a == b && !a.Missing?
  }

  /** A blank row goes before a row when there is no previous row or the
      names differ. */
  predicate Opens(previous: Option<Value>, name: Value) {
    previous.None? || !SameName(previous.value, name)
  }

  /** The layout the loop over data.iterrows() builds, after a row with the
      given names `previous` (None before the first row). */
  function Spaced(rows: seq<Row>, previous: Option<Value>): seq<Line>
    decreases |rows|
  {
    if rows == [] then []
    else
      var name := Cell(rows[0], "Given Names");
      (if Opens(previous, name) then [Blank] else []) + [Entry(rows[0])] + Spaced(rows[1..], Some(name))
  }

  /** The invoice rows of a layout, in order. */
  function Entries(lines: seq<Line>): seq<Row>
    decreases |lines|
  {
    if lines == [] then []
    else (if lines[0].Entry? then [lines[0].row] else []) + Entries(lines[1..])
  }

  lemma {:induction false} EntriesAppend(a: seq<Line>, b: seq<Line>)
    ensures Entries(a + b) == Entries(a) + Entries(b)
    decreases |a|
  {
    if a == [] {
      assert a + b == b;
    } else {
      assert (a + b)[0] == a[0] && (a + b)[1..] == a[1..] + b;
      EntriesAppend(a[1..], b);
    }
  }

  function Name(l: Line): Value
    requires l.Entry?
  {
    Cell(l.row, "Given Names")
  }

  /** The names the entry at k follows: the nearest entry above it, past at
      most one blank, or `previous` when there is none. */
  function NameAbove(out: seq<Line>, k: int, previous: Option<Value>): Option<Value>
    requires 0 <= k <= |out|
  {
    if k >= 1 && out[k - 1].Entry? then Some(Name(out[k - 1]))
    else if k >= 2 && out[k - 2].Entry? then Some(Name(out[k - 2]))
    else previous
  }

  /** Every blank row is followed by an entry. */
  predicate BlanksFollowed(out: seq<Line>) {
    forall k :: 0 <= k < |out| && out[k].Blank? ==> k + 1 < |out| && out[k + 1].Entry?
  }

  /** An entry has a blank row right above it exactly when it opens a new
      run of names. */
  predicate SeparatesRuns(out: seq<Line>, previous: Option<Value>) {
    forall k :: 0 <= k < |out| && out[k].Entry? ==>
      ((k >= 1 && out[k - 1].Blank?) <==> Opens(NameAbove(out, k, previous), Name(out[k])))
  }

  lemma SeparatesAt(out: seq<Line>, previous: Option<Value>, k: int)
    requires SeparatesRuns(out, previous) && 0 <= k < |out| && out[k].Entry?
    ensures (k >= 1 && out[k - 1].Blank?) <==> Opens(NameAbove(out, k, previous), Name(out[k]))
  {
  }

  /** A layout with separators exactly where the names change. */
  predicate Laid(out: seq<Line>, previous: Option<Value>) {
    BlanksFollowed(out) && SeparatesRuns(out, previous)
  }

  /** Putting one row, with its blank row when it opens a run, before a
      layout of the rows after it keeps the layout exact. */
  lemma LaidPrepend(row: Row, previous: Option<Value>, rest: seq<Line>)
    requires Laid(rest, Some(Cell(row, "Given Names")))
    ensures var name := Cell(row, "Given Names");
            Laid((if Opens(previous, name) then [Blank] else []) + [Entry(row)] + rest, previous)
  {
    var name := Cell(row, "Given Names");
    var head := (if Opens(previous, name) then [Blank] else []) + [Entry(row)];
    PrependFollowed(head, rest);
    PrependSeparates(row, previous, rest);
  }

  lemma PrependFollowed(head: seq<Line>, rest: seq<Line>)
    requires head != [] && head[|head| - 1].Entry?
    requires |head| == 1 || (|head| == 2 && head[0].Blank?)
    requires BlanksFollowed(rest)
    ensures BlanksFollowed(head + rest)
  {
    var out := head + rest;
    var m := |head|;
    forall k | 0 <= k < |out| && out[k].Blank?
      ensures k + 1 < |out| && out[k + 1].Entry?
    {
      if k < m {
        assert out[k] == head[k] && k == 0 && out[1] == head[1];
      } else {
        assert out[k] == rest[k - m];
        assert k - m + 1 < |rest| && rest[k - m + 1].Entry?;
        assert out[k + 1] == rest[k + 1 - m];
      }
    }
  }

  lemma PrependSeparates(row: Row, previous: Option<Value>, rest: seq<Line>)
    requires BlanksFollowed(rest) && SeparatesRuns(rest, Some(Cell(row, "Given Names")))
    ensures var name := Cell(row, "Given Names");
            SeparatesRuns((if Opens(previous, name) then [Blank] else []) + [Entry(row)] + rest, previous)
  {
    var name := Cell(row, "Given Names");
    var head := (if Opens(previous, name) then [Blank] else []) + [Entry(row)];
    var out := head + rest;
    var m := |head|;
    assert m == 2 <==> Opens(previous, name);
    assert out[m - 1] == Entry(row) && Name(out[m - 1]) == name;
    assert m == 2 ==> out[0] == Blank;
    forall k | 0 <= k < |out| && out[k].Entry?
      ensures (k >= 1 && out[k - 1].Blank?) <==> Opens(NameAbove(out, k, previous), Name(out[k]))
    {
      if k < m {
        assert k == m - 1;
        assert NameAbove(out, k, previous) == previous;
        assert (k >= 1 && out[k - 1].Blank?) <==> m == 2;
      } else {
        var j := k - m;
        assert out[k] == rest[j];
        SeparatesAt(rest, Some(name), j);
        if j == 0 {
          assert out[k - 1] == out[m - 1];
          assert NameAbove(out, k, previous) == Some(name) == NameAbove(rest, j, Some(name));
        } else if j == 1 {
          assert out[k - 1] == rest[0] && out[k - 2] == out[m - 1];
          assert NameAbove(out, k, previous) == NameAbove(rest, j, Some(name));
        } else {
          assert out[k - 1] == rest[j - 1] && out[k - 2] == rest[j - 2];
          assert rest[j - 2].Blank? ==> rest[j - 1].Entry?;
          assert NameAbove(out, k, previous) == NameAbove(rest, j, Some(name));
        }
      }
    }
    assert SeparatesRuns(out, previous);
  }

  /** The loop keeps every row, in order, and separates exactly the runs. */
  lemma {:induction false} SpacedLaid(rows: seq<Row>, previous: Option<Value>)
    ensures Entries(Spaced(rows, previous)) == rows
    ensures Laid(Spaced(rows, previous), previous)
    decreases |rows|
  {
    if rows != [] {
      var name := Cell(rows[0], "Given Names");
      var head := (if Opens(previous, name) then [Blank] else []) + [Entry(rows[0])];
      var rest := Spaced(rows[1..], Some(name));
      SpacedLaid(rows[1..], Some(name));
      LaidPrepend(rows[0], previous, rest);
      EntriesAppend(head, rest);
      assert Entries(head) == [rows[0]] by {
        if Opens(previous, name) {
          assert head[1..] == [Entry(rows[0])];
          assert Entries(head) == Entries(head[1..]);
        }
      }
      assert rows == [rows[0]] + rows[1..];
    }
  }

  /** A layout of some rows opens with a blank row. */
  lemma SpacedOpens(rows: seq<Row>)
    requires rows != []
    ensures Spaced(rows, None)[0] == Blank
  {
  }

  lemma SpacedStep(rows: seq<Row>, i: nat, current: Option<Value>)
    requires i < |rows|
    ensures var name := Cell(rows[i], "Given Names");
            Spaced(rows[i..], current)
            == (if Opens(current, name) then [Blank] else []) + [Entry(rows[i])] + Spaced(rows[i + 1..], Some(name))
  {
    assert rows[i..][1..] == rows[i + 1..];
  }

  lemma Reassociate(a: seq<Line>, b: seq<Line>, c: seq<Line>)
    ensures a + (b + c) == (a + b) + c
  {
  }

  /** The loop over data.iterrows(), concatenating a blank row before each
      row whose given names differ from the previous row's. */
  method InsertBlanks(rows: seq<Row>) returns (out: seq<Line>)
    ensures out == Spaced(rows, None)
  {
    out := [];
    var current: Option<Value> := None;
    var i := 0;
    while i < |rows|
      invariant 0 <= i <= |rows|
      invariant out + Spaced(rows[i..], current) == Spaced(rows, None)
    {
      var name := Cell(rows[i], "Given Names");
      var head := (if current.None? || !SameName(current.value, name) then [Blank] else []) + [Entry(rows[i])];
      SpacedStep(rows, i, current);
      Reassociate(out, head, Spaced(rows[i + 1..], Some(name)));
      out := out + head;
      current := Some(name);
      i := i + 1;
    }
    assert rows[i..] == [];
    assert out + [] == out;
  }

  /** What the template renders for one invoice file. */
  datatype Document = Document(lines: seq<Line>, totals: Totals)

  /** The kept rows with their amounts printed again. */
  function Shown(kept: seq<Row>, amounts: seq<Amount>): seq<Row>
    requires |amounts| == |kept|
  {
    seq(|kept|, i requires 0 <= i < |kept| => Reprinted(kept[i], amounts[i]))
  }

  /** One invoice file: drop the zero amounts, print the amounts, total them
      and lay the rows out. A missing Amount column fails, and so does a
      missing Given Names column once a row is left to lay out. */
  function Assemble(t: Table): Result<Document, Error> {
    if "Amount" !in t.columns then Err(MissingColumn("Amount"))
    else
      var kept := Sorting.Filter(t.rows, Kept);
      var amounts :- Reformatted(kept);
      if kept != [] && "Given Names" !in t.columns then Err(MissingColumn("Given Names"))
      else Ok(Document(Spaced(Shown(kept, amounts), None), TotalsOf(Subtotal(amounts))))
  }

  /** A file fails exactly when its Amount column is missing, one of its
      nonzero amounts is unreadable, or rows are left and Given Names is
      missing, and it fails with the first of these. */
  lemma AssembleSucceeds(t: Table)
    ensures Assemble(t).Ok? <==>
              "Amount" in t.columns
              && (forall i :: 0 <= i < |t.rows| && Kept(t.rows[i]) ==> Reformat(Cell(t.rows[i], "Amount")).Ok?)
              && ("Given Names" in t.columns || forall i :: 0 <= i < |t.rows| ==> !Kept(t.rows[i]))
    ensures "Amount" !in t.columns ==> Assemble(t) == Err(MissingColumn("Amount"))
    ensures Assemble(t).Err? && "Amount" in t.columns ==>
              Assemble(t).error.BadAmount? || Assemble(t).error == MissingColumn("Given Names")
  {
    if "Amount" in t.columns {
      var kept := Sorting.Filter(t.rows, Kept);
      AssembleCases(t, kept);
      KeptReadable(t.rows, kept);
      if Reformatted(kept).Err? {
        ReformattedOutcome(kept);
      }
    }
  }

  /** The kept rows are all readable exactly when every row with a nonzero
      amount is, and there are none exactly when no row has one. */
  lemma KeptReadable(rows: seq<Row>, kept: seq<Row>)
    requires kept == Sorting.Filter(rows, Kept)
    ensures Reformatted(kept).Ok? <==>
              forall i :: 0 <= i < |rows| && Kept(rows[i]) ==> Reformat(Cell(rows[i], "Amount")).Ok?
    ensures kept == [] <==> forall i :: 0 <= i < |rows| ==> !Kept(rows[i])
  {
    ReformattedOutcome(kept);
    forall i | 0 <= i < |rows| && Kept(rows[i])
      ensures rows[i] in kept
    {
      assert rows[i] in rows;
    }
    forall i | 0 <= i < |kept|
      ensures exists j :: 0 <= j < |rows| && rows[j] == kept[i] && Kept(rows[j])
    {
      assert kept[i] in rows;
    }
    if kept != [] {
      assert kept[0] in rows;
    }
  }

  lemma AssembleCases(t: Table, kept: seq<Row>)
    requires "Amount" in t.columns && kept == Sorting.Filter(t.rows, Kept)
    ensures Assemble(t).Ok? <==> Reformatted(kept).Ok? && (kept == [] || "Given Names" in t.columns)
    ensures Assemble(t).Err? ==>
              (Reformatted(kept).Err? && Assemble(t).error == Reformatted(kept).error)
              || Assemble(t).error == MissingColumn("Given Names")
  {
  }

  /** A file's layout separates exactly its runs of names and shows exactly
      its rows whose Amount is not the number 0, each with its amount printed
      again, and nothing else. */
  lemma AssembleShows(t: Table)
    requires Assemble(t).Ok?
    ensures Laid(Assemble(t).value.lines, None)
    ensures forall x :: x in t.rows && Kept(x) ==>
              Reformat(Cell(x, "Amount")).Ok?
              && Reprinted(x, Reformat(Cell(x, "Amount")).value) in Entries(Assemble(t).value.lines)
    ensures forall y :: y in Entries(Assemble(t).value.lines) ==>
              exists x :: x in t.rows && Kept(x) && Reformat(Cell(x, "Amount")).Ok?
                          && y == Reprinted(x, Reformat(Cell(x, "Amount")).value)
  {
    var kept := Sorting.Filter(t.rows, Kept);
    ReformattedOutcome(kept);
    var amounts := Reformatted(kept).value;
    SpacedLaid(Shown(kept, amounts), None);
    ShownRows(kept, amounts);
  }

  /** Each kept row is shown with its own amount printed again, and each shown
      row is such a row. */
  lemma ShownRows(kept: seq<Row>, amounts: seq<Amount>)
    requires |amounts| == |kept|
    requires forall i :: 0 <= i < |kept| ==>
               Reformat(Cell(kept[i], "Amount")).Ok? && amounts[i] == Reformat(Cell(kept[i], "Amount")).value
    ensures forall x :: x in kept ==>
              Reformat(Cell(x, "Amount")).Ok? && Reprinted(x, Reformat(Cell(x, "Amount")).value) in Shown(kept, amounts)
    ensures forall y :: y in Shown(kept, amounts) ==>
              exists x :: x in kept && Reformat(Cell(x, "Amount")).Ok?
                          && y == Reprinted(x, Reformat(Cell(x, "Amount")).value)
  {
    var shown := Shown(kept, amounts);
    forall x | x in kept
      ensures Reformat(Cell(x, "Amount")).Ok? && Reprinted(x, Reformat(Cell(x, "Amount")).value) in shown
    {
      var i :| 0 <= i < |kept| && kept[i] == x;
      assert shown[i] == Reprinted(x, Reformat(Cell(x, "Amount")).value);
    }
    forall y | y in shown
      ensures exists x :: x in kept && Reformat(Cell(x, "Amount")).Ok?
                          && y == Reprinted(x, Reformat(Cell(x, "Amount")).value)
    {
      var i :| 0 <= i < |shown| && shown[i] == y;
      assert kept[i] in kept;
    }
  }

  /** The one-file step as the code runs it: the vectorised steps, then the
      loop over the rows that inserts the blank rows. */
  method AssembleFile(t: Table) returns (res: Result<Document, Error>)
    ensures res == Assemble(t)
  {
    if "Amount" !in t.columns {
      return Err(MissingColumn("Amount"));
    }
    var kept := Sorting.Filter(t.rows, Kept);
    var amounts := Reformatted(kept);
    if amounts.Err? {
      return Err(amounts.error);
    }
    var totals := TotalsOf(Subtotal(amounts.value));
    if kept != [] && "Given Names" !in t.columns {
      return Err(MissingColumn("Given Names"));
    }
    var lines := InsertBlanks(Shown(kept, amounts.value));
    return Ok(Document(lines, totals));
  }

  /** The Amount cells of a frame read back from an invoice file hold the
      amounts of the lines the rate stage wrote, row by row. */
  predicate HoldsAmounts(t: Table, lines: seq<Rates.InvoiceLine>) {
    |t.rows| == |lines| && forall i :: 0 <= i < |lines| ==> Cell(t.rows[i], "Amount") == Num(lines[i].amount)
  }

  /** Dropping the zero amounts does not change their sum. */
  lemma {:induction false} KeptSubtotal(rows: seq<Row>, lines: seq<Rates.InvoiceLine>)
    requires |rows| == |lines|
    requires forall i :: 0 <= i < |lines| ==> Cell(rows[i], "Amount") == Num(lines[i].amount)
    ensures Reformatted(Sorting.Filter(rows, Kept)).Ok?
    ensures Subtotal(Reformatted(Sorting.Filter(rows, Kept)).value) == Rates.Total(lines)
    decreases |rows|
  {
    if rows == [] {
      assert Sorting.Filter(rows, Kept) == [];
    } else {
      assert forall i :: 0 <= i < |lines| - 1 ==> rows[1..][i] == rows[i + 1] && lines[1..][i] == lines[i + 1];
      KeptSubtotal(rows[1..], lines[1..]);
      var rest := Sorting.Filter(rows[1..], Kept);
      assert Sorting.Filter(rows, Kept) == (if Kept(rows[0]) then [rows[0]] else []) + rest;
      TotalCons(lines);
      if Kept(rows[0]) {
        ReformattedCons(rows[0], rest);
      } else {
        assert [] + rest == rest;
      }
    }
  }

  lemma TotalCons(lines: seq<Rates.InvoiceLine>)
    requires lines != []
    ensures Rates.Total(lines) == lines[0].amount + Rates.Total(lines[1..])
  {
    Rates.TotalAppend([lines[0]], lines[1..]);
    assert [lines[0]] + lines[1..] == lines;
    assert [lines[0]][..0] == [];
  }

  lemma ReformattedCons(x: Row, rest: seq<Row>)
    requires Cell(x, "Amount").Num? && Reformatted(rest).Ok?
    ensures Reformatted([x] + rest).Ok?
    ensures Subtotal(Reformatted([x] + rest).value) == Cell(x, "Amount").cents + Subtotal(Reformatted(rest).value)
  {
    var xs := [x] + rest;
    assert xs[0] == x && xs[1..] == rest;
    var r := [Cents(Cell(x, "Amount").cents)] + Reformatted(rest).value;
    assert Reformatted(xs) == Ok(r);
    assert r[0] == Cents(Cell(x, "Amount").cents) && r[1..] == Reformatted(rest).value;
  }

  /** A file that assembles has the totals of its kept amounts. */
  lemma AssembledTotals(t: Table)
    requires Assemble(t).Ok?
    ensures Reformatted(Sorting.Filter(t.rows, Kept)).Ok?
    ensures Assemble(t).value.totals == TotalsOf(Subtotal(Reformatted(Sorting.Filter(t.rows, Kept)).value))
  {
    var kept := Sorting.Filter(t.rows, Kept);
    var r := Reformatted(kept);
    assert r.Ok?;
    TotalsFrom(t, kept, r.value);
  }

  lemma TotalsFrom(t: Table, kept: seq<Row>, amounts: seq<Amount>)
    requires kept == Sorting.Filter(t.rows, Kept) && Reformatted(kept) == Ok(amounts)
    requires Assemble(t).Ok?
    ensures Assemble(t).value.totals == TotalsOf(Subtotal(amounts))
  {
  }

  /** For a file the rate stage wrote, the PDF's subtotal is the invoice's
      total amount, its GST a tenth of that rounded to the cent, and its grand
      total their sum. */
  lemma InvoiceTotals(t: Table, lines: seq<Rates.InvoiceLine>)
    requires "Amount" in t.columns && "Given Names" in t.columns && HoldsAmounts(t, lines)
    ensures Assemble(t).Ok?
    ensures ParseCents(Assemble(t).value.totals.subtotal) == Some(Rates.Total(lines))
    ensures ParseCents(Assemble(t).value.totals.gst) == Some(Gst(Rates.Total(lines)))
    ensures ParseCents(Assemble(t).value.totals.grandTotal) == Some(Rates.Total(lines) + Gst(Rates.Total(lines)))
  {
    KeptSubtotal(t.rows, lines);
    AssembleSucceeds(t);
    AssembledTotals(t);
  }

  /** For the invoice file of a checkpoint, which holds the lines sorted by
      name, the PDF's subtotal is still the total_amount the loop over the
      mapping added up in its own order. */
  lemma InvoiceFileTotals(t: Table, checkpoint: Table, fileName: string, rev: Rates.Revision)
    requires Rates.Invoice(checkpoint, fileName, rev).Ok?
    requires "Amount" in t.columns && "Given Names" in t.columns
    requires HoldsAmounts(t, Rates.Invoice(checkpoint, fileName, rev).value)
    ensures Assemble(t).Ok?
    ensures ParseCents(Assemble(t).value.totals.subtotal)
         == Some(Rates.Total(Rates.Expand(Rates.SheetOf(checkpoint, fileName, rev), Rates.Mapping).value))
  {
    InvoiceTotals(t, Rates.Invoice(checkpoint, fileName, rev).value);
    Rates.InvoiceTotal(checkpoint, fileName, rev);
  }

  /** f.endswith('_invoice.csv'): the files the loop reads. */
  predicate IsInvoiceFile(f: string) {
    EndsWith(f, "_invoice.csv")
  }

  /** os.path.splitext(invoice_file)[0] + ".pdf". */
  function PdfName(f: string): string {
    SplitExt(f).0 + ".pdf"
  }

  /** "<stem>_invoice.csv" is rendered as "<stem>_invoice.pdf". */
  lemma PdfNameOfInvoice(stem: string)
    ensures PdfName(stem + "_invoice.csv") == stem + "_invoice.pdf"
  {
    var f := stem + "_invoice.csv";
    var dot := |stem| + 8;
    assert f[dot] == '.' && f[|stem|] == '_';
    assert forall j :: dot < j < |f| ==> f[j] != '.';
    assert RFind(f, '.') == dot;
    assert forall j :: |stem| <= j < |f| ==> f[j] != '/';
    assert RFind(f, '/') < |stem|;
    assert f[..dot] == stem + "_invoice";
  }

  /** Every invoice the rate stage writes is picked up by the PDF stage, and
      "<stem>.csv" ends as "<stem>_invoice.pdf". */
  lemma InvoicesBecomePdfs(f: string)
    ensures IsInvoiceFile(Rates.InvoiceFileName(f))
    ensures PdfName(Rates.InvoiceFileName(f)) == SplitExt(f).0 + "_invoice.pdf"
  {
    PdfNameOfInvoice(SplitExt(f).0);
  }

  /** The file loop, for a per-file step `make`: each invoice file of the
      listing, in listing order, is read from the folder and what `make`
      gives for it is written under its PDF name; the first file that fails
      stops the loop with its error. */
  function Render(listing: seq<string>, folder: map<string, Table>, make: Table -> Result<Document, Error>)
    : Result<map<string, Document>, Error>
    requires forall f :: f in listing ==> f in folder
    decreases |listing|
  {
    if listing == [] then Ok(map[])
    else
      var init := listing[..|listing| - 1];
      var f := listing[|listing| - 1];
      assert forall k :: 0 <= k < |init| ==> init[k] == listing[k];
      var written :- Render(init, folder, make);
      if !IsInvoiceFile(f) then Ok(written)
      else
        var doc :- make(folder[f]);
        Ok(written[PdfName(f) := doc])
  }

  /** The loop succeeds exactly when every invoice file's step does; then
      every invoice file has its result written under its PDF name, and every
      name written holds the result of some invoice file of the listing. */
  lemma {:induction false} RenderOutcome(listing: seq<string>, folder: map<string, Table>,
                                         make: Table -> Result<Document, Error>)
    requires forall f :: f in listing ==> f in folder
    ensures var r := Render(listing, folder, make);
            r.Ok? <==> forall k :: 0 <= k < |listing| && IsInvoiceFile(listing[k]) ==> make(folder[listing[k]]).Ok?
    ensures var r := Render(listing, folder, make);
            r.Ok? ==> forall k :: 0 <= k < |listing| && IsInvoiceFile(listing[k]) ==> PdfName(listing[k]) in r.value
    ensures var r := Render(listing, folder, make);
            r.Ok? ==> forall name :: name in r.value ==>
              exists k :: 0 <= k < |listing| && IsInvoiceFile(listing[k]) && PdfName(listing[k]) == name
                          && r.value[name] == make(folder[listing[k]]).value
    decreases |listing|
  {
    if listing != [] {
      var init := listing[..|listing| - 1];
      assert forall k :: 0 <= k < |init| ==> init[k] == listing[k];
      RenderOutcome(init, folder, make);
    }
  }

  lemma {:induction false} RenderStopsAtFirstError(listing: seq<string>, folder: map<string, Table>,
                                                   make: Table -> Result<Document, Error>, k: nat)
    requires forall f :: f in listing ==> f in folder
    requires k < |listing| && IsInvoiceFile(listing[k])
    requires Render(listing[..k], folder, make).Ok?
    requires make(folder[listing[k]]).Err?
    ensures Render(listing, folder, make) == Err(make(folder[listing[k]]).error)
    decreases |listing|
  {
    var init := listing[..|listing| - 1];
    if k == |listing| - 1 {
      assert listing[..k] == init;
    } else {
      assert init[..k] == listing[..k] && init[k] == listing[k];
      RenderStopsAtFirstError(init, folder, make, k);
    }
  }

  lemma RenderStep(listing: seq<string>, folder: map<string, Table>, make: Table -> Result<Document, Error>, k: nat)
    requires forall f :: f in listing ==> f in folder
    requires k < |listing|
    ensures forall f :: f in listing[..k + 1] ==> f in folder
    ensures forall f :: f in listing[..k] ==> f in folder
    ensures Render(listing[..k + 1], folder, make)
         == (var written :- Render(listing[..k], folder, make);
             if !IsInvoiceFile(listing[k]) then Ok(written)
             else
               var doc :- make(folder[listing[k]]);
               Ok(written[PdfName(listing[k]) := doc]))
  {
    assert listing[..k + 1][..k] == listing[..k];
  }

  /** The final folder the PDF stage writes from the invoice folder. */
  function Documents(listing: seq<string>, folder: map<string, Table>): Result<map<string, Document>, Error>
    requires forall f :: f in listing ==> f in folder
  {
    Render(listing, folder, Assemble)
  }

  /** The PDF stage succeeds exactly when every invoice file assembles; then
      each is written under its PDF name and nothing else is written. */
  lemma DocumentsOutcome(listing: seq<string>, folder: map<string, Table>)
    requires forall f :: f in listing ==> f in folder
    ensures var r := Documents(listing, folder);
            r.Ok? <==> forall k :: 0 <= k < |listing| && IsInvoiceFile(listing[k]) ==> Assemble(folder[listing[k]]).Ok?
    ensures var r := Documents(listing, folder);
            r.Ok? ==> forall k :: 0 <= k < |listing| && IsInvoiceFile(listing[k]) ==> PdfName(listing[k]) in r.value
    ensures var r := Documents(listing, folder);
            r.Ok? ==> forall name :: name in r.value ==>
              exists k :: 0 <= k < |listing| && IsInvoiceFile(listing[k]) && PdfName(listing[k]) == name
                          && r.value[name] == Assemble(folder[listing[k]]).value
  {
    RenderOutcome(listing, folder, Assemble);
  }

  /** process_invoices (and the loop of pdf.py): each invoice file of the
      folder is assembled and written under its PDF name. */
  method WriteDocuments(listing: seq<string>, folder: map<string, Table>)
    returns (res: Result<map<string, Document>, Error>)
    requires forall f :: f in listing ==> f in folder
    ensures res == Documents(listing, folder)
  {
    var written: map<string, Document> := map[];
    var k := 0;
    assert listing[..0] == [];
    while k < |listing|
      invariant 0 <= k <= |listing|
      invariant Render(listing[..k], folder, Assemble) == Ok(written)
    {
      var f := listing[k];
      RenderStep(listing, folder, Assemble, k);
      if IsInvoiceFile(f) {
        var doc := AssembleFile(folder[f]);
        if doc.Err? {
          RenderStopsAtFirstError(listing, folder, Assemble, k);
          return Err(doc.error);
        }
        written := written[PdfName(f) := doc.value];
      }
      k := k + 1;
    }
    assert listing[..k] == listing;
    res := Ok(written);
  }
}
