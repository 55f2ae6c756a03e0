/** DataFrames as the pipeline uses them: named columns, ordered rows, cells that
    are numbers (in hundredths), strings or NaN; and the pandas operations the
    pipeline applies to them: fillna, rename, inner merge, drop, unique, boolean
    row selection, and groupby(...) re-concatenated. */
module Tables {
  import opened Wrappers
  import opened Strings
  import Sorting

  /** A cell. Numbers are held in hundredths; Missing is pandas' NaN. */
  datatype Value = Num(cents: int) | Text(s: string) | Missing

  type Row = map<string, Value>

  /** A DataFrame: its column labels and its rows, in order. */
  datatype Table = Table(columns: set<string>, rows: seq<Row>)

  /** Every row has exactly the table's columns. */
  predicate WellFormed(t: Table) {
    forall i :: 0 <= i < |t.rows| ==> t.rows[i].Keys == t.columns
  }

  /** The exceptions the original program raises, by cause. */
  datatype Error =
    | MissingColumn(column: string)   // KeyError on a column label
    | MissingSheet(sheet: string)     // KeyError on a workbook sheet name
    | DuplicateColumns                // a rename or merge suffix that repeats a label
    | NotText(column: string)         // a str operation on a cell that is not a string
    | NotNumeric(column: string)      // arithmetic on a cell that is not a number
    | BadDate(text: string)           // strptime cannot read the period end date
    | DateOutOfRange                  // the serviced period starts before year 1
    | NoRows                          // iloc[0] on a frame without rows
    | EmptyInvoice                    // sort_values on a frame without columns
    | BadAmount(text: string)         // float() cannot read an Amount
    | MissingSource(key: string)      // a loaded-file lookup by a path that was not loaded
    | NoGroups                        // pd.concat over a grouping without a group

  function Cell(r: Row, c: string): Value {
    if c in r then r[c] else Missing
  }

  function Column(t: Table, c: string): (col: seq<Value>)
    ensures |col| == |t.rows|
    ensures forall i :: 0 <= i < |t.rows| ==> col[i] == Cell(t.rows[i], c)
  {
    seq(|t.rows|, i requires 0 <= i < |t.rows| => Cell(t.rows[i], c))
  }

  // ---------------------------------------------------------------- fillna(0)

  function FillMissing(v: Value): Value {
    if v.Missing? then Num(0) else v
  }

  function FillRow(r: Row): Row {
    map c | c in r.Keys :: FillMissing(r[c])
  }

  /** df.fillna(0): every NaN becomes 0, every other cell stays, no row moves. */
  function FillNa(t: Table): (r: Table)
    ensures r.columns == t.columns && |r.rows| == |t.rows|
    ensures WellFormed(t) ==> WellFormed(r)
    ensures forall i, c :: 0 <= i < |t.rows| && c in t.rows[i] && !t.rows[i][c].Missing? ==>
              c in r.rows[i] && r.rows[i][c] == t.rows[i][c]
    ensures forall i, c :: 0 <= i < |t.rows| && c in t.rows[i] && t.rows[i][c].Missing? ==>
              c in r.rows[i] && r.rows[i][c] == Num(0)
    ensures forall i, c :: 0 <= i < |r.rows| && c in r.rows[i] ==> !r.rows[i][c].Missing?
  {
    Table(t.columns, seq(|t.rows|, i requires 0 <= i < |t.rows| => FillRow(t.rows[i])))
  }

  // ---------------------------------------------------------------- rename

  function Relabel(c: string, m: map<string, string>): string {
    if c in m then m[c] else c
  }

  predicate RelabelInjective(cols: set<string>, m: map<string, string>) {
    forall a, b :: a in cols && b in cols && Relabel(a, m) == Relabel(b, m) ==> a == b
  }

  function RelabelSet(cols: set<string>, m: map<string, string>): set<string> {
    set c | c in cols :: Relabel(c, m)
  }

  /** The column that m relabels to k: there is exactly one when m keeps the
      labels of cols apart. */
  function Origin(k: string, cols: set<string>, m: map<string, string>): (c: string)
    requires RelabelInjective(cols, m) && k in RelabelSet(cols, m)
    ensures c in cols && Relabel(c, m) == k
  {
    var c :| c in cols && Relabel(c, m) == k;
    c
  }

  function RenameRow(r: Row, m: map<string, string>): (r': Row)
    requires RelabelInjective(r.Keys, m)
    ensures r'.Keys == RelabelSet(r.Keys, m)
    ensures forall c :: c in r ==> r'[Relabel(c, m)] == r[c]
  {
    var r' := map k | k in RelabelSet(r.Keys, m) :: r[Origin(k, r.Keys, m)];
    assert forall c :: c in r ==> Origin(Relabel(c, m), r.Keys, m) == c;
    r'
  }

  /** df.rename(columns=m). Labels that m does not mention stay; a rename that
      would give two columns one label is refused (pandas would keep both under
      one label, which later lookups cannot tell apart). */
  function RenameColumns(t: Table, m: map<string, string>): (res: Result<Table, Error>)
    requires WellFormed(t)
    ensures res.Ok? <==> RelabelInjective(t.columns, m)
    ensures res.Ok? ==> WellFormed(res.value) && res.value.columns == RelabelSet(t.columns, m)
    ensures res.Ok? ==> |res.value.rows| == |t.rows|
    ensures res.Ok? ==> forall i, c :: 0 <= i < |t.rows| && c in t.columns ==>
              Relabel(c, m) in res.value.rows[i] && res.value.rows[i][Relabel(c, m)] == t.rows[i][c]
  {
    if RelabelInjective(t.columns, m) then
      Ok(Table(RelabelSet(t.columns, m),
               seq(|t.rows|, i requires 0 <= i < |t.rows| => RenameRow(t.rows[i], m))))
    else Err(DuplicateColumns)
  }

  /** A cell keeps its value under its new label. */
  lemma RenameColumnsCell(t: Table, m: map<string, string>, i: int, c: string)
    requires WellFormed(t) && RelabelInjective(t.columns, m)
    requires 0 <= i < |t.rows| && c in t.columns
    ensures |RenameColumns(t, m).value.rows| == |t.rows|
    ensures Cell(RenameColumns(t, m).value.rows[i], Relabel(c, m)) == Cell(t.rows[i], c)
  {
  }

  // ---------------------------------------------------------------- drop

  /** df.drop(columns=c): KeyError when c is not a column. */
  function DropColumn(t: Table, c: string): (res: Result<Table, Error>)
    requires WellFormed(t)
    ensures res.Ok? <==> c in t.columns
    ensures res.Ok? ==> WellFormed(res.value) && res.value.columns == t.columns - {c}
    ensures res.Ok? ==> |res.value.rows| == |t.rows|
    ensures res.Ok? ==> forall i, d :: 0 <= i < |t.rows| && d in t.columns && d != c ==>
              res.value.rows[i][d] == t.rows[i][d]
  {
    if c !in t.columns then Err(MissingColumn(c))
    else Ok(Table(t.columns - {c}, seq(|t.rows|, i requires 0 <= i < |t.rows| => t.rows[i] - {c})))
  }

  /** Every other cell survives the drop. */
  lemma DropColumnCell(t: Table, c: string, i: int, d: string)
    requires WellFormed(t) && c in t.columns && 0 <= i < |t.rows| && d != c
    ensures |DropColumn(t, c).value.rows| == |t.rows|
    ensures Cell(DropColumn(t, c).value.rows[i], d) == Cell(t.rows[i], d)
  {
  }

  // ---------------------------------------------------------------- inner merge

  /** Two rows agree on every join key (NaN keys match each other, as in pandas). */
  predicate Agree(l: Row, r: Row, on: seq<string>) {
    forall n :: 0 <= n < |on| ==> Cell(l, on[n]) == Cell(r, on[n])
  }

  predicate PairLess(p: (int, int), q: (int, int)) {
    p.0 < q.0 || (p.0 == q.0 && p.1 < q.1)
  }

  /** The (left, right) index pairs of an inner join with left row i fixed,
      right rows from j on, in right order. */
  function MatchesOf(ls: seq<Row>, rs: seq<Row>, on: seq<string>, i: nat, j: nat): (r: seq<(int, int)>)
    requires i < |ls|
    ensures forall p :: p in r <==> p.0 == i && j <= p.1 < |rs| && Agree(ls[i], rs[p.1], on)
    ensures forall a, b :: 0 <= a < b < |r| ==> r[a].0 == r[b].0 && r[a].1 < r[b].1
    decreases |rs| - j
  {
    if j >= |rs| then []
    else (if Agree(ls[i], rs[j], on) then [(i as int, j as int)] else []) + MatchesOf(ls, rs, on, i, j + 1)
  }

  /** The index pairs an inner join emits from left row i on: every pair that
      agrees on the keys, exactly once, in left order and then right order. */
  function JoinPairs(ls: seq<Row>, rs: seq<Row>, on: seq<string>, i: nat): (r: seq<(int, int)>)
    ensures forall p :: p in r <==> i <= p.0 < |ls| && 0 <= p.1 < |rs| && Agree(ls[p.0], rs[p.1], on)
    ensures forall k :: 0 <= k < |r| ==> i <= r[k].0 < |ls| && 0 <= r[k].1 < |rs|
    ensures forall a, b :: 0 <= a < b < |r| ==> PairLess(r[a], r[b])
    decreases |ls| - i
  {
    if i >= |ls| then []
    else MatchesOf(ls, rs, on, i, 0) + JoinPairs(ls, rs, on, i + 1)
  }

  /** The label a column gets in the merged frame: a column both sides have
      (other than a key) gets the side's suffix. */
  function Suffixed(c: string, overlap: set<string>, suffix: string): string {
    if c in overlap then c + suffix else c
  }

  /** The suffixed labels are all different from each other. */
  predicate NoSuffixClash(lc: set<string>, rc: set<string>, overlap: set<string>) {
    && (forall a, b :: a in lc && b in lc && Suffixed(a, overlap, "_x") == Suffixed(b, overlap, "_x") ==> a == b)
    && (forall a, b :: a in rc && b in rc && Suffixed(a, overlap, "_y") == Suffixed(b, overlap, "_y") ==> a == b)
    && (forall a, b :: a in lc && b in rc ==> Suffixed(a, overlap, "_x") != Suffixed(b, overlap, "_y"))
  }

  function MergedColumns(lc: set<string>, rc: set<string>, overlap: set<string>): set<string> {
    (set c | c in lc :: Suffixed(c, overlap, "_x")) + (set c | c in rc :: Suffixed(c, overlap, "_y"))
  }

  /** The label a merged label k came from on the side with this suffix. */
  function Unsuffixed(k: string, overlap: set<string>, suffix: string): string {
    if |suffix| <= |k| && k[|k| - |suffix|..] == suffix && k[..|k| - |suffix|] in overlap
    then k[..|k| - |suffix|] else k
  }

  /** On one side, suffixing is undone by Unsuffixed when that side's labels
      stay apart and hold every overlapping label. */
  lemma UnsuffixSuffixed(c: string, cols: set<string>, overlap: set<string>, suffix: string)
    requires c in cols && overlap <= cols && |suffix| > 0
    requires forall a, b :: a in cols && b in cols && Suffixed(a, overlap, suffix) == Suffixed(b, overlap, suffix) ==> a == b
    ensures Unsuffixed(Suffixed(c, overlap, suffix), overlap, suffix) == c
  {
    var k := Suffixed(c, overlap, suffix);
    if c in overlap {
      assert k[..|k| - |suffix|] == c && k[|k| - |suffix|..] == suffix;
    } else if |suffix| <= |k| && k[|k| - |suffix|..] == suffix && k[..|k| - |suffix|] in overlap {
      var p := k[..|k| - |suffix|];
      assert p + suffix == k;
      assert Suffixed(p, overlap, suffix) == Suffixed(c, overlap, suffix);
    }
  }

  /** One output row: the left row's cells (keys included) and the right row's
      non-key cells, under their merged labels. */
  function MergeRow(l: Row, r: Row, lc: set<string>, rc: set<string>, overlap: set<string>): (m: Row)
    requires l.Keys == lc && rc <= r.Keys && NoSuffixClash(lc, rc, overlap)
    requires overlap <= lc && overlap <= rc
    ensures m.Keys == MergedColumns(lc, rc, overlap)
    ensures forall c :: c in lc ==> m[Suffixed(c, overlap, "_x")] == l[c]
    ensures forall c :: c in rc ==> m[Suffixed(c, overlap, "_y")] == r[c]
  {
    forall c | c in lc ensures Unsuffixed(Suffixed(c, overlap, "_x"), overlap, "_x") == c {
      UnsuffixSuffixed(c, lc, overlap, "_x");
    }
    forall c | c in rc ensures Unsuffixed(Suffixed(c, overlap, "_y"), overlap, "_y") == c {
      UnsuffixSuffixed(c, rc, overlap, "_y");
    }
    map k | k in MergedColumns(lc, rc, overlap) ::
      var c := Unsuffixed(k, overlap, "_x");
      if c in lc && Suffixed(c, overlap, "_x") == k then l[c] else r[Unsuffixed(k, overlap, "_y")]
  }

  /** The first join key either side lacks, if any. */
  function MissingKey(lc: set<string>, rc: set<string>, on: seq<string>): (k: Option<string>)
    ensures k.None? <==> forall n :: 0 <= n < |on| ==> on[n] in lc && on[n] in rc
    ensures k.Some? ==> k.value in on && (k.value !in lc || k.value !in rc)
  {
    if on == [] then None
    else if on[0] !in lc || on[0] !in rc then Some(on[0])
    else
      var k := MissingKey(lc, rc, on[1..]);
      assert forall n :: 1 <= n < |on| ==> on[n] == on[1..][n - 1];
      k
  }

  function KeySet(on: seq<string>): set<string> {
    set n | 0 <= n < |on| :: on[n]
  }

  /** The non-key labels both sides have: these get the "_x" and "_y" suffixes. */
  function Overlap(left: Table, right: Table, on: seq<string>): set<string> {
    (left.columns * right.columns) - KeySet(on)
  }

  /** left.merge(right, on=on, how="inner"): KeyError for a key one side lacks;
      otherwise one row per agreeing (left, right) pair, in left order (pandas 2.2
      and later) and, within one left row, in right order. */
  function Merge(left: Table, right: Table, on: seq<string>): (res: Result<Table, Error>)
    requires WellFormed(left) && WellFormed(right)
    ensures res.Ok? ==> WellFormed(res.value) && forall n :: 0 <= n < |on| ==> on[n] in res.value.columns
    ensures res.Ok? ==> NoSuffixClash(left.columns, right.columns - KeySet(on), Overlap(left, right, on))
    ensures res.Ok? ==> res.value.columns == MergedColumns(left.columns, right.columns - KeySet(on), Overlap(left, right, on))
    ensures res.Ok? ==>
              var pairs := JoinPairs(left.rows, right.rows, on, 0);
              && |res.value.rows| == |pairs|
              && forall k :: 0 <= k < |pairs| ==>
                   res.value.rows[k] == MergeRow(left.rows[pairs[k].0], right.rows[pairs[k].1],
                                                 left.columns, right.columns - KeySet(on), Overlap(left, right, on))
  {
    match MissingKey(left.columns, right.columns, on)
    case Some(k) => Err(MissingColumn(k))
    case None =>
      var overlap := Overlap(left, right, on);
      var rc := right.columns - KeySet(on);
      if !NoSuffixClash(left.columns, rc, overlap) then Err(DuplicateColumns)
      else
        var pairs := JoinPairs(left.rows, right.rows, on, 0);
        assert forall n :: 0 <= n < |on| ==> on[n] in KeySet(on);
        assert forall n :: 0 <= n < |on| ==> on[n] !in overlap && Suffixed(on[n], overlap, "_x") == on[n];
        Ok(Table(MergedColumns(left.columns, rc, overlap), MergedRows(left, right, rc, overlap, pairs)))
  }

  /** The merged row of each pair, in pair order. */
  function MergedRows(left: Table, right: Table, rc: set<string>, overlap: set<string>, pairs: seq<(int, int)>)
    : (rows: seq<Row>)
    requires WellFormed(left) && WellFormed(right) && rc <= right.columns
    requires NoSuffixClash(left.columns, rc, overlap) && overlap <= left.columns && overlap <= rc
    requires forall k :: 0 <= k < |pairs| ==> 0 <= pairs[k].0 < |left.rows| && 0 <= pairs[k].1 < |right.rows|
    ensures |rows| == |pairs|
    ensures forall k :: 0 <= k < |pairs| ==>
              rows[k] == MergeRow(left.rows[pairs[k].0], right.rows[pairs[k].1], left.columns, rc, overlap)
              && rows[k].Keys == MergedColumns(left.columns, rc, overlap)
  {
    seq(|pairs|, k requires 0 <= k < |pairs| =>
          MergeRow(left.rows[pairs[k].0], right.rows[pairs[k].1], left.columns, rc, overlap))
  }

  /** A left cell reaches the merged row built from its row, under its merged
      label: "_x" appended when the right side has the label too. */
  lemma MergeLeftCell(left: Table, right: Table, on: seq<string>, k: int, c: string)
    requires WellFormed(left) && WellFormed(right) && Merge(left, right, on).Ok?
    requires 0 <= k < |JoinPairs(left.rows, right.rows, on, 0)| && c in left.columns
    ensures var res := Merge(left, right, on).value;
            var pairs := JoinPairs(left.rows, right.rows, on, 0);
            var name := Suffixed(c, Overlap(left, right, on), "_x");
            name in res.columns && name in res.rows[k] && res.rows[k][name] == left.rows[pairs[k].0][c]
  {
    var pairs := JoinPairs(left.rows, right.rows, on, 0);
    assert pairs[k] in pairs;
  }

  // ---------------------------------------------------------------- unique and selection

  /** Series.unique(): the distinct values in order of first appearance. */
  function Unique(s: seq<Value>): (u: seq<Value>)
    ensures forall v :: v in u <==> v in s
    ensures forall a, b :: 0 <= a < b < |u| ==> u[a] != u[b]
    decreases |s|
  {
    if s == [] then []
    else
      var u := Unique(s[..|s| - 1]);
      assert forall v :: v in s <==> v in s[..|s| - 1] || v == s[|s| - 1];
      if s[|s| - 1] in u then u else u + [s[|s| - 1]]
  }

  /** The order is that of first appearance: wherever a later distinct value
      occurs, every earlier one has already occurred before it. */
  lemma {:induction false} UniqueOrder(s: seq<Value>)
    ensures forall a, b, j :: 0 <= a < b < |Unique(s)| && 0 <= j < |s| && s[j] == Unique(s)[b] ==>
              Unique(s)[a] in s[..j]
    decreases |s|, 1
  {
    forall a, b, j | 0 <= a < b < |Unique(s)| && 0 <= j < |s| && s[j] == Unique(s)[b]
      ensures Unique(s)[a] in s[..j]
    {
      UniqueOrderAt(s, a, b, j);
    }
  }

  lemma {:induction false} UniqueOrderAt(s: seq<Value>, a: int, b: int, j: int)
    requires 0 <= a < b < |Unique(s)| && 0 <= j < |s| && s[j] == Unique(s)[b]
    ensures Unique(s)[a] in s[..j]
    decreases |s|, 0
  {
    var init, x := s[..|s| - 1], s[|s| - 1];
    var u, u' := Unique(s), Unique(init);
    UniqueOrder(init);
    assert forall i :: 0 <= i < |init| ==> init[i] == s[i];
    assert u == u' || u == u' + [x];
    if b < |u'| {
      assert u[a] == u'[a] && u[b] == u'[b];
      if j < |s| - 1 {
        assert init[j] == u'[b];
        assert u'[a] in init[..j];
        assert init[..j] == s[..j];
      } else {
        assert x in u' && x in init;
        var j' :| 0 <= j' < |init| && init[j'] == x;
        assert init[j'] == u'[b];
        assert u'[a] in init[..j'];
        assert init[..j'] <= s[..j];
      }
    } else {
      assert u == u' + [x] && u[b] == x && x !in init && u[a] == u'[a];
      assert j == |s| - 1;
      assert s[..j] == init;
    }
  }

  /** df[df[c] == v]: the rows whose cell c equals v, in order. */
  function RowsWhere(rows: seq<Row>, c: string, v: Value): (r: seq<Row>)
    ensures forall k :: 0 <= k < |r| ==> Cell(r[k], c) == v
    ensures forall row :: row in r <==> row in rows && Cell(row, c) == v
    decreases |rows|
  {
    if rows == [] then []
    else (if Cell(rows[0], c) == v then [rows[0]] else []) + RowsWhere(rows[1..], c, v)
  }

  /** The rows whose cell c is one of vs. */
  function RowsWhereIn(rows: seq<Row>, c: string, vs: seq<Value>): seq<Row>
    decreases |rows|
  {
    if rows == [] then []
    else (if Cell(rows[0], c) in vs then [rows[0]] else []) + RowsWhereIn(rows[1..], c, vs)
  }

  /** The selections for each of vs, one after another. */
  function Selections(rows: seq<Row>, c: string, vs: seq<Value>): seq<Row>
    decreases |vs|
  {
    if vs == [] then [] else RowsWhere(rows, c, vs[0]) + Selections(rows, c, vs[1..])
  }

  lemma {:induction false} RowsWhereSplit(rows: seq<Row>, c: string, v: Value, vs: seq<Value>)
    requires v !in vs
    ensures multiset(RowsWhereIn(rows, c, [v] + vs)) == multiset(RowsWhere(rows, c, v)) + multiset(RowsWhereIn(rows, c, vs))
    decreases |rows|
  {
    if rows != [] {
      RowsWhereSplit(rows[1..], c, v, vs);
      var cell := Cell(rows[0], c);
      var head := if cell in [v] + vs then [rows[0]] else [];
      var one := if cell == v then [rows[0]] else [];
      var other := if cell in vs then [rows[0]] else [];
      assert multiset(head) == multiset(one) + multiset(other);
      assert RowsWhereIn(rows, c, [v] + vs) == head + RowsWhereIn(rows[1..], c, [v] + vs);
      assert RowsWhere(rows, c, v) == one + RowsWhere(rows[1..], c, v);
      assert RowsWhereIn(rows, c, vs) == other + RowsWhereIn(rows[1..], c, vs);
      MultisetsJoin(head, RowsWhereIn(rows[1..], c, [v] + vs), one, RowsWhere(rows[1..], c, v),
                    other, RowsWhereIn(rows[1..], c, vs));
    }
  }

  lemma MultisetsJoin(h: seq<Row>, a: seq<Row>, o: seq<Row>, b: seq<Row>, t: seq<Row>, c: seq<Row>)
    requires multiset(h) == multiset(o) + multiset(t) && multiset(a) == multiset(b) + multiset(c)
    ensures multiset(h + a) == multiset(o + b) + multiset(t + c)
  {
  }

  lemma {:induction false} RowsWhereInAll(rows: seq<Row>, c: string, vs: seq<Value>)
    requires forall k :: 0 <= k < |rows| ==> Cell(rows[k], c) in vs
    ensures RowsWhereIn(rows, c, vs) == rows
    decreases |rows|
  {
    if rows != [] {
      RowsWhereInAll(rows[1..], c, vs);
      assert [rows[0]] + rows[1..] == rows;
    }
  }

  lemma {:induction false} SelectionsMultiset(rows: seq<Row>, c: string, vs: seq<Value>)
    requires forall a, b :: 0 <= a < b < |vs| ==> vs[a] != vs[b]
    ensures multiset(Selections(rows, c, vs)) == multiset(RowsWhereIn(rows, c, vs))
    decreases |vs|
  {
    if vs == [] {
      EmptySelection(rows, c);
    } else {
      assert vs == [vs[0]] + vs[1..];
      assert vs[0] !in vs[1..];
      SelectionsMultiset(rows, c, vs[1..]);
      RowsWhereSplit(rows, c, vs[0], vs[1..]);
    }
  }

  lemma {:induction false} EmptySelection(rows: seq<Row>, c: string)
    ensures RowsWhereIn(rows, c, []) == []
    decreases |rows|
  {
    if rows != [] {
      EmptySelection(rows[1..], c);
    }
  }

  /** Selecting the rows of each distinct value of column c, one value after
      another in first-appearance order, uses every row exactly once: the
      selections together are a permutation of the rows. */
  lemma PartitionIsPermutation(t: Table, c: string)
    ensures multiset(Selections(t.rows, c, Unique(Column(t, c)))) == multiset(t.rows)
  {
    var col := Column(t, c);
    var vs := Unique(col);
    SelectionsMultiset(t.rows, c, vs);
    forall k | 0 <= k < |t.rows|
      ensures Cell(t.rows[k], c) in vs
    {
      assert col[k] in col;
    }
    RowsWhereInAll(t.rows, c, vs);
  }

  // ---------------------------------------------------------------- groupby + concat

  /** The order groupby(sort=True) puts keys in: numbers by value, then strings
      by code point (pandas' fallback for mixed keys), NaN last. */
  predicate ValueLe(a: Value, b: Value) {
    match (a, b)
    case (Num(x), Num(y)) => x <= y
    case (Num(_), _) => true
    case (Text(x), Text(y)) => LexLe(x, y)
    case (Text(_), Num(_)) => false
    case (Text(_), Missing) => true
    case (Missing, Missing) => true
    case (Missing, _) => false
  }

  function KeyOrder(key: string): (Row, Row) -> bool {
    (a: Row, b: Row) => ValueLe(Cell(a, key), Cell(b, key))
  }

  lemma KeyOrderIsTotalPreorder(key: string)
    ensures Sorting.TotalPreorder(KeyOrder(key))
  {
    var le := KeyOrder(key);
    forall a: Row, b: Row ensures le(a, b) || le(b, a) {
      var x, y := Cell(a, key), Cell(b, key);
      if x.Text? && y.Text? { LexLeTotal(x.s, y.s); }
    }
    forall a: Row, b: Row, c: Row | le(a, b) && le(b, c) ensures le(a, c) {
      var x, y, z := Cell(a, key), Cell(b, key), Cell(c, key);
      if x.Text? && y.Text? && z.Text? { LexLeTransitive(x.s, y.s, z.s); }
    }
  }

  /** Some row has a key that is not NaN, so groupby yields at least one group. */
  predicate HasKeyedRow(rows: seq<Row>, key: string) {
    exists k :: 0 <= k < |rows| && !Cell(rows[k], key).Missing?
  }

  function RowsWithKey(rows: seq<Row>, key: string): (r: seq<Row>)
    ensures forall row :: row in r <==> row in rows && !Cell(row, key).Missing?
    ensures multiset(r) <= multiset(rows)
    ensures r != [] <==> HasKeyedRow(rows, key)
    decreases |rows|
  {
    if rows == [] then []
    else
      assert rows == [rows[0]] + rows[1..];
      (if Cell(rows[0], key).Missing? then [] else [rows[0]]) + RowsWithKey(rows[1..], key)
  }

  lemma {:induction false} RowsWithKeyAll(rows: seq<Row>, key: string)
    requires forall k :: 0 <= k < |rows| ==> !Cell(rows[k], key).Missing?
    ensures RowsWithKey(rows, key) == rows
    decreases |rows|
  {
    if rows != [] {
      RowsWithKeyAll(rows[1..], key);
      assert [rows[0]] + rows[1..] == rows;
    }
  }

  /** df.groupby(key), its groups taken in iteration order: KeyError when key is
      not a column; otherwise the rows with a key (NaN keys are dropped), grouped
      by key in sorted key order, each group in its original row order. There
      is no group exactly when no row has a key. */
  function Regroup(t: Table, key: string): (res: Result<Table, Error>)
    ensures res.Ok? <==> key in t.columns
    ensures res.Ok? ==> res.value.columns == t.columns
    ensures res.Ok? && WellFormed(t) ==> WellFormed(res.value)
    ensures res.Ok? ==> multiset(res.value.rows) == multiset(RowsWithKey(t.rows, key))
    ensures res.Ok? ==> (res.value.rows != [] <==> HasKeyedRow(t.rows, key))
  {
    if key !in t.columns then Err(MissingColumn(key))
    else
      var rows := Sorting.InsertionSort(RowsWithKey(t.rows, key), KeyOrder(key));
      assert WellFormed(t) ==> forall i :: 0 <= i < |rows| ==> rows[i] in multiset(t.rows);
      Ok(Table(t.columns, rows))
  }

  /** The regrouped rows are in key order, and rows with equal keys keep their
      relative order. */
  lemma RegroupOrder(t: Table, key: string, y: Row)
    requires key in t.columns
    ensures Sorting.Sorted(Regroup(t, key).value.rows, KeyOrder(key))
    ensures Sorting.Filter(Regroup(t, key).value.rows, e => Sorting.Tie(KeyOrder(key), e, y))
         == Sorting.Filter(RowsWithKey(t.rows, key), e => Sorting.Tie(KeyOrder(key), e, y))
  {
    KeyOrderIsTotalPreorder(key);
    Sorting.SortSorted(RowsWithKey(t.rows, key), KeyOrder(key));
    Sorting.SortStable(RowsWithKey(t.rows, key), KeyOrder(key), y);
  }
}
