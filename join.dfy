/** The reconciliation join of process_data: job-classification rows are
    matched to pay-journal rows on (employee number, last name), the merged
    rows are split by cost centre, each part is matched to the charge sheet on
    job classification and named after its cost centre. */
module JoinEngine {
  import opened Wrappers
  import opened Strings
  import opened Tables

  /** The workbook's labels for the two columns the journal names differently. */
  const ColumnMapping: map<string, string> := map["Employee Number" := "Employee No.", "First Name" := "Given Names"]
  const JoinKeys: seq<string> := ["Employee No.", "Last Name"]

  /** The job-classification sheet under the journal's column labels. */
  function Renamed(jobs: Table): Result<Table, Error>
    requires WellFormed(jobs)
  {
    RenameColumns(jobs, ColumnMapping)
  }

  /** Rename, inner join on the composite key, drop the journal's copy of
      "Given Names" and give the job sheet's copy its plain label. */
  function MergeSources(jobs: Table, journal: Table): (res: Result<Table, Error>)
    requires WellFormed(jobs) && WellFormed(journal)
    ensures res.Ok? ==> WellFormed(res.value) && "Given Names_y" !in res.value.columns
    ensures res.Ok? ==> Renamed(jobs).Ok?
  {
    var left :- Renamed(jobs);
    var merged :- Merge(left, journal, JoinKeys);
    var dropped :- DropColumn(merged, "Given Names_y");
    RenameColumns(dropped, map["Given Names_x" := "Given Names"])
  }

  /** The intermediate frames of MergeSources and the facts about them that
      the row-by-row statement below rests on. */
  lemma MergeSourcesSteps(jobs: Table, journal: Table) returns (left: Table, merged: Table, dropped: Table)
    requires WellFormed(jobs) && WellFormed(journal)
    requires MergeSources(jobs, journal).Ok?
    requires "Given Names" in Renamed(jobs).value.columns && "Given Names" in journal.columns
    ensures Renamed(jobs) == Ok(left) && WellFormed(left)
    ensures Merge(left, journal, JoinKeys) == Ok(merged) && WellFormed(merged)
    ensures DropColumn(merged, "Given Names_y") == Ok(dropped) && WellFormed(dropped)
    ensures MergeSources(jobs, journal) == RenameColumns(dropped, map["Given Names_x" := "Given Names"])
    ensures Suffixed("Given Names", Overlap(left, journal, JoinKeys), "_x") == "Given Names_x"
    ensures "Employee No." !in Overlap(left, journal, JoinKeys) && "Last Name" !in Overlap(left, journal, JoinKeys)
    ensures "Employee No." in left.columns && "Last Name" in left.columns
    ensures "Given Names_x" in dropped.columns && "Given Names" in MergeSources(jobs, journal).value.columns
    ensures |merged.rows| == |dropped.rows| == |MergeSources(jobs, journal).value.rows|
    ensures |merged.rows| == |JoinPairs(left.rows, journal.rows, JoinKeys, 0)|
  {
    left := Renamed(jobs).value;
    merged := Merge(left, journal, JoinKeys).value;
    dropped := DropColumn(merged, "Given Names_y").value;
    SourcesChain(jobs, journal, left, merged, dropped);
    GivenNamesOverlap(left, journal);
    assert "Given Names_x" in merged.columns;
    assert "Given Names_x" in dropped.columns;
    assert Relabel("Given Names_x", map["Given Names_x" := "Given Names"]) == "Given Names";
    assert "Employee No." in left.columns && "Last Name" in left.columns by {
      assert JoinKeys[0] in merged.columns && JoinKeys[1] in merged.columns;
    }
  }

  lemma SourcesChain(jobs: Table, journal: Table, left: Table, merged: Table, dropped: Table)
    requires WellFormed(jobs) && WellFormed(journal) && WellFormed(left) && WellFormed(merged)
    requires Renamed(jobs) == Ok(left) && Merge(left, journal, JoinKeys) == Ok(merged)
    requires DropColumn(merged, "Given Names_y") == Ok(dropped)
    ensures MergeSources(jobs, journal) == RenameColumns(dropped, map["Given Names_x" := "Given Names"])
  {
  }

  /** Only "Given Names" of the two sheets' shared labels is not a key. */
  lemma GivenNamesOverlap(left: Table, journal: Table)
    requires "Given Names" in left.columns && "Given Names" in journal.columns
    ensures var overlap := Overlap(left, journal, JoinKeys);
            "Given Names" in overlap && "Employee No." !in overlap && "Last Name" !in overlap
            && Suffixed("Given Names", overlap, "_x") == "Given Names_x"
  {
    assert KeySet(JoinKeys) == {"Employee No.", "Last Name"} by {
      assert JoinKeys[0] == "Employee No." && JoinKeys[1] == "Last Name";
    }
  }

  /** A left cell followed through merge, drop and rename. */
  lemma MergeDropRenameCell(left: Table, right: Table, on: seq<string>, drop: string, m: map<string, string>,
                            merged: Table, dropped: Table, res: Table, k: int, c: string)
    requires WellFormed(left) && WellFormed(right)
    requires Merge(left, right, on) == Ok(merged)
    requires WellFormed(merged) && DropColumn(merged, drop) == Ok(dropped)
    requires WellFormed(dropped) && RenameColumns(dropped, m) == Ok(res)
    requires 0 <= k < |JoinPairs(left.rows, right.rows, on, 0)| && c in left.columns
    requires Suffixed(c, Overlap(left, right, on), "_x") != drop
    ensures var i := JoinPairs(left.rows, right.rows, on, 0)[k].0;
            && k < |res.rows| && 0 <= i < |left.rows|
            && Cell(res.rows[k], Relabel(Suffixed(c, Overlap(left, right, on), "_x"), m)) == Cell(left.rows[i], c)
  {
    var name := Suffixed(c, Overlap(left, right, on), "_x");
    MergeLeftCell(left, right, on, k, c);
    DropColumnCell(merged, drop, k, name);
    RenameColumnsCell(dropped, m, k, name);
  }

  /** Merged row k carries the given name of the job row it was built from. */
  lemma MergeSourcesRowName(jobs: Table, journal: Table, left: Table, k: int)
    requires WellFormed(jobs) && WellFormed(journal) && Renamed(jobs) == Ok(left)
    requires MergeSources(jobs, journal).Ok?
    requires "Given Names" in left.columns && "Given Names" in journal.columns
    requires 0 <= k < |JoinPairs(left.rows, journal.rows, JoinKeys, 0)|
    ensures var res := MergeSources(jobs, journal).value;
            var i := JoinPairs(left.rows, journal.rows, JoinKeys, 0)[k].0;
            && k < |res.rows| && 0 <= i < |left.rows|
            && Cell(res.rows[k], "Given Names") == Cell(left.rows[i], "Given Names")
  {
    var left', merged, dropped := MergeSourcesSteps(jobs, journal);
    var m := map["Given Names_x" := "Given Names"];
    assert Relabel("Given Names_x", m) == "Given Names";
    MergeDropRenameCell(left, journal, JoinKeys, "Given Names_y", m, merged, dropped,
                        MergeSources(jobs, journal).value, k, "Given Names");
  }

  /** Merged row k carries the join key c of the job row it was built from. */
  lemma MergeSourcesRowKey(jobs: Table, journal: Table, left: Table, k: int, c: string)
    requires WellFormed(jobs) && WellFormed(journal) && Renamed(jobs) == Ok(left)
    requires MergeSources(jobs, journal).Ok?
    requires "Given Names" in left.columns && "Given Names" in journal.columns
    requires 0 <= k < |JoinPairs(left.rows, journal.rows, JoinKeys, 0)|
    requires c in left.columns && c !in Overlap(left, journal, JoinKeys)
    requires c != "Given Names_y" && Relabel(c, map["Given Names_x" := "Given Names"]) == c
    ensures var res := MergeSources(jobs, journal).value;
            var i := JoinPairs(left.rows, journal.rows, JoinKeys, 0)[k].0;
            && k < |res.rows| && 0 <= i < |left.rows|
            && Cell(res.rows[k], c) == Cell(left.rows[i], c)
  {
    var left', merged, dropped := MergeSourcesSteps(jobs, journal);
    MergeDropRenameCell(left, journal, JoinKeys, "Given Names_y", map["Given Names_x" := "Given Names"],
                        merged, dropped, MergeSources(jobs, journal).value, k, c);
  }

  lemma FinalRenameKeepsKeys()
    ensures var m := map["Given Names_x" := "Given Names"];
            Relabel("Employee No.", m) == "Employee No." && Relabel("Last Name", m) == "Last Name"
  {
  }

  /** Every merged row is one agreeing (job row, journal row) pair, in job-row
      order, and carries the job sheet's given name and both join keys. */
  lemma MergeSourcesKeepsJobSide(jobs: Table, journal: Table, left: Table)
    requires WellFormed(jobs) && WellFormed(journal) && Renamed(jobs) == Ok(left)
    requires MergeSources(jobs, journal).Ok?
    requires "Given Names" in left.columns && "Given Names" in journal.columns
    ensures var res := MergeSources(jobs, journal).value;
            var pairs := JoinPairs(left.rows, journal.rows, JoinKeys, 0);
            && "Given Names" in res.columns
            && |res.rows| == |pairs|
            && forall k :: 0 <= k < |pairs| ==>
                 && Cell(res.rows[k], "Given Names") == Cell(left.rows[pairs[k].0], "Given Names")
                 && Cell(res.rows[k], "Employee No.") == Cell(left.rows[pairs[k].0], "Employee No.")
                 && Cell(res.rows[k], "Last Name") == Cell(left.rows[pairs[k].0], "Last Name")
  {
    var _, _, _ := MergeSourcesSteps(jobs, journal);
    var res := MergeSources(jobs, journal).value;
    var pairs := JoinPairs(left.rows, journal.rows, JoinKeys, 0);
    forall k | 0 <= k < |pairs|
      ensures && Cell(res.rows[k], "Given Names") == Cell(left.rows[pairs[k].0], "Given Names")
              && Cell(res.rows[k], "Employee No.") == Cell(left.rows[pairs[k].0], "Employee No.")
              && Cell(res.rows[k], "Last Name") == Cell(left.rows[pairs[k].0], "Last Name")
    {
      FinalRenameKeepsKeys();
      MergeSourcesRowName(jobs, journal, left, k);
      MergeSourcesRowKey(jobs, journal, left, k, "Employee No.");
      MergeSourcesRowKey(jobs, journal, left, k, "Last Name");
    }
  }

  /** Two cost centres name the same partition file exactly when they differ
      only by spaces standing where the other has underscores. */
  predicate SameUpToSpaces(a: string, b: string) {
    |a| == |b| && forall i :: 0 <= i < |a| ==> a[i] == b[i] || (a[i] in {' ', '_'} && b[i] in {' ', '_'})
  }

  /** f"{cost_centre.replace(' ', '_')}.csv". */
  function FileName(costCentre: string): (name: string)
    ensures ' ' !in name && EndsWith(name, ".csv") && |name| == |costCentre| + 4
  {
    var name := ReplaceChar(costCentre, ' ', '_') + ".csv";
    assert name[|name| - 4..] == ".csv";
    name
  }

  lemma FileNameCollision(a: string, b: string)
    ensures FileName(a) == FileName(b) <==> SameUpToSpaces(a, b)
  {
    var ra, rb := ReplaceChar(a, ' ', '_'), ReplaceChar(b, ' ', '_');
    if FileName(a) == FileName(b) {
      assert ra == FileName(a)[..|a|] && rb == FileName(b)[..|b|];
      forall i | 0 <= i < |a| ensures a[i] == b[i] || (a[i] in {' ', '_'} && b[i] in {' ', '_'}) {
        assert ra[i] == rb[i];
      }
    }
    if SameUpToSpaces(a, b) {
      assert ra == rb;
    }
  }

  /** One partition written to the output folder. */
  datatype Partition = Partition(costCentre: Value, fileName: string, table: Table)

  /** merged_data[merged_data["Cost Centre"] == cc]: NaN equals nothing. */
  function Selected(merged: Table, cc: Value): (t: Table)
    requires WellFormed(merged)
    ensures WellFormed(t) && t.columns == merged.columns
    ensures forall k :: 0 <= k < |t.rows| ==> Cell(t.rows[k], "Cost Centre") == cc && !cc.Missing?
    ensures forall row :: row in t.rows <==> row in merged.rows && Cell(row, "Cost Centre") == cc && !cc.Missing?
  {
    if cc.Missing? then Table(merged.columns, [])
    else
      var rows := RowsWhere(merged.rows, "Cost Centre", cc);
      assert forall k :: 0 <= k < |rows| ==> rows[k] in merged.rows;
      Table(merged.columns, rows)
  }

  /** One iteration of the partition loop: select, join to the charge sheet on
      job classification, index by employee number, name the file. */
  function PartitionFor(merged: Table, charges: Table, cc: Value): (res: Result<Partition, Error>)
    requires WellFormed(merged) && WellFormed(charges)
    ensures res.Ok? ==> cc.Text? && res.value.costCentre == cc && res.value.fileName == FileName(cc.s)
    ensures res.Ok? ==> WellFormed(res.value.table) && "Employee No." in res.value.table.columns
    ensures res.Ok? ==> Merge(Selected(merged, cc), charges, ["Job Classification"]) == Ok(res.value.table)
    ensures res.Ok? ==>
              |res.value.table.rows| == |JoinPairs(Selected(merged, cc).rows, charges.rows, ["Job Classification"], 0)|
    ensures res.Err? && cc.Text? && Merge(Selected(merged, cc), charges, ["Job Classification"]).Ok? ==>
              "Employee No." !in Merge(Selected(merged, cc), charges, ["Job Classification"]).value.columns
  {
    var selected := Selected(merged, cc);
    var joined :- Merge(selected, charges, ["Job Classification"]);
    if "Employee No." !in joined.columns then Err(MissingColumn("Employee No."))
    else if !cc.Text? then Err(NotText("Cost Centre"))
    else Ok(Partition(cc, FileName(cc.s), joined))
  }

  /** The loop over the cost centres for a per-centre step, in order; the
      first centre whose step fails ends the loop with its error. */
  function EachCentre(ccs: seq<Value>, step: Value --> Result<Partition, Error>): Result<seq<Partition>, Error>
    requires forall k :: 0 <= k < |ccs| ==> step.requires(ccs[k])
    decreases |ccs|
  {
    if ccs == [] then Ok([])
    else
      var p :- step(ccs[0]);
      var rest :- EachCentre(ccs[1..], step);
      Ok([p] + rest)
  }

  /** The loop succeeds exactly when every centre's step does, and then its
      k-th partition is the k-th centre's. */
  lemma {:induction false} EachCentreOutcome(ccs: seq<Value>, step: Value --> Result<Partition, Error>)
    requires forall k :: 0 <= k < |ccs| ==> step.requires(ccs[k])
    ensures EachCentre(ccs, step).Ok? <==> forall k :: 0 <= k < |ccs| ==> step(ccs[k]).Ok?
    ensures EachCentre(ccs, step).Ok? ==>
              |EachCentre(ccs, step).value| == |ccs|
              && forall k :: 0 <= k < |ccs| ==> step(ccs[k]) == Ok(EachCentre(ccs, step).value[k])
    decreases |ccs|
  {
    if ccs != [] {
      var tail := ccs[1..];
      assert forall k :: 1 <= k < |ccs| ==> ccs[k] == tail[k - 1];
      EachCentreOutcome(tail, step);
      if EachCentre(ccs, step).Ok? {
        var all := EachCentre(ccs, step).value;
        var rest := EachCentre(tail, step).value;
        assert all == [step(ccs[0]).value] + rest;
        forall k | 1 <= k < |ccs|
          ensures step(ccs[k]) == Ok(all[k])
        {
          assert all[k] == rest[k - 1];
        }
      } else if step(ccs[0]).Ok? {
        assert EachCentre(tail, step).Err?;
      }
    }
  }

  /** The partition loop over merged_data["Cost Centre"].unique(): one
      partition per distinct cost centre, in order of first appearance. */
  function Partitions(merged: Table, charges: Table): (res: Result<seq<Partition>, Error>)
    requires WellFormed(merged) && WellFormed(charges)
    ensures res.Ok? ==> "Cost Centre" in merged.columns
    ensures res.Ok? ==> |res.value| == |Unique(Column(merged, "Cost Centre"))|
    ensures res.Ok? ==> forall k :: 0 <= k < |res.value| ==>
              res.value[k].costCentre == Unique(Column(merged, "Cost Centre"))[k]
    ensures res.Ok? ==> forall k, j :: 0 <= k < j < |res.value| ==> res.value[k].costCentre != res.value[j].costCentre
    ensures res.Ok? ==> forall k :: 0 <= k < |res.value| ==>
              PartitionFor(merged, charges, res.value[k].costCentre) == Ok(res.value[k])
  {
    if "Cost Centre" !in merged.columns then Err(MissingColumn("Cost Centre"))
    else
      var ccs := Unique(Column(merged, "Cost Centre"));
      var step := cc requires WellFormed(merged) && WellFormed(charges) => PartitionFor(merged, charges, cc);
      EachCentreOutcome(ccs, step);
      EachCentre(ccs, step)
  }

  /** The selections the partitions are built from use every merged row
      exactly once (the journal side's cost centres are never NaN, having
      been filled with 0 on loading). */
  lemma PartitionsCoverMergedRows(merged: Table)
    requires WellFormed(merged)
    requires forall k :: 0 <= k < |merged.rows| ==> !Cell(merged.rows[k], "Cost Centre").Missing?
    ensures var ccs := Unique(Column(merged, "Cost Centre"));
            multiset(SelectedRows(merged, ccs)) == multiset(merged.rows)
  {
    var ccs := Unique(Column(merged, "Cost Centre"));
    assert forall v :: v in ccs ==> !v.Missing?;
    SelectedRowsAreSelections(merged, ccs);
    PartitionIsPermutation(merged, "Cost Centre");
  }

  /** The rows selected for each of ccs, one cost centre after another. */
  function SelectedRows(merged: Table, ccs: seq<Value>): seq<Row>
    requires WellFormed(merged)
    decreases |ccs|
  {
    if ccs == [] then [] else Selected(merged, ccs[0]).rows + SelectedRows(merged, ccs[1..])
  }

  lemma {:induction false} SelectedRowsAreSelections(merged: Table, ccs: seq<Value>)
    requires WellFormed(merged)
    requires forall k :: 0 <= k < |ccs| ==> !ccs[k].Missing?
    ensures SelectedRows(merged, ccs) == Selections(merged.rows, "Cost Centre", ccs)
    decreases |ccs|
  {
    if ccs != [] {
      SelectedRowsAreSelections(merged, ccs[1..]);
    }
  }

  /** The output folder after the loop: one file per partition name, the last
      partition written under a name being the one it holds. */
  function Checkpoints(parts: seq<Partition>): (folder: map<string, Table>)
    ensures forall name :: name in folder <==> exists k :: 0 <= k < |parts| && parts[k].fileName == name
    ensures |parts| > 0 ==> folder[parts[|parts| - 1].fileName] == parts[|parts| - 1].table
    decreases |parts|
  {
    if parts == [] then map[]
    else
      var init := parts[..|parts| - 1];
      var last := parts[|parts| - 1];
      assert forall k :: 0 <= k < |init| ==> init[k] == parts[k];
      Checkpoints(init)[last.fileName := last.table]
  }

  /** Last writer wins: a partition's file holds its table unless a later
      partition has the same name. */
  lemma {:induction false} CheckpointsLastWriter(parts: seq<Partition>, k: nat)
    requires k < |parts|
    requires forall j :: k < j < |parts| ==> parts[j].fileName != parts[k].fileName
    ensures Checkpoints(parts)[parts[k].fileName] == parts[k].table
    decreases |parts|
  {
    if k < |parts| - 1 {
      var init := parts[..|parts| - 1];
      CheckpointsLastWriter(init, k);
    }
  }

  /** The collision is real: "Ops A" and "Ops_A" write the same file, and only
      the later one survives. */
  lemma CollidingCostCentresOverwrite(t1: Table, t2: Table)
    ensures var p1 := Partition(Text("Ops A"), FileName("Ops A"), t1);
            var p2 := Partition(Text("Ops_A"), FileName("Ops_A"), t2);
            Checkpoints([p1, p2]) == map["Ops_A.csv" := t2]
  {
    var r := ReplaceChar("Ops_A", ' ', '_');
    assert r == "Ops_A" by {
      assert |r| == 5;
      forall i | 0 <= i < 5 ensures r[i] == "Ops_A"[i] { }
    }
    assert FileName("Ops_A") == "Ops_A.csv";
    assert FileName("Ops A") == FileName("Ops_A") by {
      FileNameCollision("Ops A", "Ops_A");
    }
    var p1 := Partition(Text("Ops A"), FileName("Ops A"), t1);
    var p2 := Partition(Text("Ops_A"), FileName("Ops_A"), t2);
    assert [p1, p2][..1] == [p1];
    assert [p1][..0] == [];
    assert Checkpoints([p1]) == map["Ops_A.csv" := t1];
  }

}
