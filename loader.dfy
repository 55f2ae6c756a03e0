/** DataProcessor's loading stage: each input path is routed by its extension,
    a pay journal (CSV) is filled and grouped by cost centre, a workbook
    contributes its job-classification and charge sheets grouped by job
    classification, and any other path is skipped with a notice. Reading the
    files is outside the model: `journalOf` and `sheetsOf` stand for what
    read_csv and read_excel return for a path. */
module Loader {
  import opened Wrappers
  import opened Strings
  import opened Tables
  import Rates

  const JobsSheet := "Job_Classifications"
  const ChargeSheet := "Charge Sheet"

  datatype Route = CsvRoute | WorkbookRoute | Skip

  /** The branch str.endswith picks: ".csv", then ".xlsx" or ".xlsm". */
  function Dispatch(path: string): Route {
    if EndsWith(path, ".csv") then CsvRoute
    else if EndsWith(path, ".xlsx") || EndsWith(path, ".xlsm") then WorkbookRoute
    else Skip
  }

  /** What one loaded file contributes, already regrouped (the groupby and the
      concat that follows it in process_data). */
  datatype Grouped = Journal(rows: Table) | Workbook(jobs: Table, charges: Table)

  /** process_csv: fillna(0), then group by "Cost Centre". */
  function ProcessCsv(t: Table): (res: Result<Table, Error>)
    ensures res.Ok? <==> "Cost Centre" in t.columns
    ensures res.Ok? && WellFormed(t) ==>
              WellFormed(res.value) && multiset(res.value.rows) == multiset(FillNa(t).rows)
    ensures res.Ok? && WellFormed(t) ==> (res.value.rows != [] <==> t.rows != [])
  {
    var filled := FillNa(t);
    if WellFormed(t) && "Cost Centre" in t.columns then
      // fillna(0) leaves no NaN key for groupby to drop
      RowsWithKeyAll(filled.rows, "Cost Centre");
      Regroup(filled, "Cost Centre")
    else Regroup(filled, "Cost Centre")
  }

  /** One sheet, grouped by "Job Classification" when the workbook has it. */
  function GroupSheet(sheets: map<string, Table>, name: string): Result<Option<Table>, Error> {
    if name !in sheets then Ok(None)
    else
      var t :- Regroup(sheets[name], "Job Classification");
      Ok(Some(t))
  }

  /** process_xlsx: the two named sheets, each grouped by job classification;
      a KeyError when either sheet is missing. */
  function ProcessXlsx(sheets: map<string, Table>): (res: Result<(Table, Table), Error>)
    ensures res.Ok? <==>
              && JobsSheet in sheets && "Job Classification" in sheets[JobsSheet].columns
              && ChargeSheet in sheets && "Job Classification" in sheets[ChargeSheet].columns
    ensures (JobsSheet !in sheets && (ChargeSheet in sheets ==> "Job Classification" in sheets[ChargeSheet].columns))
            ==> res == Err(MissingSheet(JobsSheet))
    ensures (JobsSheet in sheets && "Job Classification" in sheets[JobsSheet].columns && ChargeSheet !in sheets)
            ==> res == Err(MissingSheet(ChargeSheet))
    ensures res.Ok? ==>
              && multiset(res.value.0.rows) == multiset(RowsWithKey(sheets[JobsSheet].rows, "Job Classification"))
              && multiset(res.value.1.rows) == multiset(RowsWithKey(sheets[ChargeSheet].rows, "Job Classification"))
  {
    var jobs :- GroupSheet(sheets, JobsSheet);
    var charges :- GroupSheet(sheets, ChargeSheet);
    if jobs.None? then Err(MissingSheet(JobsSheet))
    else if charges.None? then Err(MissingSheet(ChargeSheet))
    else Ok((jobs.value, charges.value))
  }

  /** Sheets other than the two named ones make no difference. */
  lemma ProcessXlsxIgnoresOtherSheets(sheets: map<string, Table>, name: string, t: Table)
    requires name != JobsSheet && name != ChargeSheet
    ensures ProcessXlsx(sheets[name := t]) == ProcessXlsx(sheets)
  {
    var sheets' := sheets[name := t];
    assert GroupSheet(sheets', JobsSheet) == GroupSheet(sheets, JobsSheet);
    assert GroupSheet(sheets', ChargeSheet) == GroupSheet(sheets, ChargeSheet);
  }

  /** One iteration of process_and_return_data: the grouped data for the
      path, or None when the path is skipped. */
  function ProcessPath(path: string, journalOf: string -> Table, sheetsOf: string -> map<string, Table>)
    : Result<Option<Grouped>, Error>
  {
    match Dispatch(path)
    case CsvRoute =>
      var t :- ProcessCsv(journalOf(path));
      Ok(Some(Journal(t)))
    case WorkbookRoute =>
      var b :- ProcessXlsx(sheetsOf(path));
      Ok(Some(Workbook(b.0, b.1)))
    case Skip => Ok(None)
  }

  /** The dictionary process_and_return_data returns, or the first exception it
      raises: every supported path maps to its grouped data, no other path is a
      key, and the first path that fails stops the batch with its error. */
  function Load(paths: seq<string>, journalOf: string -> Table, sheetsOf: string -> map<string, Table>)
    : (res: Result<map<string, Grouped>, Error>)
    ensures res.Ok? <==> forall i :: 0 <= i < |paths| ==> ProcessPath(paths[i], journalOf, sheetsOf).Ok?
    ensures res.Ok? ==> forall p :: p in res.value <==> p in paths && Dispatch(p) != Skip
    ensures res.Ok? ==> forall p :: p in res.value ==> ProcessPath(p, journalOf, sheetsOf) == Ok(Some(res.value[p]))
    ensures res.Err? ==> exists i :: 0 <= i < |paths| && ProcessPath(paths[i], journalOf, sheetsOf) == Err(res.error)
    decreases |paths|
  {
    if paths == [] then Ok(map[])
    else
      var last := paths[|paths| - 1];
      var init := paths[..|paths| - 1];
      assert forall i :: 0 <= i < |init| ==> init[i] == paths[i];
      assert forall p :: p in paths <==> p in init || p == last;
      var m :- Load(init, journalOf, sheetsOf);
      var g :- ProcessPath(last, journalOf, sheetsOf);
      if g.None? then Ok(m) else Ok(m[last := g.value])
  }

  /** The paths announced as unsupported, in order. */
  function SkippedPaths(paths: seq<string>): (r: seq<string>)
    ensures forall p :: p in r <==> p in paths && Dispatch(p) == Skip
    decreases |paths|
  {
    if paths == [] then []
    else
      var init := paths[..|paths| - 1];
      assert forall p :: p in paths <==> p in init || p == paths[|paths| - 1];
      SkippedPaths(init) + (if Dispatch(paths[|paths| - 1]) == Skip then [paths[|paths| - 1]] else [])
  }

  /** Once path k fails after a clean prefix, the batch ends with k's error. */
  lemma {:induction false} LoadStopsAtFirstError(paths: seq<string>, k: nat,
                                                 journalOf: string -> Table, sheetsOf: string -> map<string, Table>)
    requires k < |paths|
    requires Load(paths[..k], journalOf, sheetsOf).Ok?
    requires ProcessPath(paths[k], journalOf, sheetsOf).Err?
    ensures Load(paths, journalOf, sheetsOf) == Err(ProcessPath(paths[k], journalOf, sheetsOf).error)
    decreases |paths|
  {
    var init := paths[..|paths| - 1];
    if k == |paths| - 1 {
      assert paths[..k] == init;
    } else {
      assert init[..k] == paths[..k] && init[k] == paths[k];
      LoadStopsAtFirstError(init, k, journalOf, sheetsOf);
    }
  }

  /** A path that processes cleanly extends the dictionary built so far. */
  lemma LoadStep(paths: seq<string>, k: nat, m: map<string, Grouped>, g: Option<Grouped>,
                 journalOf: string -> Table, sheetsOf: string -> map<string, Table>)
    requires k < |paths|
    requires Load(paths[..k], journalOf, sheetsOf) == Ok(m)
    requires ProcessPath(paths[k], journalOf, sheetsOf) == Ok(g)
    ensures Load(paths[..k + 1], journalOf, sheetsOf) == Ok(if g.None? then m else m[paths[k] := g.value])
    ensures SkippedPaths(paths[..k + 1])
         == SkippedPaths(paths[..k]) + (if Dispatch(paths[k]) == Skip then [paths[k]] else [])
  {
    assert paths[..k + 1][..k] == paths[..k];
  }

  /** The body of the loop over the paths: the branch on the extension. */
  method ProcessOne(path: string, journalOf: string -> Table, sheetsOf: string -> map<string, Table>)
    returns (g: Result<Option<Grouped>, Error>)
    ensures g == ProcessPath(path, journalOf, sheetsOf)
  {
    match Dispatch(path) {
      case CsvRoute =>
        var t := ProcessCsv(journalOf(path));
        if t.Err? {
          return Err(t.error);
        }
        g := Ok(Some(Journal(t.value)));
      case WorkbookRoute =>
        var b := ProcessXlsx(sheetsOf(path));
        if b.Err? {
          return Err(b.error);
        }
        g := Ok(Some(Workbook(b.value.0, b.value.1)));
      case Skip =>
        g := Ok(None);
    }
  }

  /** process_and_return_data: walks the paths in order, filling the dictionary
      and collecting the paths it announces as skipped. */
  method ProcessAndReturnData(paths: seq<string>, journalOf: string -> Table, sheetsOf: string -> map<string, Table>)
    returns (res: Result<map<string, Grouped>, Error>, skipped: seq<string>)
    ensures res == Load(paths, journalOf, sheetsOf)
    ensures res.Ok? ==> skipped == SkippedPaths(paths)
  {
    var grouped: map<string, Grouped> := map[];
    skipped := [];
    var k := 0;
    assert paths[..0] == [];
    while k < |paths|
      invariant 0 <= k <= |paths|
      invariant Load(paths[..k], journalOf, sheetsOf) == Ok(grouped)
      invariant skipped == SkippedPaths(paths[..k])
    {
      var path := paths[k];
      var g := ProcessOne(path, journalOf, sheetsOf);
      if g.Err? {
        LoadStopsAtFirstError(paths, k, journalOf, sheetsOf);
        return Err(g.error), skipped;
      }
      LoadStep(paths, k, grouped, g.value, journalOf, sheetsOf);
      if g.value.Some? {
        grouped := grouped[path := g.value.value];
      }
      if Dispatch(path) == Skip {
        skipped := skipped + [path];
      }
      assert skipped == SkippedPaths(paths[..k + 1]);
      k := k + 1;
    }
    assert paths[..k] == paths;
    res := Ok(grouped);
  }

  /** A grouping pd.concat can put back together: it has at least one group
      (both sheets, for a workbook). */
  predicate HasGroups(g: Grouped) {
    match g
    case Journal(t) => t.rows != []
    case Workbook(jobs, charges) => jobs.rows != [] && charges.rows != []
  }

  /** The concat loop at the start of process_data, over every loaded file and
      both sheets of a workbook: pd.concat raises ValueError when a grouping
      has no group; otherwise the groups put back together are the regrouped
      frames themselves. The error does not depend on which grouping is
      empty, so the order of the loop does not matter. */
  function FileData(loaded: map<string, Grouped>): (res: Result<map<string, Grouped>, Error>)
    ensures res.Ok? ==> res.value == loaded
    ensures res.Err? ==> res.error == NoGroups
  {
    if forall p :: p in loaded ==> HasGroups(loaded[p]) then Ok(loaded) else Err(NoGroups)
  }

  /** What the concat loop needs of one input path: a journal with at least
      one row, and a workbook whose two sheets each have a row with a job
      classification. */
  predicate Concatenable(path: string, journalOf: string -> Table, sheetsOf: string -> map<string, Table>) {
    match Dispatch(path)
    case CsvRoute => journalOf(path).rows != []
    case WorkbookRoute =>
      && JobsSheet in sheetsOf(path) && HasKeyedRow(sheetsOf(path)[JobsSheet].rows, "Job Classification")
      && ChargeSheet in sheetsOf(path) && HasKeyedRow(sheetsOf(path)[ChargeSheet].rows, "Job Classification")
    case Skip => true
  }

  /** One loaded path's grouping has groups exactly when its input does. */
  lemma GroupsOfPath(path: string, g: Grouped, journalOf: string -> Table, sheetsOf: string -> map<string, Table>)
    requires WellFormed(journalOf(path))
    requires ProcessPath(path, journalOf, sheetsOf) == Ok(Some(g))
    ensures HasGroups(g) <==> Concatenable(path, journalOf, sheetsOf)
  {
    if Dispatch(path) == WorkbookRoute {
      var b := ProcessXlsx(sheetsOf(path)).value;
      var jobs := Regroup(sheetsOf(path)[JobsSheet], "Job Classification").value;
      var charges := Regroup(sheetsOf(path)[ChargeSheet], "Job Classification").value;
      assert b == (jobs, charges);
    }
  }

  /** After a clean load, process_data's concat loop raises exactly when some
      journal is empty or some workbook sheet has no classified row. A KeyError
      of the load comes first, since every path is grouped before anything is
      concatenated. */
  lemma {:induction false} FileDataOutcome(paths: seq<string>, loaded: map<string, Grouped>,
                        journalOf: string -> Table, sheetsOf: string -> map<string, Table>)
    requires forall i :: 0 <= i < |paths| ==> WellFormed(journalOf(paths[i]))
    requires Load(paths, journalOf, sheetsOf) == Ok(loaded)
    ensures FileData(loaded).Ok? <==> forall i :: 0 <= i < |paths| ==> Concatenable(paths[i], journalOf, sheetsOf)
  {
    forall i | 0 <= i < |paths|
      ensures Concatenable(paths[i], journalOf, sheetsOf) <==> (paths[i] in loaded ==> HasGroups(loaded[paths[i]]))
    {
      LoadedPath(paths, loaded, i, journalOf, sheetsOf);
    }
    assert forall p :: p in loaded ==> p in paths;
  }

  /** Path i of a clean load needs nothing of the concat loop when it was
      skipped, and otherwise needs its grouping to have groups. */
  lemma {:induction false} LoadedPath(paths: seq<string>, loaded: map<string, Grouped>, i: int,
                   journalOf: string -> Table, sheetsOf: string -> map<string, Table>)
    requires 0 <= i < |paths| && WellFormed(journalOf(paths[i]))
    requires Load(paths, journalOf, sheetsOf) == Ok(loaded)
    ensures Concatenable(paths[i], journalOf, sheetsOf) <==> (paths[i] in loaded ==> HasGroups(loaded[paths[i]]))
  {
    var p := paths[i];
    if p in loaded {
      GroupsOfPath(p, loaded[p], journalOf, sheetsOf);
    }
  }

  /** The three tables the join reads out of file_data (data1, data2 and
      data3): the journal by its path, the two sheets under the workbook path
      with "_0" and "_1" appended; a KeyError for a path that was not loaded as
      that kind of file. The service revision does these lookups inside
      `for file_path in file_data`, so with no file loaded the loop body never
      runs: there is no pass (None), no error and nothing is written. The
      script revision does them unconditionally. */
  function Inputs(fileData: map<string, Grouped>, journalPath: string, workbookPath: string, rev: Rates.Revision)
    : (res: Result<Option<(Table, Table, Table)>, Error>)
    ensures res == Ok(None) <==> rev == Rates.Service && fileData == map[]
    ensures res.Ok? && res.value.Some? <==>
              && (rev == Rates.Script || fileData != map[])
              && journalPath in fileData && fileData[journalPath].Journal?
              && workbookPath in fileData && fileData[workbookPath].Workbook?
    ensures res.Ok? && res.value.Some? ==>
              res.value.value == (fileData[journalPath].rows, fileData[workbookPath].jobs, fileData[workbookPath].charges)
    ensures res.Err? ==> res.error in {MissingSource(journalPath), MissingSource(workbookPath + "_0")}
  {
    if rev == Rates.Service && fileData == map[] then Ok(None)
    else if journalPath !in fileData || !fileData[journalPath].Journal? then Err(MissingSource(journalPath))
    else if workbookPath !in fileData || !fileData[workbookPath].Workbook? then Err(MissingSource(workbookPath + "_0"))
    else Ok(Some((fileData[journalPath].rows, fileData[workbookPath].jobs, fileData[workbookPath].charges)))
  }
}
