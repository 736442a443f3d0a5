/**
 The script's main block: seed the merge context, fetch the rows, and for
 each row in order map its cells onto the columns, derive the document name,
 update the context in place and merge, reporting the row's 1-based number
 with the result.
 */
module Driver {
  import opened Wrappers
  import opened PyStr
  import opened PyDict
  import opened Domain
  import opened Config
  import opened DataSource
  import opened Template

  const InitialKeys: seq<string> := Columns + ["date"]

  /** The `merge` dict before the loop: `None` for each column, then the static `date` entry. */
  function InitialContext(date: string): (c: Context)
    ensures c.Valid()
    ensures c.keys == InitialKeys
    ensures forall j :: 0 <= j < |Columns| ==> c.vals[Columns[j]] == Null
    ensures c.vals["date"] == Text(date)
  {
    Dict(InitialKeys,
         map["NAME" := Null, "ADDRESS" := Null, "CITY" := Null, "STATE" := Null, "ZIP" := Null,
             "date" := Text(date)])
  }

  lemma ColumnsDistinct()
    ensures Distinct(Columns)
    ensures "date" !in Columns
  {
  }

  function Texts(row: Row): (vs: seq<Value>)
    ensures |vs| == |row|
    ensures forall i :: 0 <= i < |row| ==> vs[i] == Text(row[i])
  {
    seq(|row|, i requires 0 <= i < |row| => Text(row[i]))
  }

  /** `dict(zip(columns, row))`. */
  function FieldMap(columns: seq<string>, row: Row): (f: Context)
    ensures f.Valid()
  {
    FromPairs(Zip(columns, Texts(row)))
  }

  /**
   With distinct column names the field map has exactly min(|columns|, |row|)
   entries, keyed by the first columns in order, column j holding cell j.
   */
  lemma FieldMapEntries(columns: seq<string>, row: Row)
    requires Distinct(columns)
    ensures var f := FieldMap(columns, row);
      && |f.vals| == Min(|columns|, |row|)
      && f.keys == columns[..Min(|columns|, |row|)]
      && (forall j :: 0 <= j < Min(|columns|, |row|) ==> f.vals[columns[j]] == Text(row[j]))
  {
    DictOfZip(columns, Texts(row));
  }

  /** `f"{MERGED_FILENAME}_{merge_fields['NAME'].replace(' ', '_')}"`. */
  function DocName(fields: Context): (r: Result<string, Exception>)
    ensures "NAME" !in fields.vals ==> r == Failure(MissingKey("NAME"))
    ensures r.Success? <==> "NAME" in fields.vals && fields.vals["NAME"].Text?
    ensures r.Success? ==> |r.value| == |MergedFilename| + 1 + |fields.vals["NAME"].s|
    ensures r.Success? ==> r.value[..|MergedFilename| + 1] == MergedFilename + "_"
    ensures r.Success? ==> r.value[|MergedFilename| + 1..] == ReplaceChar(fields.vals["NAME"].s, ' ', '_')
    ensures r.Success? ==> ' ' !in r.value[|MergedFilename| + 1..]
  {
    if "NAME" !in fields.vals then Failure(MissingKey("NAME"))
    else match fields.vals["NAME"]
      case Null => Failure(NoReplace("NAME"))
      case Text(s) => Success(MergedFilename + "_" + ReplaceChar(s, ' ', '_'))
  }

  /**
   A row yields a name exactly when it has a first cell: the name is the base
   name, `_`, and that cell with each space turned into `_` (same length, no
   spaces). An empty row raises a KeyError for `NAME`.
   */
  lemma RowDocName(row: Row)
    ensures DocName(FieldMap(Columns, row)).Success? <==> |row| > 0
    ensures |row| == 0 ==> DocName(FieldMap(Columns, row)) == Failure(MissingKey("NAME"))
    ensures |row| > 0 ==> DocName(FieldMap(Columns, row)) == Success(MergedFilename + "_" + ReplaceChar(row[0], ' ', '_'))
  {
    ColumnsDistinct();
    FirstColumnField(Columns, row);
  }

  lemma FirstColumnField(columns: seq<string>, row: Row)
    requires Distinct(columns) && |columns| > 0
    ensures var f := FieldMap(columns, row);
      && (|row| == 0 ==> columns[0] !in f.vals)
      && (|row| > 0 ==> columns[0] in f.vals && f.vals[columns[0]] == Text(row[0]))
  {
    FieldMapEntries(columns, row);
    if |row| == 0 {
      assert FieldMap(columns, row).keys == [];
    } else {
      assert FieldMap(columns, row).keys[0] == columns[0];
    }
  }

  /** An example: a row whose first cell is `Jane Doe` is named `Name_Of_Doc_Jane_Doe`. */
  lemma JaneDoeDocName(row: Row)
    requires |row| > 0 && row[0] == "Jane Doe"
    ensures DocName(FieldMap(Columns, row)) == Success(MergedFilename + "_" + "Jane_Doe")
  {
    RowDocName(row);
    JaneDoeUnderscored();
  }

  lemma JaneDoeUnderscored()
    ensures ReplaceChar("Jane Doe", ' ', '_') == "Jane_Doe"
  {
    var r := ReplaceChar("Jane Doe", ' ', '_');
    assert |r| == 8;
    assert r[4] == '_';
    assert forall i :: 0 <= i < 8 && i != 4 ==> r[i] == "Jane Doe"[i];
  }

  /**
   `merge.update(merge_fields)` on a context that holds every column: cell j
   of the row replaces column j's value for each cell the row has; columns
   past the end of a short row and every other key (such as `date`) keep
   their previous values, and the key order does not change.
   */
  lemma UpdateWithRow(context: Context, columns: seq<string>, row: Row)
    requires context.Valid() && Distinct(columns)
    requires forall j :: 0 <= j < |columns| ==> columns[j] in context.vals
    ensures var c := Update(context, FieldMap(columns, row));
      && c.keys == context.keys
      && (forall j :: 0 <= j < |columns| && j < |row| ==> c.vals[columns[j]] == Text(row[j]))
      && (forall j :: |row| <= j < |columns| ==> c.vals[columns[j]] == context.vals[columns[j]])
      && (forall k :: k in context.vals && k !in columns ==> c.vals[k] == context.vals[k])
  {
    UpdateKeepsKeys(context, columns, row);
    UpdateCells(context, columns, row);
    UpdateStaleCells(context, columns, row);
  }

  lemma UpdateKeepsKeys(context: Context, columns: seq<string>, row: Row)
    requires context.Valid() && Distinct(columns)
    requires forall j :: 0 <= j < |columns| ==> columns[j] in context.vals
    ensures var c := Update(context, FieldMap(columns, row));
      && c.keys == context.keys
      && (forall k :: k in context.vals && k !in columns ==> c.vals[k] == context.vals[k])
  {
    FieldMapDomain(columns, row);
  }

  lemma UpdateCells(context: Context, columns: seq<string>, row: Row)
    requires context.Valid() && Distinct(columns)
    requires forall j :: 0 <= j < |columns| ==> columns[j] in context.vals
    ensures forall j :: 0 <= j < |columns| && j < |row| ==>
      Update(context, FieldMap(columns, row)).vals[columns[j]] == Text(row[j])
  {
    ZipValues(columns, Texts(row));
  }

  lemma UpdateStaleCells(context: Context, columns: seq<string>, row: Row)
    requires context.Valid() && Distinct(columns)
    requires forall j :: 0 <= j < |columns| ==> columns[j] in context.vals
    ensures forall j :: |row| <= j < |columns| ==>
      Update(context, FieldMap(columns, row)).vals[columns[j]] == context.vals[columns[j]]
  {
    FieldMapDomain(columns, row);
  }

  /** The field map's keys are columns, and a column past the end of the row is absent. */
  lemma FieldMapDomain(columns: seq<string>, row: Row)
    requires Distinct(columns)
    ensures forall k :: k in FieldMap(columns, row).vals ==> k in columns
    ensures forall j :: |row| <= j < |columns| ==> columns[j] !in FieldMap(columns, row).vals
  {
    ZipDomain(columns, Texts(row));
  }

  /** The merge context after the loop has processed `rows`, starting from `context`. */
  function ContextAfter(context: Context, rows: seq<Row>): (c: Context)
    requires context.Valid()
    ensures c.Valid()
    ensures context.keys <= c.keys
    ensures context.vals.Keys <= c.vals.Keys
    decreases |rows|
  {
    if rows == [] then context
    else Update(ContextAfter(context, rows[..|rows| - 1]), FieldMap(Columns, rows[|rows| - 1]))
  }

  /**
   The value column j has after `rows`, stated without dicts: cell j of the
   most recent row long enough to have one, or `None` when no row has.
   */
  function LatestCell(rows: seq<Row>, j: nat): (v: Value)
    ensures v.Null? <==> forall i :: 0 <= i < |rows| ==> |rows[i]| <= j
    decreases |rows|
  {
    if rows == [] then Null
    else if j < |rows[|rows| - 1]| then Text(rows[|rows| - 1][j])
    else LatestCell(rows[..|rows| - 1], j)
  }

  /** A supplied value is cell j of some row, and no later row reaches column j. */
  lemma {:induction false} LatestCellSource(rows: seq<Row>, j: nat)
    requires LatestCell(rows, j).Text?
    ensures exists i :: 0 <= i < |rows| && j < |rows[i]| && LatestCell(rows, j) == Text(rows[i][j])
                     && forall i' :: i < i' < |rows| ==> |rows[i']| <= j
    decreases |rows|
  {
    var last := |rows| - 1;
    if j < |rows[last]| {
      assert LatestCell(rows, j) == Text(rows[last][j]);
    } else {
      var front := rows[..last];
      assert LatestCell(rows, j) == LatestCell(front, j);
      LatestCellSource(front, j);
      var i :| 0 <= i < |front| && j < |front[i]| && LatestCell(front, j) == Text(front[i][j])
             && forall i' :: i < i' < |front| ==> |front[i']| <= j;
      assert rows[i] == front[i];
      assert forall i' :: i < i' < |rows| ==> |rows[i']| <= j by {
        assert forall i' :: i < i' < last ==> rows[i'] == front[i'];
      }
    }
  }

  /**
   Starting from the seeded context, the context after any rows keeps the
   six keys in their seeded order, keeps the date, and holds for each column
   the latest value a row supplied for it (a stale value from an earlier row
   when the last rows were too short), or `None`.
   */
  lemma {:induction false} ContextAfterRows(date: string, rows: seq<Row>)
    ensures var c := ContextAfter(InitialContext(date), rows);
      && c.keys == InitialKeys
      && c.vals["date"] == Text(date)
      && (forall j :: 0 <= j < |Columns| ==> c.vals[Columns[j]] == LatestCell(rows, j))
    decreases |rows|
  {
    ContextAfterKeys(date, rows);
    if rows != [] {
      var prefix := rows[..|rows| - 1];
      ContextAfterRows(date, prefix);
      ColumnsDistinct();
      UpdateCells(ContextAfter(InitialContext(date), prefix), Columns, rows[|rows| - 1]);
      UpdateStaleCells(ContextAfter(InitialContext(date), prefix), Columns, rows[|rows| - 1]);
    }
  }

  lemma {:induction false} ContextAfterKeys(date: string, rows: seq<Row>)
    ensures var c := ContextAfter(InitialContext(date), rows);
      && c.keys == InitialKeys
      && c.vals["date"] == Text(date)
    decreases |rows|
  {
    if rows != [] {
      var prefix := rows[..|rows| - 1];
      ContextAfterKeys(date, prefix);
      ColumnsDistinct();
      UpdateKeepsKeys(ContextAfter(InitialContext(date), prefix), Columns, rows[|rows| - 1]);
    }
  }

  /** The batch update for a context with the seeded keys replaces exactly these six placeholders, in this order. */
  const ExpectedPlaceholders: seq<string> := ["{{NAME}}", "{{ADDRESS}}", "{{CITY}}", "{{STATE}}", "{{ZIP}}", "{{DATE}}"]

  lemma SeededPlaceholders(context: Context)
    requires context.Valid() && context.keys == InitialKeys
    ensures var reqs := BuildRequests(context);
      && |reqs| == 6
      && (forall i :: 0 <= i < 6 ==> reqs[i].text == ExpectedPlaceholders[i] && reqs[i].matchCase)
  {
    SeededKeyPlaceholders();
  }

  lemma SeededKeyPlaceholders()
    ensures forall i :: 0 <= i < 6 ==> Placeholder(InitialKeys[i]) == ExpectedPlaceholders[i]
  {
    DatePlaceholder();
    NameZipPlaceholders();
    AddressPlaceholder();
    CityStatePlaceholders();
  }

  lemma NameZipPlaceholders()
    ensures Placeholder("NAME") == "{{NAME}}"
    ensures Placeholder("ZIP") == "{{ZIP}}"
  {
    UpperCasePlaceholder("NAME");
    UpperCasePlaceholder("ZIP");
  }

  lemma AddressPlaceholder()
    ensures Placeholder("ADDRESS") == "{{ADDRESS}}"
  {
    UpperCasePlaceholder("ADDRESS");
  }

  lemma CityStatePlaceholders()
    ensures Placeholder("CITY") == "{{CITY}}"
    ensures Placeholder("STATE") == "{{STATE}}"
  {
    UpperCasePlaceholder("CITY");
    UpperCasePlaceholder("STATE");
  }

  datatype Report = Report(number: nat, result: DocRef)

  datatype End = Completed | Aborted(exception: Exception)

  /** The merge of row k (0-based): its name, and the context after rows 0..k. */
  ghost function RowMerge(date: string, rows: seq<Row>, k: nat, svc: Services): Merged
    requires k < |rows| && |rows[k]| > 0
  {
    RowDocName(rows[k]);
    MergeTemplate(k, DocsFileId, DocName(FieldMap(Columns, rows[k])).value,
                  ContextAfter(InitialContext(date), rows[..k + 1]), svc)
  }

  /** The merges of rows 0..n-1, in order. */
  ghost function Merges(date: string, rows: seq<Row>, n: nat, svc: Services): (ms: seq<Merged>)
    requires n <= |rows| && forall k :: 0 <= k < n ==> |rows[k]| > 0
    ensures |ms| == n
    ensures forall k :: 0 <= k < n ==> |ms[k].calls| == 2
  {
    seq(n, k requires 0 <= k < n => RowMerge(date, rows, k, svc))
  }

  /**
   What the loop does with `rows`: it merges rows in input order, stopping at
   the first empty row (whose missing `NAME` raises a KeyError) or completing
   after the last; the k-th merged row is reported under number k + 1 and
   its two remote calls fill the k-th block of two calls.
   */
  ghost predicate MergedInOrder(rows: seq<Row>, date: string, svc: Services,
                                reports: seq<Report>, calls: seq<Call>, end: End)
  {
    && |reports| <= |rows|
    && (forall k :: 0 <= k < |reports| ==> |rows[k]| > 0)
    && (end == Completed <==> |reports| == |rows|)
    && (end != Completed ==> |rows[|reports|]| == 0 && end == Aborted(MissingKey("NAME")))
    && reports == ReportsOf(Merges(date, rows, |reports|, svc))
    && calls == CallsOf(Merges(date, rows, |reports|, svc))
  }

  /** The reports of a sequence of merges: the k-th (0-based) under number k + 1. */
  function ReportsOf(ms: seq<Merged>): (rs: seq<Report>)
    ensures |rs| == |ms|
    ensures forall k :: 0 <= k < |ms| ==> rs[k] == Report(k + 1, ms[k].result)
  {
    seq(|ms|, k requires 0 <= k < |ms| => Report(k + 1, ms[k].result))
  }

  lemma ReportsStep(ms: seq<Merged>, m: Merged)
    ensures ReportsOf(ms + [m]) == ReportsOf(ms) + [Report(|ms| + 1, m.result)]
  {
  }

  /** The remote calls of a sequence of two-call merges, one block of two after another. */
  function CallsOf(ms: seq<Merged>): (cs: seq<Call>)
    requires forall k :: 0 <= k < |ms| ==> |ms[k].calls| == 2
    ensures |cs| == 2 * |ms|
    ensures forall k :: 0 <= k < |ms| ==> cs[2 * k .. 2 * k + 2] == ms[k].calls
    decreases |ms|
  {
    if ms == [] then []
    else
      var front := ms[..|ms| - 1];
      var cs := CallsOf(front) + ms[|ms| - 1].calls;
      Blocks(CallsOf(front), ms[|ms| - 1].calls, |front|);
      cs
  }

  /** Appending a block of two after n blocks of two leaves the earlier blocks in place. */
  lemma Blocks<T>(cs: seq<T>, last: seq<T>, n: nat)
    requires |cs| == 2 * n && |last| == 2
    ensures forall k :: 0 <= k < n ==> (cs + last)[2 * k .. 2 * k + 2] == cs[2 * k .. 2 * k + 2]
    ensures (cs + last)[2 * n .. 2 * n + 2] == last
  {
    forall k | 0 <= k < n
      ensures (cs + last)[2 * k .. 2 * k + 2] == cs[2 * k .. 2 * k + 2]
    {
      assert (cs + last)[2 * k] == cs[2 * k] && (cs + last)[2 * k + 1] == cs[2 * k + 1];
    }
  }

  /** Processing one more row extends the context by that row's update. */
  lemma ContextStep(context: Context, rows: seq<Row>, i: nat)
    requires context.Valid() && i < |rows|
    ensures ContextAfter(context, rows[..i + 1])
         == Update(ContextAfter(context, rows[..i]), FieldMap(Columns, rows[i]))
  {
    assert rows[..i + 1][..i] == rows[..i];
  }

  /** The `for` loop of the main block over fetched rows, with the `merge` dict as a local. */
  method MergeRows(rows: seq<Row>, date: string, svc: Services)
    returns (reports: seq<Report>, calls: seq<Call>, end: End)
    ensures MergedInOrder(rows, date, svc, reports, calls, end)
  {
    var merge := InitialContext(date);
    reports, calls, end := [], [], Completed;
    var i := 0;
    while i < |rows|
      invariant 0 <= i <= |rows|
      invariant forall k :: 0 <= k < i ==> |rows[k]| > 0
      invariant merge == ContextAfter(InitialContext(date), rows[..i])
      invariant reports == ReportsOf(Merges(date, rows, i, svc))
      invariant calls == CallsOf(Merges(date, rows, i, svc))
    {
      var fields := FieldMap(Columns, rows[i]);
      var name := DocName(fields);
      RowDocName(rows[i]);
      if name.Failure? {
        end := Aborted(name.error);
        return;
      }
      LoopStep(date, rows, i, svc, merge, reports, calls);
      merge := Update(merge, fields);
      var merged := MergeTemplate(i, DocsFileId, name.value, merge, svc);
      reports := reports + [Report(i + 1, merged.result)];
      calls := calls + merged.calls;
      i := i + 1;
    }
  }

  /** The loop's invariant carried over one named row. */
  lemma LoopStep(date: string, rows: seq<Row>, i: nat, svc: Services,
                 merge: Context, reports: seq<Report>, calls: seq<Call>)
    requires i < |rows| && forall k :: 0 <= k <= i ==> |rows[k]| > 0
    requires merge == ContextAfter(InitialContext(date), rows[..i])
    requires reports == ReportsOf(Merges(date, rows, i, svc))
    requires calls == CallsOf(Merges(date, rows, i, svc))
    ensures DocName(FieldMap(Columns, rows[i])).Success?
    ensures var merge' := Update(merge, FieldMap(Columns, rows[i]));
      var merged := MergeTemplate(i, DocsFileId, DocName(FieldMap(Columns, rows[i])).value, merge', svc);
      && merge' == ContextAfter(InitialContext(date), rows[..i + 1])
      && reports + [Report(i + 1, merged.result)] == ReportsOf(Merges(date, rows, i + 1, svc))
      && calls + merged.calls == CallsOf(Merges(date, rows, i + 1, svc))
  {
    MergeStep(date, rows, i, svc);
    var merged := RowMerge(date, rows, i, svc);
    Blocks(calls, merged.calls, i);
    ReportsStep(Merges(date, rows, i, svc), merged);
  }

  /** One more row: the merge it adds is its own, on the context updated by it. */
  lemma MergeStep(date: string, rows: seq<Row>, i: nat, svc: Services)
    requires i < |rows| && forall k :: 0 <= k <= i ==> |rows[k]| > 0
    ensures Merges(date, rows, i + 1, svc) == Merges(date, rows, i, svc) + [RowMerge(date, rows, i, svc)]
    ensures ContextAfter(InitialContext(date), rows[..i + 1])
         == Update(ContextAfter(InitialContext(date), rows[..i]), FieldMap(Columns, rows[i]))
    ensures DocName(FieldMap(Columns, rows[i])).Success?
    ensures RowMerge(date, rows, i, svc)
         == MergeTemplate(i, DocsFileId, DocName(FieldMap(Columns, rows[i])).value,
                          ContextAfter(InitialContext(date), rows[..i + 1]), svc)
  {
    MergesSnoc(date, rows, i, svc);
    ContextStep(InitialContext(date), rows, i);
    RowDocName(rows[i]);
  }

  lemma MergesSnoc(date: string, rows: seq<Row>, i: nat, svc: Services)
    requires i < |rows| && forall k :: 0 <= k <= i ==> |rows[k]| > 0
    ensures Merges(date, rows, i + 1, svc) == Merges(date, rows, i, svc) + [RowMerge(date, rows, i, svc)]
  {
    var longer := Merges(date, rows, i + 1, svc);
    var front := Merges(date, rows, i, svc);
    forall k | 0 <= k < i
      ensures longer[k] == front[k]
    {
      assert longer[k] == RowMerge(date, rows, k, svc);
    }
    Snoc(longer, front, RowMerge(date, rows, i, svc));
  }

  /** A sequence that extends `front` by one element `last` is `front + [last]`. */
  lemma Snoc<T>(longer: seq<T>, front: seq<T>, last: T)
    requires |longer| == |front| + 1 && longer[|front|] == last
    requires forall k :: 0 <= k < |front| ==> longer[k] == front[k]
    ensures longer == front + [last]
  {
  }

  /**
   The whole main block for data source `source`. When `get_data` raises, or
   returns an `HttpError` that the loop then cannot iterate, nothing is
   merged; otherwise the fetched rows are merged as `MergedInOrder` says,
   after the fetch's own remote call.
   */
  method Run(source: string, date: string, svc: Services)
    returns (reports: seq<Report>, calls: seq<Call>, end: End)
    ensures var f := GetData(source, svc.sheet);
      && |f.calls| <= |calls| && calls[..|f.calls|] == f.calls
      && (f.outcome.DataRaised? ==> reports == [] && calls == f.calls && end == Aborted(f.outcome.exception))
      && (f.outcome.DataError? ==> reports == [] && calls == f.calls && end == Aborted(NotIterable(f.outcome.error)))
      && (f.outcome.Data? ==> MergedInOrder(f.outcome.rows, date, svc, reports, calls[|f.calls|..], end))
  {
    var f := GetData(source, svc.sheet);
    match f.outcome {
      case Data(rows) =>
        var rowCalls;
        reports, rowCalls, end := MergeRows(rows, date, svc);
        calls := f.calls + rowCalls;
      case DataError(e) =>
        reports, calls, end := [], f.calls, Aborted(NotIterable(e));
      case DataRaised(x) =>
        reports, calls, end := [], f.calls, Aborted(x);
    }
  }

  /**
   Remote failures never stop the loop: whatever the services answer, row k
   (0-based) of a run is reported under number k + 1 with the result of its
   own merge, and its copy and batch update are the run's calls 2k and
   2k + 1; the run reports every row exactly when no row is empty.
   */
  lemma RowByRow(rows: seq<Row>, date: string, svc: Services,
                 reports: seq<Report>, calls: seq<Call>, end: End)
    requires MergedInOrder(rows, date, svc, reports, calls, end)
    ensures end == Completed <==> forall k :: 0 <= k < |rows| ==> |rows[k]| > 0
    ensures |calls| == 2 * |reports|
    ensures forall k :: 0 <= k < |reports| ==>
      && reports[k] == Report(k + 1, RowMerge(date, rows, k, svc).result)
      && calls[2 * k .. 2 * k + 2] == RowMerge(date, rows, k, svc).calls
  {
  }

  /**
   Row k's batch update replaces the six seeded placeholders in order: each
   column with the latest value supplied by rows 0..k (or `None`), and
   `{{DATE}}` with the date.
   */
  lemma RowRequests(date: string, rows: seq<Row>, k: nat, svc: Services)
    requires k < |rows| && |rows[k]| > 0
    ensures var reqs := RowMerge(date, rows, k, svc).calls[1].requests;
      && |reqs| == 6
      && (forall i :: 0 <= i < 6 ==> reqs[i].text == ExpectedPlaceholders[i] && reqs[i].matchCase)
      && (forall j :: 0 <= j < 5 ==> reqs[j].replaceText == LatestCell(rows[..k + 1], j))
      && reqs[5].replaceText == Text(date)
  {
    var c := ContextAfter(InitialContext(date), rows[..k + 1]);
    ContextAfterRows(date, rows[..k + 1]);
    SeededPlaceholders(c);
  }
}
