/**
 `get_data` and `_get_sheets_data`: validate the source tag, dispatch through
 the static table built from the module's globals, and return the sheet's
 rows without the header row.
 */
module DataSource {
  import opened Wrappers
  import opened Domain
  import opened Config

  /** The handler functions the script defines; there is only the Sheets one. */
  datatype Handler = GetSheetsData

  /** The module-level names that are handlers, as `globals()` would find them. */
  const Globals: map<string, Handler> := map["_get_sheets_data" := GetSheetsData]

  function HandlerName(tag: string): string {
    "_get_" + tag + "_data"
  }

  /** `SAFE_DISPATCH`: each tag of `Sources` mapped to the global named after it, or `None`. */
  const SafeDispatch: map<string, Option<Handler>> :=
    map k | k in Sources :: if HandlerName(k) in Globals then Some(Globals[HandlerName(k)]) else None

  /**
   The table has exactly the two tags; `sheets` finds its handler, `text`
   finds nothing because no `_get_text_data` exists.
   */
  lemma DispatchTable()
    ensures SafeDispatch.Keys == {"sheets", "text"}
    ensures SafeDispatch["sheets"] == Some(GetSheetsData)
    ensures SafeDispatch["text"] == None
  {
    assert HandlerName("sheets") == "_get_sheets_data";
    assert HandlerName("text") == "_get_text_data";
    assert "_get_text_data" !in Globals;
  }

  datatype DataOutcome =
    | Data(rows: seq<Row>)             // the rows returned
    | DataError(error: RemoteError)    // an HttpError caught and returned as the result
    | DataRaised(exception: Exception) // an exception that propagates to the caller

  /** What `get_data` yields, with the remote calls it made. */
  datatype Fetch = Fetch(outcome: DataOutcome, calls: seq<Call>)

  /** `rows[1:]`: every row but the first, in order; empty when there is at most one row. */
  function DropFirst<T>(rows: seq<T>): (r: seq<T>)
    ensures |r| == if |rows| == 0 then 0 else |rows| - 1
    ensures forall i :: 0 <= i < |r| ==> r[i] == rows[i + 1]
  {
    if |rows| == 0 then [] else rows[1..]
  }

  /**
   `_get_sheets_data` given the service's reply: the rows after the first,
   in their order; a reply with zero or one row gives none. A reply without
   `values` makes the slice fail, and an `HttpError` is passed on.
   */
  function SheetsData(reply: SheetReply): (o: DataOutcome)
    ensures reply.Values? ==> o.Data?
    ensures reply.Values? ==> |o.rows| == (if |reply.rows| <= 1 then 0 else |reply.rows| - 1)
    ensures reply.Values? ==> forall i :: 0 <= i < |o.rows| ==> o.rows[i] == reply.rows[i + 1]
    ensures reply.NoValues? ==> o == DataRaised(NotSubscriptable)
    ensures reply.ReadFailed? ==> o == DataError(reply.error)
  {
    match reply
    case Values(rows) => Data(DropFirst(rows))
    case NoValues => DataRaised(NotSubscriptable)
    case ReadFailed(e) => DataError(e)
  }

  /**
   `get_data(source)`. A tag outside {sheets, text} raises before the table
   is consulted and no remote call is made; `text` passes the check but its
   table entry is `None`, so calling it raises, again with no remote call;
   `sheets` reads the configured range once.
   */
  function GetData(source: string, reply: SheetReply): (f: Fetch)
    ensures source !in Sources ==> f == Fetch(DataRaised(UnsupportedSource(source, Sources)), [])
    ensures source == "text" ==> f == Fetch(DataRaised(NotCallable("text")), [])
    ensures source == "sheets" ==> f == Fetch(SheetsData(reply), [ReadRange(SheetsFileId, SheetRange)])
    ensures f.calls != [] <==> source == "sheets"
  {
    DispatchTable();
    if source !in {"sheets", "text"} then
      Fetch(DataRaised(UnsupportedSource(source, Sources)), [])
    else
      match SafeDispatch[source]
      case None => Fetch(DataRaised(NotCallable(source)), [])
      case Some(GetSheetsData) => Fetch(SheetsData(reply), [ReadRange(SheetsFileId, SheetRange)])
  }

  /** A header row followed by one data row yields exactly that data row. */
  lemma HeaderDropped()
    ensures GetData(Source, Values([["NAME", "ADDRESS", "CITY", "STATE", "ZIP"],
                                    ["Jane Doe", "1 Main St", "Springfield", "IL", "62701"]])).outcome
         == Data([["Jane Doe", "1 Main St", "Springfield", "IL", "62701"]])
  {
  }
}
