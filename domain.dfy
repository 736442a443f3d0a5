/**
 The values the merge script handles and the boundary to the three Google
 services it calls (Sheets, Drive, Docs). Every remote call is an input here:
 the Sheets reply is given, and the Drive copy and the Docs batch update are
 functions of the call's position in the run and its arguments, so a run can
 be examined under any combination of successes and `HttpError`s.
 */
module Domain {
  import opened Wrappers
  import opened PyDict

  /** A value held in the merge context: Python's `None` or a string. */
  datatype Value = Null | Text(s: string)

  /** A spreadsheet row: its cell strings, left to right. */
  type Row = seq<string>

  /** The merge context, and also one row's field map: a dict from token name to value. */
  type Context = Dict<string, Value>

  /** An `HttpError` raised by a Google API client call. */
  datatype RemoteError = HttpError(status: nat, reason: string)

  /**
   What the copy step hands on: the new file's id or, when the copy failed,
   the caught `HttpError` object, which the script returns in place of the id.
   */
  datatype DocRef = DocId(id: string) | ErrorObject(error: RemoteError)

  /**
   The result of reading the sheet: the `values` list of the response, a
   response without a `values` entry (what the service sends for an empty
   range), or an `HttpError`.
   */
  datatype SheetReply = Values(rows: seq<Row>) | NoValues | ReadFailed(error: RemoteError)

  /** One `replaceAllText` request of a Docs batch update. */
  datatype Request = ReplaceAllText(text: string, matchCase: bool, replaceText: Value)

  /** A remote call the script makes, with its arguments. */
  datatype Call =
    | ReadRange(spreadsheetId: string, range: string)
    | CopyFile(fileId: string, name: string, parents: seq<string>)
    | BatchUpdate(documentId: DocRef, requests: seq<Request>)

  /** Exceptions that escape the script's `except HttpError` handlers and end the run. */
  datatype Exception =
    | UnsupportedSource(source: string, choices: seq<string>)  // ValueError from get_data
    | NotCallable(source: string)        // TypeError: the dispatch entry is None
    | NotSubscriptable                   // TypeError: slicing the None of a reply without values
    | NotIterable(error: RemoteError)    // TypeError: looping over a returned HttpError
    | MissingKey(key: string)            // KeyError
    // AttributeError: None has no replace. Cells are always strings, so no row
    // reaches this; it keeps `DocName` total over every context.
    | NoReplace(key: string)

  /**
   The remote services. `copy(n, fileId, name)` answers the n-th copy request
   of the run (counting from 0); `batch(n, documentId, requests)` answers the
   n-th batch update with `None` on success or the error it raised.
   */
  datatype Services = Services(
    sheet: SheetReply,
    copy: (nat, string, string) -> DocRef,
    batch: (nat, DocRef, seq<Request>) -> Option<RemoteError>)
}

/** The script's configuration constants. */
module Config {

  const DocsFileId := "DOCS_ID"
  const SheetsFileId := "SHEETS_ID"
  const DriveFolderId := "FOLDER_ID"

  /** The base name of every merged document. */
  const MergedFilename := "Name_Of_Doc"

  /** The token names the row's cells are mapped onto, by position. */
  const Columns: seq<string> := ["NAME", "ADDRESS", "CITY", "STATE", "ZIP"]

  /** The data source tags offered, and the one the script uses. */
  const Sources: seq<string> := ["sheets", "text"]
  const Source := "sheets"

  /** The A1 range read from the spreadsheet. */
  const SheetRange := "Sheet1"
}
