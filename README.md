# Mail merge, modelled in Dafny

This project models the deterministic core of a mail-merge script built on
Google Sheets, Drive and Docs (`app/merge.py`). The script reads the rows of a
spreadsheet and drops the header row. For each row in order it then:

- maps the row's cells onto the configured column names;
- derives a document name from the first column;
- updates a merge context dict in place;
- copies a template document;
- sends one batch of exact-case `replaceAllText` requests to the copy;
- reports the result under the row's 1-based number.

The three remote services are inputs to the model (`Domain.Services`):

- the Sheets reply is a given value;
- the Drive copy and the Docs batch update are total functions of the row
  index and the call's arguments.

Every remote call the script makes is also recorded in a trace of `Call`
values. A property can therefore hold under every combination of successes
and `HttpError`s.

Modules, one file each:

- `wrappers.dfy`: `Option`, `Result`.
- `pystr.dfy`: `str.upper()` (ASCII) and one-character `str.replace`.
- `pydict.dfy`: Python's insertion-ordered `dict`:
  - `d[k] = v`;
  - `dict(pairs)`;
  - `d.update(other)`;
  - `items()`;
  - `zip`.
- `domain.dfy`: the script's values (`Value` is `None` or a string), remote
  errors, calls, the exceptions that end a run, and the configuration
  constants.
- `datasource.dfy`: `get_data`, `SAFE_DISPATCH`, `_get_sheets_data`.
- `template.dfy`: placeholders, the request list, and `_copy_template` with
  `merge_template`.
- `driver.dfy`: the `__main__` block.
  - The loop is the method `MergeRows`. It keeps the `merge` dict as a local
    variable that it reassigns.
  - The loop is proved against the specification functions `ContextAfter`,
    `RowMerge` and `Merges`.

The model follows the code where its behaviour is easy to miss:

- `get_data('text')` passes the tag check. Its dispatch entry is `None`,
  because no `_get_text_data` exists, so the call raises a TypeError.
- A Sheets reply without a `values` entry (an empty sheet) makes
  `None[1:]` raise a TypeError. It does not yield an empty row list.
- When `get_data` returns an `HttpError`, nothing checks it. The `for` loop
  then tries to iterate over the error object and raises a TypeError, which
  ends the run.
- A failed copy does not abort the row. `_copy_template` returns the error
  object, and `merge_template` still sends the batch update with that object
  as the document id. If the batch succeeds, the row's result is the error
  object.
- The document name is computed before `merge.update`, so an empty row raises
  a KeyError for `NAME` and ends the whole run. A row with cells always gives
  a string `NAME`, because cells are strings.
- The `date` key keeps its lower-case spelling in the context. Only its
  placeholder, `{{DATE}}`, is upper-cased.

## Model

| member | source | states |
|---|---|---|
| `DataSource.DispatchTable` | app/merge.py:99-100 | the dispatch table has exactly the tags `sheets` and `text`; `sheets` finds `_get_sheets_data`, and `text` finds `None` because no `_get_text_data` exists |
| `DataSource.GetData` | app/merge.py:75-85 | a tag outside the two raises the unsupported-source error, naming the tag and the choices, with no remote call; `text` raises a not-callable TypeError with no remote call; `sheets` reads `Sheet1` of the configured spreadsheet exactly once and yields the sheet data; a remote call happens exactly when the tag is `sheets` |
| `DataSource.SheetsData` | app/merge.py:88-95 | the rows after the first, in their original order; zero or one row gives none; a reply without `values` raises a TypeError; an `HttpError` is returned as the value |
| `DataSource.DropFirst` | app/merge.py:95 | `rows[1:]`: one element fewer than `rows` (none when `rows` is empty), and element i is `rows[i + 1]` |
| `DataSource.HeaderDropped` | app/merge.py:93-95 | a header row followed by the Jane Doe row yields exactly the Jane Doe row |
| `PyDict.Zip` | app/merge.py:169 | `zip` has min(len(xs), len(ys)) pairs, and pair i is (xs[i], ys[i]) |
| `PyDict.Insert` | app/merge.py:169 | assigning pairs in order keeps the dict well formed; the key set grows by exactly the pairs' keys; untouched keys keep their values; existing keys keep their place at the front; no new key means the key order does not change |
| `PyDict.DictOfZip` | app/merge.py:169 | `dict(zip(keys, values))` with distinct keys has exactly min(len(keys), len(values)) entries, keyed by the first keys in order, key j mapping to value j |
| `Driver.FieldMap` | app/merge.py:169 | `dict(zip(COLUMNS, row))` is a well-formed dict: its key list has no repeats and matches its key set (its entries are stated by `FieldMapEntries` and `FieldMapDomain`) |
| `Driver.FieldMapEntries` | app/merge.py:169 | the row's field map has min(len(COLUMNS), len(row)) entries in column order, and column j holds cell j |
| `Driver.FieldMapDomain` | app/merge.py:169 | the field map's keys are columns, and no column past the end of a short row appears |
| `PyStr.ReplaceChar` | app/merge.py:170 | `replace(' ', '_')` keeps the length, changes exactly the spaces, and leaves no space |
| `Driver.DocName` | app/merge.py:170 | a missing `NAME` raises a KeyError; a name results exactly when `NAME` is a string; the name is the base name, `_`, then `NAME` with spaces replaced, of that total length and with no space after the prefix |
| `Driver.RowDocName` | app/merge.py:169-170 | a row yields a name exactly when it is non-empty; an empty row raises a KeyError for `NAME`; otherwise the name is `Name_Of_Doc_` followed by the first cell with spaces replaced |
| `Driver.JaneDoeDocName` | app/merge.py:170 | a row whose first cell is `Jane Doe` is named `Name_Of_Doc` + `_` + `Jane_Doe` |
| `Driver.InitialContext` | app/merge.py:155-164 | the seeded context holds the five columns then `date`, in that order; every column is `None` and `date` holds the given date |
| `PyDict.Update` | app/merge.py:172 | after `d.update(other)`, every key of `other` has `other`'s value; every other key of `d` keeps its value; the key set is the union; `d`'s keys keep their place; no new key means the key order is unchanged |
| `Driver.UpdateWithRow` | app/merge.py:172 | updating a context that holds every column with a row: the key order is unchanged; column j takes cell j where the row has one; columns past a short row and all other keys (such as `date`) keep their previous values |
| `Driver.LatestCell` | app/merge.py:168-172 | column j's latest value is `None` exactly when no row so far reached column j |
| `Driver.LatestCellSource` | app/merge.py:168-172 | a non-`None` latest value is cell j of some row, and no later row reaches column j |
| `Driver.ContextAfter` | app/merge.py:155-172 | the context after the loop's updates is well formed, keeps every key it started with, and keeps the starting key order at the front (its values are stated by `ContextAfterRows`) |
| `Driver.ContextAfterRows` | app/merge.py:155-172 | after any rows the context keeps its six keys in the seeded order and the date; each column holds the latest value a row supplied, which may be a stale value from an earlier row, or `None` |
| `PyStr.Upper` | app/merge.py:138 | `upper()` keeps the length and upper-cases each character in place |
| `PyStr.UpperIdempotent` | app/merge.py:138 | an upper-cased string has no lower-case letter, and upper-casing it again changes nothing |
| `Template.Placeholder` | app/merge.py:138 | a placeholder is `{{`, then the key upper-cased character by character, then `}}` |
| `Template.PlaceholderIsUpperCase` | app/merge.py:138 | no placeholder holds a lower-case letter between its braces |
| `Template.UpperCasePlaceholder` | app/merge.py:138 | a key with no lower-case letter, such as `NAME`, appears in its placeholder unchanged |
| `Template.PlaceholderSpelling` | app/merge.py:138 | no key yields the lower-case `{{date}}`, so matching is exact-case |
| `Template.DatePlaceholder` | app/merge.py:138 | the key `date` yields `{{DATE}}` |
| `PyDict.Items` | app/merge.py:132-133 | `merge.items()` has one pair per key, in the dict's insertion order, and pair i is key i with its value |
| `Template.BuildRequests` | app/merge.py:136-142 | one request per context entry, in the context's iteration order; each is exact-case and replaces the entry's placeholder with the entry's value |
| `Template.RequestsCoverContext` | app/merge.py:132-142 | every context entry has its request, and every request comes from an entry |
| `Driver.SeededPlaceholders` | app/merge.py:136-142 | for a context with the seeded keys, the six requests look for `{{NAME}}`, `{{ADDRESS}}`, `{{CITY}}`, `{{STATE}}`, `{{ZIP}}`, `{{DATE}}` in that order, each exact-case |
| `Template.MergeTemplate` | app/merge.py:103-150 | the calls are a copy into the folder under the document name, then one batch update addressed to what the copy returned; the result is a document id exactly when both calls succeed; a failed copy whose batch succeeds yields the copy's error object; a failed batch yields its own error |
| `Driver.MergeRows` | app/merge.py:168-174 | the loop merges rows in input order and stops at the first empty row with a KeyError for `NAME`, or completes after the last row; report k carries number k + 1 and the result of row k's merge; the calls are each row's copy and batch update, row after row |
| `Driver.RowByRow` | app/merge.py:168-174 | whatever the services answer, row k is reported as number k + 1 with its own merge's result, and its two calls are the run's calls 2k and 2k + 1; the run completes exactly when no row is empty |
| `Driver.RowRequests` | app/merge.py:172-174 | row k's batch update looks for the six seeded placeholders in order; each column is replaced by the latest value rows 0..k supplied (or `None`), and `{{DATE}}` by the date |
| `Driver.Run` | app/merge.py:153-174 | the main block: a raising `get_data` ends the run with its exception and nothing merged; a returned `HttpError` ends it with a not-iterable TypeError and nothing merged; fetched rows are merged as `MergeRows` states, after the fetch's single read |

## Left out

- The OAuth flow and the `token.json` / `credentials.json` file I/O
  (app/merge.py:49-65): these are authentication plumbing run at module load.
- Building the API clients (app/merge.py:70-72), and the wire behaviour of the
  read, copy and batch-update calls: each call is an abstract input in
  `Domain.Services`. An `HttpError`'s contents are abstract (status and reason).
- `_set_permissions` (app/merge.py:115-121): it is never called.
- `time.strftime` (app/merge.py:162): the date is a string parameter.
- `print` output (app/merge.py:84, 112, 149, 171, 173-174): the model keeps
  the numbered results, not the printed text or URL.
- `str.upper()` is modelled over ASCII only. Full Unicode case mapping is not
  modelled.
- How the Docs service performs replace-all inside a document: the model
  stops at the request list.
- The `source` parameter of `merge_template` and `_copy_template` is unused
  by the code and is not modelled. `merge_template` reads the module-level
  `merge` dict; the model passes it as an argument.
- The Python 2 `iteritems()` branch (app/merge.py:132-133): the model uses
  Python 3.7+ dict order, where `items()` follows insertion order.
- A copy reply without an `id` field (so `.get('id')` gives `None`) is not
  modelled, since the request asks for `fields='id'`. Exceptions other than
  `HttpError` inside the remote calls are not modelled either.
