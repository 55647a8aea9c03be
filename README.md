# HRSJ project timeline: spreadsheet-to-categories pipeline

This project models in Dafny the data logic of a small web app. The app reads a
sheet of strategic projects through the Google Sheets API. It turns the raw
grid of cells into project records and sorts them into four business
categories. The front end shows them as a filterable timeline.

The model covers two source files:

- `backend/src/controllers/sheetsController.js` (module `SheetRows`, `Categorize`, `SheetsController`)
  - **Normalisation** (`SheetRows`). The third row of the grid (index 2) is the header. Every later row becomes one record.
    The record maps each header cell to the cell in the same column. A missing cell reads as `''`. Values are not trimmed.
    A repeated header name keeps the value of its later column.
  - **Categorisation** (`Categorize`). `organizeDataByCategories` is modelled as a method with a loop.
    Its cursor starts at `Aprendizagem e Crescimento`. A row whose joined, upper-cased values contain `PROCESSOS`,
    `CLIENTE E MERCADO` or `RESULTADO` moves the cursor and is dropped. The tests run in that order.
    Any other row is cleaned: values are trimmed, empty values are dropped, and a value reading
    `APRENDIZAGEM E CRESCIMENTO` in any letter case is erased. The cleaned row is stored in the cursor's bucket
    only if it still has a `PROJETO` value. The loop is proved equal to a fold (`Scan`). The lemmas say what the fold stores:
    where the cursor stands, what shape a stored record has, which row it came from, and that buckets only grow at the end.
  - **Controller decisions** (`SheetsController`):
    - the `getSheetData` response, built from the grid;
    - the redirect URI chosen from the request host (the same code appears twice in the source);
    - the `checkAuthStatus` verdict on a token;
    - the token carried by an `Authorization: Bearer` header;
    - the range string passed to the read call.
- `frontend/src/components/Timeline.jsx` (module `Timeline`)
  - the `allProjects` flatten, which tags every item with its bucket name;
  - the category filter and the list of category names;
  - the `N projeto(s)` label;
  - the CSS slug of the status and category badges, and the fallbacks for a missing status or title.

Shared helpers:

- `Records` models a JavaScript object as a list of entries in insertion order. `Put` is `obj[k] = v`: an existing key keeps its place, a new key goes at the end.
- `JsText` models the string built-ins. `trim` and the regular-expression class `\s` use the exact ECMAScript white-space set. `toUpperCase` and `toLowerCase` act on ASCII letters.

Behaviour worth knowing:

- `rowCount` counts every row below the header, including marker rows and blank rows. A grid with one marker row and two project rows reports `rowCount` 3.
- Normalisation does not trim values. Trimming happens only when a row is cleaned during categorisation.
- The marker test looks at the text of all values in the row, not at one designated field. So a project whose title mentions "resultado" in any letter case counts as a marker row and is never stored (`CellKeywordMakesMarker`).
- The timeline lists projects in bucket order, and within a bucket in grid order.

## Model

| member | source | states |
|---|---|---|
| Records.Put | backend/src/controllers/sheetsController.js:347 | assigning `obj[k] = v` makes `k` read `v`, leaves every other key as it was, adds at most one entry and adds no entry other than `(k, v)` |
| JsText.Trim | backend/src/controllers/sheetsController.js:412 | the trim is a slice of the input cut only at white space, with no white space at either end; it is empty exactly when the input is all white space |
| SheetRows.BuildRecord | backend/src/controllers/sheetsController.js:344-349 | the `forEach` loop builds exactly the record `RecordOf(headers, row)`, one column at a time |
| SheetRows.RecordOfLastColumn | backend/src/controllers/sheetsController.js:345-348 | a field holds the raw (untrimmed) cell of the last column with that header name, or `''` when the row is shorter or the cell is empty: the later column wins |
| SheetRows.RecordOfAbsent | backend/src/controllers/sheetsController.js:345-348 | a name that heads no column is not a field of the record |
| SheetRows.RecordOfDistinct | backend/src/controllers/sheetsController.js:344-348 | no key occurs twice in a record, even when header names repeat |
| SheetRows.EveryHeaderIsAField | backend/src/controllers/sheetsController.js:345-348 | every header column is a field of every record, whatever the row's length |
| SheetRows.Normalize | backend/src/controllers/sheetsController.js:310-350 | an absent or empty grid, a grid with at most two rows, or a header row with no non-blank cell each give no data, with the source's message; otherwise there is one record per row below the header (blank rows included), in grid order, so `rows.length - 3` records |
| Categorize.MarkerOf | backend/src/controllers/sheetsController.js:388-404 | no row moves the cursor back to `Aprendizagem e Crescimento` |
| Categorize.CellKeywordMakesMarker | backend/src/controllers/sheetsController.js:388-399 | a cell whose upper-cased text contains `PROCESSOS`, `CLIENTE E MERCADO` or `RESULTADO` makes its whole row a marker row |
| Categorize.CleanValue | backend/src/controllers/sheetsController.js:411-416 | a cleaned value is `''` exactly when the trimmed input is empty or reads `APRENDIZAGEM E CRESCIMENTO` in any letter case, and is the trimmed input otherwise; it is trimmed and never reads `APRENDIZAGEM E CRESCIMENTO` in upper case |
| Categorize.CleanRow | backend/src/controllers/sheetsController.js:407-426 | the inner loop builds `Cleaned(row)`; `hasContent` is true iff the cleaned row is non-empty, and `hasProjeto` is true iff it has a `PROJETO` key |
| Categorize.CleanedField | backend/src/controllers/sheetsController.js:411-426 | cleaning keeps a key iff its cleaned value is non-empty, and that key then holds the trimmed input value; it adds no key |
| Categorize.CleanedShape | backend/src/controllers/sheetsController.js:411-426 | every value of a cleaned row is non-empty, trimmed and not `APRENDIZAGEM E CRESCIMENTO` in any case; keys stay distinct |
| Categorize.OrganizeDataByCategories | backend/src/controllers/sheetsController.js:376-435 | the loop with its cursor, its `continue`s and its pushes returns exactly the buckets of the fold `Scan(data)` |
| Categorize.ScanCursor | backend/src/controllers/sheetsController.js:384-399 | the cursor depends on the marker rows alone: it is the category of the last marker row, or the first category if there is none |
| Categorize.CursorStaysFirst | backend/src/controllers/sheetsController.js:384-404 | the cursor is `Aprendizagem e Crescimento` iff no marker row has been scanned |
| Categorize.CursorIsLastMarker | backend/src/controllers/sheetsController.js:386-399 | after the last marker row, the cursor holds that row's category |
| Categorize.ScanExtends | backend/src/controllers/sheetsController.js:386-432 | scanning more rows only appends to each bucket, so every bucket keeps its records in input order |
| Categorize.StoredShape | backend/src/controllers/sheetsController.js:407-431 | every stored record has a `PROJETO` key, distinct keys, and values that are non-empty, trimmed and not `APRENDIZAGEM E CRESCIMENTO` in any case |
| Categorize.StoredRecordOrigin | backend/src/controllers/sheetsController.js:386-431 | every record in bucket `c` is the cleaned form of a non-marker input row with a `PROJETO` value, and the marker rows above that row put the cursor at `c`; marker rows are never stored |
| Categorize.ScanPicks | backend/src/controllers/sheetsController.js:386-432 | each bucket `c` is exactly the list, in grid order, of the cleaned forms of the qualifying rows scanned while the marker rows above them put the cursor at `c` (`Picked`, defined row by row) |
| Categorize.QualifyingStored | backend/src/controllers/sheetsController.js:407-431 | every non-marker row whose cleaned form has a `PROJETO` value is stored, cleaned, in the bucket the marker rows above it name |
| Categorize.TotalStored | backend/src/controllers/sheetsController.js:386-432 | the buckets together hold as many records as there are qualifying rows, so never more records than input rows |
| SheetsController.GetSheetData | backend/src/controllers/sheetsController.js:310-361 | no data exactly in the three empty cases; otherwise `rowCount` is the number of rows below the header, the headers are the third row, the categories are the scan of the normalised records, and they hold at most `rowCount` records |
| SheetsController.FindContaining | backend/src/controllers/sheetsController.js:95 | `find` gives the first URI that contains the needle, or nothing when no URI does |
| SheetsController.SelectRedirectUri | backend/src/controllers/sheetsController.js:89-102 | a `localhost` host takes the first `localhost` URI, else `uris[0]`; otherwise a `render` host takes the first `render` URI, else `uris[1]`; any other host takes `uris[0]`; the `localhost` test wins; the result is always one of the listed URIs |
| SheetsController.ChosenToken | backend/src/controllers/sheetsController.js:208-230 | the token from the query string takes precedence over the backup file's |
| SheetsController.CheckAuthStatus | backend/src/controllers/sheetsController.js:232-254 | no token gives "not found"; otherwise the token counts as authenticated iff it has not expired, its `access_token` is non-empty and its expiry can be written as a date; an expiry outside the `Date` range gives the `catch` answer; otherwise the message is `Token expirado` when the token has expired and `Token válido` when not, and `tokenExpiresAt` is the expiry when it is present and non-zero, absent (`N/A`) otherwise |
| SheetsController.NoExpiryNeverExpires | backend/src/controllers/sheetsController.js:240 | a token with no `expiry_date` (or 0) never counts as expired |
| SheetsController.BearerToken | backend/src/controllers/sheetsController.js:279-281 | a token is read iff the header starts with `Bearer `, and the header is then `Bearer ` followed by that token |
| SheetsController.BearerRoundTrip | backend/src/controllers/sheetsController.js:279-281 | stripping the prefix from `Bearer ` + t gives back t |
| SheetsController.ReadRangeParts | backend/src/controllers/sheetsController.js:303 | the read range is the sheet name (default `Projetos`), `!`, then the requested range, or `A:Z` when none or an empty one is given; cutting it at the first `!` gives both parts back |
| Timeline.AllProjects | frontend/src/components/Timeline.jsx:8-21 | absent categories give `[]`; otherwise the loop returns the buckets concatenated in key order, each item tagged with its bucket name |
| Timeline.Tag | frontend/src/components/Timeline.jsx:13-16 | every tagged item has `category` equal to its bucket name, overriding any earlier value, and keeps every other field of the source item; no item is added or dropped |
| Timeline.FlattenLength | frontend/src/components/Timeline.jsx:11-20 | the flattened list is as long as all buckets together |
| Timeline.ByCategoryTag | frontend/src/components/Timeline.jsx:14-17 | the tag overrides any existing `category`: a tagged bucket passes the filter for its own name in full and for no other name |
| Timeline.ByCategory | frontend/src/components/Timeline.jsx:28 | the filter keeps exactly the items whose `category` equals the selection, and never lengthens the list |
| Timeline.FilteredProjects | frontend/src/components/Timeline.jsx:24-29 | `Todos` returns the list unchanged; any other value keeps exactly the items of that category |
| Timeline.ByCategoryIdempotent | frontend/src/components/Timeline.jsx:28 | filtering twice by the same category changes nothing |
| Timeline.FilterSelectsBucket | frontend/src/components/Timeline.jsx:12-28 | with distinct bucket names, selecting a bucket's name shows exactly that bucket, tagged, in its own order |
| Timeline.FilterMissingName | frontend/src/components/Timeline.jsx:12-28 | selecting a name that no bucket has shows nothing |
| Timeline.CategoryNames | frontend/src/components/Timeline.jsx:31 | absent categories give no names; otherwise the names are the bucket keys, one per bucket, in key order |
| Timeline.ProjectCategoriesListed | frontend/src/components/Timeline.jsx:12-31 | every project's `category` is one of the names offered in the selector |
| Timeline.CategorizedEntries | frontend/src/components/Timeline.jsx:8-28 | for the four-bucket object the backend sends, the timeline lists every stored record, and selecting a category shows exactly that bucket |
| Timeline.CountLabelPlural | frontend/src/components/Timeline.jsx:54 | the label starts with the count, and it ends in `s` iff the count is not 1 |
| Timeline.DashSpaces | frontend/src/components/Timeline.jsx:71 | `replace(/\s+/g, '-')` leaves no white space, empties only the empty string, and introduces no character except `-` |
| Timeline.DashSpacesNoSpace | frontend/src/components/Timeline.jsx:71 | a string without white space is left unchanged |
| Timeline.DashSpacesRun | frontend/src/components/Timeline.jsx:71 | a space-free stretch followed by a maximal white-space run becomes the stretch unchanged followed by one `-`, and the rest is rewritten the same way |
| Timeline.SlugIdempotent | frontend/src/components/Timeline.jsx:95 | the slug of a slug is itself |
| Timeline.StatusSlug | frontend/src/components/Timeline.jsx:71 | a missing or empty `STATUS ` field gives `indefinido`; otherwise the slug of the status; never empty and never white space |
| Timeline.StatusLabel | frontend/src/components/Timeline.jsx:72 | the status text whenever it is present and non-empty, and `Indefinido` otherwise |
| Timeline.Title | frontend/src/components/Timeline.jsx:70 | the `PROJETO` text whenever it is present and non-empty, and `Projeto sem título` otherwise |

## Left out

- The Google OAuth2 client is not modelled: `generateAuthUrl`, `getToken` and `setCredentials` are calls into a library.
- The Sheets API calls `values.get` and `values.append` (and with them `appendSheetData`) are not modelled for the same reason. The grid the read returns is an input to `GetSheetData`.
- File I/O is not modelled: `loadOrCreateToken`, `saveToken`, `authenticateGoogle` and the credentials file. The backup token appears only as the `fileToken` input of `CheckAuthStatus`.
- `JSON.parse` and `decodeURIComponent` are not modelled. A token that fails to parse is an absent (`None`) token.
- `Date.now()` is the `now` parameter.
- `toISOString` is left out. `tokenExpiresAt` carries the expiry in milliseconds instead of the ISO text.
- The `handleAuthCallback` redirect URL and the `SPREADSHEET_ID` check are left out. Express routing, CORS and status codes (`backend/src/index.js`, `backend/src/routes/api.js`) are framework glue.
- React state, hooks and rendering are left out, as are the login page, the dashboard, `App.jsx` and the axios wrappers in `frontend/src/services/api.js`. They are UI and HTTP plumbing.
- `toUpperCase` and `toLowerCase` are modelled on ASCII letters only. Accented letters keep their case.
- JavaScript lists integer-like object keys first. The model keeps pure insertion order.
- Cells are strings. A `null` row inside the grid reads like an empty row.
- Header cells are taken as strings, as the Sheets API returns them.
- CheckAuthStatus: `tokenExpiresAt` is the expiry in milliseconds, or absent where the source writes `N/A`; the ISO date text is not stated.
