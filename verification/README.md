# Spreadsheet notification backend — Dafny model

This project models the decision logic of a small spreadsheet service. The
service stores uploaded `.xlsx` workbooks, lists them, and turns the `ROWS`,
`TEXT` and `LINE` sheets of a workbook into chart data. It covers two files:

- `api/server.js` (Express):
  - `sheetToJSONSafe` and the `parseWorkbook` projection. This builds `ROWS`,
    `TITLES`, `HEADLINES`, `BODIES`, `LINE_LABELS` and `LINE_SEEN` from
    `??` key-fallback chains.
  - The multer upload-name sanitiser.
  - The filename guard shared by the parsed, raw and delete routes.
  - The status-code order of those routes and of the upload route.
  - The `.xlsx` listing, sorted by modification time.
- `web/src/app/api/excel/route.ts` (Next.js): the spreadsheet listing with one
  download URL per file.

Every operation is a pure function. The file system, the workbook reader and
the request are inputs:

- a directory is a list of names, each with its stat result or a failure;
- a workbook is a map from sheet name to the records `sheet_to_json` returns;
- "file exists" is a boolean;
- a thrown error is an `Err` or `None` input.

Modules:

- `Wrappers`: `Option` and `Result`.
- `JsStrings`: ASCII lower-casing, `endsWith`, and trailing-slash stripping.
- `Cells`: cells, records, and JavaScript's `??` over a chain of keys (`Coalesce`).
- `Sheets`: `sheetToJSONSafe` and `parseWorkbook`.
- `Filenames`: the upload sanitiser and the route guard.
- `FileListing`: suffix filter, stat, and the stable sort by modification time.
  Both listing routes use it.
- `ServerRoutes`: the Express routes of `api/server.js`.
- `ExcelRoute`: the `GET` handler of `web/src/app/api/excel/route.ts`.

Behaviour of the code as written:

- `??` skips only `null` and `undefined`. An empty lowercase cell (`''`,
  which `defval: ''` produces for every blank cell) shadows a filled
  Capitalised or UPPERCASE column.
- `TITLES`, `HEADLINES` and `BODIES` always have exactly one entry per `ROWS`
  entry. A missing `TEXT` row gives `''`.
- The `LINE` sheet's value chain is `seen ?? Seen ?? seen`, so an UPPERCASE
  `SEEN` column is read on the `ROWS` sheet but never on the `LINE` sheet.
- The Express upload route stores a file under the sanitised name multer
  hands it whenever the write succeeds. It checks no extension and adds no
  timestamp prefix. The sanitiser on its own maps `.` and `..` to themselves,
  which name the data directory and its parent, so unlike the route guard it
  does not by itself keep a name inside the directory.
- `parseWorkbook` has no emission filter and no header normalisation. Every
  record of the `ROWS` sheet yields one `ROWS` entry, and only the listed key
  spellings are tried. The normaliser with header aliases, an emission filter
  and date/time helpers lives in `web/src/app/api/files/[file]/parsed/route.ts`,
  which is not part of this model.
- The Next.js listing accepts `.xls` as well as `.xlsx`. It answers with an
  empty list when the directory cannot be read. The Express listing accepts
  `.xlsx` only and answers 500.

## Model

| member | source | states |
|---|---|---|
| `Cells.Coalesce` | api/server.js:42-46 | the value of a `??` chain is the value under the first key that is neither missing nor null, else the fallback; an empty string counts as a value |
| `Sheets.SheetToJsonSafe` | api/server.js:27-31 | a sheet the workbook has gives its records; a sheet it lacks gives none |
| `Sheets.ProjectRow` | api/server.js:42-46 | a field none of whose three spellings holds a value is the conversion of `''` (body, subtitle, audience) or `0` (seen, unseen) |
| `Sheets.ProjectRows` | api/server.js:41-47 | ROWS has one entry per record of the ROWS sheet |
| `Sheets.TextColumn` | api/server.js:49-51 | each text column has exactly as many entries as ROWS, whatever the TEXT sheet's length |
| `Sheets.LineLabels` | api/server.js:53 | LINE_LABELS has one entry per LINE record when that sheet has rows, else one per ROWS entry |
| `Sheets.LineSeen` | api/server.js:54 | LINE_SEEN has the same length rule as LINE_LABELS |
| `Sheets.ParseWorkbook` | api/server.js:33-57 | ROWS matches the ROWS sheet's length; TITLES, HEADLINES, BODIES match ROWS; LINE_LABELS and LINE_SEEN match each other and the LINE sheet, or ROWS when LINE is empty |
| `Sheets.RowsFollowSheet` | api/server.js:37-47 | entry i of ROWS is the projection of record i of the ROWS sheet; no ROWS sheet gives ROWS = [] |
| `Sheets.RowFieldPrecedence` | api/server.js:42-46 | each of body, subtitle, seen, unseen and audience takes the lowercase key if defined, else the Capitalised one, else the UPPERCASE one |
| `Sheets.RowFieldDefaults` | api/server.js:42-46 | with none of its keys a text field is `''` and a count is 0 |
| `Sheets.EmptyLowercaseCellShadows` | api/server.js:42-44 | an empty lowercase `body`/`seen` cell wins over a filled `Body` column |
| `Sheets.TextColumnsAlign` | api/server.js:49-51 | entry i of TITLES/HEADLINES/BODIES is `''` when the TEXT sheet has no row i or none of the keys; TITLES takes title then Title, HEADLINES headline then Headline, BODIES bodyText, BodyText, body |
| `Sheets.LineFallsBackToRows` | api/server.js:53-54 | with an empty LINE sheet, label i is ROWS[i].body and value i is ROWS[i].seen |
| `Sheets.LineFollowsLineSheet` | api/server.js:53-54 | with a LINE sheet, label i falls back label, Label, body, else `''`; value i falls back seen, Seen, else 0 |
| `Sheets.LineSeenIgnoresUppercase` | api/server.js:54 | overwriting the LINE sheet's `SEEN` column never changes LINE_SEEN |
| `Sheets.UppercaseSeenReadOnlyInRows` | api/server.js:44 | a record whose only count is under `SEEN` gives 5 in ROWS but 0 in LINE_SEEN |
| `JsStrings.StripTrailingSlashes` | web/src/app/api/excel/route.ts:42 | the result is a prefix of the input, does not end in `/`, and only `/` was removed |
| `JsStrings.StripTrailingSlashesIdempotent` | web/src/app/api/excel/route.ts:42 | stripping twice equals stripping once |
| `JsStrings.StripTrailingSlashesEmptyIff` | web/src/app/api/excel/route.ts:42-45 | the stripped value is empty exactly when the input is only slashes |
| `Filenames.Sanitize` | api/server.js:20 | the stored name is never longer than the original and is empty only for an empty name |
| `Filenames.SanitizeIsClean` | api/server.js:20 | every character of the stored name is in `[a-zA-Z0-9._\-\s()%]` |
| `Filenames.SanitizeKeepsCleanNames` | api/server.js:20 | a name that is already clean is stored unchanged |
| `Filenames.SanitizeIdempotent` | api/server.js:20 | sanitising twice equals sanitising once |
| `Filenames.SanitizeFixedPointIff` | api/server.js:20 | a name is left unchanged exactly when every character is allowed |
| `Filenames.SanitizeCollapsesRun` | api/server.js:20 | a name made only of disallowed characters becomes one `_` |
| `Filenames.SanitizeRunThenRest` | api/server.js:20 | a maximal run of disallowed characters anywhere becomes one `_`, and what follows is sanitised on its own |
| `Filenames.SanitizeExamples` | api/server.js:20 | the sanitiser maps `a:b` to `a_b` |
| `Filenames.SanitizeKeepsDotSegments` | api/server.js:20 | the sanitiser maps `.` and `..` to themselves, names that do not stay inside the data directory |
| `Filenames.SanitizeSplitsAfterKeptChar` | api/server.js:20 | after a kept character the rest of the name is sanitised independently |
| `Filenames.SanitizedNameHasNoSeparator` | api/server.js:20 | a stored name never contains `/` or `\` |
| `Filenames.HasXlsxSuffix` | api/server.js:65 | the last five characters, lower-cased, are `.xlsx` |
| `Filenames.IsAllowedName` | api/server.js:82 | an accepted name has at least five characters and a dot fifth from the end |
| `Filenames.CheckName` | api/server.js:82 | the guard accepts exactly non-empty names over `[\w.\- %()]` whose lowercase form ends in `.xlsx` |
| `Filenames.AllowedNameStaysInDirectory` | api/server.js:82-85 | an accepted name is one path segment other than `.` and `..`, so the joined path stays in the data directory |
| `Filenames.AllowedNameIsClean` | api/server.js:20 | a name the guard accepts is a fixed point of the sanitiser |
| `Filenames.GuardExamples` | api/server.js:97 | `Report (1).XLSX` is accepted; `report.xls`, `../secret.xlsx` and a trailing newline are refused |
| `FileListing.KeepNames` | api/server.js:64-65 | the filter keeps each entry with an accepted name, with its multiplicity, and nothing else |
| `FileListing.KeepNamesAppend` | api/server.js:64-65 | the filter keeps directory order: filtering a concatenation concatenates the filtered parts |
| `FileListing.KeptMembership` | api/server.js:65 | an entry survives the filter exactly when it is in the directory and its name passes |
| `FileListing.ListedNamesPass` | api/server.js:64-71 | every element of the sorted listing comes from an entry whose name passed the filter |
| `FileListing.PassingEntriesListed` | api/server.js:64-71 | every entry whose name passes is in the sorted listing with its own size and time |
| `FileListing.StatAll` | api/server.js:66-70 | one element per entry in order with its size and time, or a failure exactly when some stat fails |
| `FileListing.Insert` | api/server.js:71 | inserting adds exactly one element |
| `FileListing.InsertKeepsSorted` | api/server.js:71 | inserting into a list sorted most recent first keeps it sorted |
| `FileListing.InsertWithMtime` | api/server.js:71 | the inserted element goes in front of the elements it ties with |
| `FileListing.SortByMtime` | api/server.js:71 | the sorted list is a permutation of its input |
| `FileListing.SortByMtimeSorted` | api/server.js:71 | the sorted list has non-increasing modification times |
| `FileListing.SortByMtimeStable` | web/src/app/api/excel/route.ts:40 | elements with the same time keep their input order |
| `ServerRoutes.ListFilesRoute` | api/server.js:62-76 | the listing fails exactly when the directory cannot be read or a kept entry cannot be stat-ed |
| `ServerRoutes.ListFilesRouteContents` | api/server.js:64-70 | every listed name ends in `.xlsx` in any case, and every such entry is listed with its size and time |
| `ServerRoutes.ListFilesRouteOrdered` | api/server.js:64-71 | the listing is a permutation of the stat-ed `.xlsx` entries, sorted most recent first, ties in directory order |
| `ServerRoutes.ParsedRoute` | api/server.js:79-92 | 400 exactly for a refused name, whatever the file system holds; else 404 when absent, 500 when reading throws, 200 with the parsed workbook |
| `ServerRoutes.RawRoute` | api/server.js:95-104 | 400 for a refused name, else 404 when absent, else the named file inside the data directory is streamed |
| `ServerRoutes.UploadRoute` | api/server.js:107-110 | 400 exactly without a file; 500 exactly when the write of the sanitised name fails; otherwise the stored name is the sanitised original, clean, no longer, without a separator, and a clean original unchanged |
| `ServerRoutes.SuppliedPass` | api/server.js:115 | the credential is one of header, query and body; it is truthy exactly when one of them is; the header wins when truthy, then the query |
| `ServerRoutes.AdminPass` | api/server.js:114 | an unset or empty variable falls back to `change-this-password`; the password is never empty |
| `ServerRoutes.DeleteRoute` | api/server.js:113-125 | 403 exactly on a password mismatch, whatever the name; then 400 for a refused name; then 404; the file is deleted only when all three checks pass |
| `ServerRoutes.NoCredentialNoDelete` | api/server.js:115-116 | with no non-empty credential in header, query or body the answer is 403 |
| `ServerRoutes.DefaultPasswordDeletes` | api/server.js:114-116 | without the variable, the default password in the header or body deletes an existing file |
| `ExcelRoute.ExcelFiles` | web/src/app/api/excel/route.ts:26-40 | an unreadable directory or a failing stat of a listed name gives an empty list |
| `ExcelRoute.ExcelFilesContents` | web/src/app/api/excel/route.ts:28-40 | every listed name ends in `.xlsx` or `.xls` in any case; every such entry is listed; a permutation of the stat-ed spreadsheets, most recent first, stable |
| `ExcelRoute.BaseUrl` | web/src/app/api/excel/route.ts:42-45 | a non-empty stripped variable is the base and does not end in `/`; otherwise the base is `protocol//host` |
| `ExcelRoute.Get` | web/src/app/api/excel/route.ts:43-52 | 500 exactly when the request URL does not parse; otherwise one entry per listed file, same order, with url = base + `/api/files/` + encoded name |
| `ExcelRoute.IsExcelName` | web/src/app/api/excel/route.ts:28 | the last five characters, lower-cased, are `.xlsx`, or the last four are `.xls` |
| `ExcelRoute.ExcelNameExamples` | web/src/app/api/excel/route.ts:28 | `old.XLS` and `new.xlsx` are listed; `notes.xlsm` and `xlsx` are not |
| `ExcelRoute.BaseUrlExamples` | web/src/app/api/excel/route.ts:42-45 | `https://x.io//` becomes `https://x.io`; `///` falls back to the request origin |

## Left out

- File-system calls are not modelled. They become inputs:
  - `readdirSync`/`readdir` and `statSync`/`stat` give a list of names with stat outcomes;
  - `existsSync` gives a boolean;
  - `unlinkSync` and `createReadStream` are the `Deleted` and `Stream` results.
  A failure of `unlinkSync` or of the stream after the checks is not modelled.
- `XLSX.readFile` and `sheet_to_json` are a foreign library. The workbook is
  given as a map from sheet name to records, and a read failure as an `Err`.
- JavaScript's `String(...)` and `Number(...)` conversion tables are not
  modelled: no number formatting, numeric parsing or NaN rules. Both are
  parameters (`Cells.Coercion`). The properties that name `''` or `0` assume
  only that `String` leaves a string alone and `Number` leaves a number alone
  (`Cells.IsJsCoercion`).
- `encodeURIComponent` and `Date.prototype.toISOString` are taken as
  parameters. `path.join` is modelled only by `Filenames.StaysInDirectory`.
- Letter case is folded for ASCII only. The only case-insensitive tests compare
  against the ASCII suffixes `.xlsx` and `.xls`, and no other character
  lower-cases into those. Strings are sequences of Unicode scalar values, not
  UTF-16 code units. For the sanitiser this gives the same result, because a
  surrogate pair is one run of disallowed code units.
- Modification times are reals. `Stat.mtime` is the value each route
  compares: fractional `mtimeMs` in api/server.js, whole-millisecond
  `getTime()` in the Next.js route. The comparator `b.mtime - a.mtime` is
  modelled as the comparison of the two times, which agrees for finite times.
- Express, multer, Next.js routing, CORS headers, the `OPTIONS` handler and
  environment-variable reads are not modelled. Variables are inputs. Multer's
  other errors (such as an unexpected upload field) are not modelled.
- Besides a URL that does not parse, no cause of `route.ts`'s outer `catch` is
  modelled: nothing else in the handler can throw once file-system failures
  are caught by the inner `try`.
- `web/src/app/page.tsx` (user interface), `web/src/app/api/upload/route.ts`
  and `web/src/app/api/files/route.ts` are not part of this model. The two
  routes repeat the `.xlsx` suffix test around file writes and reads.
- `web/src/app/api/files/[file]/parsed/route.ts` is not part of this model.
  Its header-alias resolution, date and time formatting, numeric and boolean
  coercion and emission filter do not appear in `api/server.js`.
- ServerRoutes.UploadRoute: whether multer's write succeeds is an input; the
  model does not derive the failures of a read-only file system.
- ServerRoutes.UploadRoute: multer hands the filename callback the client's
  base name (everything up to the last `/` or `\` cut, `.` and `..` made
  empty, a part with an empty name skipped). That step belongs to multer
  and is not modelled, so `originalName` ranges over more names than the
  route can receive.
- ServerRoutes.ListFilesRoute: the 500 answer's `error: e.message` is not
  modelled; `ListFailed` carries no message.
- ExcelRoute.Get: the 500 answer's message (`err.message` or "Upload
  failed") is not modelled; `ExcelFailed` carries no message.
