# Trello attachment exporter — verified model

A Dafny model of the logical layer of `trello_exporter.py`, a script that downloads
every attachment of a Trello board export into one folder per list and zips the result.
The I/O around it (cookie databases, HTTP, the filesystem, the zip library) is replaced
by inputs and oracles. What remains, and is proved:

- **File-name sanitizer** (`FileNames`): an attachment is saved as
  `card_name + "_" + attachment_name` with every character dropped that is neither
  alphanumeric nor one of space, `.`, `-`, `_`. Python's `str.isalnum` is kept abstract
  as a parameter `isAlnum: char -> bool`.
- **Dictionary filling** (`Dict`): the `d[k] = v` loops of the script, as a fold in
  which later pairs overwrite earlier ones.
- **Folder planner** (`Folders`): `create_list_folders` builds the map from list id to
  `board_path / list_name`. Paths are sequences of segments.
- **Attachment fetcher** (`Downloads`): `process_card_attachments` counts successful
  downloads of one card; the card loop of `main` sums these over the cards whose list id
  is known. `download_file` is an oracle `(url, save_path, cookies) -> bool`, and each
  method also returns, as a ghost trace, the download calls it made, in order.
- **Credential resolver** (`Cookies`): Chrome's rows, then Firefox's, each folded into a
  map; the first non-empty one wins; the manual table is the fallback; the program exits
  only when that is empty too.
- **Orchestration** (`Exporter`): `main` from cookie lookup to the final summary.

Where the script and its design description disagree, the model follows the script:

- The description says sanitizing trims the name, turns spaces into hyphens, prefixes the
  board name and applies to board and list names too. The code at
  `trello_exporter.py:167-170` does none of this. Spaces are kept (`FileNames.SpacesSurvive`,
  `FileNames.ExampleFileName`: "Task #1" with "a.png" gives "Task 1_a.png"). Board and list
  names are used raw (`trello_exporter.py:104`, `118`).
- The description says the program exits when no credentials are found. With the shipped
  `MANUAL_COOKIES` (five placeholder tokens) that exit is never reached:
  `Cookies.ShippedTableNeverExits`.

## Model

| member | source | states |
|---|---|---|
| FileNames.Sanitize | trello_exporter.py:170 | the sanitized name is never longer than the input and holds only alphanumeric characters, space, `.`, `-` or `_` |
| FileNames.SanitizeCounts | trello_exporter.py:170 | each allowed character occurs in the result exactly as often as in the input; a disallowed one never occurs |
| FileNames.SanitizeIsSubsequence | trello_exporter.py:170 | the result is an order-preserving subsequence of the input |
| FileNames.AllowedSubsequenceBound | trello_exporter.py:170 | no subsequence of the input made of allowed characters is longer than the sanitized name |
| FileNames.SanitizeIsLongestAllowedSubsequence | trello_exporter.py:170 | the sanitized name is the unique longest allowed-only subsequence of the input, so every allowed character is kept |
| FileNames.SanitizeIdempotent | trello_exporter.py:170 | sanitizing a sanitized name returns it unchanged |
| FileNames.SanitizeKeepsAllowedNames | trello_exporter.py:170 | a name made only of allowed characters is returned unchanged |
| FileNames.SanitizeAppend | trello_exporter.py:167-170 | the filter distributes over concatenation |
| FileNames.SpacesSurvive | trello_exporter.py:170 | the result holds a space exactly when the input does: nothing trims or replaces spaces |
| FileNames.AttachmentFileName | trello_exporter.py:167-172 | the saved name is `sanitize(card_name) + "_" + sanitize(attachment_name)`; it contains `_`, is never `.` or `..`, and has no `/` when `/` is not alphanumeric |
| FileNames.ExampleCardName | trello_exporter.py:170 | "Task #1" sanitizes to "Task 1" |
| FileNames.ExampleFileName | trello_exporter.py:167-170 | card "Task #1" with attachment "a.png" is saved as "Task 1_a.png" |
| Dict.FromPairs | trello_exporter.py:114-120 | the keys of a dictionary filled by `d[k] = v` are exactly the keys of the assigned pairs |
| Dict.EmptyIffNoPairs | trello_exporter.py:47-51 | the filled dictionary is empty exactly when no pair was assigned |
| Dict.LastWins | trello_exporter.py:114-120 | a key holds the value of the last pair assigned to it |
| Dict.EveryKeyHasLastPair | trello_exporter.py:114-120 | every key of the dictionary comes from a last assignment, whose value it holds |
| TrelloData.Join | trello_exporter.py:118 | `base / name` adds the name as one last segment after `base`, and an empty name leaves `base` unchanged |
| Folders.BoardPath | trello_exporter.py:100-107 | the board folder is the output folder plus the raw, unsanitized board name; an empty name gives the output folder itself |
| Folders.ListPathKeys | trello_exporter.py:114-123 | the keys of `list_paths` are exactly the list ids |
| Folders.ListPathIsLastList | trello_exporter.py:114-123 | each id maps to `board_path / name` of the last list with that id |
| Folders.CreateListFolders | trello_exporter.py:110-123 | the loop returns the specified map: keys exactly the list ids, each id mapped to the folder of its last list |
| Downloads.CountOk | trello_exporter.py:161-182 | the number of successful download calls is at most the number of calls |
| Downloads.CountOkAppend | trello_exporter.py:161-182 | successes of consecutive runs of calls add up |
| Downloads.CountOkExtremes | trello_exporter.py:176-182 | the count equals the number of calls exactly when every call succeeds, and is 0 exactly when none does |
| Downloads.ProcessCardAttachments | trello_exporter.py:151-182 | one download call per attachment in order, to `list_path / sanitized name`; returns the number that succeeded, at most the number of attachments, and 0 when `attachments` is absent or empty |
| Downloads.CardsAppend | trello_exporter.py:261-275 | totals and download calls of consecutive runs of cards add up, so processing a card never stops the next |
| Downloads.SkippedCardIsNeutral | trello_exporter.py:267-269 | a card whose list id is unknown adds no download and no call, and later cards are processed as if it were absent |
| Downloads.TotalCountsSuccessfulCalls | trello_exporter.py:261-275 | the total equals the number of successful calls among those made for known cards, and is at most the number of those calls |
| Downloads.DownloadAllCards | trello_exporter.py:261-275 | the loop makes the calls of the known cards in document order and returns the sum of their per-card counts |
| Cookies.GetBrowserCookies | trello_exporter.py:31-82 | Chrome's rows folded into a map when there are any, otherwise Firefox's; empty exactly when both give no rows |
| Cookies.ResolveCookies | trello_exporter.py:228-240 | browser cookies when non-empty, else the manual table when non-empty, else exit; exit exactly when both are empty, and credentials are never empty |
| Cookies.ResolutionOrder | trello_exporter.py:228-240 | Chrome, then Firefox, then the manual table, and an exit only when all three are empty |
| Cookies.ChromeShortCircuits | trello_exporter.py:51-53 | when Chrome has cookies, Firefox's rows make no difference |
| Cookies.ShippedTableNeverExits | trello_exporter.py:17-23 | with the shipped placeholder table the exit is never taken, and the placeholders are used when no browser gives cookies |
| Exporter.ArchivePath | trello_exporter.py:195-198 | the archive lies in the folder's parent and is named `<zip_name or folder name>.zip` |
| Exporter.RunExport | trello_exporter.py:218-288 | exit exactly when Chrome, Firefox and the manual table are all empty; otherwise the summary's total is the number of successful calls among those made for known cards, and its location is the archive when `create_zip_archive` returned a path, otherwise the board folder |

## Left out

- HTTP download and streaming to disk (`download_file`, lines 126-148): network and file I/O; an oracle answering success per call stands in. It is a function of URL, path and cookies, so it gives the same answer to the same call.
- SQLite cookie queries, the Firefox profile glob and the `exists` checks (lines 34-74): foreign databases and filesystem; each browser is the sequence of rows its query returned, empty when the store is missing or the query fails.
- An exception raised by Chrome after some rows were stored (lines 54-55) leaves a partly filled dictionary for the Firefox phase; the model does not capture this exception-driven path.
- Loading the export JSON and `exit(1)` (lines 85-97): file I/O and process termination; the parsed board is an input.
- `mkdir` calls (lines 104-105, 119): only the paths handed to them are modelled.
- Zip creation and `rmtree` (lines 185-215): library and filesystem calls; only the archive's path is modelled. Whether `create_zip_archive` returned a path (archive written, its size read, the folder removed) is the input `archiveReturned` of `Exporter.RunExport`.
- Exporter.RunExport: an archive that was written but whose size lookup or folder removal then failed (lines 204-215) makes `create_zip_archive` return `None`; the model does not tell this apart from a failed archive, and like the script reports the board folder.
- Size printing in KB and MB (lines 177, 204) and all console output: floats and output only.
- Python's Unicode `str.isalnum`: kept abstract as a parameter instead of encoding Unicode tables.
- pathlib joins a name containing `/` (and, on Windows, the platform the script targets, `\`) as several segments, drops a `.` segment so that a list named `.` is the board folder itself, and lets an absolute name replace the base; the model joins a name as one segment and handles only the empty name. This affects the unsanitized board and list names.
