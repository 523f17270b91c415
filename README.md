# Page export to the download service, modelled in Dafny

This project models the page exporter of the WebMemex browser extension
(`src/page-storage/download-page.js`). The exporter writes archived web pages
to disk through the browser's download service. It has two functions:

- `downloadPage` exports one page. It reads the page's `frozen-page.html`
  snapshot from the store and derives a file name:
  - it uses the file name given to it unchanged;
  - or, when none is given, it builds `date - title.html`, with every `/` and
    `\` of the title replaced by `-`.

  It joins the folder on with `/` and asks the download service for the file.
  When that request fails with a message mentioning `filename`, it replaces
  each of `' ? : ~ < > * |` in the path by `-` and asks once more.
- `downloadAllPages` exports every page of the store, in order, into a folder.
  The folder defaults to `WebMemex snapshots dump <date>`.
  - At the first page without a snapshot, it returns `undefined`.
  - Otherwise it collects each page whose export threw, together with the
    error.
  - Once the loop ends, it always throws `Some downloads failed:` followed by
    one `id ("title"): message` line per failure, joined by commas.

The project has two modules:

- `filenames.dfy` (module `Filenames`) holds the pure string maps:
  - slash replacement;
  - the default file name;
  - the folder join;
  - the retry sanitiser;
  - the substring test `includes`.
- `export.dfy` (module `Export`) holds the two exporters. The store and the
  download service are a `Host` object. Its `respond` answers the download
  service's n-th request for a path, its `readAttachment` answers reads of a
  snapshot, and `requests` logs every path the service was asked for.

Each imperative function is proved against a pure function of those answers:

- `DownloadPage` is proved against `ExportPage`.
- `DownloadAllPages` is proved against `ExportAll`, which is built from
  `FirstMissing` and `ExportEach`.

The properties the exporter promises are lemmas about these functions.

The model follows the code in four places where its behaviour is easy to
misread:

- **Retry sanitiser:** it *replaces* the eight characters by `-`; it does not
  remove them.
- **Other first-request errors:** a first failure whose message does not
  mention `filename` is swallowed, because the `catch` has no rethrow.
  `downloadPage` then completes normally.
- **Missing snapshot:** a page without a snapshot ends the whole batch with
  `undefined`; the other pages are not skipped past.
- **Batch error:** `if (failedDownloads)` tests an array, which is always
  truthy. So the batch throws after a full pass even when nothing failed; the
  message is then just the prefix.

## Model

| member | source | states |
|---|---|---|
| Filenames.DefaultFilename | src/page-storage/download-page.js:41-45 | the default file name `date - title.html`; no contract of its own, see DefaultFilenameShape and DefaultFilenameExample |
| Filenames.Contains | src/page-storage/download-page.js:60 | `includes`: the substring starts at some position; no contract of its own, see ContainsIff and ContainsAt |
| Filenames.ReplaceAll | src/page-storage/download-page.js:44 | a global replace with a character class keeps the length and maps each character on its own: a class member becomes the replacement, anything else stays |
| Filenames.ReplaceAllClears | src/page-storage/download-page.js:61 | after the replacement no class member survives, provided the replacement is outside the class |
| Filenames.ReplaceAllIdempotent | src/page-storage/download-page.js:61 | replacing a second time changes nothing |
| Filenames.ReplaceAllConcat | src/page-storage/download-page.js:47 | replacement distributes over concatenation |
| Filenames.ReplaceSlashes | src/page-storage/download-page.js:44 | the title with its slashes replaced keeps its length, contains no `/` or `\`, turns each slash into `-` and keeps every other character |
| Filenames.DefaultFilenameShape | src/page-storage/download-page.js:41-45 | the default name is exactly the date, then ` - `, then the slash-replaced title at the title's own positions, then `.html`; with a slash-free date the whole name has no slash |
| Filenames.DefaultFilenameExample | src/page-storage/download-page.js:43-44 | date `2020-01-01` and title `A/B` give `2020-01-01 - A-B.html` |
| Filenames.JoinFolder | src/page-storage/download-page.js:46-48 | without a folder the path is the file name itself; with one it is the folder, one `/`, then the file name, at the stated positions |
| Filenames.Sanitise | src/page-storage/download-page.js:61 | the sanitised path keeps its length, contains none of `' ? : ~ < > * \|`, turns each of them into `-` and keeps every other character, `/` included |
| Filenames.SanitiseIdempotent | src/page-storage/download-page.js:61 | sanitising twice is sanitising once |
| Filenames.SanitiseJoin | src/page-storage/download-page.js:47-61 | sanitising a joined path is joining the sanitised folder and file name: the separator survives |
| Filenames.ContainsIff | src/page-storage/download-page.js:60 | `includes` holds exactly when the substring occurs at some index (both directions) |
| Filenames.ContainsAt | src/page-storage/download-page.js:60 | a string includes whatever occurs at one of its indices |
| Export.Host.Download | src/page-storage/download-page.js:50-55 | a download request appends its path to the request log and returns the service's answer to that request |
| Export.TargetPath | src/page-storage/download-page.js:41-48 | the target path is the given file name or the default date/title name, prefixed by `folder/` exactly when a folder is given |
| Export.ExportPage | src/page-storage/download-page.js:38-64 | the single-page export as a function of the store's and the download service's answers: read, request the target path, retry once with the sanitised path on a `filename` error; no contract of its own, see ExportPageCalls, ExportPageOutcome and DownloadPage |
| Export.ExportPageCalls | src/page-storage/download-page.js:56-63 | a page export asks the download service at most twice: never when the snapshot read fails, first for the target path, and a second time exactly when the first request failed with a message containing `filename`, for the sanitised path, which has no forbidden character |
| Export.ExportPageOutcome | src/page-storage/download-page.js:38-64 | a failed read propagates; a first failure not mentioning `filename` is swallowed; after a retry the retry's answer is the result; the export fails exactly when the read fails or both requests fail over the file name (for a page with a valid date and a string title, see Left out) |
| Export.ExportPageRetryExample | src/page-storage/download-page.js:56-64 | a page titled `A/B` whose first request is refused with `invalid filename` and whose retry succeeds is exported normally after two requests (its helper `InvalidFilenameMentionsFilename` shows that this message mentions `filename`) |
| Export.DownloadPage | src/page-storage/download-page.js:35-64 | `downloadPage` requests exactly the paths of `ExportPage`, in order, and ends as `ExportPage` does |
| Export.DumpFolder | src/page-storage/download-page.js:9-11 | the default folder is `WebMemex snapshots dump ` followed by the date |
| Export.ExportInto | src/page-storage/download-page.js:22 | the single-page export the batch runs, into its folder under the default file name; no contract of its own, see DownloadInto and DownloadAllPages |
| Export.ExportEach | src/page-storage/download-page.js:13-26 | every page exported in order, each after the requests of those before it; its contract gives one export per page, and ExportEachFrom and ExportEachAt characterise it position by position |
| Export.ExportAll | src/page-storage/download-page.js:13-26 | the batch: the pages before the first one without a snapshot, exported in order, complete only when no page lacks one; its contract bounds the pages attempted, see ExportAllAt, StopsAtFirstMissing and AlwaysThrowsAfterFullPass |
| Export.FirstMissing | src/page-storage/download-page.js:13-19 | the position where the loop stops: every page before it has a snapshot, and the page there (if any) has none |
| Export.ExportEachFrom | src/page-storage/download-page.js:13-26 | exports made one per page, in order, each starting where the requests before it left the service, are the export of the whole page sequence |
| Export.ExportEachAt | src/page-storage/download-page.js:13-26 | conversely, the i-th export of a page sequence is that of page i, made after the requests of the exports before it |
| Export.ExportEachPrefix | src/page-storage/download-page.js:13-26 | exporting a prefix of the pages does what exporting all of them does on that prefix |
| Export.ExportAllAt | src/page-storage/download-page.js:13-26 | each page that reaches `downloadPage` is handed to it once, in order, after the requests of the pages before it |
| Export.StopsAtFirstMissing | src/page-storage/download-page.js:13-19 | when page k is the first without a snapshot, only pages 0..k-1 are exported and the batch returns `undefined` without throwing |
| Export.Failures | src/page-storage/download-page.js:21-25 | the failure list the `catch` builds, in page order; no contract of its own, see FailuresExact |
| Export.FailedIndices | src/page-storage/download-page.js:21-25 | the positions of the exports that threw, strictly increasing, each one a position whose export threw and every such position present |
| Export.FailuresExact | src/page-storage/download-page.js:21-25 | the failure list has one entry per export that threw, in page order: the page at that position with the message it threw |
| Export.Entry | src/page-storage/download-page.js:29 | one line of the batch error, `id ("title"): message` and a newline; no contract of its own, see Entries and MessageHasEntry |
| Export.Entries | src/page-storage/download-page.js:28-30 | the failures map to one entry each, in order, the i-th being `id ("title"): message` and a newline for the i-th failure |
| Export.MessageHasEntry | src/page-storage/download-page.js:27-31 | the batch error contains the entry of each single failure |
| Export.JoinCommas | src/page-storage/download-page.js:31 | an array turned into a string: its parts joined by commas; no contract of its own, see JoinCommasHasPart |
| Export.FailureMessage | src/page-storage/download-page.js:28-31 | the batch error's message: the prefix, then the entries joined by commas; no contract of its own, see FailureMessageLists and MessageHasEntry |
| Export.BatchOutcome | src/page-storage/download-page.js:17-18 | how the batch ends: `undefined` when it stopped at a page without a snapshot, otherwise the thrown failure list (lines 27-31); no contract of its own, see StopsAtFirstMissing and AlwaysThrowsAfterFullPass |
| Export.JoinCommasHasPart | src/page-storage/download-page.js:28-31 | each entry of an array turned into a string appears whole at its offset in the comma-joined text |
| Export.FailureMessageLists | src/page-storage/download-page.js:27-31 | the batch error starts with `Some downloads failed:` and a newline, is exactly that when nothing failed, and contains every failure's `id ("title"): message` line |
| Export.AlwaysThrowsAfterFullPass | src/page-storage/download-page.js:12-32 | when every page has a snapshot, every page is exported in order and the batch always throws, with the prefix and every failure's entry, even when the failure list is empty |
| Export.DownloadInto | src/page-storage/download-page.js:22 | the batch's call of `downloadPage` into its folder under the default file name does what the batch's per-page export does |
| Export.DownloadAllPages | src/page-storage/download-page.js:7-33 | `downloadAllPages` uses the given folder or the dated default, requests exactly the paths of `ExportAll` in order, and returns `undefined` or throws exactly as `BatchOutcome` says |

## Left out

- The page store: `getAllPages` and `db.getAttachment` become inputs. The pages are a sequence, and the snapshot read is the host's `readAttachment` answer per page id.
- `URL.createObjectURL`, `URL.revokeObjectURL` and the ten-second `window.setTimeout`: they manage the browser's blob memory and change no result.
- `browser.downloads.download`: it becomes the host's `respond`, an answer for each request number and path. The `saveAs` flag and the `uniquify` conflict action are passed through unread, so they are not modelled.
- `Date`, `toISOString` and `getTimestamp`: the date is a string parameter, per page (`Page.date`) and for the default folder (`today`).
- `async`/`await`: the exporter runs strictly one step after another, so it is modelled as sequential code.
- lodash `get` on `_attachments['frozen-page.html']`: it becomes the boolean `Page.hasSnapshot`.
- A `null` folder: it passes the `folder !== undefined` test and joins as an empty string. The model only distinguishes a given folder from an absent one.
- Thrown values without a `message`: every failure carries a message string. A thrown value without `.message` would make `includes` itself throw, and that is not modelled.
- Export.ExportPage: two throws of `downloadPage` between the read and the first download request are not modelled. `new Date(getTimestamp(page)).toISOString()` throws a RangeError for an invalid timestamp, and `page.title.replace` throws a TypeError when the title is not a string; `downloadAllPages` would record either as a failure. The date and the title are always strings here, so the export cannot fail at that point.
- Export.DownloadPage: the blob URL handed to the service is not modelled. The model records only the requested paths.
