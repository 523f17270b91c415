/** Exporting archived pages through the browser's download service: one page
    at a time (`downloadPage`) and all pages of the store (`downloadAllPages`).

    The store and the download service are outside this code. A `Host` stands
    for both: the store answers a read of a page's snapshot attachment, and the
    download service answers its n-th request for a path; the host records
    every path it was asked to download. Each method is proved against a pure
    function of those answers (`ExportPage`, `ExportAll`), and the properties
    of the exporter are lemmas about those functions. */
module Export {
  import opened Filenames

  /** A page record: its id, its title, the date of its timestamp as
      `YYYY-MM-DD`, and whether it has a `frozen-page.html` attachment. */
  datatype Page = Page(id: string, title: string, date: string, hasSnapshot: bool)

  /** How an external call ends: normally, or with an error and its message. */
  datatype Outcome = Done | Failed(message: string)

  /** A page whose export threw, with the message of what it threw. */
  datatype Failure = Failure(page: Page, message: string)

  /** One export of one page: the paths requested from the download service,
      in order, and how the export ended. */
  datatype PageRun = PageRun(calls: seq<string>, outcome: Outcome)

  /** One batch export: the pages handed to the single-page export, what each
      of those exports did, and whether the loop went through all pages. */
  datatype BatchRun = BatchRun(attempted: seq<Page>, runs: seq<PageRun>, complete: bool)

  /** What the batch export returns: `undefined`, or the error it throws. */
  datatype BatchResult = Undefined | Threw(message: string)

  /** The store and the download service, as the exporter sees them. */
  class Host {
    /** The download service's answer to its n-th request (from 0) for a path. */
    const respond: (nat, string) -> Outcome
    /** The store's answer to a read of a page's snapshot attachment, by page id. */
    const readAttachment: string -> Outcome
    /** Every path requested from the download service so far, in order. */
    var requests: seq<string>

    constructor (respond: (nat, string) -> Outcome, readAttachment: string -> Outcome)
      ensures this.respond == respond && this.readAttachment == readAttachment
      ensures requests == []
    {
      this.respond := respond;
      this.readAttachment := readAttachment;
      requests := [];
    }

    /** Asks the download service for one file at `path`. */
    method Download(path: string) returns (o: Outcome)
      modifies this
      ensures requests == old(requests) + [path]
      ensures o == respond(|old(requests)|, path)
    {
      o := respond(|requests|, path);
      requests := requests + [path];
    }
  }

  /** The path a page is saved under: the given file name, or the default one
      built from date and title, joined onto the folder when there is one. */
  function TargetPath(page: Page, folder: Option<string>, filename: Option<string>): (path: string)
    ensures filename.Some? && folder.None? ==> path == filename.value
    ensures filename.Some? && folder.Some? ==> path == folder.value + "/" + filename.value
    ensures filename.None? && folder.None? ==> path == page.date + " - " + ReplaceSlashes(page.title) + ".html"
    ensures filename.None? && folder.Some? ==>
      path == folder.value + "/" + page.date + " - " + ReplaceSlashes(page.title) + ".html"
  {
    var name := if filename.Some? then filename.value else DefaultFilename(page.date, page.title);
    JoinFolder(folder, name)
  }

  /** What `downloadPage` does when the download service has already answered
      `n` requests: read the attachment (a failed read propagates), request
      the target path, and, when that fails with a message containing
      "filename", request the sanitised path once; that second answer is the
      result. Any other failure of the first request is swallowed. */
  function ExportPage(respond: (nat, string) -> Outcome, read: string -> Outcome, n: nat,
                      page: Page, folder: Option<string>, filename: Option<string>): PageRun
  {
    if read(page.id).Failed? then PageRun([], read(page.id))
    else
      var path := TargetPath(page, folder, filename);
      match respond(n, path)
      case Done => PageRun([path], Done)
      case Failed(m) =>
        if Contains(m, "filename") then
          var retry := Sanitise(path);
          PageRun([path, retry], respond(n + 1, retry))
        else PageRun([path], Done)
  }

  /** The download service is asked at most twice: never when the read fails,
      first for the target path, and a second time exactly when the first
      request failed with a message containing "filename", then for the
      sanitised target path, which has no forbidden character left. */
  lemma ExportPageCalls(respond: (nat, string) -> Outcome, read: string -> Outcome, n: nat,
                        page: Page, folder: Option<string>, filename: Option<string>)
    ensures var run := ExportPage(respond, read, n, page, folder, filename);
      var path := TargetPath(page, folder, filename);
      |run.calls| <= 2 &&
      (|run.calls| == 0 <==> read(page.id).Failed?) &&
      (|run.calls| >= 1 ==> run.calls[0] == path) &&
      (|run.calls| == 2 <==>
        read(page.id).Done? && respond(n, path).Failed? && Contains(respond(n, path).message, "filename")) &&
      (|run.calls| == 2 ==>
        run.calls[1] == Sanitise(path) && forall i :: 0 <= i < |run.calls[1]| ==> run.calls[1][i] !in Forbidden)
  {
  }

  /** The export of a page fails exactly when the read fails (with the read's
      error) or when the first request fails over the file name and the retry
      fails too (with the retry's error); a first failure for any other reason
      ends the export normally. */
  lemma ExportPageOutcome(respond: (nat, string) -> Outcome, read: string -> Outcome, n: nat,
                          page: Page, folder: Option<string>, filename: Option<string>)
    ensures var run := ExportPage(respond, read, n, page, folder, filename);
      var path := TargetPath(page, folder, filename);
      (read(page.id).Failed? ==> run.outcome == read(page.id)) &&
      (read(page.id).Done? && respond(n, path).Failed? && !Contains(respond(n, path).message, "filename") ==>
        run.outcome == Done) &&
      (read(page.id).Done? && respond(n, path).Failed? && Contains(respond(n, path).message, "filename") ==>
        run.outcome == respond(n + 1, Sanitise(path))) &&
      (run.outcome.Failed? <==>
        read(page.id).Failed? ||
        (respond(n, path).Failed? && Contains(respond(n, path).message, "filename") &&
         respond(n + 1, Sanitise(path)).Failed?))
  {
  }

  /** The worked example: a page whose first request is refused with
      "invalid filename" and whose retry succeeds is exported normally, after
      two requests. */
  lemma ExportPageRetryExample(respond: (nat, string) -> Outcome, read: string -> Outcome)
    requires read("p1") == Done
    requires respond(0, "2020-01-01 - A-B.html") == Failed("invalid filename")
    requires respond(1, Sanitise("2020-01-01 - A-B.html")) == Done
    ensures var run := ExportPage(respond, read, 0, Page("p1", "A/B", "2020-01-01", true), None, None);
      |run.calls| == 2 && run.outcome == Done
  {
    var page := Page("p1", "A/B", "2020-01-01", true);
    var path := TargetPath(page, None, None);
    DefaultFilenameExample();
    assert path == "2020-01-01 - A-B.html";
    InvalidFilenameMentionsFilename();
    var run := ExportPage(respond, read, 0, page, None, None);
    assert run == PageRun([path, Sanitise(path)], respond(1, Sanitise(path)));
  }

  /** The message "invalid filename" mentions the file name. */
  lemma InvalidFilenameMentionsFilename()
    ensures Contains("invalid filename", "filename")
  {
    assert "invalid filename"[8..16] == "filename";
    assert OccursAt("invalid filename", "filename", 8);
    ContainsAt("invalid filename", "filename", 8);
  }

  /** `downloadPage`: reads the page's snapshot, works out the path, requests
      the download, and retries once with the sanitised path when the
      service's error mentions the file name. */
  method DownloadPage(host: Host, page: Page, folder: Option<string>, filename: Option<string>)
    returns (o: Outcome)
    modifies host
    ensures var run := ExportPage(host.respond, host.readAttachment, |old(host.requests)|, page, folder, filename);
      host.requests == old(host.requests) + run.calls && o == run.outcome
  {
    var blob := host.readAttachment(page.id);
    if blob.Failed? {
      return blob;
    }
    var path: string;
    if filename.None? {
      path := DefaultFilename(page.date, page.title);
    } else {
      path := filename.value;
    }
    if folder.Some? {
      path := folder.value + "/" + path;
    }
    var first := host.Download(path);
    o := Done;
    if first.Failed? && Contains(first.message, "filename") {
      path := Sanitise(path);
      o := host.Download(path);
    }
  }

  /** The folder `downloadAllPages` exports into when it is given none. */
  function DumpFolder(today: string): (folder: string)
    ensures |folder| == 24 + |today|
    ensures folder[..24] == "WebMemex snapshots dump " && folder[24..] == today
  {
    "WebMemex snapshots dump " + today
  }

  /** The paths requested by a sequence of page exports, in order. */
  function Calls(runs: seq<PageRun>): seq<string>
  {
    if runs == [] then [] else runs[0].calls + Calls(runs[1..])
  }

  /** One more export adds its requests at the end. */
  lemma {:induction false} CallsAppend(runs: seq<PageRun>, run: PageRun)
    ensures Calls(runs + [run]) == Calls(runs) + run.calls
  {
    if runs == [] {
      assert [run][1..] == [];
    } else {
      CallsAppend(runs[1..], run);
      assert (runs + [run])[1..] == runs[1..] + [run];
    }
  }

  /** A single-page export as the batch sees it: given how many requests the
      download service has answered so far and a page, what exporting that
      page does. */
  type PageExporter = (nat, Page) -> PageRun

  /** The single-page export `downloadAllPages` runs: into `folder`, under the
      default file name. */
  function ExportInto(respond: (nat, string) -> Outcome, read: string -> Outcome, folder: string): PageExporter
  {
    (k: nat, page: Page) => ExportPage(respond, read, k, page, Some(folder), None)
  }

  /** `exporter` answers every page as the export into `folder` does.

      This says the same as `exporter == ExportInto(respond, read, folder)`,
      but the verifier is told to use it only for a page export that is
      already written out in the proof at hand. The batch proof mentions
      the exports of many pages; were each of them expanded into the full
      single-page export (paths, retry, sanitiser), the proof would become
      too large to check. With this predicate only the page just downloaded
      is expanded. */
  ghost predicate ExportsInto(exporter: PageExporter, respond: (nat, string) -> Outcome,
                              read: string -> Outcome, folder: string)
  {
    forall k: nat, page: Page {:trigger ExportPage(respond, read, k, page, Some(folder), None)} ::
      exporter(k, page) == ExportPage(respond, read, k, page, Some(folder), None)
  }

  /** `ExportInto` is such an exporter. */
  lemma ExportIntoExports(respond: (nat, string) -> Outcome, read: string -> Outcome, folder: string)
    ensures ExportsInto(ExportInto(respond, read, folder), respond, read, folder)
  {
  }

  /** The position of the first page without a snapshot, or the number of
      pages when they all have one. */
  function FirstMissing(pages: seq<Page>): (k: nat)
    ensures k <= |pages|
    ensures forall j :: 0 <= j < k ==> pages[j].hasSnapshot
    ensures k < |pages| ==> !pages[k].hasSnapshot
  {
    if pages == [] || !pages[0].hasSnapshot then 0 else 1 + FirstMissing(pages[1..])
  }

  /** Every page exported in order, each one starting where the requests of
      the ones before it left the download service (`n` answered to start with). */
  function ExportEach(exporter: PageExporter, n: nat, pages: seq<Page>): (runs: seq<PageRun>)
    ensures |runs| == |pages|
  {
    if pages == [] then []
    else
      var before := ExportEach(exporter, n, pages[..|pages| - 1]);
      before + [exporter(n + |Calls(before)|, pages[|pages| - 1])]
  }

  /** The `j`-th export is that of page `j`, made when the download service
      has answered `n` requests and those of the exports before it. */
  ghost predicate ExportedAt(exporter: PageExporter, n: nat, pages: seq<Page>, runs: seq<PageRun>, j: nat)
  {
    j < |runs| && j < |pages| && runs[j] == exporter(n + |Calls(runs[..j])|, pages[j])
  }

  /** An export stays in its place when another is appended. */
  lemma ExportedAtExtend(exporter: PageExporter, n: nat, pages: seq<Page>, runs: seq<PageRun>, run: PageRun, j: nat)
    requires ExportedAt(exporter, n, pages, runs, j)
    ensures ExportedAt(exporter, n, pages, runs + [run], j)
  {
    assert (runs + [run])[..j] == runs[..j];
  }

  /** Appending the export of the next page keeps the earlier exports where
      they were and puts the new one in its place. */
  lemma ExportedAtAppend(exporter: PageExporter, n: nat, pages: seq<Page>, runs: seq<PageRun>, run: PageRun)
    requires |runs| < |pages|
    requires forall j :: 0 <= j < |runs| ==> ExportedAt(exporter, n, pages, runs, j)
    requires run == exporter(n + |Calls(runs)|, pages[|runs|])
    ensures forall j :: 0 <= j <= |runs| ==> ExportedAt(exporter, n, pages, runs + [run], j)
  {
    var more := runs + [run];
    forall j | 0 <= j <= |runs| ensures ExportedAt(exporter, n, pages, more, j) {
      if j < |runs| {
        ExportedAtExtend(exporter, n, pages, runs, run, j);
      } else {
        assert more[..j] == runs;
      }
    }
  }

  /** A sequence of exports in which each export is that of the page at its
      position, starting where the requests of the exports before it left
      the download service, is the export of every page in order. */
  lemma {:induction false} ExportEachFrom(exporter: PageExporter, n: nat, pages: seq<Page>, runs: seq<PageRun>)
    requires |runs| == |pages|
    requires forall j :: 0 <= j < |runs| ==> ExportedAt(exporter, n, pages, runs, j)
    ensures runs == ExportEach(exporter, n, pages)
    decreases |pages|
  {
    if pages != [] {
      var k := |pages| - 1;
      var before := runs[..k];
      forall j | 0 <= j < k
        ensures ExportedAt(exporter, n, pages[..k], before, j)
      {
        assert ExportedAt(exporter, n, pages, runs, j);
        assert before[..j] == runs[..j];
      }
      ExportEachFrom(exporter, n, pages[..k], before);
      assert ExportedAt(exporter, n, pages, runs, k);
      assert runs == before + [runs[k]];
    }
  }

  /** Exporters that agree on every page export every sequence of pages alike. */
  lemma {:induction false} ExportEachAgree(e1: PageExporter, e2: PageExporter, n: nat, pages: seq<Page>)
    requires forall k: nat, page: Page :: e1(k, page) == e2(k, page)
    ensures ExportEach(e1, n, pages) == ExportEach(e2, n, pages)
    decreases |pages|
  {
    if pages != [] {
      ExportEachAgree(e1, e2, n, pages[..|pages| - 1]);
    }
  }

  /** Exporting a prefix of the pages does what the whole export does on it. */
  lemma {:induction false} ExportEachPrefix(exporter: PageExporter, n: nat, pages: seq<Page>, i: nat)
    requires i <= |pages|
    ensures ExportEach(exporter, n, pages)[..i] == ExportEach(exporter, n, pages[..i])
    decreases |pages|
  {
    if i < |pages| {
      var k := |pages| - 1;
      ExportEachPrefix(exporter, n, pages[..k], i);
      assert pages[..k][..i] == pages[..i];
      assert ExportEach(exporter, n, pages)[..k] == ExportEach(exporter, n, pages[..k]);
    } else {
      assert pages[..i] == pages;
    }
  }

  /** Conversely to `ExportEachFrom`, every export of `ExportEach` is that
      of the page at its position, made where the exports before it left the
      download service. */
  lemma {:induction false} ExportEachAt(exporter: PageExporter, n: nat, pages: seq<Page>, i: nat)
    requires i < |pages|
    ensures ExportedAt(exporter, n, pages, ExportEach(exporter, n, pages), i)
    decreases |pages|
  {
    var k := |pages| - 1;
    var runs := ExportEach(exporter, n, pages);
    var before := ExportEach(exporter, n, pages[..k]);
    assert runs == before + [exporter(n + |Calls(before)|, pages[k])];
    if i < k {
      ExportEachAt(exporter, n, pages[..k], i);
      assert runs[..i] == before[..i];
    } else {
      assert runs[..i] == before;
    }
  }

  /** What `downloadAllPages` does from the point where the download service
      has answered `n` requests, once the folder is fixed: hand the pages
      before the first page without a snapshot to the single-page export,
      one after the other, and complete only when no page lacks one. */
  function ExportAll(exporter: PageExporter, n: nat, pages: seq<Page>): (run: BatchRun)
    ensures |run.runs| == |run.attempted| <= |pages|
  {
    var k := FirstMissing(pages);
    BatchRun(pages[..k], ExportEach(exporter, n, pages[..k]), k == |pages|)
  }

  /** The pages that reach the single-page export are exported once each, in
      order: the `i`-th export is that of page `i`, made when the download
      service has answered the requests of the exports before it. */
  lemma ExportAllAt(exporter: PageExporter, n: nat, pages: seq<Page>, i: nat)
    requires i < |ExportAll(exporter, n, pages).runs|
    ensures var run := ExportAll(exporter, n, pages);
      run.attempted[i] == pages[i] &&
      run.runs[i] == exporter(n + |Calls(run.runs[..i])|, pages[i])
  {
    var k := FirstMissing(pages);
    ExportEachAt(exporter, n, pages[..k], i);
  }

  /** If page `k` is the first without a snapshot, exactly the pages before
      it are exported and the batch ends without a result. */
  lemma StopsAtFirstMissing(exporter: PageExporter, n: nat, pages: seq<Page>, k: nat)
    requires k < |pages| && !pages[k].hasSnapshot
    requires forall i :: 0 <= i < k ==> pages[i].hasSnapshot
    ensures var run := ExportAll(exporter, n, pages);
      run.attempted == pages[..k] && |run.runs| == k && BatchOutcome(run) == Undefined
  {
    assert FirstMissing(pages) == k;
  }

  /** The failures of a batch, in the order of the pages: each page whose
      export threw, with the message of what it threw. */
  function Failures(attempted: seq<Page>, runs: seq<PageRun>): seq<Failure>
    requires |attempted| == |runs|
  {
    if runs == [] then []
    else
      var k := |runs| - 1;
      Failures(attempted[..k], runs[..k]) +
        (if runs[k].outcome.Failed? then [Failure(attempted[k], runs[k].outcome.message)] else [])
  }

  /** One more export adds its failure, if it threw, at the end. */
  lemma FailuresAppend(attempted: seq<Page>, runs: seq<PageRun>, page: Page, run: PageRun)
    requires |attempted| == |runs|
    ensures Failures(attempted + [page], runs + [run]) ==
      Failures(attempted, runs) + (if run.outcome.Failed? then [Failure(page, run.outcome.message)] else [])
  {
    assert (attempted + [page])[..|runs|] == attempted && (runs + [run])[..|runs|] == runs;
  }

  /** Exporting page `i` after the pages before it adds its failure, if it
      threw, at the end of theirs. */
  lemma FailuresNext(pages: seq<Page>, runs: seq<PageRun>, run: PageRun, i: nat)
    requires |runs| == i < |pages|
    ensures Failures(pages[..i + 1], runs + [run]) ==
      Failures(pages[..i], runs) + (if run.outcome.Failed? then [Failure(pages[i], run.outcome.message)] else [])
  {
    assert pages[..i] + [pages[i]] == pages[..i + 1];
    FailuresAppend(pages[..i], runs, pages[i], run);
  }

  /** One more export adds its requests after those already made. */
  lemma RequestsNext(prior: seq<string>, runs: seq<PageRun>, run: PageRun)
    ensures prior + Calls(runs) + run.calls == prior + Calls(runs + [run])
  {
    CallsAppend(runs, run);
  }

  /** The positions of the exports that threw, in increasing order. */
  function FailedIndices(runs: seq<PageRun>): (idx: seq<nat>)
    ensures forall j, l :: 0 <= j < l < |idx| ==> idx[j] < idx[l]
    ensures forall j :: 0 <= j < |idx| ==> idx[j] < |runs|
    ensures forall i :: i in idx <==> 0 <= i < |runs| && runs[i].outcome.Failed?
  {
    if runs == [] then []
    else
      var k := |runs| - 1;
      FailedIndices(runs[..k]) + (if runs[k].outcome.Failed? then [k] else [])
  }

  /** The failure list holds one entry per export that threw, in order: the
      j-th entry is the page at the j-th failed position with its message. */
  lemma {:induction false} FailuresExact(attempted: seq<Page>, runs: seq<PageRun>)
    requires |attempted| == |runs|
    ensures var fs := Failures(attempted, runs);
      var idx := FailedIndices(runs);
      |fs| == |idx| &&
      forall j :: 0 <= j < |idx| ==>
        fs[j] == Failure(attempted[idx[j]], runs[idx[j]].outcome.message)
  {
    if runs != [] {
      var k := |runs| - 1;
      FailuresExact(attempted[..k], runs[..k]);
    }
  }

  /** What occurs in a string occurs, shifted, after anything put before it. */
  lemma OccursAfter(prefix: string, s: string, sub: string, i: nat)
    requires OccursAt(s, sub, i)
    ensures OccursAt(prefix + s, sub, |prefix| + i)
  {
    assert (prefix + s)[|prefix| + i..|prefix| + i + |sub|] == s[i..i + |sub|];
  }

  /** The text before the list of failures in the batch error. */
  const FailurePrefix := "Some downloads failed:\n"

  /** One line of the batch error: `id ("title"): message` and a newline. */
  function Entry(f: Failure): string
  {
    f.page.id + " (\"" + f.page.title + "\"): " + f.message + "\n"
  }

  /** The strings joined by commas, as an array turns into a string. */
  function JoinCommas(parts: seq<string>): string
  {
    if |parts| == 0 then ""
    else if |parts| == 1 then parts[0]
    else parts[0] + "," + JoinCommas(parts[1..])
  }

  /** Where the `j`-th part starts in the joined string. */
  function PartOffset(parts: seq<string>, j: nat): nat
    requires j < |parts|
  {
    if j == 0 then 0 else |parts[0]| + 1 + PartOffset(parts[1..], j - 1)
  }

  /** Every part appears, whole, at its offset in the joined string. */
  lemma {:induction false} JoinCommasHasPart(parts: seq<string>, j: nat)
    requires j < |parts|
    ensures OccursAt(JoinCommas(parts), parts[j], PartOffset(parts, j))
  {
    var joined := JoinCommas(parts);
    if j == 0 {
      if |parts| > 1 {
        assert joined == parts[0] + ("," + JoinCommas(parts[1..]));
      }
      assert joined[..|parts[0]|] == parts[0];
    } else {
      var tail := JoinCommas(parts[1..]);
      var off := PartOffset(parts[1..], j - 1);
      JoinCommasHasPart(parts[1..], j - 1);
      assert joined == (parts[0] + ",") + tail;
      var d := |parts[0]| + 1;
      assert joined[d + off..d + off + |parts[j]|] == tail[off..off + |parts[j]|];
    }
  }

  /** The entries of the failures, one per failure, in order (`map`). */
  function Entries(fs: seq<Failure>): (es: seq<string>)
    ensures |es| == |fs|
    ensures forall i :: 0 <= i < |fs| ==> es[i] == Entry(fs[i])
  {
    if fs == [] then [] else [Entry(fs[0])] + Entries(fs[1..])
  }

  /** The message of the batch error: the prefix, then the entries joined by commas. */
  function FailureMessage(fs: seq<Failure>): string
  {
    FailurePrefix + JoinCommas(Entries(fs))
  }

  /** The batch error holds the entry of the `j`-th failure. */
  lemma MessageHasEntry(fs: seq<Failure>, j: nat)
    requires j < |fs|
    ensures Contains(FailureMessage(fs), Entry(fs[j]))
  {
    var entries := Entries(fs);
    var off := PartOffset(entries, j);
    JoinCommasHasPart(entries, j);
    OccursAfter(FailurePrefix, JoinCommas(entries), entries[j], off);
    ContainsAt(FailureMessage(fs), entries[j], |FailurePrefix| + off);
  }

  /** The batch error starts with the prefix, is the bare prefix when nothing
      failed, and lists every failure's page id, title and message. */
  lemma FailureMessageLists(fs: seq<Failure>)
    ensures FailurePrefix <= FailureMessage(fs)
    ensures fs == [] ==> FailureMessage(fs) == FailurePrefix
    ensures forall j :: 0 <= j < |fs| ==> Contains(FailureMessage(fs), Entry(fs[j]))
  {
    forall j | 0 <= j < |fs| ensures Contains(FailureMessage(fs), Entry(fs[j])) {
      MessageHasEntry(fs, j);
    }
  }

  /** How the batch ends: `undefined` when it stopped at a page without a
      snapshot; otherwise it throws the failure list, whether empty or not. */
  function BatchOutcome(run: BatchRun): BatchResult
    requires |run.attempted| == |run.runs|
  {
    if !run.complete then Undefined else Threw(FailureMessage(Failures(run.attempted, run.runs)))
  }

  /** When every page has a snapshot, every page is exported, in order, and
      the batch always throws: the message starts with the prefix, lists
      every failure's entry, and is the bare prefix when nothing failed. */
  lemma AlwaysThrowsAfterFullPass(exporter: PageExporter, n: nat, pages: seq<Page>)
    requires forall i :: 0 <= i < |pages| ==> pages[i].hasSnapshot
    ensures var run := ExportAll(exporter, n, pages);
      var fs := Failures(run.attempted, run.runs);
      run.attempted == pages && |run.runs| == |pages| && run.complete &&
      BatchOutcome(run).Threw? &&
      FailurePrefix <= BatchOutcome(run).message &&
      (fs == [] ==> BatchOutcome(run).message == FailurePrefix) &&
      (forall j :: 0 <= j < |fs| ==> Contains(BatchOutcome(run).message, Entry(fs[j])))
  {
    assert FirstMissing(pages) == |pages|;
    assert pages[..|pages|] == pages;
    var run := ExportAll(exporter, n, pages);
    FailureMessageLists(Failures(run.attempted, run.runs));
  }

  /** A batch run through an exporter that answers as the export into
      `folder` is the batch export into `folder`: it turns the batch proof,
      made for such an exporter, into the statement about `ExportInto`. */
  lemma ExportAllInto(exporter: PageExporter, respond: (nat, string) -> Outcome, read: string -> Outcome,
                      folder: string, n: nat, pages: seq<Page>)
    requires ExportsInto(exporter, respond, read, folder)
    ensures ExportAll(exporter, n, pages) == ExportAll(ExportInto(respond, read, folder), n, pages)
  {
    var into := ExportInto(respond, read, folder);
    forall k: nat, page: Page ensures exporter(k, page) == into(k, page) {
      assert into(k, page) == ExportPage(respond, read, k, page, Some(folder), None);
    }
    ExportEachAgree(exporter, into, n, pages[..FirstMissing(pages)]);
  }

  /** Exports made one per page before position `i`, where page `i` lacks a
      snapshot or `i` is the end, are those of the batch export. */
  lemma ExportAllFrom(exporter: PageExporter, n: nat, pages: seq<Page>, runs: seq<PageRun>, i: nat)
    requires i <= |pages| && |runs| == i
    requires forall j :: 0 <= j < i ==> pages[j].hasSnapshot
    requires i < |pages| ==> !pages[i].hasSnapshot
    requires forall j :: 0 <= j < i ==> ExportedAt(exporter, n, pages, runs, j)
    ensures var run := ExportAll(exporter, n, pages);
      run.attempted == pages[..i] && run.runs == runs && run.complete == (i == |pages|)
  {
    assert FirstMissing(pages) == i;
    forall j | 0 <= j < i
      ensures ExportedAt(exporter, n, pages[..i], runs, j)
    {
      assert ExportedAt(exporter, n, pages, runs, j);
    }
    ExportEachFrom(exporter, n, pages[..i], runs);
  }

  /** The call of `downloadPage` inside `downloadAllPages`, into `folder`
      under the default file name, stated through an exporter that answers as
      that export does. Calling `DownloadPage` directly from the loop would
      put the full single-page export into the loop's proof; this method keeps
      it in a proof of its own. */
  method DownloadInto(host: Host, page: Page, folder: string, ghost exporter: PageExporter)
    returns (o: Outcome, ghost run: PageRun)
    requires ExportsInto(exporter, host.respond, host.readAttachment, folder)
    modifies host
    ensures run == exporter(|old(host.requests)|, page)
    ensures host.requests == old(host.requests) + run.calls && o == run.outcome
  {
    run := exporter(|host.requests|, page);
    o := DownloadPage(host, page, Some(folder), None);
  }

  /** `downloadAllPages`: picks the folder (a dated dump folder when none is
      given), then exports the pages one by one, returning `undefined` at the
      first page without a snapshot, collecting failures, and throwing the
      collected failures once the loop is through. */
  method DownloadAllPages(host: Host, pages: seq<Page>, folder: Option<string>, today: string)
    returns (r: BatchResult)
    modifies host
    ensures var dir := if folder.Some? then folder.value else DumpFolder(today);
      var run := ExportAll(ExportInto(host.respond, host.readAttachment, dir), |old(host.requests)|, pages);
      host.requests == old(host.requests) + Calls(run.runs) && r == BatchOutcome(run)
  {
    var dir: string;
    if folder.None? {
      dir := DumpFolder(today);
    } else {
      dir := folder.value;
    }
    ExportIntoExports(host.respond, host.readAttachment, dir);
    // The loop is proved for an exporter known only through `ExportsInto`
    // (see there); `ExportAllInto` brings the result back to `ExportInto`.
    ghost var exporter: PageExporter :| ExportsInto(exporter, host.respond, host.readAttachment, dir);
    ghost var n := |host.requests|;
    ghost var runs: seq<PageRun> := [];
    var failed: seq<Failure> := [];
    var i := 0;
    while i < |pages|
      invariant 0 <= i <= |pages|
      invariant forall j :: 0 <= j < i ==> pages[j].hasSnapshot
      invariant |runs| == i
      invariant ExportsInto(exporter, host.respond, host.readAttachment, dir)
      invariant forall j :: 0 <= j < i ==> ExportedAt(exporter, n, pages, runs, j)
      invariant host.requests == old(host.requests) + Calls(runs)
      invariant failed == Failures(pages[..i], runs)
    {
      var page := pages[i];
      if !page.hasSnapshot {
        ExportAllFrom(exporter, n, pages, runs, i);
        ExportAllInto(exporter, host.respond, host.readAttachment, dir, n, pages);
        return Undefined;
      }
      var o;
      ghost var run;
      o, run := DownloadInto(host, page, dir, exporter);
      if o.Failed? {
        failed := failed + [Failure(page, o.message)];
      }
      ExportedAtAppend(exporter, n, pages, runs, run);
      RequestsNext(old(host.requests), runs, run);
      FailuresNext(pages, runs, run, i);
      runs := runs + [run];
      i := i + 1;
    }
    ExportAllFrom(exporter, n, pages, runs, i);
    ExportAllInto(exporter, host.respond, host.readAttachment, dir, n, pages);
    r := Threw(FailureMessage(failed));
  }
}
