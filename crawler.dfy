/** The crawler: downloads the worklist one URL at a time and records each
    URL in the open transaction right after its download returns. The media
    downloader is a parameter `download` that says whether the download of a
    URL succeeds; the first failure stops the crawl. */
module Crawler {
  import opened Common
  import Ledger

  /** The calls the crawler makes, in order. */
  datatype Event =
    | Download(url: string, ok: bool) // a download attempt and whether it succeeded
    | Insert(url: string)             // an INSERT of the URL into the ledger

  /** The number of URLs downloaded before the first failure: the index of
      the failing URL, or the whole length when every download succeeds. */
  function FirstFailure(worklist: seq<string>, download: string -> bool): (k: nat)
    ensures k <= |worklist|
    ensures forall i :: 0 <= i < k ==> download(worklist[i])
    ensures k < |worklist| ==> !download(worklist[k])
  {
    if worklist == [] || !download(worklist[0]) then 0
    else 1 + FirstFailure(worklist[1..], download)
  }

  /** The calls a crawl of `worklist` makes: for each URL a download and,
      when it succeeds, an insert; nothing after the first failed download. */
  function CrawlTrace(worklist: seq<string>, download: string -> bool): seq<Event>
  {
    if worklist == [] then []
    else if download(worklist[0]) then
      [Download(worklist[0], true), Insert(worklist[0])] + CrawlTrace(worklist[1..], download)
    else [Download(worklist[0], false)]
  }

  /** The URLs a trace inserts, in order. */
  function Inserted(trace: seq<Event>): seq<string>
  {
    if trace == [] then []
    else (if trace[0].Insert? then [trace[0].url] else []) + Inserted(trace[1..])
  }

  /** The URLs a trace tries to download, in order. */
  function Attempted(trace: seq<Event>): seq<string>
  {
    if trace == [] then []
    else (if trace[0].Download? then [trace[0].url] else []) + Attempted(trace[1..])
  }

  /** A crawl inserts exactly the URLs before the first failing one. */
  lemma {:induction false} CrawlInsertsPrefix(worklist: seq<string>, download: string -> bool)
    ensures Inserted(CrawlTrace(worklist, download)) == worklist[..FirstFailure(worklist, download)]
  {
    if worklist != [] {
      var t := CrawlTrace(worklist, download);
      if download(worklist[0]) {
        var rest := CrawlTrace(worklist[1..], download);
        CrawlInsertsPrefix(worklist[1..], download);
        assert t[1..] == [Insert(worklist[0])] + rest;
        assert t[1..][1..] == rest;
        assert worklist[..FirstFailure(worklist, download)]
            == [worklist[0]] + worklist[1..][..FirstFailure(worklist[1..], download)];
      } else {
        assert t[1..] == [];
      }
    }
  }

  /** A crawl tries the worklist in order, up to and including the first
      failing URL, and no URL after it. */
  lemma {:induction false} CrawlAttemptsInOrder(worklist: seq<string>, download: string -> bool)
    ensures var k := FirstFailure(worklist, download);
      Attempted(CrawlTrace(worklist, download)) == worklist[..if k < |worklist| then k + 1 else k]
  {
    if worklist != [] {
      var t := CrawlTrace(worklist, download);
      if download(worklist[0]) {
        var rest := CrawlTrace(worklist[1..], download);
        var k' := FirstFailure(worklist[1..], download);
        CrawlAttemptsInOrder(worklist[1..], download);
        assert t[1..] == [Insert(worklist[0])] + rest;
        assert t[1..][1..] == rest;
        assert worklist[..if k' + 1 < |worklist| then k' + 2 else k' + 1]
            == [worklist[0]] + worklist[1..][..if k' < |worklist| - 1 then k' + 1 else k'];
      } else {
        assert t[1..] == [];
      }
    }
  }

  /** Every insert comes right after the successful download of the same URL. */
  lemma {:induction false} InsertFollowsDownload(worklist: seq<string>, download: string -> bool, j: nat)
    requires j < |CrawlTrace(worklist, download)|
    requires CrawlTrace(worklist, download)[j].Insert?
    ensures j > 0
    ensures CrawlTrace(worklist, download)[j - 1] == Download(CrawlTrace(worklist, download)[j].url, true)
  {
    var t := CrawlTrace(worklist, download);
    if worklist != [] && download(worklist[0]) && j >= 2 {
      InsertFollowsDownload(worklist[1..], download, j - 2);
    }
  }

  /** A crawl stops at its first failed download: the last event of a crawl
      that does not reach the end is that failure, and every earlier
      download succeeded. */
  lemma {:induction false} CrawlStopsAtFailure(worklist: seq<string>, download: string -> bool)
    requires FirstFailure(worklist, download) < |worklist|
    ensures var t := CrawlTrace(worklist, download);
      |t| == 2 * FirstFailure(worklist, download) + 1 &&
      t[|t| - 1] == Download(worklist[FirstFailure(worklist, download)], false)
  {
    if download(worklist[0]) {
      CrawlStopsAtFailure(worklist[1..], download);
    }
  }

  /** The crawl loop. `store` holds the open transaction; each URL is
      downloaded and then inserted, and the first failed download ends the
      crawl with a download error. */
  method Crawl(store: Ledger.Store, worklist: seq<string>, download: string -> bool)
    returns (r: Outcome, trace: seq<Event>)
    requires store.Valid()
    modifies store
    ensures store.Valid()
    ensures trace == CrawlTrace(worklist, download)
    ensures r == (if FirstFailure(worklist, download) == |worklist| then Pass
                  else Fail(DownloadError(worklist[FirstFailure(worklist, download)])))
    ensures store.committed == old(store.committed)
    ensures store.pending == old(store.pending) + worklist[..FirstFailure(worklist, download)]
    ensures store.inTransaction == (old(store.inTransaction) || FirstFailure(worklist, download) > 0)
  {
    trace := [];
    var i := 0;
    while i < |worklist|
      invariant 0 <= i <= |worklist|
      invariant store.Valid()
      invariant trace + CrawlTrace(worklist[i..], download) == CrawlTrace(worklist, download)
      invariant i + FirstFailure(worklist[i..], download) == FirstFailure(worklist, download)
      invariant store.committed == old(store.committed)
      invariant store.pending == old(store.pending) + worklist[..i]
      invariant store.inTransaction == (old(store.inTransaction) || i > 0)
    {
      var url := worklist[i];
      var ok := download(url);
      trace := trace + [Download(url, ok)];
      if !ok {
        assert CrawlTrace(worklist[i..], download) == [Download(url, false)];
        return Fail(DownloadError(url)), trace;
      }
      store.Record(url);
      trace := trace + [Insert(url)];
      assert worklist[i..][1..] == worklist[i + 1..];
      assert worklist[..i + 1] == worklist[..i] + [url];
      i := i + 1;
    }
    r := Pass;
  }
}
