/** The orchestrator: one run of the program over an open database
    connection. It initialises the ledger, searches, filters and crawls;
    if every stage succeeds it commits and exits with 0, and on the first
    failure of any stage it rolls back and exits with 1. */
module Orchestrator {
  import opened Common
  import Ledger
  import Search
  import Filter
  import Crawler

  /** The terminal states of a run. */
  datatype RunEnd = Committed | RolledBack(cause: Failure)

  /** One run. `schemaOk` says whether the table definition can be read and
      applied, `browse` renders a search page (see module Search) and
      `download` says which media downloads succeed. Besides the exit status
      and how the run ended, it returns the worklist it built and the calls
      the crawler made. */
  method Run(store: Ledger.Store, schemaOk: bool, keywords: seq<string>,
             browse: string -> Option<seq<Option<string>>>, download: string -> bool)
    returns (status: int, end: RunEnd, worklist: seq<string>, trace: seq<Crawler.Event>)
    requires store.Valid() && !store.inTransaction
    modifies store
    ensures store.Valid() && store.pending == [] && !store.inTransaction
    // the process exit status
    ensures status == 0 <==> end.Committed?
    ensures status == 1 <==> end.RolledBack?
    // which stage, if any, fails
    ensures end == RolledBack(StorageError) <==> !schemaOk
    ensures end == RolledBack(ResolutionError) <==> schemaOk && browse(Search.SearchUrl(keywords)).None?
    ensures end.RolledBack? && end.cause.DownloadError? ==>
      end.cause.url in worklist && !download(end.cause.url)
    ensures end.Committed? <==>
      schemaOk && browse(Search.SearchUrl(keywords)).Some? &&
      forall u :: u in worklist ==> download(u)
    // the worklist: every new href on the results page, once
    ensures NoDups(worklist)
    ensures forall u :: u in worklist <==>
      schemaOk && browse(Search.SearchUrl(keywords)).Some? &&
      Some(u) in browse(Search.SearchUrl(keywords)).value && u !in old(store.committed)
    // all or nothing
    ensures end.Committed? ==> store.committed == old(store.committed) + Elems(worklist)
    ensures end.RolledBack? ==> store.committed == old(store.committed)
    // the crawl: downloads in worklist order, no URL inserted twice, none already committed
    ensures trace == Crawler.CrawlTrace(worklist, download)
    ensures NoDups(Crawler.Inserted(trace))
    ensures forall u :: u in Crawler.Inserted(trace) ==> u in worklist && u !in old(store.committed)
  {
    worklist, trace := [], [];
    var init := store.Init(schemaOk);
    if init.Fail? {
      store.Rollback();
      end := RolledBack(init.failure);
      status := 1;
      return;
    }
    var found := Search.Search(keywords, browse);
    if found.Err? {
      store.Rollback();
      end := RolledBack(found.failure);
      status := 1;
      return;
    }
    assert store.KnownUrls() == old(store.committed);
    worklist := Filter.FilterAgainst(store, found.value);
    Filter.UrlFilterNoDups(found.value, store.KnownUrls());
    var crawled;
    crawled, trace := Crawler.Crawl(store, worklist, download);
    Crawler.CrawlInsertsPrefix(worklist, download);
    PrefixNoDups(worklist, Crawler.FirstFailure(worklist, download));
    if crawled.Fail? {
      store.Rollback();
      end := RolledBack(crawled.failure);
    } else {
      assert worklist[..|worklist|] == worklist;
      store.Commit();
      end := Committed;
    }
    status := if end.Committed? then 0 else 1;
  }

  lemma PrefixNoDups(s: seq<string>, k: nat)
    requires k <= |s| && NoDups(s)
    ensures NoDups(s[..k])
  {
  }

  /** A successful run leaves the ledger holding every href on the results
      page, so rerunning with the same page downloads nothing: the second
      worklist is empty and the second run commits without change. */
  method RunTwice(store: Ledger.Store, keywords: seq<string>,
                  browse: string -> Option<seq<Option<string>>>, download: string -> bool)
    returns (first: RunEnd, second: RunEnd, secondWorklist: seq<string>)
    requires store.Valid() && !store.inTransaction
    modifies store
    ensures first.Committed? ==> second.Committed? && secondWorklist == []
    ensures first.Committed? ==> forall u :: u in store.committed <==>
      u in old(store.committed) ||
      (browse(Search.SearchUrl(keywords)).Some? && Some(u) in browse(Search.SearchUrl(keywords)).value)
  {
    var status1, worklist1, trace1;
    status1, first, worklist1, trace1 := Run(store, true, keywords, browse, download);
    var status2, trace2;
    status2, second, secondWorklist, trace2 := Run(store, true, keywords, browse, download);
  }
}
