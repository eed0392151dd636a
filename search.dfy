/** The search resolver: builds the search URL from the keywords, reads
    the episode links off the rendered results page and deduplicates them.
    The browser is a parameter `browse` that maps the requested URL to the
    `href` attribute of each episode anchor inside the results container
    (`None` for an anchor without one), or to `None` when the page has no
    results container. */
module Search {
  import opened Common

  /** The search URL template up to its `{keywords}` placeholder, which ends it. */
  const SearchPrefix: string := "https://tver.jp/search/"

  /** The keywords joined with a single space between neighbours. */
  function Join(words: seq<string>): string
  {
    if |words| == 0 then ""
    else if |words| == 1 then words[0]
    else Join(words[..|words| - 1]) + " " + words[|words| - 1]
  }

  /** Splitting at every space, the inverse of `Join` for space-free words. */
  function Split(s: string): (parts: seq<string>)
    ensures |parts| >= 1
  {
    if s == [] then [""]
    else
      var init := Split(s[..|s| - 1]);
      var c := s[|s| - 1];
      if c == ' ' then init + [""]
      else init[..|init| - 1] + [init[|init| - 1] + [c]]
  }

  /** The request URL: the keyword string substituted into the template.
      The keywords can be read back from it: splitting what follows the
      template prefix at its spaces gives one or more space-free keywords
      back unchanged. */
  function SearchUrl(keywords: seq<string>): (url: string)
    ensures |url| >= |SearchPrefix| && url[..|SearchPrefix|] == SearchPrefix
    ensures |keywords| >= 1 && (forall i :: 0 <= i < |keywords| ==> ' ' !in keywords[i]) ==>
      Split(url[|SearchPrefix|..]) == keywords
  {
    var url := SearchPrefix + Join(keywords);
    assert url[|SearchPrefix|..] == Join(keywords);
    if |keywords| >= 1 && (forall i :: 0 <= i < |keywords| ==> ' ' !in keywords[i]) then
      SplitJoin(keywords);
      url
    else url
  }

  lemma {:induction false} SplitWord(w: string)
    requires ' ' !in w
    ensures Split(w) == [w]
  {
    if w != [] {
      assert w[..|w| - 1] + [w[|w| - 1]] == w;
      SplitWord(w[..|w| - 1]);
    }
  }

  lemma {:induction false} SplitAfterSpace(s: string, w: string)
    requires ' ' !in w
    ensures Split(s + " " + w) == Split(s) + [w]
  {
    var t := s + " " + w;
    if w == [] {
      assert t[..|t| - 1] == s;
    } else {
      var w' := w[..|w| - 1];
      assert ' ' !in w';
      assert t[..|t| - 1] == s + " " + w';
      assert w' + [w[|w| - 1]] == w;
      SplitAfterSpace(s, w');
    }
  }

  /** Joining one or more space-free keywords loses nothing: splitting the
      joined string at its spaces gives the keywords back, so exactly one
      space separates neighbours. */
  lemma {:induction false} SplitJoin(words: seq<string>)
    requires |words| >= 1
    requires forall i :: 0 <= i < |words| ==> ' ' !in words[i]
    ensures Split(Join(words)) == words
  {
    if |words| == 1 {
      SplitWord(words[0]);
    } else {
      var init := words[..|words| - 1];
      SplitJoin(init);
      SplitAfterSpace(Join(init), words[|words| - 1]);
      assert init + [words[|words| - 1]] == words;
    }
  }

  /** Distinct space-free keyword lists give distinct search URLs. */
  lemma SearchUrlInjective(a: seq<string>, b: seq<string>)
    requires |a| >= 1 && |b| >= 1
    requires forall i :: 0 <= i < |a| ==> ' ' !in a[i]
    requires forall i :: 0 <= i < |b| ==> ' ' !in b[i]
    requires SearchUrl(a) == SearchUrl(b)
    ensures a == b
  {
  }

  /** The `href` strings of the anchors, in page order, skipping anchors without one. */
  function Hrefs(anchors: seq<Option<string>>): seq<string>
  {
    if anchors == [] then []
    else
      var rest := Hrefs(anchors[..|anchors| - 1]);
      match anchors[|anchors| - 1]
      case Some(href) => rest + [href]
      case None => rest
  }

  /** A URL is collected exactly when some anchor carries it as its `href`. */
  lemma {:induction false} HrefsMembership(anchors: seq<Option<string>>, u: string)
    ensures u in Hrefs(anchors) <==> Some(u) in anchors
  {
    if anchors != [] {
      var init := anchors[..|anchors| - 1];
      assert anchors == init + [anchors[|anchors| - 1]];
      HrefsMembership(init, u);
    }
  }

  /** The collection loop: walks the anchors and appends each string `href`. */
  method CollectHrefs(anchors: seq<Option<string>>) returns (urls: seq<string>)
    ensures urls == Hrefs(anchors)
    ensures forall u :: u in urls <==> Some(u) in anchors
  {
    urls := [];
    for i := 0 to |anchors|
      invariant urls == Hrefs(anchors[..i])
    {
      assert anchors[..i + 1][..i] == anchors[..i];
      match anchors[i]
      case Some(href) =>
        urls := urls + [href];
      case None =>
    }
    assert anchors[..|anchors|] == anchors;
    forall u ensures u in urls <==> Some(u) in anchors {
      HrefsMembership(anchors, u);
    }
  }

  /** One deduplication of `s`: its first occurrences, in order. `Search`
      uses it, but its own contract promises only what `list(set(...))`
      promises: no duplicates and the same elements. */
  function Distinct(s: seq<string>): (r: seq<string>)
    ensures NoDups(r) && Elems(r) == Elems(s)
  {
    if s == [] then []
    else
      var r := Distinct(s[..|s| - 1]);
      var x := s[|s| - 1];
      assert s == s[..|s| - 1] + [x];
      ElemsSnoc(s[..|s| - 1], x);
      ElemsSnoc(r, x);
      if x in r then r else r + [x]
  }

  /** The resolver. Fails with a resolution error when the results container
      is missing; otherwise returns every collected `href` once, in an order
      the contract leaves open, as a set's iteration order is. */
  method Search(keywords: seq<string>, browse: string -> Option<seq<Option<string>>>)
    returns (r: Result<seq<string>>)
    ensures browse(SearchUrl(keywords)).None? ==> r == Err(ResolutionError)
    ensures browse(SearchUrl(keywords)).Some? ==>
      r.Ok? && NoDups(r.value) &&
      forall u :: u in r.value <==> Some(u) in browse(SearchUrl(keywords)).value
  {
    var page := browse(SearchUrl(keywords));
    if page.None? {
      return Err(ResolutionError);
    }
    var collected := CollectHrefs(page.value);
    var urls := Distinct(collected);
    assert forall u :: u in urls <==> u in Elems(urls);
    r := Ok(urls);
  }
}
