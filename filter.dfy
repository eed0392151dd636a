/** The filter stage: drops the candidate URLs the ledger already knows,
    keeping the rest in candidate order. */
module Filter {
  import opened Common
  import Ledger

  /** The candidates not in `known`, in their input order. */
  function UrlFilter(candidates: seq<string>, known: set<string>): (worklist: seq<string>)
    ensures |worklist| <= |candidates|
    ensures forall u :: u in worklist <==> u in candidates && u !in known
  {
    if candidates == [] then []
    else
      var init := candidates[..|candidates| - 1];
      var u := candidates[|candidates| - 1];
      assert candidates == init + [u];
      if u in known then UrlFilter(init, known) else UrlFilter(init, known) + [u]
  }

  /** `sub` is `s` with some elements removed, the others kept in order. */
  predicate IsSubsequence(sub: seq<string>, s: seq<string>)
  {
    if sub == [] then true
    else if s == [] then false
    else if sub[|sub| - 1] == s[|s| - 1] then IsSubsequence(sub[..|sub| - 1], s[..|s| - 1])
    else IsSubsequence(sub, s[..|s| - 1])
  }

  /** Filtering keeps the input order: the worklist is a subsequence of the candidates. */
  lemma {:induction false} UrlFilterKeepsOrder(candidates: seq<string>, known: set<string>)
    ensures IsSubsequence(UrlFilter(candidates, known), candidates)
  {
    if candidates != [] {
      var init := candidates[..|candidates| - 1];
      var u := candidates[|candidates| - 1];
      var w := UrlFilter(init, known);
      UrlFilterKeepsOrder(init, known);
      if u !in known {
        assert (w + [u])[..|w|] == w;
      } else if w != [] {
        assert w[|w| - 1] in w;
      }
    }
  }

  /** Filtering a concatenation filters each part in turn. */
  lemma {:induction false} UrlFilterAppend(a: seq<string>, b: seq<string>, known: set<string>)
    ensures UrlFilter(a + b, known) == UrlFilter(a, known) + UrlFilter(b, known)
  {
    if b != [] {
      var b' := b[..|b| - 1];
      assert (a + b)[..|a + b| - 1] == a + b';
      UrlFilterAppend(a, b', known);
    } else {
      assert a + b == a;
    }
  }

  /** A duplicate-free candidate list gives a duplicate-free worklist. */
  lemma {:induction false} UrlFilterNoDups(candidates: seq<string>, known: set<string>)
    requires NoDups(candidates)
    ensures NoDups(UrlFilter(candidates, known))
  {
    if candidates != [] {
      var init := candidates[..|candidates| - 1];
      var u := candidates[|candidates| - 1];
      assert NoDups(init);
      UrlFilterNoDups(init, known);
      assert u !in init;
    }
  }

  /** Adding the worklist to the ledger covers every candidate. */
  lemma UrlFilterCovers(candidates: seq<string>, known: set<string>)
    ensures known + Elems(UrlFilter(candidates, known)) == known + Elems(candidates)
  {
  }

  /** Once every candidate is known, nothing is left to download: a second run
      over the same candidates, in any order, after the first committed them,
      downloads nothing. */
  lemma {:induction false} UrlFilterAllKnown(candidates: seq<string>, known: set<string>)
    requires forall i :: 0 <= i < |candidates| ==> candidates[i] in known
    ensures UrlFilter(candidates, known) == []
  {
    if candidates != [] {
      UrlFilterAllKnown(candidates[..|candidates| - 1], known);
    }
  }

  lemma FilterExample()
    ensures UrlFilter(["u1", "u2", "u3"], {"u2"}) == ["u1", "u3"]
  {
  }

  /** The filter as the program runs it: the ledger's rows are read once,
      then the candidates are compared with them. */
  method FilterAgainst(store: Ledger.Store, candidates: seq<string>) returns (worklist: seq<string>)
    ensures worklist == UrlFilter(candidates, store.KnownUrls())
    ensures forall u :: u in worklist ==> u !in store.committed && u !in store.pending
  {
    var known := store.KnownUrls();
    worklist := UrlFilter(candidates, known);
  }
}
