/** Values shared by every stage of a run: optional values, the three
    kinds of failure a run can end in, and facts about URL sequences. */
module Common {

  datatype Option<+T> = None | Some(value: T)

  /** The failure kinds a stage can raise; the orchestrator catches all of them. */
  datatype Failure =
    | StorageError              // the schema could not be read or applied, or BEGIN failed
    | ResolutionError           // the search results container was not on the page
    | DownloadError(url: string) // the media download of `url` failed

  /** A stage either completes or fails with one of the kinds above. */
  datatype Outcome = Pass | Fail(failure: Failure)

  /** A stage that yields a value on success. */
  datatype Result<+T> = Ok(value: T) | Err(failure: Failure)

  /** No value occurs twice. */
  predicate NoDups(s: seq<string>)
  {
    forall i, j :: 0 <= i < j < |s| ==> s[i] != s[j]
  }

  /** The set of values a sequence holds. */
  function Elems(s: seq<string>): set<string>
  {
    set x | x in s
  }

  lemma ElemsSnoc(s: seq<string>, x: string)
    ensures Elems(s + [x]) == Elems(s) + {x}
  {
  }
}
