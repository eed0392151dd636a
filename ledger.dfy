/** The URL ledger: the table of downloaded URLs behind one database
    connection, with the transaction the run keeps open. */
module Ledger {
  import opened Common

  class Store {
    /** URLs persisted by earlier runs. */
    var committed: set<string>
    /** URLs inserted by this connection since its transaction began, in insertion order. */
    var pending: seq<string>
    /** Whether a transaction is open on the connection. */
    var inTransaction: bool

    /** Outside a transaction nothing is pending. */
    ghost predicate Valid()
      reads this
    {
      !inTransaction ==> pending == []
    }

    /** A freshly opened connection onto a database that already holds `stored`. */
    constructor (stored: set<string>)
      ensures Valid()
      ensures committed == stored && pending == [] && !inTransaction
    {
      committed := stored;
      pending := [];
      inTransaction := false;
    }

    /** Every URL a SELECT on this connection sees: the committed rows and
        this connection's own uncommitted inserts. */
    function KnownUrls(): (known: set<string>)
      reads this
      ensures forall u :: u in known <==> u in committed || u in pending
    {
      committed + Elems(pending)
    }

    /** Applies the table definition (idempotent) and begins the run's
        transaction. `schemaOk` says whether the definition file could be read
        and executed; BEGIN fails when a transaction is already open. */
    method Init(schemaOk: bool) returns (r: Outcome)
      requires Valid()
      modifies this
      ensures Valid()
      ensures r == (if schemaOk && !old(inTransaction) then Pass else Fail(StorageError))
      ensures committed == old(committed) && pending == old(pending)
      ensures inTransaction == (r.Pass? || old(inTransaction))
    {
      if !schemaOk || inTransaction {
        return Fail(StorageError);
      }
      inTransaction := true;
      r := Pass;
    }

    /** Inserts `url`; like the driver, an INSERT outside a transaction first
        opens one implicitly. */
    method Record(url: string)
      requires Valid()
      modifies this
      ensures Valid()
      ensures committed == old(committed)
      ensures pending == old(pending) + [url]
      ensures inTransaction
    {
      inTransaction := true;
      pending := pending + [url];
    }

    /** Makes every pending insert permanent and closes the transaction. */
    method Commit()
      requires Valid()
      modifies this
      ensures Valid()
      ensures committed == old(committed) + Elems(old(pending))
      ensures pending == [] && !inTransaction
    {
      committed := committed + Elems(pending);
      pending := [];
      inTransaction := false;
    }

    /** Discards every pending insert and closes the transaction. */
    method Rollback()
      requires Valid()
      modifies this
      ensures Valid()
      ensures committed == old(committed)
      ensures pending == [] && !inTransaction
    {
      pending := [];
      inTransaction := false;
    }
  }
}
