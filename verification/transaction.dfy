/**
 The match-orders entry point: the sweep runs inside one database
 transaction that commits on success and rolls back on the first failing
 statement; the committed tables are then read back for the reply. Which
 statement fails, if any, is a parameter: `failAt` is the position, among
 the statements the run sends, of the first one that throws.
 */
module Transaction {
  import opened Orders
  import opened Matching
  import Settlement

  /** What matchOrders returns: both tables as committed, or a server error. */
  datatype Reply = Matched(pendingOrders: seq<Row>, completedOrders: seq<Trade>) | ServerError

  /** A statement at a position below `n` throws. */
  predicate FailsBefore(failAt: Option<nat>, n: nat) {
    failAt.Some? && failAt.value < n
  }

  /** Statements sent inside the transaction: BEGIN, the snapshot SELECT,
      four per trade (ledger INSERT, buyer UPDATE, seller UPDATE, cleanup
      DELETE) and COMMIT. */
  function TxStatements(trades: nat): nat {
    3 + 4 * trades
  }

  /** The tables are well formed and hold no exhausted row. */
  predicate Consistent(book: Book) {
    IdOrdered(book.pending) && AllActive(book.pending)
  }

  /** One call of matchOrders: all or nothing on the tables, and a reply
      that shows the committed tables only when every statement succeeded. */
  function MatchOrders(basis: QtyBasis, book: Book, failAt: Option<nat>): (r: (Book, Reply))
    ensures r.0 == book || r.0 == Sweep(basis, book)
    ensures book.ledger <= r.0.ledger
    ensures r.1.Matched? ==> r.0 == Sweep(basis, book) && r.1 == Matched(r.0.pending, r.0.ledger)
    ensures failAt.None? ==> r.1.Matched?
    ensures Consistent(book) ==> Consistent(r.0)
  {
    var after := Sweep(basis, book);
    var inTx := TxStatements(|after.ledger| - |book.ledger|);
    if FailsBefore(failAt, inTx) then (book, ServerError)
    else if FailsBefore(failAt, inTx + 2) then (after, ServerError)
    else (after, Matched(after.pending, after.ledger))
  }

  /** As written, a run sends 3 + 4n statements inside its transaction, n
      being the number of crossing (buyer, seller) pairs of its snapshot; a
      failure at any of them leaves both tables as they were before the call. */
  lemma {:induction false} FailureRollsBack(book: Book, k: nat)
    requires k < TxStatements(|CrossingPairs(Buyers(book.pending), Sellers(book.pending))|)
    ensures MatchOrders(SnapshotQty, book, Some(k)) == (book, ServerError)
  {
    SnapshotTrades(book);
  }

  /** As written, once those 3 + 4n statements have succeeded the run's
      effect stays, and the reply shows the tables exactly when both SELECTs
      that read them back succeed too. */
  lemma {:induction false} CommitIsDurable(book: Book, k: nat)
    requires k >= TxStatements(|CrossingPairs(Buyers(book.pending), Sellers(book.pending))|)
    ensures MatchOrders(SnapshotQty, book, Some(k)).0 == Sweep(SnapshotQty, book)
    ensures MatchOrders(SnapshotQty, book, Some(k)).1.Matched?
        <==> k >= TxStatements(|CrossingPairs(Buyers(book.pending), Sellers(book.pending))|) + 2
  {
    SnapshotTrades(book);
  }

  /** Calling matchOrders again with no new order in between trades nothing
      and changes nothing. */
  lemma {:induction false} SecondMatchIdle(basis: QtyBasis, book: Book)
    requires IdOrdered(book.pending)
    ensures var once := MatchOrders(basis, book, None).0;
            MatchOrders(basis, once, None) == (once, Matched(once.pending, once.ledger))
  {
    Settlement.SweepIdempotent(basis, book);
  }
}
