/**
 When a run trades at all: exactly when some buyer of the snapshot bids at
 least the asking price of some seller of the snapshot. With no crossing
 pair the run changes nothing; with one, the first crossing pair the sweep
 reaches still holds its snapshot quantities, so it trades.
 */
module Progress {
  import opened Orders
  import opened Matching
  import Settlement

  /** Some buyer crosses some seller. */
  ghost predicate AnyCrossing(buyers: seq<Row>, sellers: seq<Row>) {
    exists b, s :: b in buyers && s in sellers && Crosses(b, s)
  }

  lemma {:induction false} SellerPassTrades(basis: QtyBasis, b: Row, sellers: seq<Row>, book: Book)
    requires b.buyerQty > 0 && Find(book.pending, b.id) == Some(b)
    requires forall s :: s in sellers ==> s.sellerQty > 0
    requires Settlement.FromTable(book.pending, sellers)
    requires exists s :: s in sellers && Crosses(b, s)
    ensures |SellerPass(basis, b, sellers, book).ledger| > |book.ledger|
    decreases |sellers|
  {
    var s := sellers[0];
    var rest := sellers[1..];
    var r := SellerPass(basis, b, sellers, book);
    if Crosses(b, s) {
      assert s in sellers;
      var m := MatchQty(basis, book.pending, b, s);
      assert m > 0;
      var next := Step(book, b, s, m);
      assert |next.ledger| == |book.ledger| + 1;
      assert next.ledger <= r.ledger;
    } else {
      assert forall x :: x in rest ==> x in sellers;
      var s' :| s' in sellers && Crosses(b, s');
      assert s' in rest;
      assert r == SellerPass(basis, b, rest, book);
      SellerPassTrades(basis, b, rest, book);
    }
  }

  lemma {:induction false} BuyerPassTrades(basis: QtyBasis, buyers: seq<Row>, sellers: seq<Row>, book: Book)
    requires forall b :: b in buyers ==> b.buyerQty > 0
    requires forall s :: s in sellers ==> s.sellerQty > 0
    requires Settlement.FromTable(book.pending, buyers) && Settlement.FromTable(book.pending, sellers)
    requires AnyCrossing(buyers, sellers)
    ensures |BuyerPass(basis, buyers, sellers, book).ledger| > |book.ledger|
    decreases |buyers|
  {
    var b := buyers[0];
    var rest := buyers[1..];
    var mid := SellerPass(basis, b, sellers, book);
    var r := BuyerPass(basis, buyers, sellers, book);
    assert r == BuyerPass(basis, rest, sellers, mid);
    assert b in buyers;
    if exists s :: s in sellers && Crosses(b, s) {
      SellerPassTrades(basis, b, sellers, book);
    } else if |mid.ledger| == |book.ledger| {
      assert mid == book;
      assert forall x :: x in rest ==> x in buyers;
      var b', s' :| b' in buyers && s' in sellers && Crosses(b', s');
      assert b' != b;
      assert b' in rest;
      BuyerPassTrades(basis, rest, sellers, book);
    }
  }

  /** A run appends to the ledger if and only if some buyer of its snapshot
      crosses some seller of its snapshot; otherwise it changes nothing. */
  lemma {:induction false} TradesIffCrossing(basis: QtyBasis, book: Book)
    requires IdOrdered(book.pending)
    ensures |Sweep(basis, book).ledger| > |book.ledger| <==> AnyCrossing(Buyers(book.pending), Sellers(book.pending))
    ensures !AnyCrossing(Buyers(book.pending), Sellers(book.pending)) ==> Sweep(basis, book) == book
  {
    var buyers, sellers := Buyers(book.pending), Sellers(book.pending);
    assert Sweep(basis, book) == BuyerPass(basis, buyers, sellers, book);
    if AnyCrossing(buyers, sellers) {
      Settlement.FromTableOf(book.pending, buyers);
      Settlement.FromTableOf(book.pending, sellers);
      BuyerPassTrades(basis, buyers, sellers, book);
    } else {
      Settlement.BuyerPassIdle(basis, buyers, sellers, book);
    }
  }
}
