/**
 The matching sweep: one pass over every (buyer, seller) pair of a snapshot
 of the active rows, buyers outer and sellers inner, both in id order. A
 pair whose buy price reaches the sell price trades at the seller's price;
 the trade is appended to the ledger, both rows are debited by id and the
 exhausted rows are deleted.
 */
module Matching {
  import opened Orders

  /** Both tables: pending orders and the completed-trade ledger. */
  datatype Book = Book(pending: seq<Row>, ledger: seq<Trade>)

  /** Where a step reads the quantities it matches. */
  datatype QtyBasis =
      /** The snapshot objects read at the start of the run, never refreshed
          afterwards; this is how the sweep is written. */
    | SnapshotQty
      /** The quantities the rows hold at that point of the run; a corrected
          variant, not the behaviour of the sweep as written. */
    | RemainingQty

  function Min(a: int, b: int): int {
    if a <= b then a else b
  }

  /** The double-auction cross test. */
  predicate Crosses(b: Row, s: Row) {
    b.buyerPrice >= s.sellerPrice
  }

  function MatchQty(basis: QtyBasis, t: seq<Row>, b: Row, s: Row): int {
    match basis
    case SnapshotQty => Min(b.buyerQty, s.sellerQty)
    case RemainingQty => Min(QtyOf(t, b.id, Buy), QtyOf(t, s.id, Sell))
  }

  /** The test that ends the inner loop after a trade. */
  predicate BuyerExhausted(basis: QtyBasis, t: seq<Row>, b: Row) {
    match basis
    case SnapshotQty => b.buyerQty <= 0
    case RemainingQty => Spent(t, b.id, Buy)
  }

  /** One match: append the trade, debit the buyer and seller rows, delete
      the exhausted rows. */
  function Step(book: Book, b: Row, s: Row, m: int): (r: Book)
    ensures r.ledger == book.ledger + [Trade(s.sellerPrice, m)]
    ensures AllActive(r.pending)
    ensures IdOrdered(book.pending) ==> IdOrdered(r.pending)
  {
    Book(Live(Debit(Debit(book.pending, b.id, Buy, m), s.id, Sell, m)),
         book.ledger + [Trade(s.sellerPrice, m)])
  }

  /** A ledger entry that some crossing (buyer, seller) pair accounts for. */
  ghost predicate Justified(tr: Trade, buyers: seq<Row>, sellers: seq<Row>) {
    tr.qty > 0 &&
    exists b, s :: b in buyers && s in sellers && Crosses(b, s) && tr.price == s.sellerPrice
  }

  /** The inner loop: one buyer against every seller, in order. */
  function SellerPass(basis: QtyBasis, b: Row, sellers: seq<Row>, book: Book): (r: Book)
    ensures book.ledger <= r.ledger
    ensures |r.ledger| == |book.ledger| ==> r == book
    ensures |r.ledger| > |book.ledger| ==> AllActive(r.pending)
    ensures IdOrdered(book.pending) ==> IdOrdered(r.pending)
    decreases |sellers|
  {
    if sellers == [] then book
    else
      var s := sellers[0];
      if Crosses(b, s) then
        var m := MatchQty(basis, book.pending, b, s);
        if m > 0 then
          var next := Step(book, b, s, m);
          if BuyerExhausted(basis, next.pending, b) then next
          else SellerPass(basis, b, sellers[1..], next)
        else SellerPass(basis, b, sellers[1..], book)
      else SellerPass(basis, b, sellers[1..], book)
  }

  /** The outer loop: every buyer, in order, runs the inner loop on the
      state the previous buyers left. */
  function BuyerPass(basis: QtyBasis, buyers: seq<Row>, sellers: seq<Row>, book: Book): (r: Book)
    ensures book.ledger <= r.ledger
    ensures |r.ledger| == |book.ledger| ==> r == book
    ensures |r.ledger| > |book.ledger| ==> AllActive(r.pending)
    ensures IdOrdered(book.pending) ==> IdOrdered(r.pending)
    decreases |buyers|
  {
    if buyers == [] then book
    else BuyerPass(basis, buyers[1..], sellers, SellerPass(basis, buyers[0], sellers, book))
  }

  /** One run of the matcher on the committed state. */
  function Sweep(basis: QtyBasis, book: Book): (r: Book)
    ensures book.ledger <= r.ledger
    ensures |r.ledger| == |book.ledger| ==> r == book
    ensures |r.ledger| > |book.ledger| ==> AllActive(r.pending)
    ensures IdOrdered(book.pending) ==> IdOrdered(r.pending)
  {
    BuyerPass(basis, Buyers(book.pending), Sellers(book.pending), book)
  }

  /** Every ledger entry from position `from` on is justified. */
  ghost predicate JustifiedFrom(l: seq<Trade>, from: nat, buyers: seq<Row>, sellers: seq<Row>) {
    forall k :: from <= k < |l| ==> Justified(l[k], buyers, sellers)
  }

  lemma {:induction false} JustifiedWiden(l: seq<Trade>, from: nat, buyers: seq<Row>, sellers: seq<Row>, buyers': seq<Row>, sellers': seq<Row>)
    requires JustifiedFrom(l, from, buyers, sellers)
    requires forall x :: x in buyers ==> x in buyers'
    requires forall x :: x in sellers ==> x in sellers'
    ensures JustifiedFrom(l, from, buyers', sellers')
  {
    forall k | from <= k < |l|
      ensures Justified(l[k], buyers', sellers')
    {
      assert Justified(l[k], buyers, sellers);
      var b, s :| b in buyers && s in sellers && Crosses(b, s) && l[k].price == s.sellerPrice;
      assert b in buyers' && s in sellers';
    }
  }

  lemma {:induction false} JustifiedJoin(l1: seq<Trade>, l2: seq<Trade>, from: nat, buyers: seq<Row>, sellers: seq<Row>)
    requires l1 <= l2 && from <= |l1|
    requires JustifiedFrom(l1, from, buyers, sellers)
    requires JustifiedFrom(l2, |l1|, buyers, sellers)
    ensures JustifiedFrom(l2, from, buyers, sellers)
  {
    forall k | from <= k < |l2|
      ensures Justified(l2[k], buyers, sellers)
    {
      if k < |l1| {
        assert l2[k] == l1[k];
      }
    }
  }

  lemma {:induction false} SellerPassJustified(basis: QtyBasis, b: Row, sellers: seq<Row>, book: Book)
    ensures JustifiedFrom(SellerPass(basis, b, sellers, book).ledger, |book.ledger|, [b], sellers)
    decreases |sellers|
  {
    if sellers != [] {
      var s := sellers[0];
      var rest := sellers[1..];
      assert forall x :: x in rest ==> x in sellers;
      var r := SellerPass(basis, b, sellers, book);
      var m := MatchQty(basis, book.pending, b, s);
      if Crosses(b, s) && m > 0 {
        var next := Step(book, b, s, m);
        assert JustifiedFrom(next.ledger, |book.ledger|, [b], sellers) by {
          assert b in [b] && s in sellers;
          assert next.ledger[|book.ledger|].price == s.sellerPrice;
        }
        if !BuyerExhausted(basis, next.pending, b) {
          assert r == SellerPass(basis, b, rest, next);
          SellerPassJustified(basis, b, rest, next);
          JustifiedWiden(r.ledger, |next.ledger|, [b], rest, [b], sellers);
          JustifiedJoin(next.ledger, r.ledger, |book.ledger|, [b], sellers);
        }
      } else {
        assert r == SellerPass(basis, b, rest, book);
        SellerPassJustified(basis, b, rest, book);
        JustifiedWiden(r.ledger, |book.ledger|, [b], rest, [b], sellers);
      }
    }
  }

  lemma {:induction false} BuyerPassJustified(basis: QtyBasis, buyers: seq<Row>, sellers: seq<Row>, book: Book)
    ensures JustifiedFrom(BuyerPass(basis, buyers, sellers, book).ledger, |book.ledger|, buyers, sellers)
    decreases |buyers|
  {
    if buyers != [] {
      var mid := SellerPass(basis, buyers[0], sellers, book);
      var r := BuyerPass(basis, buyers[1..], sellers, mid);
      assert BuyerPass(basis, buyers, sellers, book) == r;
      SellerPassJustified(basis, buyers[0], sellers, book);
      BuyerPassJustified(basis, buyers[1..], sellers, mid);
      assert forall x :: x in [buyers[0]] ==> x in buyers;
      assert forall x :: x in buyers[1..] ==> x in buyers;
      JustifiedWiden(mid.ledger, |book.ledger|, [buyers[0]], sellers, buyers, sellers);
      JustifiedWiden(r.ledger, |mid.ledger|, buyers[1..], sellers, buyers, sellers);
      JustifiedJoin(mid.ledger, r.ledger, |book.ledger|, buyers, sellers);
    }
  }

  /** Whatever the quantity basis, every trade a run appends has a positive
      quantity and is priced at the sell price of a seller of the snapshot
      that some buyer of the snapshot crosses. */
  lemma {:induction false} SweepJustified(basis: QtyBasis, book: Book)
    ensures JustifiedFrom(Sweep(basis, book).ledger, |book.ledger|, Buyers(book.pending), Sellers(book.pending))
  {
    var buyers, sellers := Buyers(book.pending), Sellers(book.pending);
    assert Sweep(basis, book) == BuyerPass(basis, buyers, sellers, book);
    BuyerPassJustified(basis, buyers, sellers, book);
  }

  /** The row `x` after a step debiting buyer `bid` and seller `sid` by `m`. */
  function Adjusted(x: Row, bid: int, sid: int, m: int): Row {
    var y := if x.id == bid then x.Debited(Buy, m) else x;
    if x.id == sid then y.Debited(Sell, m) else y
  }

  /** What a step does to one row: a row that is gone stays gone; a row
      still there loses `m` on its buy side if it is the buyer and on its
      sell side if it is the seller, nothing else changes, and it survives
      exactly when a side is still positive. */
  lemma {:induction false} StepEffect(book: Book, b: Row, s: Row, m: int, k: int)
    requires IdOrdered(book.pending)
    ensures Find(Step(book, b, s, m).pending, k)
         == match Find(book.pending, k)
            case None => None
            case Some(x) => if Active(Adjusted(x, b.id, s.id, m)) then Some(Adjusted(x, b.id, s.id, m)) else None
  {
    var t1 := Debit(book.pending, b.id, Buy, m);
    var t2 := Debit(t1, s.id, Sell, m);
    FindDebit(book.pending, b.id, Buy, m, k);
    FindDebit(t1, s.id, Sell, m, k);
    FindFilter(t2, Active, k);
  }

  // ----- the sweep as written, against a reference list of crossing pairs -----

  /** The trade a crossing pair yields when quantities come from the snapshot. */
  function TradeOf(p: (Row, Row)): Trade {
    Trade(p.1.sellerPrice, Min(p.0.buyerQty, p.1.sellerQty))
  }

  function TradesOf(ps: seq<(Row, Row)>): (r: seq<Trade>)
    ensures |r| == |ps|
    ensures forall i :: 0 <= i < |ps| ==> r[i] == TradeOf(ps[i])
  {
    if ps == [] then [] else [TradeOf(ps[0])] + TradesOf(ps[1..])
  }

  lemma {:induction false} LedgerAppend(l: seq<Trade>, a: seq<(Row, Row)>, c: seq<(Row, Row)>)
    ensures (l + TradesOf(a)) + TradesOf(c) == l + TradesOf(a + c)
  {
    assert TradesOf(a + c) == TradesOf(a) + TradesOf(c);
  }

  /** The crossing pairs of one buyer, in seller order. */
  function PairsFor(b: Row, sellers: seq<Row>): (r: seq<(Row, Row)>)
    ensures forall p :: p in r <==> p.0 == b && p.1 in sellers && Crosses(b, p.1)
  {
    if sellers == [] then []
    else if Crosses(b, sellers[0]) then [(b, sellers[0])] + PairsFor(b, sellers[1..])
    else PairsFor(b, sellers[1..])
  }

  /** Every crossing (buyer, seller) pair, buyer-major then seller-minor. */
  function CrossingPairs(buyers: seq<Row>, sellers: seq<Row>): (r: seq<(Row, Row)>)
    ensures forall p :: p in r <==> p.0 in buyers && p.1 in sellers && Crosses(p.0, p.1)
  {
    if buyers == [] then [] else PairsFor(buyers[0], sellers) + CrossingPairs(buyers[1..], sellers)
  }

  lemma {:induction false} SnapshotSellerPass(b: Row, sellers: seq<Row>, book: Book)
    requires b.buyerQty > 0
    requires forall s :: s in sellers ==> s.sellerQty > 0
    ensures SellerPass(SnapshotQty, b, sellers, book).ledger == book.ledger + TradesOf(PairsFor(b, sellers))
    decreases |sellers|
  {
    if sellers != [] {
      var s := sellers[0];
      assert forall x :: x in sellers[1..] ==> x in sellers;
      if Crosses(b, s) {
        var next := Step(book, b, s, Min(b.buyerQty, s.sellerQty));
        assert MatchQty(SnapshotQty, book.pending, b, s) > 0;
        assert !BuyerExhausted(SnapshotQty, next.pending, b);
        assert SellerPass(SnapshotQty, b, sellers, book) == SellerPass(SnapshotQty, b, sellers[1..], next);
        SnapshotSellerPass(b, sellers[1..], next);
        assert next.ledger == book.ledger + TradesOf([(b, s)]);
        assert PairsFor(b, sellers) == [(b, s)] + PairsFor(b, sellers[1..]);
        LedgerAppend(book.ledger, [(b, s)], PairsFor(b, sellers[1..]));
      } else {
        assert SellerPass(SnapshotQty, b, sellers, book) == SellerPass(SnapshotQty, b, sellers[1..], book);
        SnapshotSellerPass(b, sellers[1..], book);
      }
    }
  }

  lemma {:induction false} SnapshotBuyerPass(buyers: seq<Row>, sellers: seq<Row>, book: Book)
    requires forall b :: b in buyers ==> b.buyerQty > 0
    requires forall s :: s in sellers ==> s.sellerQty > 0
    ensures BuyerPass(SnapshotQty, buyers, sellers, book).ledger == book.ledger + TradesOf(CrossingPairs(buyers, sellers))
    decreases |buyers|
  {
    if buyers != [] {
      var mid := SellerPass(SnapshotQty, buyers[0], sellers, book);
      SnapshotSellerPass(buyers[0], sellers, book);
      assert forall x :: x in buyers[1..] ==> x in buyers;
      SnapshotBuyerPass(buyers[1..], sellers, mid);
      LedgerAppend(book.ledger, PairsFor(buyers[0], sellers), CrossingPairs(buyers[1..], sellers));
    }
  }

  /** As written, a run appends exactly one trade per crossing (buyer, seller)
      pair of the snapshot, in buyer-major order, at the seller's price and
      for the smaller of the two snapshot quantities: the exhaustion `break`
      never fires and every match quantity is positive. */
  lemma {:induction false} SnapshotTrades(book: Book)
    ensures Sweep(SnapshotQty, book).ledger
         == book.ledger + TradesOf(CrossingPairs(Buyers(book.pending), Sellers(book.pending)))
  {
    SnapshotBuyerPass(Buyers(book.pending), Sellers(book.pending), book);
  }
}
