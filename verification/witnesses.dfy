/**
 Small books on which the sweep as written (`SnapshotQty`) trades more than
 was offered or asked for. Each counterexample is stated for every book of
 its shape, not for one set of numbers; the corrected sweep has no such
 book (`Conservation.RemainingConserves`).
 */
module Witnesses {
  import opened Orders
  import opened Matching
  import opened Conservation

  /** A row that only bids. */
  predicate OnlyBuys(x: Row) {
    IsBuyer(x) && !IsSeller(x)
  }

  /** A row that only offers. */
  predicate OnlySells(x: Row) {
    IsSeller(x) && !IsBuyer(x)
  }

  lemma {:induction false} FilterCons(x: Row, t: seq<Row>, keep: Row -> bool)
    ensures Filter([x] + t, keep) == (if keep(x) then [x] else []) + Filter(t, keep)
  {
    assert ([x] + t)[0] == x;
    assert ([x] + t)[1..] == t;
  }

  lemma {:induction false} Filter2(a: Row, b: Row, keep: Row -> bool)
    ensures Filter([a, b], keep) == (if keep(a) then [a] else []) + (if keep(b) then [b] else [])
  {
    FilterCons(b, [], keep);
    assert [b] + [] == [b];
    FilterCons(a, [b], keep);
    assert [a] + [b] == [a, b];
  }

  lemma {:induction false} Filter3(a: Row, b: Row, c: Row, keep: Row -> bool)
    ensures Filter([a, b, c], keep)
         == (if keep(a) then [a] else []) + ((if keep(b) then [b] else []) + (if keep(c) then [c] else []))
  {
    FilterCons(a, [b, c], keep);
    assert [a] + [b, c] == [a, b, c];
    Filter2(b, c, keep);
  }

  lemma {:induction false} Outstanding3(a: Row, b: Row, c: Row, side: Side)
    ensures Outstanding([a, b, c], side) == Pos(a.Qty(side)) + Pos(b.Qty(side)) + Pos(c.Qty(side))
  {
    assert [a, b, c][1..] == [b, c];
    assert [b, c][1..] == [c];
    assert [c][1..] == [];
    assert Outstanding([c], side) == Pos(c.Qty(side));
    assert Outstanding([b, c], side) == Pos(b.Qty(side)) + Outstanding([c], side);
  }

  lemma {:induction false} Volume2(x: Trade, y: Trade)
    ensures Volume([x, y]) == x.qty + y.qty
  {
    VolumeAppend([], x);
    VolumeAppend([x], y);
    assert [] + [x] == [x];
    assert [x] + [y] == [x, y];
  }

  // ---- one seller, two buyers ----

  lemma {:induction false} TwoBuyersOneSeller(b1: Row, b2: Row, s: Row)
    requires OnlyBuys(b1) && OnlyBuys(b2) && OnlySells(s)
    ensures Buyers([b1, b2, s]) == [b1, b2] && Sellers([b1, b2, s]) == [s]
  {
    LiveAll3(b1, b2, s);
    Filter3(b1, b2, s, IsBuyer);
    Filter3(b1, b2, s, IsSeller);
  }

  lemma {:induction false} TwoBuyersOneSellerPairs(b1: Row, b2: Row, s: Row)
    requires Crosses(b1, s) && Crosses(b2, s)
    ensures TradesOf(CrossingPairs([b1, b2], [s])) == [TradeOf((b1, s)), TradeOf((b2, s))]
  {
    assert [b1, b2][1..] == [b2];
    assert [s][1..] == [];
    assert PairsFor(b1, [s]) == [(b1, s)];
    assert PairsFor(b2, [s]) == [(b2, s)];
    assert CrossingPairs([b2], [s]) == [(b2, s)];
    assert CrossingPairs([b1, b2], [s]) == [(b1, s), (b2, s)];
  }

  /** As written, one seller that both buyers cross is matched against each
      of them for as much as the snapshot says it holds. */
  lemma {:induction false} SellerReusedLedger(b1: Row, b2: Row, s: Row)
    requires OnlyBuys(b1) && OnlyBuys(b2) && OnlySells(s)
    requires Crosses(b1, s) && Crosses(b2, s)
    ensures Sweep(SnapshotQty, Book([b1, b2, s], [])).ledger
         == [Trade(s.sellerPrice, Min(b1.buyerQty, s.sellerQty)), Trade(s.sellerPrice, Min(b2.buyerQty, s.sellerQty))]
  {
    TwoBuyersOneSeller(b1, b2, s);
    SnapshotTrades(Book([b1, b2, s], []));
    TwoBuyersOneSellerPairs(b1, b2, s);
    assert [] + [TradeOf((b1, s)), TradeOf((b2, s))] == [TradeOf((b1, s)), TradeOf((b2, s))];
  }

  lemma {:induction false} Debit3(a: Row, b: Row, c: Row, id: int, side: Side, m: int)
    ensures Debit([a, b, c], id, side, m)
         == [if a.id == id then a.Debited(side, m) else a,
             if b.id == id then b.Debited(side, m) else b,
             if c.id == id then c.Debited(side, m) else c]
  {
  }

  lemma {:induction false} Debit2(a: Row, b: Row, id: int, side: Side, m: int)
    ensures Debit([a, b], id, side, m)
         == [if a.id == id then a.Debited(side, m) else a, if b.id == id then b.Debited(side, m) else b]
  {
  }


  lemma {:induction false} LiveAll3(a: Row, b: Row, c: Row)
    requires Active(a) && Active(b) && Active(c)
    ensures Live([a, b, c]) == [a, b, c]
  {
    Filter3(a, b, c, Active);
  }

  lemma {:induction false} LiveDropLast3(a: Row, b: Row, c: Row)
    requires Active(a) && Active(b) && !Active(c)
    ensures Live([a, b, c]) == [a, b]
  {
    Filter3(a, b, c, Active);
  }

  /** A step computed from its three table operations. */
  lemma {:induction false} StepFrom(book: Book, b: Row, s: Row, m: int, t1: seq<Row>, t2: seq<Row>, t3: seq<Row>)
    requires Debit(book.pending, b.id, Buy, m) == t1
    requires Debit(t1, s.id, Sell, m) == t2
    requires Live(t2) == t3
    ensures Step(book, b, s, m) == Book(t3, book.ledger + [Trade(s.sellerPrice, m)])
  {
  }

  /** The first trade of the two-buyer book: buyer 1 takes the whole offer
      and the seller row is deleted. */
  lemma {:induction false} SellerReusedFirst(b1: Row, b2: Row, s: Row)
    requires OnlyBuys(b1) && OnlyBuys(b2) && OnlySells(s)
    requires b1.id != b2.id && b1.id != s.id && b2.id != s.id
    requires s.sellerQty < b1.buyerQty
    ensures Step(Book([b1, b2, s], []), b1, s, s.sellerQty)
         == Book([b1.Debited(Buy, s.sellerQty), b2], [Trade(s.sellerPrice, s.sellerQty)])
  {
    var m := s.sellerQty;
    Debit3(b1, b2, s, b1.id, Buy, m);
    Debit3(b1.Debited(Buy, m), b2, s, s.id, Sell, m);
    LiveDropLast3(b1.Debited(Buy, m), b2, s.Debited(Sell, m));
    StepFrom(Book([b1, b2, s], []), b1, s, m, [b1.Debited(Buy, m), b2, s], [b1.Debited(Buy, m), b2, s.Debited(Sell, m)],
             [b1.Debited(Buy, m), b2]);
    assert [] + [Trade(s.sellerPrice, m)] == [Trade(s.sellerPrice, m)];
  }

  lemma {:induction false} SellerReusedFirstPass(b1: Row, b2: Row, s: Row)
    requires OnlyBuys(b1) && OnlyBuys(b2) && OnlySells(s)
    requires b1.id != b2.id && b1.id != s.id && b2.id != s.id
    requires Crosses(b1, s) && s.sellerQty < b1.buyerQty
    ensures SellerPass(SnapshotQty, b1, [s], Book([b1, b2, s], []))
         == Book([b1.Debited(Buy, s.sellerQty), b2], [Trade(s.sellerPrice, s.sellerQty)])
  {
    SellerReusedFirst(b1, b2, s);
    assert [s][1..] == [];
  }

  /** The second trade: buyer 2 is matched against the deleted seller for
      the snapshot quantity again; the seller UPDATE finds no row. */
  lemma {:induction false} SellerReusedSecond(b1: Row, b2: Row, s: Row)
    requires OnlyBuys(b1) && OnlyBuys(b2) && OnlySells(s)
    requires b1.id != b2.id && b1.id != s.id && b2.id != s.id
    requires s.sellerQty < b1.buyerQty && s.sellerQty < b2.buyerQty
    ensures Step(Book([b1.Debited(Buy, s.sellerQty), b2], [Trade(s.sellerPrice, s.sellerQty)]), b2, s, s.sellerQty)
         == Book([b1.Debited(Buy, s.sellerQty), b2.Debited(Buy, s.sellerQty)],
                 [Trade(s.sellerPrice, s.sellerQty), Trade(s.sellerPrice, s.sellerQty)])
  {
    var m := s.sellerQty;
    Debit2(b1.Debited(Buy, m), b2, b2.id, Buy, m);
    Debit2(b1.Debited(Buy, m), b2.Debited(Buy, m), s.id, Sell, m);
    Filter2(b1.Debited(Buy, m), b2.Debited(Buy, m), Active);
  }

  lemma {:induction false} SellerReusedSecondPass(b1: Row, b2: Row, s: Row)
    requires OnlyBuys(b1) && OnlyBuys(b2) && OnlySells(s)
    requires b1.id != b2.id && b1.id != s.id && b2.id != s.id
    requires Crosses(b2, s) && s.sellerQty < b1.buyerQty && s.sellerQty < b2.buyerQty
    ensures SellerPass(SnapshotQty, b2, [s], Book([b1.Debited(Buy, s.sellerQty), b2], [Trade(s.sellerPrice, s.sellerQty)]))
         == Book([b1.Debited(Buy, s.sellerQty), b2.Debited(Buy, s.sellerQty)],
                 [Trade(s.sellerPrice, s.sellerQty), Trade(s.sellerPrice, s.sellerQty)])
  {
    SellerReusedSecond(b1, b2, s);
    assert [s][1..] == [];
  }

  lemma {:induction false} SellerReusedPasses(b1: Row, b2: Row, s: Row)
    requires OnlyBuys(b1) && OnlyBuys(b2) && OnlySells(s)
    requires b1.id != b2.id && b1.id != s.id && b2.id != s.id
    requires Crosses(b1, s) && Crosses(b2, s)
    requires s.sellerQty < b1.buyerQty && s.sellerQty < b2.buyerQty
    ensures BuyerPass(SnapshotQty, [b1, b2], [s], Book([b1, b2, s], []))
         == Book([b1.Debited(Buy, s.sellerQty), b2.Debited(Buy, s.sellerQty)],
                 [Trade(s.sellerPrice, s.sellerQty), Trade(s.sellerPrice, s.sellerQty)])
  {
    var m := s.sellerQty;
    var mid := Book([b1.Debited(Buy, m), b2], [Trade(s.sellerPrice, m)]);
    var last := Book([b1.Debited(Buy, m), b2.Debited(Buy, m)], [Trade(s.sellerPrice, m), Trade(s.sellerPrice, m)]);
    SellerReusedFirstPass(b1, b2, s);
    SellerReusedSecondPass(b1, b2, s);
    assert [b1, b2][1..] == [b2];
    assert [b2][1..] == [];
    assert BuyerPass(SnapshotQty, [b1, b2], [s], Book([b1, b2, s], [])) == BuyerPass(SnapshotQty, [b2], [s], mid);
    assert BuyerPass(SnapshotQty, [b2], [s], mid) == BuyerPass(SnapshotQty, [], [s], last);
  }

  /** As written, with two buyers of more than a seller offers (buyers of 10
      at 100 and a seller of 5 at 90, say), the seller is matched in full
      against each buyer in turn: two trades of its whole quantity, and BOTH
      buyers are decremented by it, although the seller row is deleted after
      the first. */
  lemma {:induction false} SellerReused(b1: Row, b2: Row, s: Row)
    requires OnlyBuys(b1) && OnlyBuys(b2) && OnlySells(s)
    requires b1.id != b2.id && b1.id != s.id && b2.id != s.id
    requires Crosses(b1, s) && Crosses(b2, s)
    requires s.sellerQty < b1.buyerQty && s.sellerQty < b2.buyerQty
    ensures Sweep(SnapshotQty, Book([b1, b2, s], []))
         == Book([b1.Debited(Buy, s.sellerQty), b2.Debited(Buy, s.sellerQty)],
                 [Trade(s.sellerPrice, s.sellerQty), Trade(s.sellerPrice, s.sellerQty)])
  {
    TwoBuyersOneSeller(b1, b2, s);
    SellerReusedPasses(b1, b2, s);
  }

  /** As written, when the first buyer alone can take the whole offer (two
      buyers of 10 at 100, one seller of 5 at 90, say), the seller still
      trades with the second buyer: more is sold than was offered, and the
      sweep does not conserve quantity. */
  lemma {:induction false} SellerOversold(b1: Row, b2: Row, s: Row)
    requires OnlyBuys(b1) && OnlyBuys(b2) && OnlySells(s)
    requires Crosses(b1, s) && Crosses(b2, s)
    requires s.sellerQty <= b1.buyerQty
    ensures Volume(Sweep(SnapshotQty, Book([b1, b2, s], [])).ledger) > Outstanding([b1, b2, s], Sell)
    ensures !Conserved(Book([b1, b2, s], []), Sweep(SnapshotQty, Book([b1, b2, s], [])))
  {
    var after := Sweep(SnapshotQty, Book([b1, b2, s], []));
    SellerReusedLedger(b1, b2, s);
    Volume2(after.ledger[0], after.ledger[1]);
    Outstanding3(b1, b2, s, Sell);
    assert Volume([]) == 0;
  }

  // ---- two buyers and a row that both bids and offers ----

  /** A row with both sides open whose own bid does not reach its own ask. */
  predicate Dual(x: Row) {
    IsBuyer(x) && IsSeller(x) && !Crosses(x, x)
  }

  lemma {:induction false} TwoBuyersOneDual(b1: Row, b2: Row, d: Row)
    requires OnlyBuys(b1) && OnlyBuys(b2) && Dual(d)
    ensures Buyers([b1, b2, d]) == [b1, b2, d] && Sellers([b1, b2, d]) == [d]
  {
    LiveAll3(b1, b2, d);
    Filter3(b1, b2, d, IsBuyer);
    Filter3(b1, b2, d, IsSeller);
  }

  /** First trade: buyer 1 takes the dual row's whole offer; the row keeps
      its bid, so the cleanup DELETE leaves it in place. */
  lemma {:induction false} NegativeFirst(b1: Row, b2: Row, d: Row)
    requires OnlyBuys(b1) && OnlyBuys(b2) && Dual(d)
    requires b1.id != b2.id && b1.id != d.id && b2.id != d.id
    requires d.sellerQty < b1.buyerQty
    ensures Step(Book([b1, b2, d], []), b1, d, d.sellerQty)
         == Book([b1.Debited(Buy, d.sellerQty), b2, d.Debited(Sell, d.sellerQty)], [Trade(d.sellerPrice, d.sellerQty)])
  {
    var m := d.sellerQty;
    var t1 := [b1.Debited(Buy, m), b2, d];
    var t2 := [b1.Debited(Buy, m), b2, d.Debited(Sell, m)];
    Debit3(b1, b2, d, b1.id, Buy, m);
    Debit3(b1.Debited(Buy, m), b2, d, d.id, Sell, m);
    LiveAll3(b1.Debited(Buy, m), b2, d.Debited(Sell, m));
    StepFrom(Book([b1, b2, d], []), b1, d, m, t1, t2, t2);
    assert [] + [Trade(d.sellerPrice, m)] == [Trade(d.sellerPrice, m)];
  }

  lemma {:induction false} NegativeFirstPass(b1: Row, b2: Row, d: Row)
    requires OnlyBuys(b1) && OnlyBuys(b2) && Dual(d)
    requires b1.id != b2.id && b1.id != d.id && b2.id != d.id
    requires Crosses(b1, d) && d.sellerQty < b1.buyerQty
    ensures SellerPass(SnapshotQty, b1, [d], Book([b1, b2, d], []))
         == Book([b1.Debited(Buy, d.sellerQty), b2, d.Debited(Sell, d.sellerQty)], [Trade(d.sellerPrice, d.sellerQty)])
  {
    NegativeFirst(b1, b2, d);
    assert [d][1..] == [];
  }

  /** Second trade: buyer 2 is matched for the stale offer again, and the
      seller UPDATE finds the row this time, driving its ask below zero. */
  lemma {:induction false} NegativeSecond(b1: Row, b2: Row, d: Row)
    requires OnlyBuys(b1) && OnlyBuys(b2) && Dual(d)
    requires b1.id != b2.id && b1.id != d.id && b2.id != d.id
    requires d.sellerQty < b1.buyerQty && d.sellerQty < b2.buyerQty
    ensures Step(Book([b1.Debited(Buy, d.sellerQty), b2, d.Debited(Sell, d.sellerQty)], [Trade(d.sellerPrice, d.sellerQty)]),
                 b2, d, d.sellerQty)
         == Book([b1.Debited(Buy, d.sellerQty), b2.Debited(Buy, d.sellerQty), d.Debited(Sell, 2 * d.sellerQty)],
                 [Trade(d.sellerPrice, d.sellerQty), Trade(d.sellerPrice, d.sellerQty)])
  {
    var m := d.sellerQty;
    var t0 := [b1.Debited(Buy, m), b2, d.Debited(Sell, m)];
    var t1 := [b1.Debited(Buy, m), b2.Debited(Buy, m), d.Debited(Sell, m)];
    var t2 := [b1.Debited(Buy, m), b2.Debited(Buy, m), d.Debited(Sell, 2 * m)];
    Debit3(b1.Debited(Buy, m), b2, d.Debited(Sell, m), b2.id, Buy, m);
    Debit3(b1.Debited(Buy, m), b2.Debited(Buy, m), d.Debited(Sell, m), d.id, Sell, m);
    assert d.Debited(Sell, m).Debited(Sell, m) == d.Debited(Sell, 2 * m);
    LiveAll3(b1.Debited(Buy, m), b2.Debited(Buy, m), d.Debited(Sell, 2 * m));
    StepFrom(Book(t0, [Trade(d.sellerPrice, m)]), b2, d, m, t1, t2, t2);
  }

  lemma {:induction false} NegativeSecondPass(b1: Row, b2: Row, d: Row)
    requires OnlyBuys(b1) && OnlyBuys(b2) && Dual(d)
    requires b1.id != b2.id && b1.id != d.id && b2.id != d.id
    requires Crosses(b2, d) && d.sellerQty < b1.buyerQty && d.sellerQty < b2.buyerQty
    ensures SellerPass(SnapshotQty, b2, [d],
                       Book([b1.Debited(Buy, d.sellerQty), b2, d.Debited(Sell, d.sellerQty)], [Trade(d.sellerPrice, d.sellerQty)]))
         == Book([b1.Debited(Buy, d.sellerQty), b2.Debited(Buy, d.sellerQty), d.Debited(Sell, 2 * d.sellerQty)],
                 [Trade(d.sellerPrice, d.sellerQty), Trade(d.sellerPrice, d.sellerQty)])
  {
    NegativeSecond(b1, b2, d);
    assert [d][1..] == [];
  }

  lemma {:induction false} NegativePasses(b1: Row, b2: Row, d: Row)
    requires OnlyBuys(b1) && OnlyBuys(b2) && Dual(d)
    requires b1.id != b2.id && b1.id != d.id && b2.id != d.id
    requires Crosses(b1, d) && Crosses(b2, d)
    requires d.sellerQty < b1.buyerQty && d.sellerQty < b2.buyerQty
    ensures BuyerPass(SnapshotQty, [b1, b2, d], [d], Book([b1, b2, d], []))
         == Book([b1.Debited(Buy, d.sellerQty), b2.Debited(Buy, d.sellerQty), d.Debited(Sell, 2 * d.sellerQty)],
                 [Trade(d.sellerPrice, d.sellerQty), Trade(d.sellerPrice, d.sellerQty)])
  {
    var m := d.sellerQty;
    var mid := Book([b1.Debited(Buy, m), b2, d.Debited(Sell, m)], [Trade(d.sellerPrice, m)]);
    var last := Book([b1.Debited(Buy, m), b2.Debited(Buy, m), d.Debited(Sell, 2 * m)],
                     [Trade(d.sellerPrice, m), Trade(d.sellerPrice, m)]);
    NegativeFirstPass(b1, b2, d);
    NegativeSecondPass(b1, b2, d);
    assert [b1, b2, d][1..] == [b2, d];
    assert [b2, d][1..] == [d];
    assert [d][1..] == [];
    assert BuyerPass(SnapshotQty, [b1, b2, d], [d], Book([b1, b2, d], [])) == BuyerPass(SnapshotQty, [b2, d], [d], mid);
    assert BuyerPass(SnapshotQty, [b2, d], [d], mid) == BuyerPass(SnapshotQty, [d], [d], last);
    assert SellerPass(SnapshotQty, d, [d], last) == last;
    assert BuyerPass(SnapshotQty, [d], [d], last) == BuyerPass(SnapshotQty, [], [d], last);
  }

  /** As written, a row that both bids and offers (two buyers of 10 at 100
      and a row bidding 3 at 1 and offering 5 at 90, say) has its offer sold
      to each buyer in turn; it survives the cleanup DELETE because of its
      bid, and ends with an ask of minus its original quantity. A table with
      no negative quantity now holds one. */
  lemma {:induction false} NegativeLeft(b1: Row, b2: Row, d: Row)
    requires OnlyBuys(b1) && OnlyBuys(b2) && Dual(d)
    requires b1.id != b2.id && b1.id != d.id && b2.id != d.id
    requires Crosses(b1, d) && Crosses(b2, d)
    requires d.sellerQty < b1.buyerQty && d.sellerQty < b2.buyerQty
    ensures Sweep(SnapshotQty, Book([b1, b2, d], []))
         == Book([b1.Debited(Buy, d.sellerQty), b2.Debited(Buy, d.sellerQty), d.Debited(Sell, 2 * d.sellerQty)],
                 [Trade(d.sellerPrice, d.sellerQty), Trade(d.sellerPrice, d.sellerQty)])
    ensures d.Debited(Sell, 2 * d.sellerQty).sellerQty == -d.sellerQty < 0
    ensures !NonNegative(Sweep(SnapshotQty, Book([b1, b2, d], [])).pending)
  {
    TwoBuyersOneDual(b1, b2, d);
    NegativePasses(b1, b2, d);
    assert d.Debited(Sell, 2 * d.sellerQty) in Sweep(SnapshotQty, Book([b1, b2, d], [])).pending;
  }

  // ---- one buyer, two sellers ----

  lemma {:induction false} OneBuyerTwoSellers(b: Row, s1: Row, s2: Row)
    requires OnlyBuys(b) && OnlySells(s1) && OnlySells(s2)
    ensures Buyers([b, s1, s2]) == [b] && Sellers([b, s1, s2]) == [s1, s2]
  {
    LiveAll3(b, s1, s2);
    Filter3(b, s1, s2, IsBuyer);
    Filter3(b, s1, s2, IsSeller);
  }

  lemma {:induction false} OneBuyerTwoSellersPairs(b: Row, s1: Row, s2: Row)
    requires Crosses(b, s1) && Crosses(b, s2)
    ensures TradesOf(CrossingPairs([b], [s1, s2])) == [TradeOf((b, s1)), TradeOf((b, s2))]
  {
    assert [b][1..] == [];
    assert [s1, s2][1..] == [s2];
    assert [s2][1..] == [];
    assert PairsFor(b, [s2]) == [(b, s2)];
    assert PairsFor(b, [s1, s2]) == [(b, s1), (b, s2)];
    assert CrossingPairs([b], [s1, s2]) == PairsFor(b, [s1, s2]) + [];
  }

  /** As written, a buyer that crosses two sellers is matched against each
      for as much as the snapshot says it wants. */
  lemma {:induction false} BuyerRefilledLedger(b: Row, s1: Row, s2: Row)
    requires OnlyBuys(b) && OnlySells(s1) && OnlySells(s2)
    requires Crosses(b, s1) && Crosses(b, s2)
    ensures Sweep(SnapshotQty, Book([b, s1, s2], [])).ledger
         == [Trade(s1.sellerPrice, Min(b.buyerQty, s1.sellerQty)), Trade(s2.sellerPrice, Min(b.buyerQty, s2.sellerQty))]
  {
    OneBuyerTwoSellers(b, s1, s2);
    SnapshotTrades(Book([b, s1, s2], []));
    OneBuyerTwoSellersPairs(b, s1, s2);
    assert [] + [TradeOf((b, s1)), TradeOf((b, s2))] == [TradeOf((b, s1)), TradeOf((b, s2))];
  }

  /** As written, when the first seller alone fills the buyer (one buyer of
      10 at 100, sellers of 12 and 8 at 90, say), the exhaustion test reads
      the snapshot bid, so the inner loop goes on and the filled buyer buys
      the second seller's quantity on top: more is bought than was asked
      for, and the sweep does not conserve quantity. */
  lemma {:induction false} BuyerOverfilled(b: Row, s1: Row, s2: Row)
    requires OnlyBuys(b) && OnlySells(s1) && OnlySells(s2)
    requires Crosses(b, s1) && Crosses(b, s2)
    requires b.buyerQty <= s1.sellerQty
    ensures Volume(Sweep(SnapshotQty, Book([b, s1, s2], [])).ledger) > Outstanding([b, s1, s2], Buy)
    ensures !Conserved(Book([b, s1, s2], []), Sweep(SnapshotQty, Book([b, s1, s2], [])))
  {
    var after := Sweep(SnapshotQty, Book([b, s1, s2], []));
    BuyerRefilledLedger(b, s1, s2);
    Volume2(after.ledger[0], after.ledger[1]);
    Outstanding3(b, s1, s2, Buy);
    assert Volume([]) == 0;
  }

  // ---- one buyer, one seller ----

  lemma {:induction false} PartialFillStep(b: Row, s: Row)
    requires OnlyBuys(b) && OnlySells(s) && b.id != s.id
    requires s.sellerQty < b.buyerQty
    ensures Step(Book([b, s], []), b, s, s.sellerQty) == Book([b.Debited(Buy, s.sellerQty)], [Trade(s.sellerPrice, s.sellerQty)])
  {
    var m := s.sellerQty;
    Debit2(b, s, b.id, Buy, m);
    Debit2(b.Debited(Buy, m), s, s.id, Sell, m);
    Filter2(b.Debited(Buy, m), s.Debited(Sell, m), Active);
    StepFrom(Book([b, s], []), b, s, m, [b.Debited(Buy, m), s], [b.Debited(Buy, m), s.Debited(Sell, m)], [b.Debited(Buy, m)]);
    assert [] + [Trade(s.sellerPrice, m)] == [Trade(s.sellerPrice, m)];
  }

  /** A buyer that crosses a smaller offer (10 at 50 against 4 at 50, say)
      buys all of it at the seller's price; the rest of its bid stays open
      and the seller row is deleted. */
  lemma {:induction false} PartialFill(b: Row, s: Row)
    requires OnlyBuys(b) && OnlySells(s) && b.id != s.id
    requires Crosses(b, s) && s.sellerQty < b.buyerQty
    ensures Sweep(SnapshotQty, Book([b, s], [])) == Book([b.Debited(Buy, s.sellerQty)], [Trade(s.sellerPrice, s.sellerQty)])
  {
    var after := Book([b.Debited(Buy, s.sellerQty)], [Trade(s.sellerPrice, s.sellerQty)]);
    assert Buyers([b, s]) == [b] && Sellers([b, s]) == [s] by {
      Filter2(b, s, Active);
      assert Live([b, s]) == [b, s];
      Filter2(b, s, IsBuyer);
      Filter2(b, s, IsSeller);
    }
    PartialFillStep(b, s);
    assert [s][1..] == [];
    assert [b][1..] == [];
    assert SellerPass(SnapshotQty, b, [s], Book([b, s], [])) == after;
    assert BuyerPass(SnapshotQty, [b], [s], Book([b, s], [])) == BuyerPass(SnapshotQty, [], [s], after);
  }
}
