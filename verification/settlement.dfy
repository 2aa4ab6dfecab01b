/**
 Why a second run of the matcher finds nothing to do. Each step leaves the
 buyer's buy side or the seller's sell side spent (zero, negative, or the
 row deleted), later steps only decrement and delete, so every pair that
 crossed in the snapshot is settled at the end of the run; and every buyer
 and seller of the next snapshot was already a buyer or seller of this one,
 with the same prices. Both quantity bases are covered.
 */
module Settlement {
  import opened Orders
  import opened Matching

  /** The buyer's buy side or the seller's sell side is spent. */
  predicate Settled(t: seq<Row>, b: Row, s: Row) {
    Spent(t, b.id, Buy) || Spent(t, s.id, Sell)
  }

  ghost predicate SettledAll(t: seq<Row>, buyers: seq<Row>, sellers: seq<Row>) {
    forall b, s :: b in buyers && s in sellers && Crosses(b, s) ==> Settled(t, b, s)
  }

  /** The rows are the ones the committed table `t0` holds under their ids. */
  ghost predicate FromTable(t0: seq<Row>, rows: seq<Row>) {
    forall x :: x in rows ==> Find(t0, x.id) == Some(x)
  }

  lemma {:induction false} FromTableOf(t0: seq<Row>, rows: seq<Row>)
    requires IdOrdered(t0)
    requires forall x :: x in rows ==> x in t0
    ensures FromTable(t0, rows)
  {
    forall x | x in rows
      ensures Find(t0, x.id) == Some(x)
    {
      FindMember(t0, x);
    }
  }

  lemma {:induction false} ShrinksRefl(t: seq<Row>)
    ensures Shrinks(t, t)
  {
  }

  /** A step only decrements (by a non-negative amount) and deletes. */
  lemma {:induction false} StepShrinks(book: Book, b: Row, s: Row, m: int)
    requires IdOrdered(book.pending)
    requires m >= 0
    ensures Shrinks(book.pending, Step(book, b, s, m).pending)
  {
    var t := Step(book, b, s, m).pending;
    forall id | Find(t, id).Some?
      ensures Find(book.pending, id).Some? && Below(Find(t, id).value, Find(book.pending, id).value)
    {
      StepEffect(book, b, s, m, id);
    }
  }

  /** A step takes exactly `m` off the buy side of the buyer row and the
      sell side of the seller row, as far as those rows survive it. */
  lemma {:induction false} StepDebits(book: Book, b: Row, s: Row, m: int)
    requires IdOrdered(book.pending)
    ensures var t' := Step(book, b, s, m).pending;
            Find(t', b.id).Some? ==>
              Find(book.pending, b.id).Some? &&
              Find(t', b.id).value.buyerQty == Find(book.pending, b.id).value.buyerQty - m
    ensures var t' := Step(book, b, s, m).pending;
            Find(t', s.id).Some? ==>
              Find(book.pending, s.id).Some? &&
              Find(t', s.id).value.sellerQty == Find(book.pending, s.id).value.sellerQty - m
  {
    StepEffect(book, b, s, m, b.id);
    StepEffect(book, b, s, m, s.id);
  }

  /** A row still present holds no more on a side than it held when read. */
  lemma {:induction false} QtyOfBelow(t0: seq<Row>, t: seq<Row>, x: Row, side: Side)
    requires Shrinks(t0, t)
    requires Find(t0, x.id) == Some(x)
    ensures Find(t, x.id).Some? ==> QtyOf(t, x.id, side) <= x.Qty(side)
  {
    if Find(t, x.id).Some? {
      assert Below(Find(t, x.id).value, x);
    }
  }

  /** A step debiting the buyer by at least what its row holds spends its bid. */
  lemma {:induction false} BuyerSpentAfter(book: Book, b: Row, s: Row, m: int)
    requires IdOrdered(book.pending)
    requires QtyOf(book.pending, b.id, Buy) <= m
    ensures Spent(Step(book, b, s, m).pending, b.id, Buy)
  {
    StepDebits(book, b, s, m);
  }

  /** A step debiting the seller by at least what its row holds spends its offer. */
  lemma {:induction false} SellerSpentAfter(book: Book, b: Row, s: Row, m: int)
    requires IdOrdered(book.pending)
    requires QtyOf(book.pending, s.id, Sell) <= m
    ensures Spent(Step(book, b, s, m).pending, s.id, Sell)
  {
    StepDebits(book, b, s, m);
  }

  /** The pair a step has just matched is settled after it, under either basis. */
  lemma {:induction false} StepSettles(basis: QtyBasis, t0: seq<Row>, book: Book, b: Row, s: Row)
    requires IdOrdered(book.pending)
    requires Shrinks(t0, book.pending)
    requires Find(t0, b.id) == Some(b) && Find(t0, s.id) == Some(s)
    requires MatchQty(basis, book.pending, b, s) > 0
    ensures Settled(Step(book, b, s, MatchQty(basis, book.pending, b, s)).pending, b, s)
  {
    var t := book.pending;
    var m := MatchQty(basis, t, b, s);
    var bq, sq := QtyOf(t, b.id, Buy), QtyOf(t, s.id, Sell);
    if basis == SnapshotQty {
      assert m == Min(b.buyerQty, s.sellerQty);
      QtyOfBelow(t0, t, b, Buy);
      QtyOfBelow(t0, t, s, Sell);
      if b.buyerQty <= s.sellerQty {
        assert bq <= m;
        BuyerSpentAfter(book, b, s, m);
      } else {
        assert sq <= m;
        SellerSpentAfter(book, b, s, m);
      }
    } else {
      assert m == Min(bq, sq);
      if bq <= sq {
        BuyerSpentAfter(book, b, s, m);
      } else {
        SellerSpentAfter(book, b, s, m);
      }
    }
  }

  /** Under the corrected basis a pair whose match quantity is not positive
      is already settled. */
  lemma {:induction false} NoMatchSettled(t: seq<Row>, b: Row, s: Row)
    requires MatchQty(RemainingQty, t, b, s) <= 0
    ensures Settled(t, b, s)
  {
  }

  lemma {:induction false} SettledAllStays(t1: seq<Row>, t2: seq<Row>, buyers: seq<Row>, sellers: seq<Row>)
    requires Shrinks(t1, t2)
    requires SettledAll(t1, buyers, sellers)
    ensures SettledAll(t2, buyers, sellers)
  {
    forall b, s | b in buyers && s in sellers && Crosses(b, s)
      ensures Settled(t2, b, s)
    {
      if Spent(t1, b.id, Buy) {
        SpentStays(t1, t2, b.id, Buy);
      } else {
        SpentStays(t1, t2, s.id, Sell);
      }
    }
  }

  /** A buyer whose bid is spent is settled against every seller. */
  lemma {:induction false} BuyerSpentSettlesAll(t: seq<Row>, b: Row, sellers: seq<Row>)
    requires Spent(t, b.id, Buy)
    ensures SettledAll(t, [b], sellers)
  {
  }

  lemma {:induction false} SettledAllJoin(t: seq<Row>, b: Row, s: Row, rest: seq<Row>)
    requires SettledAll(t, [b], [s]) && SettledAll(t, [b], rest)
    ensures SettledAll(t, [b], [s] + rest)
  {
    forall b', s' | b' in [b] && s' in [s] + rest && Crosses(b', s')
      ensures Settled(t, b', s')
    {
      if s' != s {
        assert s' in rest;
      }
    }
  }

  /** The inner loop's case where the head seller crosses and a trade is made. */
  lemma {:induction false} SellerPassSettlesStep(basis: QtyBasis, t0: seq<Row>, b: Row, sellers: seq<Row>, book: Book)
    requires IdOrdered(book.pending)
    requires Shrinks(t0, book.pending)
    requires Find(t0, b.id) == Some(b) && b.buyerQty > 0
    requires FromTable(t0, sellers)
    requires forall s :: s in sellers ==> s.sellerQty > 0
    requires sellers != [] && Crosses(b, sellers[0]) && MatchQty(basis, book.pending, b, sellers[0]) > 0
    ensures Shrinks(book.pending, SellerPass(basis, b, sellers, book).pending)
    ensures SettledAll(SellerPass(basis, b, sellers, book).pending, [b], sellers)
    decreases |sellers|, 1
  {
    var next := Step(book, b, sellers[0], MatchQty(basis, book.pending, b, sellers[0]));
    if BuyerExhausted(basis, next.pending, b) {
      assert SellerPass(basis, b, sellers, book) == next;
      SellerPassSettlesExhausted(basis, b, sellers, book);
    } else {
      assert SellerPass(basis, b, sellers, book) == SellerPass(basis, b, sellers[1..], next);
      SellerPassSettlesRest(basis, t0, b, sellers, book);
    }
  }

  /** A trade that spends the buyer's bid ends its inner loop with every pair settled. */
  lemma {:induction false} SellerPassSettlesExhausted(basis: QtyBasis, b: Row, sellers: seq<Row>, book: Book)
    requires IdOrdered(book.pending)
    requires b.buyerQty > 0
    requires sellers != [] && MatchQty(basis, book.pending, b, sellers[0]) > 0
    requires BuyerExhausted(basis, Step(book, b, sellers[0], MatchQty(basis, book.pending, b, sellers[0])).pending, b)
    ensures var next := Step(book, b, sellers[0], MatchQty(basis, book.pending, b, sellers[0]));
            && Shrinks(book.pending, next.pending)
            && SettledAll(next.pending, [b], sellers)
  {
    var next := Step(book, b, sellers[0], MatchQty(basis, book.pending, b, sellers[0]));
    assert basis == RemainingQty;
    StepShrinks(book, b, sellers[0], MatchQty(basis, book.pending, b, sellers[0]));
    BuyerSpentSettlesAll(next.pending, b, sellers);
  }

  /** After the head seller's trade, the rest of the inner loop settles the
      head pair and every later one. */
  lemma {:induction false} SellerPassSettlesRest(basis: QtyBasis, t0: seq<Row>, b: Row, sellers: seq<Row>, book: Book)
    requires IdOrdered(book.pending)
    requires Shrinks(t0, book.pending)
    requires Find(t0, b.id) == Some(b) && b.buyerQty > 0
    requires FromTable(t0, sellers)
    requires forall x :: x in sellers ==> x.sellerQty > 0
    requires sellers != [] && MatchQty(basis, book.pending, b, sellers[0]) > 0
    ensures var next := Step(book, b, sellers[0], MatchQty(basis, book.pending, b, sellers[0]));
            && Shrinks(book.pending, SellerPass(basis, b, sellers[1..], next).pending)
            && SettledAll(SellerPass(basis, b, sellers[1..], next).pending, [b], sellers)
    decreases |sellers|, 0
  {
    var t := book.pending;
    var s := sellers[0];
    var rest := sellers[1..];
    var m := MatchQty(basis, t, b, s);
    var next := Step(book, b, s, m);
    var r := SellerPass(basis, b, rest, next);
    FromTableTail(t0, sellers);
    StepShrinksSettles(basis, t0, book, b, s);
    SellerPassSettles(basis, t0, b, rest, next);
    ShrinksTrans(t, next.pending, r.pending);
    SettledHeadAndRest(next.pending, r.pending, b, sellers);
  }

  /** What holds of a seller list holds of its tail. */
  lemma {:induction false} FromTableTail(t0: seq<Row>, sellers: seq<Row>)
    requires sellers != []
    requires FromTable(t0, sellers)
    requires forall x :: x in sellers ==> x.sellerQty > 0
    ensures FromTable(t0, sellers[1..])
    ensures forall x :: x in sellers[1..] ==> x.sellerQty > 0
  {
    assert forall x :: x in sellers[1..] ==> x in sellers;
  }

  /** A step only lowers quantities of the table read at the start of the
      run, and settles the pair it matched. */
  lemma {:induction false} StepShrinksSettles(basis: QtyBasis, t0: seq<Row>, book: Book, b: Row, s: Row)
    requires IdOrdered(book.pending)
    requires Shrinks(t0, book.pending)
    requires Find(t0, b.id) == Some(b) && Find(t0, s.id) == Some(s)
    requires MatchQty(basis, book.pending, b, s) > 0
    ensures var next := Step(book, b, s, MatchQty(basis, book.pending, b, s));
            && Shrinks(book.pending, next.pending)
            && Shrinks(t0, next.pending)
            && Settled(next.pending, b, s)
  {
    var m := MatchQty(basis, book.pending, b, s);
    StepShrinks(book, b, s, m);
    ShrinksTrans(t0, book.pending, Step(book, b, s, m).pending);
    StepSettles(basis, t0, book, b, s);
  }

  /** A pair settled before the rest of the loop stays settled, and joins
      the pairs the rest of the loop settles. */
  lemma {:induction false} SettledHeadAndRest(next: seq<Row>, r: seq<Row>, b: Row, sellers: seq<Row>)
    requires sellers != []
    requires Settled(next, b, sellers[0])
    requires Shrinks(next, r)
    requires SettledAll(r, [b], sellers[1..])
    ensures SettledAll(r, [b], sellers)
  {
    assert SettledAll(next, [b], [sellers[0]]);
    SettledAllStays(next, r, [b], [sellers[0]]);
    SettledAllJoin(r, b, sellers[0], sellers[1..]);
    assert sellers == [sellers[0]] + sellers[1..];
  }

  lemma {:induction false} SellerPassSettles(basis: QtyBasis, t0: seq<Row>, b: Row, sellers: seq<Row>, book: Book)
    requires IdOrdered(book.pending)
    requires Shrinks(t0, book.pending)
    requires Find(t0, b.id) == Some(b) && b.buyerQty > 0
    requires FromTable(t0, sellers)
    requires forall s :: s in sellers ==> s.sellerQty > 0
    ensures Shrinks(book.pending, SellerPass(basis, b, sellers, book).pending)
    ensures SettledAll(SellerPass(basis, b, sellers, book).pending, [b], sellers)
    decreases |sellers|, 2
  {
    var t := book.pending;
    var r := SellerPass(basis, b, sellers, book);
    if sellers == [] {
      ShrinksRefl(t);
    } else {
      var s := sellers[0];
      var rest := sellers[1..];
      assert forall x :: x in rest ==> x in sellers;
      var m := MatchQty(basis, t, b, s);
      if Crosses(b, s) && m > 0 {
        SellerPassSettlesStep(basis, t0, b, sellers, book);
      } else {
        if Crosses(b, s) && basis == RemainingQty {
          NoMatchSettled(t, b, s);
        }
        assert r == SellerPass(basis, b, rest, book);
        SellerPassSettles(basis, t0, b, rest, book);
        SettledAllStays(t, r.pending, [b], [s]);
      }
    }
  }

  lemma {:induction false} BuyerPassSettles(basis: QtyBasis, t0: seq<Row>, buyers: seq<Row>, sellers: seq<Row>, book: Book)
    requires IdOrdered(book.pending)
    requires Shrinks(t0, book.pending)
    requires FromTable(t0, buyers) && FromTable(t0, sellers)
    requires forall b :: b in buyers ==> b.buyerQty > 0
    requires forall s :: s in sellers ==> s.sellerQty > 0
    ensures Shrinks(book.pending, BuyerPass(basis, buyers, sellers, book).pending)
    ensures SettledAll(BuyerPass(basis, buyers, sellers, book).pending, buyers, sellers)
    decreases |buyers|
  {
    if buyers == [] {
      ShrinksRefl(book.pending);
    } else {
      var mid := SellerPass(basis, buyers[0], sellers, book);
      var r := BuyerPass(basis, buyers[1..], sellers, mid);
      assert BuyerPass(basis, buyers, sellers, book) == r;
      assert forall x :: x in buyers[1..] ==> x in buyers;
      SellerPassSettles(basis, t0, buyers[0], sellers, book);
      ShrinksTrans(t0, book.pending, mid.pending);
      BuyerPassSettles(basis, t0, buyers[1..], sellers, mid);
      ShrinksTrans(book.pending, mid.pending, r.pending);
      SettledAllStays(mid.pending, r.pending, [buyers[0]], sellers);
    }
  }

  /** Every crossing (buyer, seller) pair of the snapshot is settled when the run ends. */
  lemma {:induction false} SweepSettles(basis: QtyBasis, book: Book)
    requires IdOrdered(book.pending)
    ensures Shrinks(book.pending, Sweep(basis, book).pending)
    ensures SettledAll(Sweep(basis, book).pending, Buyers(book.pending), Sellers(book.pending))
  {
    var t0 := book.pending;
    FromTableOf(t0, Buyers(t0));
    FromTableOf(t0, Sellers(t0));
    ShrinksRefl(t0);
    BuyerPassSettles(basis, t0, Buyers(t0), Sellers(t0), book);
  }

  /** A buyer and a seller still open after the run do not cross: they were
      a buyer and a seller of the snapshot, with the same prices, and every
      crossing pair of the snapshot is settled. */
  lemma {:induction false} StillOpenDoNotCross(t0: seq<Row>, t1: seq<Row>, b: Row, s: Row)
    requires IdOrdered(t0) && IdOrdered(t1) && Shrinks(t0, t1)
    requires SettledAll(t1, Buyers(t0), Sellers(t0))
    requires b in t1 && b.buyerQty > 0
    requires s in t1 && s.sellerQty > 0
    ensures !Crosses(b, s)
  {
    FindMember(t1, b);
    FindMember(t1, s);
    var b0 := Find(t0, b.id).value;
    var s0 := Find(t0, s.id).value;
    assert Below(b, b0) && Below(s, s0);
    assert b0 in Buyers(t0) && s0 in Sellers(t0);
    assert !Settled(t1, b0, s0);
  }

  /** After a run, no buyer of the table crosses any seller of it. */
  lemma {:induction false} NoCrossingAfterSweep(basis: QtyBasis, book: Book)
    requires IdOrdered(book.pending)
    ensures var t1 := Sweep(basis, book).pending;
            forall b, s :: b in Buyers(t1) && s in Sellers(t1) ==> !Crosses(b, s)
  {
    var t1 := Sweep(basis, book).pending;
    SweepSettles(basis, book);
    forall b, s | b in Buyers(t1) && s in Sellers(t1)
      ensures !Crosses(b, s)
    {
      StillOpenDoNotCross(book.pending, t1, b, s);
    }
  }

  lemma {:induction false} SellerPassIdle(basis: QtyBasis, b: Row, sellers: seq<Row>, book: Book)
    requires forall s :: s in sellers ==> !Crosses(b, s)
    ensures SellerPass(basis, b, sellers, book) == book
    decreases |sellers|
  {
    if sellers != [] {
      assert sellers[0] in sellers;
      assert forall x :: x in sellers[1..] ==> x in sellers;
      SellerPassIdle(basis, b, sellers[1..], book);
    }
  }

  lemma {:induction false} BuyerPassIdle(basis: QtyBasis, buyers: seq<Row>, sellers: seq<Row>, book: Book)
    requires forall b, s :: b in buyers && s in sellers ==> !Crosses(b, s)
    ensures BuyerPass(basis, buyers, sellers, book) == book
    decreases |buyers|
  {
    if buyers != [] {
      assert buyers[0] in buyers;
      assert forall x :: x in buyers[1..] ==> x in buyers;
      SellerPassIdle(basis, buyers[0], sellers, book);
      BuyerPassIdle(basis, buyers[1..], sellers, book);
    }
  }

  /** A second run with no insert in between appends no trade and changes
      no row: the sweep is idempotent. */
  lemma {:induction false} SweepIdempotent(basis: QtyBasis, book: Book)
    requires IdOrdered(book.pending)
    ensures Sweep(basis, Sweep(basis, book)) == Sweep(basis, book)
  {
    var once := Sweep(basis, book);
    NoCrossingAfterSweep(basis, book);
    BuyerPassIdle(basis, Buyers(once.pending), Sellers(once.pending), once);
  }
}
