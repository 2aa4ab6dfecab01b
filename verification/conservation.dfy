/**
 Quantity accounting for the corrected sweep (`RemainingQty`), which matches
 each pair for the smaller of the two quantities the rows still hold. The
 sweep as written does not have these properties; the counterexamples are
 in the Witnesses module.
 */
module Conservation {
  import opened Orders
  import opened Matching

  function Pos(x: int): nat {
    if x > 0 then x else 0
  }

  /** The open quantity on one side of the table: its positive quantities summed. */
  function Outstanding(t: seq<Row>, side: Side): nat {
    if t == [] then 0 else Pos(t[0].Qty(side)) + Outstanding(t[1..], side)
  }

  /** Total quantity traded in a ledger. */
  function Volume(l: seq<Trade>): int {
    if l == [] then 0 else Volume(l[..|l| - 1]) + l[|l| - 1].qty
  }

  /** No row holds a negative quantity on either side. */
  predicate NonNegative(t: seq<Row>) {
    forall x :: x in t ==> x.buyerQty >= 0 && x.sellerQty >= 0
  }

  lemma {:induction false} VolumeAppend(l: seq<Trade>, tr: Trade)
    ensures Volume(l + [tr]) == Volume(l) + tr.qty
  {
    assert (l + [tr])[..|l|] == l;
  }

  lemma {:induction false} DebitAbsent(t: seq<Row>, id: int, side: Side, m: int)
    requires forall x :: x in t ==> x.id != id
    ensures Debit(t, id, side, m) == t
  {
  }

  /** Debiting a row by no more than it holds lowers that side's open
      quantity by exactly the debit. */
  lemma {:induction false} OutstandingDebit(t: seq<Row>, id: int, side: Side, m: int)
    requires IdOrdered(t)
    requires Find(t, id).Some? && 0 <= m <= Find(t, id).value.Qty(side)
    ensures Outstanding(Debit(t, id, side, m), side) == Outstanding(t, side) - m
  {
    var x := Find(t, id).value;
    var i :| 0 <= i < |t| && t[i] == x;
    assert forall j :: 0 <= j < |t| && j != i ==> t[j].id != id by {
      forall j | 0 <= j < |t| && j != i
        ensures t[j].id != id
      {
        if j < i {
          assert t[j].id < t[i].id;
        } else {
          assert t[i].id < t[j].id;
        }
      }
    }
    OutstandingDebitAt(t, id, side, m, i);
  }

  lemma {:induction false} OutstandingDebitAt(t: seq<Row>, id: int, side: Side, m: int, i: int)
    requires 0 <= i < |t| && t[i].id == id
    requires forall j :: 0 <= j < |t| && j != i ==> t[j].id != id
    requires 0 <= m <= t[i].Qty(side)
    ensures Outstanding(Debit(t, id, side, m), side) == Outstanding(t, side) - m
  {
    var d := Debit(t, id, side, m);
    assert d[1..] == Debit(t[1..], id, side, m);
    if i == 0 {
      assert forall x :: x in t[1..] ==> x.id != id;
      DebitAbsent(t[1..], id, side, m);
      DebitHead(t, id, side, m);
    } else {
      OutstandingDebitAt(t[1..], id, side, m, i - 1);
      assert d[0] == t[0];
    }
  }

  lemma {:induction false} DebitHead(t: seq<Row>, id: int, side: Side, m: int)
    requires t != [] && t[0].id == id && 0 <= m <= t[0].Qty(side)
    requires Debit(t, id, side, m)[1..] == t[1..]
    ensures Outstanding(Debit(t, id, side, m), side) == Outstanding(t, side) - m
  {
    var d := Debit(t, id, side, m);
    assert d[0].Qty(side) == t[0].Qty(side) - m;
  }

  /** A debit on one side leaves the other side's open quantity alone. */
  lemma {:induction false} OutstandingDebitOther(t: seq<Row>, id: int, side: Side, m: int)
    ensures Outstanding(Debit(t, id, side, m), Other(side)) == Outstanding(t, Other(side))
  {
    if t != [] {
      var d := Debit(t, id, side, m);
      assert d[1..] == Debit(t[1..], id, side, m);
      assert d[0].Qty(Other(side)) == t[0].Qty(Other(side));
      OutstandingDebitOther(t[1..], id, side, m);
    }
  }

  /** Deleting exhausted rows removes no open quantity. */
  lemma {:induction false} OutstandingLive(t: seq<Row>, side: Side)
    ensures Outstanding(Filter(t, Active), side) == Outstanding(t, side)
  {
    if t != [] {
      OutstandingLive(t[1..], side);
    }
  }

  lemma {:induction false} NonNegativeDebit(t: seq<Row>, id: int, side: Side, m: int)
    requires IdOrdered(t) && NonNegative(t)
    requires Find(t, id).Some? && 0 <= m <= Find(t, id).value.Qty(side)
    ensures NonNegative(Debit(t, id, side, m))
  {
    var d := Debit(t, id, side, m);
    forall x | x in d
      ensures x.buyerQty >= 0 && x.sellerQty >= 0
    {
      var i :| 0 <= i < |d| && d[i] == x;
      if t[i].id == id {
        FindMember(t, t[i]);
      }
    }
  }

  /** The two UPDATEs of a step take `m` off the buy side's open quantity. */
  lemma {:induction false} StepOutstandingBuy(t: seq<Row>, b: Row, s: Row, m: int)
    requires IdOrdered(t)
    requires Find(t, b.id).Some? && 0 <= m <= Find(t, b.id).value.buyerQty
    ensures Outstanding(Debit(Debit(t, b.id, Buy, m), s.id, Sell, m), Buy) == Outstanding(t, Buy) - m
  {
    OutstandingDebit(t, b.id, Buy, m);
    OutstandingDebitOther(Debit(t, b.id, Buy, m), s.id, Sell, m);
  }

  /** The two UPDATEs of a step take `m` off the sell side's open quantity. */
  lemma {:induction false} StepOutstandingSell(t: seq<Row>, b: Row, s: Row, m: int)
    requires IdOrdered(t)
    requires Find(t, s.id).Some? && 0 <= m <= Find(t, s.id).value.sellerQty
    ensures Outstanding(Debit(Debit(t, b.id, Buy, m), s.id, Sell, m), Sell) == Outstanding(t, Sell) - m
  {
    var t1 := Debit(t, b.id, Buy, m);
    OutstandingDebitOther(t, b.id, Buy, m);
    FindDebit(t, b.id, Buy, m, s.id);
    OutstandingDebit(t1, s.id, Sell, m);
  }

  /** A step that debits each row by no more than it holds leaves no
      negative quantity in a table that had none. */
  lemma {:induction false} StepNonNegative(t: seq<Row>, b: Row, s: Row, m: int)
    requires IdOrdered(t) && NonNegative(t)
    requires Find(t, b.id).Some? && 0 <= m <= Find(t, b.id).value.buyerQty
    requires Find(t, s.id).Some? && m <= Find(t, s.id).value.sellerQty
    ensures NonNegative(Live(Debit(Debit(t, b.id, Buy, m), s.id, Sell, m)))
  {
    var t1 := Debit(t, b.id, Buy, m);
    NonNegativeDebit(t, b.id, Buy, m);
    FindDebit(t, b.id, Buy, m, s.id);
    NonNegativeDebit(t1, s.id, Sell, m);
  }

  /** One corrected step takes its match quantity off both sides' open
      quantity and adds it to the traded volume, and drives no quantity
      below zero. */
  lemma {:induction false} RemainingStep(book: Book, b: Row, s: Row)
    requires IdOrdered(book.pending)
    requires MatchQty(RemainingQty, book.pending, b, s) > 0
    ensures var m := MatchQty(RemainingQty, book.pending, b, s);
            var next := Step(book, b, s, m);
            && Outstanding(next.pending, Buy) == Outstanding(book.pending, Buy) - m
            && Outstanding(next.pending, Sell) == Outstanding(book.pending, Sell) - m
            && Volume(next.ledger) == Volume(book.ledger) + m
            && (NonNegative(book.pending) ==> NonNegative(next.pending))
  {
    var t := book.pending;
    var m := MatchQty(RemainingQty, t, b, s);
    assert m == Min(QtyOf(t, b.id, Buy), QtyOf(t, s.id, Sell));
    assert Find(t, b.id).Some? && m <= Find(t, b.id).value.buyerQty;
    assert Find(t, s.id).Some? && m <= Find(t, s.id).value.sellerQty;
    var t2 := Debit(Debit(t, b.id, Buy, m), s.id, Sell, m);
    StepOutstandingBuy(t, b, s, m);
    StepOutstandingSell(t, b, s, m);
    OutstandingLive(t2, Buy);
    OutstandingLive(t2, Sell);
    VolumeAppend(book.ledger, Trade(s.sellerPrice, m));
    if NonNegative(t) {
      StepNonNegative(t, b, s, m);
    }
  }

  /** The two sides' open quantity and the traded volume move together. */
  ghost predicate Conserved(before: Book, after: Book) {
    && Outstanding(before.pending, Buy) - Outstanding(after.pending, Buy) == Volume(after.ledger) - Volume(before.ledger)
    && Outstanding(before.pending, Sell) - Outstanding(after.pending, Sell) == Volume(after.ledger) - Volume(before.ledger)
    && (NonNegative(before.pending) ==> NonNegative(after.pending))
  }

  lemma {:induction false} RemainingSellerPass(b: Row, sellers: seq<Row>, book: Book)
    requires IdOrdered(book.pending)
    ensures Conserved(book, SellerPass(RemainingQty, b, sellers, book))
    decreases |sellers|
  {
    if sellers != [] {
      var s := sellers[0];
      var r := SellerPass(RemainingQty, b, sellers, book);
      var m := MatchQty(RemainingQty, book.pending, b, s);
      if Crosses(b, s) && m > 0 {
        var next := Step(book, b, s, m);
        RemainingStep(book, b, s);
        if !BuyerExhausted(RemainingQty, next.pending, b) {
          assert r == SellerPass(RemainingQty, b, sellers[1..], next);
          RemainingSellerPass(b, sellers[1..], next);
        }
      } else {
        assert r == SellerPass(RemainingQty, b, sellers[1..], book);
        RemainingSellerPass(b, sellers[1..], book);
      }
    }
  }

  lemma {:induction false} RemainingBuyerPass(buyers: seq<Row>, sellers: seq<Row>, book: Book)
    requires IdOrdered(book.pending)
    ensures Conserved(book, BuyerPass(RemainingQty, buyers, sellers, book))
    decreases |buyers|
  {
    if buyers != [] {
      var mid := SellerPass(RemainingQty, buyers[0], sellers, book);
      assert BuyerPass(RemainingQty, buyers, sellers, book) == BuyerPass(RemainingQty, buyers[1..], sellers, mid);
      RemainingSellerPass(buyers[0], sellers, book);
      RemainingBuyerPass(buyers[1..], sellers, mid);
    }
  }

  /** Corrected sweep: the quantity taken off the buy side, the quantity
      taken off the sell side and the quantity traded are equal, and a table
      without negative quantities keeps none. */
  lemma {:induction false} RemainingConserves(book: Book)
    requires IdOrdered(book.pending)
    ensures Conserved(book, Sweep(RemainingQty, book))
  {
    RemainingBuyerPass(Buyers(book.pending), Sellers(book.pending), book);
  }
}
