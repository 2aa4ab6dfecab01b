/**
 The two tables the matcher works on, modelled abstractly: the pending-order
 table (rows kept in ascending id order, each id once, as a primary key and
 `ORDER BY id` give them) and the append-only ledger of completed trades.
 The table operations here are the three SQL statements of a match step:
 the active-row selection, the per-id quantity UPDATE and the exhausted-row
 DELETE.
 */
module Orders {

  datatype Option<T> = None | Some(value: T)

  /** Which half of a row a quantity belongs to. */
  datatype Side = Buy | Sell

  function Other(side: Side): Side {
    if side == Buy then Sell else Buy
  }

  /** One row of the pending-order table. A row may carry both a buy and a sell side. */
  datatype Row = Row(id: int, buyerQty: int, buyerPrice: int, sellerQty: int, sellerPrice: int)
  {
    function Qty(side: Side): int {
      match side
      case Buy => buyerQty
      case Sell => sellerQty
    }

    /** The row after `SET <side>_qty = <side>_qty - m`. */
    function Debited(side: Side, m: int): (r: Row)
      ensures r.Qty(side) == Qty(side) - m
      ensures r.Qty(Other(side)) == Qty(Other(side))
      ensures r.id == id && r.buyerPrice == buyerPrice && r.sellerPrice == sellerPrice
    {
      match side
      case Buy => this.(buyerQty := buyerQty - m)
      case Sell => this.(sellerQty := sellerQty - m)
    }
  }

  /** One completed order: the execution price and the quantity traded. */
  datatype Trade = Trade(price: int, qty: int)

  /** Visible to matching; the complement is what the cleanup DELETE removes. */
  predicate Active(r: Row) {
    r.buyerQty > 0 || r.sellerQty > 0
  }

  predicate IsBuyer(r: Row) {
    r.buyerQty > 0
  }

  predicate IsSeller(r: Row) {
    r.sellerQty > 0
  }

  /** Ids strictly ascending: the table as read with `ORDER BY id`, each id once. */
  predicate IdOrdered(t: seq<Row>) {
    forall i, j :: 0 <= i < j < |t| ==> t[i].id < t[j].id
  }

  predicate AllActive(t: seq<Row>) {
    forall x :: x in t ==> Active(x)
  }

  /** The rows of `t` that satisfy `keep`, in their original order. */
  function Filter(t: seq<Row>, keep: Row -> bool): (r: seq<Row>)
    ensures forall x :: x in r <==> x in t && keep(x)
    ensures IdOrdered(t) ==> IdOrdered(r)
  {
    if t == [] then []
    else
      var rest := Filter(t[1..], keep);
      if keep(t[0]) then
        assert forall j :: 0 <= j < |rest| ==> rest[j] in t[1..];
        [t[0]] + rest
      else rest
  }

  /** The rows with a positive quantity on either side: both the matcher's
      snapshot and what survives the cleanup DELETE. */
  function Live(t: seq<Row>): (r: seq<Row>)
    ensures forall x :: x in r <==> x in t && Active(x)
    ensures AllActive(r)
    ensures IdOrdered(t) ==> IdOrdered(r)
  {
    Filter(t, Active)
  }

  /** The buyers of a run: rows of the snapshot with a positive buy quantity. */
  function Buyers(t: seq<Row>): (r: seq<Row>)
    ensures forall x :: x in r <==> x in t && Active(x) && x.buyerQty > 0
    ensures IdOrdered(t) ==> IdOrdered(r)
  {
    Filter(Live(t), IsBuyer)
  }

  /** The sellers of a run: rows of the snapshot with a positive sell quantity. */
  function Sellers(t: seq<Row>): (r: seq<Row>)
    ensures forall x :: x in r <==> x in t && Active(x) && x.sellerQty > 0
    ensures IdOrdered(t) ==> IdOrdered(r)
  {
    Filter(Live(t), IsSeller)
  }

  /** The row with the given id, if the table still holds one. */
  function Find(t: seq<Row>, id: int): (r: Option<Row>)
    ensures r.Some? ==> r.value in t && r.value.id == id
    ensures r.None? ==> forall x :: x in t ==> x.id != id
  {
    if t == [] then None
    else if t[0].id == id then Some(t[0])
    else Find(t[1..], id)
  }

  /** The current quantity on one side of a row; a deleted row holds nothing. */
  function QtyOf(t: seq<Row>, id: int, side: Side): int {
    match Find(t, id)
    case None => 0
    case Some(x) => x.Qty(side)
  }

  /** `UPDATE ... SET <side>_qty = <side>_qty - m WHERE id = ?`: a missing id changes nothing. */
  function Debit(t: seq<Row>, id: int, side: Side, m: int): (r: seq<Row>)
    ensures |r| == |t|
    ensures forall i :: 0 <= i < |t| ==> r[i] == if t[i].id == id then t[i].Debited(side, m) else t[i]
    ensures IdOrdered(t) ==> IdOrdered(r)
  {
    if t == [] then []
    else [if t[0].id == id then t[0].Debited(side, m) else t[0]] + Debit(t[1..], id, side, m)
  }

  lemma {:induction false} FindMember(t: seq<Row>, x: Row)
    requires IdOrdered(t)
    requires x in t
    ensures Find(t, x.id) == Some(x)
  {
    if t[0] != x {
      assert x in t[1..];
      FindMember(t[1..], x);
    }
  }

  /** Looking a row up after an UPDATE is the UPDATE applied to the looked-up row. */
  lemma {:induction false} FindDebit(t: seq<Row>, id: int, side: Side, m: int, k: int)
    ensures Find(Debit(t, id, side, m), k)
         == match Find(t, k)
            case None => None
            case Some(x) => Some(if k == id then x.Debited(side, m) else x)
  {
    if t != [] {
      assert Debit(t, id, side, m)[1..] == Debit(t[1..], id, side, m);
      FindDebit(t[1..], id, side, m, k);
    }
  }

  /** Looking a row up after a filter finds it iff it was there and kept. */
  lemma {:induction false} FindFilter(t: seq<Row>, keep: Row -> bool, k: int)
    requires IdOrdered(t)
    ensures Find(Filter(t, keep), k)
         == match Find(t, k)
            case None => None
            case Some(x) => if keep(x) then Some(x) else None
  {
    if t != [] {
      FindFilter(t[1..], keep, k);
      if t[0].id == k && !keep(t[0]) {
        assert forall x :: x in t[1..] ==> x.id != k;
      }
    }
  }

  /** Every quantity of `a` is at most the one of `b`; ids and prices agree. */
  predicate Below(a: Row, b: Row) {
    && a.id == b.id
    && a.buyerPrice == b.buyerPrice && a.sellerPrice == b.sellerPrice
    && a.buyerQty <= b.buyerQty && a.sellerQty <= b.sellerQty
  }

  /** `t1` can be reached from `t0` by quantity decrements and deletions only. */
  ghost predicate Shrinks(t0: seq<Row>, t1: seq<Row>) {
    forall id :: Find(t1, id).Some? ==> Find(t0, id).Some? && Below(Find(t1, id).value, Find(t0, id).value)
  }

  lemma {:induction false} ShrinksTrans(t0: seq<Row>, t1: seq<Row>, t2: seq<Row>)
    requires Shrinks(t0, t1) && Shrinks(t1, t2)
    ensures Shrinks(t0, t2)
  {
    forall id | Find(t2, id).Some?
      ensures Find(t0, id).Some? && Below(Find(t2, id).value, Find(t0, id).value)
    {
      assert Find(t1, id).Some?;
    }
  }

  /** A side is spent when its row is gone or its quantity is not positive. */
  predicate Spent(t: seq<Row>, id: int, side: Side) {
    QtyOf(t, id, side) <= 0
  }

  /** Once spent, a side stays spent under decrements and deletions. */
  lemma {:induction false} SpentStays(t0: seq<Row>, t1: seq<Row>, id: int, side: Side)
    requires Shrinks(t0, t1)
    requires Spent(t0, id, side)
    ensures Spent(t1, id, side)
  {
    if Find(t1, id).Some? {
      assert Below(Find(t1, id).value, Find(t0, id).value);
    }
  }
}
