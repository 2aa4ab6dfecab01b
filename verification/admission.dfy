/**
 The create-order handler: two admission checks on the request, then an
 INSERT of the new row under a fresh id, then one matchOrders call. The
 handler answers "created" once the INSERT has succeeded, whatever the
 matching run then does, because matchOrders reports its own failures in
 its return value instead of throwing.
 */
module Admission {
  import opened Orders
  import opened Matching
  import opened Transaction

  /** The four numbers of a create-order request body. */
  datatype OrderRequest = OrderRequest(buyerQty: int, buyerPrice: int, sellerQty: int, sellerPrice: int)

  datatype Rejection = QtyRequired | PriceRequired

  datatype CreateReply = Created | BadRequest(why: Rejection) | InternalError

  /** The admission checks, quantity first: a request is refused when both
      quantities or both prices are not positive. */
  function Validate(o: OrderRequest): (r: Option<Rejection>)
    ensures r.None? <==> (o.buyerQty > 0 || o.sellerQty > 0) && (o.buyerPrice > 0 || o.sellerPrice > 0)
    ensures r == Some(QtyRequired) <==> o.buyerQty <= 0 && o.sellerQty <= 0
  {
    if o.buyerQty <= 0 && o.sellerQty <= 0 then Some(QtyRequired)
    else if o.buyerPrice <= 0 && o.sellerPrice <= 0 then Some(PriceRequired)
    else None
  }

  /** The id the table gives a new row: one more than the largest id present,
      and 1 for an empty table. */
  function NextId(t: seq<Row>): (r: int)
    ensures r >= 1
    ensures forall x :: x in t ==> x.id < r
  {
    if t == [] then 1
    else
      var rest := NextId(t[1..]);
      assert forall x :: x in t[1..] ==> x.id < rest;
      if t[0].id + 1 > rest then t[0].id + 1 else rest
  }

  function RowOf(id: int, o: OrderRequest): Row {
    Row(id, o.buyerQty, o.buyerPrice, o.sellerQty, o.sellerPrice)
  }

  /** The INSERT: the new row goes at the end, under an id larger than every
      id already there, and the existing rows are untouched. */
  function Insert(t: seq<Row>, o: OrderRequest): (r: seq<Row>)
    ensures |r| == |t| + 1 && r[..|t|] == t
    ensures r[|t|] == RowOf(r[|t|].id, o)
    ensures forall x :: x in t ==> x.id < r[|t|].id
    ensures IdOrdered(t) ==> IdOrdered(r)
  {
    t + [RowOf(NextId(t), o)]
  }

  /** Both tables right after the INSERT of an admitted request. */
  function Admitted(book: Book, o: OrderRequest): Book {
    Book(Insert(book.pending, o), book.ledger)
  }

  /** Statement positions after the INSERT, counted from the matching run. */
  function AfterInsert(failAt: Option<nat>): Option<nat>
    requires failAt != Some(0)
  {
    match failAt
    case None => None
    case Some(k) => Some(k - 1)
  }

  /** One create-order request: validation, INSERT (statement 0), then matching. */
  function CreateOrder(basis: QtyBasis, book: Book, o: OrderRequest, failAt: Option<nat>): (r: (Book, CreateReply))
    ensures r.1.BadRequest? <==> Validate(o).Some?
    ensures r.1.BadRequest? ==> r.0 == book && Validate(o) == Some(r.1.why)
    ensures r.1 == InternalError <==> Validate(o).None? && failAt == Some(0)
    ensures r.1 == InternalError ==> r.0 == book
    ensures r.1 == Created ==> r.0 == Admitted(book, o) || r.0 == Sweep(basis, Admitted(book, o))
    ensures Validate(o).None? && failAt.None? ==> r == (Sweep(basis, Admitted(book, o)), Created)
    ensures book.ledger <= r.0.ledger
    ensures Consistent(book) ==> Consistent(r.0)
  {
    match Validate(o)
    case Some(why) => (book, BadRequest(why))
    case None =>
      if failAt == Some(0) then (book, InternalError)
      else
        var inserted := Admitted(book, o);
        assert Active(inserted.pending[|book.pending|]);
        (MatchOrders(basis, inserted, AfterInsert(failAt)).0, Created)
  }

  /** An admitted order is visible to the matching run that follows its
      INSERT: it is in the snapshot, and among the buyers (sellers) exactly
      when its buy (sell) quantity is positive. */
  lemma {:induction false} AdmittedOrderIsMatched(t: seq<Row>, o: OrderRequest)
    requires Validate(o).None?
    ensures var row := Insert(t, o)[|t|];
            && row in Live(Insert(t, o))
            && (row in Buyers(Insert(t, o)) <==> o.buyerQty > 0)
            && (row in Sellers(Insert(t, o)) <==> o.sellerQty > 0)
  {
    var r := Insert(t, o);
    assert r[|t|] in r;
  }
}
