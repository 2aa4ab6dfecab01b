# Order matching: a Dafny model

This project models the matching core of a small Express/SQLite order book. The matcher works on two tables:

- a pending-order table, where one row may carry a bid (`buyer_qty` at `buyer_price`), an offer (`seller_qty` at `seller_price`), or both;
- a completed-order ledger of `(price, qty)` trades.

`matchOrders` does three things:

- It opens a transaction and reads the active rows in id order. These are the rows with a positive quantity on either side.
- It splits them into buyers and sellers. Then, for every buyer (outer loop) and every seller (inner loop) with `buyer_price >= seller_price`, it:
  - appends a trade at the seller's price;
  - debits both rows by id;
  - deletes every row with both quantities `<= 0`.
- It commits, or rolls back on the first failing statement, and reads both tables back for the reply.

The create-order handler validates the request, inserts the new row and runs the matcher once.

The model is functional:

- A table is a `seq<Row>` in ascending id order, and the ledger is a `seq<Trade>`.
- The nested loop is two recursive functions, `Matching.SellerPass` and `Matching.BuyerPass`.
- Which database statement fails, if any, is a parameter, `failAt`.

The sweep is parameterised by a `QtyBasis`:

- `SnapshotQty` is the sweep as written. The match quantity and the exhaustion test read the snapshot objects, which are never refreshed during the run.
- `RemainingQty` is a corrected variant that reads the quantities the rows hold at that point. It is not the program's behaviour. It exists so that the intended conservation property can be stated and proved next to the counterexamples for the code as written (see Findings).

Modules:

- `Orders`: rows, the active-row filter, lookup by id, the per-id UPDATE.
- `Matching`: one step, the two loops, the sweep, the exact trade list of the sweep as written.
- `Settlement`: every crossing pair is settled after a run; a second run is a no-op.
- `Progress`: a run trades if and only if some pair crosses.
- `Conservation`: quantity accounting for the corrected sweep.
- `Transaction`: the commit/rollback wrapper and the reply.
- `Admission`: request validation, INSERT, create-order.
- `Witnesses`: the counterexamples for the sweep as written.

## Model

| member | source | states |
|---|---|---|
| Orders.Live | index.js:85-86 | The snapshot holds exactly the rows with a positive buy or sell quantity, in the table's id order. The cleanup DELETE keeps exactly the same rows. |
| Orders.Buyers | index.js:89 | The buyers are exactly the snapshot rows with a positive buy quantity, still in ascending id order. |
| Orders.Sellers | index.js:90 | The sellers are exactly the snapshot rows with a positive sell quantity, still in ascending id order. |
| Orders.Debit | index.js:110-122 | An UPDATE by id subtracts the amount from the named side of the row with that id. Every other row and field is unchanged, and an id no longer present changes nothing. |
| Orders.FindDebit | index.js:110-122 | Looking a row up after an UPDATE gives the looked-up row with the UPDATE applied, and nothing for a deleted row. |
| Matching.Step | index.js:99-129 | A match appends one trade at the seller's price to the end of the ledger. It leaves no row with both quantities non-positive and keeps ids ordered. |
| Matching.StepEffect | index.js:109-129 | After a match, a row survives exactly when a side is still positive. The buyer loses the quantity on its buy side and the seller on its sell side. A deleted row stays deleted, and nothing else changes. |
| Matching.SellerPass | index.js:93-135 | The inner loop for one buyer only appends to the ledger. If it appends nothing, both tables are unchanged; if it trades, no exhausted row remains. Id order is kept. |
| Matching.BuyerPass | index.js:92-136 | The outer loop, each buyer running the inner loop on the state the previous buyers left, only appends to the ledger. If it appends nothing, both tables are unchanged; if it trades, no exhausted row remains. Id order is kept. |
| Matching.Sweep | index.js:84-136 | A run only appends to the ledger. If it appends nothing, both tables are unchanged; if it trades, no exhausted row remains. |
| Matching.SweepJustified | index.js:94-107 | Every trade a run appends has a positive quantity. It is priced at the sell price of a snapshot seller that some snapshot buyer crosses. |
| Matching.SnapshotTrades | index.js:89-132 | As written, a run appends exactly one trade per crossing (buyer, seller) pair of the snapshot. Trades come in buyer-major, seller-minor id order, each for the smaller snapshot quantity of the pair. So the exhaustion `break` never fires. |
| Settlement.StepSettles | index.js:94-129 | After a match, the pair it traded is settled under either quantity basis. The buyer's bid or the seller's offer is spent: zero, negative, or its row deleted. |
| Settlement.SweepSettles | index.js:92-136 | After a run, every pair that crossed in the snapshot has its bid or its offer spent. The table only lost quantity or rows. |
| Settlement.NoCrossingAfterSweep | index.js:92-136 | After a run, no buyer left in the table crosses any seller left in it. |
| Settlement.SweepIdempotent | index.js:85-136 | A second run with no insert in between changes neither table. |
| Progress.TradesIffCrossing | index.js:92-98 | A run appends a trade if and only if some snapshot buyer bids at least some snapshot seller's price. Without such a pair the run changes nothing. |
| Conservation.RemainingConserves | index.js:96-129 | For the corrected sweep, the quantity taken off the buy side, the quantity taken off the sell side and the traded volume are equal. A table without negative quantities keeps none. |
| Transaction.MatchOrders | index.js:70-158 | The tables after a call are either the old ones or the committed sweep. A call with no failure replies with the swept tables, and a reply that shows tables shows exactly the committed ones. Well-formed tables stay well formed. |
| Transaction.FailureRollsBack | index.js:71-80 | As written, the transaction sends 3 + 4n statements for n crossing pairs. A failure at any of them leaves both tables as before the call and yields a server error. |
| Transaction.CommitIsDurable | index.js:139-154 | A failure after the COMMIT keeps the sweep's effect. The reply shows the tables exactly when both read-back SELECTs succeed. |
| Transaction.SecondMatchIdle | index.js:82-154 | Calling matchOrders twice in a row: the second call succeeds, changes nothing and shows the tables the first one left. |
| Admission.Validate | index.js:37-46 | A request is refused exactly when both quantities or both prices are non-positive. The quantity check takes precedence. |
| Admission.NextId | index.js:48-58 | A new row's id is positive and larger than every id in the table. |
| Admission.Insert | index.js:48-58 | The INSERT appends one row carrying the request's four numbers under a fresh, larger id, and keeps every existing row and the id order. |
| Admission.CreateOrder | index.js:32-67 | A bad request is refused with its reason and changes nothing. A failing INSERT changes nothing and is an internal error. Otherwise the order is created even when matching fails afterwards, and the tables are the ones with the new row inserted, or their sweep; with no failure they are exactly that sweep. The ledger only grows and well-formed tables stay well formed. |
| Admission.AdmittedOrderIsMatched | index.js:48-61 | An admitted order is in the next run's snapshot. It is among the buyers (sellers) exactly when its buy (sell) quantity is positive. |
| Witnesses.SellerReused | index.js:92-136 | As written, a seller smaller than two crossing buyers trades its full quantity with each of them, and both buyers are decremented. |
| Witnesses.SellerOversold | index.js:96 | As written, a seller that the first buyer alone could absorb sells more than it offered, so quantity is not conserved. |
| Witnesses.BuyerOverfilled | index.js:96-132 | As written, a buyer that the first seller alone fills is not stopped by the exhaustion test and buys the second seller's quantity on top, so it buys more than it bid for and quantity is not conserved. |
| Witnesses.NegativeLeft | index.js:110-129 | As written, a row that bids and offers, sold to two larger crossing buyers, ends offering minus its original quantity. Its bid keeps it past the DELETE, so the table ends with a negative quantity. |
| Witnesses.PartialFill | index.js:92-136 | A buyer crossing a smaller offer buys all of it at the seller's price. The rest of its bid stays open and the seller row is deleted. |

## Left out

- HTTP: the Express routing, status codes and JSON shaping (index.js:1-29, 160-185) are left out. The replies are datatypes (`Transaction.Reply`, `Admission.CreateReply`), and error messages are not modelled.
- Get-orders: the get-orders endpoint (index.js:165-185) is a plain read of both tables and is not modelled.
- SQLite: the connection setup and the SQL text are modelled as operations on sequences.
- Concurrency: the shared connection has no lock, so overlapping calls can interleave. The model treats each call as one sequential step.
- JavaScript values: coercion is not modelled (a missing field compares false with `<= 0` and so passes validation). Quantities and prices are integers, not floats.
- Ids: the table schema is not part of the source. `Admission.NextId` assumes the default rowid rule, one more than the largest id present.
- Trade ids: the ledger's ids are positions in the sequence.
- Statement failures: a failing statement is chosen by the `failAt` parameter. A failing ROLLBACK is not modelled.
- Transaction.MatchOrders: the reply's pending table is the model's id-ordered sequence and its completed-order list is the ledger in append order. Neither read-back SELECT (index.js:140 and index.js:143) has an ORDER BY, so the row order of the actual reply is unspecified.
- Matching.Sweep: stated for both quantity bases. Only `SnapshotQty` is the program's behaviour; `RemainingQty` is the corrected variant and is not claimed for the source.

## Findings

A first-in-first-out matcher would fill a seller against the first buyer only. For buyers 10 at 100 (ids 1 and 2) and a seller 5 at 90 (id 3), buyer 1 would keep 5 and buyer 2 would stay untouched. The code does not do that: `Witnesses.SellerReused` shows that both buyers are decremented by 5 and two trades of 5 are written. The model follows the code.

| source | as written | input that shows it | evidently intended | confidence | as-written member | corrected member |
|---|---|---|---|---|---|---|
| index.js:96 | the match quantity is the minimum of the snapshot quantities, which are never updated, so a seller already sold out trades again with the next buyer | buyers 10 at 100 (ids 1, 2), seller 5 at 90 (id 3): two trades of 5, so 10 units sold against an offer of 5 | the minimum of what the two rows still hold | high, not executed | Witnesses.SellerOversold | Conservation.RemainingConserves |
| index.js:132 | the exhaustion `break` tests the snapshot `buyer.buyer_qty`, which is positive for every buyer, so it never fires and a filled buyer keeps buying | buyer 10 at 100 (id 1), sellers 12 and 8 at 90 (ids 2, 3): the first trade of 10 fills the buyer, the loop goes on, and a trade of 8 follows, so 18 units bought on a bid of 10 | stop the inner loop once the buyer row's remaining bid is spent | high, not executed | Witnesses.BuyerOverfilled | Conservation.RemainingConserves |
| index.js:117-129 | repeated sales of one offer drive the seller's quantity below zero, and a row that also bids survives the DELETE with the negative ask | buyers 10 at 100 (ids 1, 2), row bidding 3 at 1 and offering 5 at 90 (id 3): the row ends offering -5 | no quantity ever goes below zero | high, not executed | Witnesses.NegativeLeft | Conservation.RemainingConserves |
