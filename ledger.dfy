/**
 * The inventory ledger kept by `InventoryDatabase` (src/backend/db/models.py), stated
 * on values: the quantity in stock per product name and the log of sales, and what
 * `add_product`, `sell_product` and `delete_product` make of them. The class in
 * inventory_db.dfy is proved to follow these functions step by step.
 */
module LedgerSpec {
  import opened Text

  /** One record of the sales collection. */
  datatype Sale = Sale(name: string, quantity: int)

  /** The products collection seen as a map from name to quantity, and the sales in order. */
  datatype Ledger = Ledger(stock: map<string, int>, sales: seq<Sale>)

  /** The `action` field of a successful result. */
  datatype Action = Added | Updated | Sold | Deleted

  datatype Error =
    | ProductNotFound
    | InsufficientStock(available: int)     // sell_product
    | InsufficientQuantity(available: int)  // delete_product
    | MissingDeleteOne                      // the in-memory collection has no `delete_one`
    | ConnectionFailed                      // every operation of `MockDatabase`

  /** The result dictionary: `success`, and either `action`/`product`/`quantity` or `error`. */
  datatype Outcome = Success(action: Action, product: string, quantity: int) | Failure(error: Error)

  function ActionName(a: Action): string {
    match a
    case Added => "added"
    case Updated => "updated"
    case Sold => "sold"
    case Deleted => "deleted"
  }

  /** The `error` text of a failed result. */
  function ErrorMessage(e: Error): string {
    match e
    case ProductNotFound => "Product not found"
    case InsufficientStock(n) => "Insufficient stock. Available: " + IntToDecimal(n)
    case InsufficientQuantity(n) => "Insufficient quantity. Available: " + IntToDecimal(n)
    case MissingDeleteOne => "'InMemoryCollection' object has no attribute 'delete_one'"
    case ConnectionFailed => "Database connection failed. Please check your MongoDB configuration."
  }

  /** `add_product(name, q)`: raise the quantity of an existing record, or create the record. */
  function Add(l: Ledger, name: string, q: int): (Ledger, Outcome) {
    if name in l.stock then
      (Ledger(l.stock[name := l.stock[name] + q], l.sales), Success(Updated, name, q))
    else
      (Ledger(l.stock[name := q], l.sales), Success(Added, name, q))
  }

  /** `sell_product(name, q)`: check presence and stock, decrement, log one sale. */
  function Sell(l: Ledger, name: string, q: int): (Ledger, Outcome) {
    if name !in l.stock then (l, Failure(ProductNotFound))
    else if l.stock[name] < q then (l, Failure(InsufficientStock(l.stock[name])))
    else (Ledger(l.stock[name := l.stock[name] - q], l.sales + [Sale(name, q)]), Success(Sold, name, q))
  }

  /**
   * `delete_product(name, q)` with a collection that has `delete_one`: check presence
   * and quantity, decrement, and remove the record once its quantity is exactly 0.
   */
  function Delete(l: Ledger, name: string, q: int): (Ledger, Outcome) {
    if name !in l.stock then (l, Failure(ProductNotFound))
    else if l.stock[name] < q then (l, Failure(InsufficientQuantity(l.stock[name])))
    else if l.stock[name] - q == 0 then (Ledger(l.stock - {name}, l.sales), Success(Deleted, name, q))
    else (Ledger(l.stock[name := l.stock[name] - q], l.sales), Success(Deleted, name, q))
  }

  /**
   * `delete_product(name, q)` as written against the in-memory collection: when the
   * quantity reaches 0 the call to the missing `delete_one` raises, and the handler
   * reports a failure although the quantity has already been set to 0.
   */
  function DeleteAsWritten(l: Ledger, name: string, q: int): (Ledger, Outcome) {
    if name !in l.stock then (l, Failure(ProductNotFound))
    else if l.stock[name] < q then (l, Failure(InsufficientQuantity(l.stock[name])))
    else if l.stock[name] - q == 0 then (Ledger(l.stock[name := 0], l.sales), Failure(MissingDeleteOne))
    else (Ledger(l.stock[name := l.stock[name] - q], l.sales), Success(Deleted, name, q))
  }

  /** A request to the ledger, as the routes issue them. */
  datatype Op = AddOp(name: string, q: int) | SellOp(name: string, q: int) | DeleteOp(name: string, q: int)

  function Step(l: Ledger, op: Op): (Ledger, Outcome) {
    match op
    case AddOp(n, q) => Add(l, n, q)
    case SellOp(n, q) => Sell(l, n, q)
    case DeleteOp(n, q) => Delete(l, n, q)
  }

  /** The ledger after a sequence of requests, one after the other. */
  function Run(l: Ledger, ops: seq<Op>): Ledger
    decreases |ops|
  {
    if ops == [] then l else Run(Step(l, ops[0]).0, ops[1..])
  }

  /** The quantity of `name`, 0 when there is no record. */
  function Level(l: Ledger, name: string): int {
    if name in l.stock then l.stock[name] else 0
  }

  /** The total quantity sold of `name` according to a sales log. */
  function SoldOf(sales: seq<Sale>, name: string): int {
    if sales == [] then 0
    else
      var last := sales[|sales| - 1];
      SoldOf(sales[..|sales| - 1], name) + (if last.name == name then last.quantity else 0)
  }

  predicate NonNegative(l: Ledger) {
    forall n :: n in l.stock ==> l.stock[n] >= 0
  }

  predicate NoNegativeAdds(ops: seq<Op>) {
    forall i :: 0 <= i < |ops| ==> (ops[i].AddOp? ==> ops[i].q >= 0)
  }

  // ---------------------------------------------------------------------------
  // One request at a time.

  /** A request that fails leaves the stock and the sales log as they were. */
  lemma FailureChangesNothing(l: Ledger, op: Op)
    requires Step(l, op).1.Failure?
    ensures Step(l, op).0 == l
    ensures op.AddOp? == false
    ensures Step(l, op).1.error == ProductNotFound <==> op.name !in l.stock
  {
  }

  /** A request that succeeds reports the product and the quantity it was given. */
  lemma SuccessEchoesRequest(l: Ledger, op: Op)
    requires Step(l, op).1.Success?
    ensures Step(l, op).1.product == op.name && Step(l, op).1.quantity == op.q
  {
  }

  /**
   * A successful request echoes its name and quantity, touches only that name's
   * record, and appends to the sales log exactly when it is a sale.
   */
  lemma SuccessTouchesOneRecord(l: Ledger, op: Op)
    requires Step(l, op).1.Success?
    ensures var (l', r) := Step(l, op);
      && r.product == op.name && r.quantity == op.q
      && (forall m :: m != op.name ==> (m in l'.stock <==> m in l.stock))
      && (forall m :: m != op.name && m in l.stock ==> l'.stock[m] == l.stock[m])
      && (op.SellOp? ==> l'.sales == l.sales + [Sale(op.name, op.q)])
      && (!op.SellOp? ==> l'.sales == l.sales)
  {
  }

  /** Sell and delete succeed exactly when the record exists and holds at least `q`. */
  lemma WithdrawalSucceeds(l: Ledger, op: Op)
    requires !op.AddOp?
    ensures Step(l, op).1.Success? <==> op.name in l.stock && l.stock[op.name] >= op.q
    ensures Step(l, op).1.Success? ==> Level(Step(l, op).0, op.name) == Level(l, op.name) - op.q
  {
  }

  /** Two additions of one name make one record holding their sum, the second "updated". */
  lemma AddTwiceMerges(l: Ledger, name: string, a: int, b: int)
    ensures Add(Add(l, name, a).0, name, b).0 == Add(l, name, a + b).0
    ensures Add(Add(l, name, a).0, name, b).1 == Success(Updated, name, b)
  {
  }

  /** Selling what was just added succeeds and restores the stock, with one sale logged. */
  lemma SellUndoesAdd(l: Ledger, name: string, q: int)
    requires name in l.stock ==> l.stock[name] >= 0
    ensures var l' := Add(l, name, q).0;
      && Sell(l', name, q).1 == Success(Sold, name, q)
      && Sell(l', name, q).0.stock == l.stock[name := Level(l, name)]
      && Sell(l', name, q).0.sales == l.sales + [Sale(name, q)]
  {
  }

  /** Deleting the whole stock of a product removes its record and nothing else. */
  lemma DeleteAllRemoves(l: Ledger, name: string)
    requires name in l.stock
    ensures Delete(l, name, l.stock[name]).0 == Ledger(l.stock - {name}, l.sales)
    ensures Delete(l, name, l.stock[name]).1 == Success(Deleted, name, l.stock[name])
  {
  }

  /** Sales and deletions never drive a quantity below zero, whatever `q` is. */
  lemma WithdrawalKeepsNonNegative(l: Ledger, op: Op)
    requires NonNegative(l) && !op.AddOp?
    ensures NonNegative(Step(l, op).0)
  {
  }

  /**
   * A sale moves quantity from the stock into the sales log: for every name, the
   * quantity in stock plus the quantity sold is the same before and after.
   */
  lemma SellConserves(l: Ledger, name: string, q: int, m: string)
    ensures var l' := Sell(l, name, q).0;
      Level(l', m) + SoldOf(l'.sales, m) == Level(l, m) + SoldOf(l.sales, m)
  {
    var l' := Sell(l, name, q).0;
    if Sell(l, name, q).1.Success? {
      assert l'.sales[..|l'.sales| - 1] == l.sales;
    }
  }

  // ---------------------------------------------------------------------------
  // Sequences of requests.

  /** With no negative addition, quantities stay non-negative over any sequence of requests. */
  lemma {:induction false} RunKeepsNonNegative(l: Ledger, ops: seq<Op>)
    requires NonNegative(l) && NoNegativeAdds(ops)
    ensures NonNegative(Run(l, ops))
    decreases |ops|
  {
    if ops != [] {
      var l' := Step(l, ops[0]).0;
      if ops[0].AddOp? {
        assert ops[0].q >= 0;
      } else {
        WithdrawalKeepsNonNegative(l, ops[0]);
      }
      assert NoNegativeAdds(ops[1..]) by {
        forall i | 0 <= i < |ops[1..]| ensures ops[1..][i].AddOp? ==> ops[1..][i].q >= 0 {
          assert ops[1..][i] == ops[i + 1];
        }
      }
      RunKeepsNonNegative(l', ops[1..]);
    }
  }

  /** Running one more request after a sequence is stepping from the sequence's ledger. */
  lemma {:induction false} RunAppend(l: Ledger, ops: seq<Op>, op: Op)
    ensures Run(l, ops + [op]) == Step(Run(l, ops), op).0
    decreases |ops|
  {
    if ops == [] {
      assert ops + [op] == [op];
      assert Run(Step(l, op).0, []) == Step(l, op).0;
    } else {
      assert (ops + [op])[1..] == ops[1..] + [op];
      RunAppend(Step(l, ops[0]).0, ops[1..], op);
    }
  }

  /** The sales log is append-only: requests only ever add sales at its end, at most one each. */
  lemma {:induction false} RunSalesAppendOnly(l: Ledger, ops: seq<Op>)
    ensures |l.sales| <= |Run(l, ops).sales| <= |l.sales| + |ops|
    ensures Run(l, ops).sales[..|l.sales|] == l.sales
    decreases |ops|
  {
    if ops != [] {
      var l' := Step(l, ops[0]).0;
      assert l'.sales[..|l.sales|] == l.sales;
      RunSalesAppendOnly(l', ops[1..]);
      assert Run(l, ops) == Run(l', ops[1..]);
      assert Run(l, ops).sales[..|l.sales|] == Run(l, ops).sales[..|l'.sales|][..|l.sales|];
    }
  }

  /** Over a sequence of sales only, stock plus quantity sold is conserved for every name. */
  lemma {:induction false} RunOfSalesConserves(l: Ledger, ops: seq<Op>, m: string)
    requires forall i :: 0 <= i < |ops| ==> ops[i].SellOp?
    ensures Level(Run(l, ops), m) + SoldOf(Run(l, ops).sales, m) == Level(l, m) + SoldOf(l.sales, m)
    decreases |ops|
  {
    if ops != [] {
      SellConserves(l, ops[0].name, ops[0].q, m);
      RunOfSalesConserves(Step(l, ops[0]).0, ops[1..], m);
    }
  }

  // ---------------------------------------------------------------------------
  // Deletion as written against the in-memory collection.

  /** The as-written deletion differs from the corrected one only when the stock reaches 0. */
  lemma DeleteAsWrittenAgrees(l: Ledger, name: string, q: int)
    requires !(name in l.stock && l.stock[name] == q)
    ensures DeleteAsWritten(l, name, q) == Delete(l, name, q)
  {
  }

  /**
   * Deleting the whole stock as written reports a failure, yet the record stays with
   * quantity 0; the corrected deletion succeeds and removes the record.
   */
  lemma DeleteAsWrittenLeavesZeroRecord(l: Ledger, name: string)
    requires name in l.stock
    ensures DeleteAsWritten(l, name, l.stock[name]).1 == Failure(MissingDeleteOne)
    ensures DeleteAsWritten(l, name, l.stock[name]).0.stock[name] == 0
    ensures Delete(l, name, l.stock[name]).1.Success?
    ensures name !in Delete(l, name, l.stock[name]).0.stock
  {
  }
}
