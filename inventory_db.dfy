/**
 * `InventoryDatabase` and `MockDatabase` (src/backend/db/models.py), over the in-memory
 * collections. The products collection holds one document per product name with a
 * "quantity" field; the sales collection holds one document per sale. `View` reads
 * both as a `LedgerSpec.Ledger`, and every operation is proved to act on that view as
 * the corresponding `LedgerSpec` function says.
 */
module InventoryDb {
  import opened Wrappers
  import opened Collection
  import opened LedgerSpec

  /** No two documents share a name. */
  predicate UniqueNames(docs: seq<Doc>) {
    forall i, j :: 0 <= i < j < |docs| ==> docs[i].name != docs[j].name
  }

  /** Every document has a "quantity" field (`item["quantity"]` does not raise). */
  predicate HasQuantity(docs: seq<Doc>) {
    forall i :: 0 <= i < |docs| ==> "quantity" in docs[i].fields
  }

  /** The products collection as a map from name to quantity. */
  function StockOf(docs: seq<Doc>): map<string, int>
    requires HasQuantity(docs)
  {
    if docs == [] then map[]
    else
      var last := docs[|docs| - 1];
      StockOf(docs[..|docs| - 1])[last.name := last.fields["quantity"]]
  }

  /** The sales collection as the log of sales, in insertion order. */
  function SalesOf(docs: seq<Doc>): seq<Sale>
    requires HasQuantity(docs)
  {
    if docs == [] then []
    else
      var last := docs[|docs| - 1];
      SalesOf(docs[..|docs| - 1]) + [Sale(last.name, last.fields["quantity"])]
  }

  /** A name has a stock entry exactly when some document carries it. */
  lemma {:induction false} StockOfDomain(docs: seq<Doc>, n: string)
    requires HasQuantity(docs)
    ensures n in StockOf(docs) <==> exists i :: 0 <= i < |docs| && docs[i].name == n
  {
    if docs != [] {
      var init := docs[..|docs| - 1];
      StockOfDomain(init, n);
      if n in StockOf(init) {
        var i :| 0 <= i < |init| && init[i].name == n;
        assert docs[i].name == n;
      }
      if exists i :: 0 <= i < |docs| && docs[i].name == n {
        var i :| 0 <= i < |docs| && docs[i].name == n;
        if i < |init| {
          assert init[i].name == n;
        }
      }
    }
  }

  /** With unique names, the stock entry of a document's name is that document's quantity. */
  lemma {:induction false} StockOfValue(docs: seq<Doc>, i: int)
    requires HasQuantity(docs) && UniqueNames(docs) && 0 <= i < |docs|
    ensures docs[i].name in StockOf(docs)
    ensures StockOf(docs)[docs[i].name] == docs[i].fields["quantity"]
  {
    if i < |docs| - 1 {
      var init := docs[..|docs| - 1];
      assert init[i] == docs[i];
      StockOfValue(init, i);
    }
  }

  /** Replacing a document by one of the same name changes only that name's stock entry. */
  lemma {:induction false} StockOfUpdate(docs: seq<Doc>, i: int, d: Doc)
    requires HasQuantity(docs) && UniqueNames(docs) && 0 <= i < |docs|
    requires d.name == docs[i].name && "quantity" in d.fields
    ensures HasQuantity(docs[i := d]) && UniqueNames(docs[i := d])
    ensures StockOf(docs[i := d]) == StockOf(docs)[d.name := d.fields["quantity"]]
  {
    UpdateKeepsShape(docs, i, d);
    var docs' := docs[i := d];
    var init := docs[..|docs| - 1];
    var v := d.fields["quantity"];
    if i == |docs| - 1 {
      assert docs'[..|docs'| - 1] == init;
      assert StockOf(docs') == StockOf(init)[d.name := v];
    } else {
      var last := docs[|docs| - 1];
      assert docs'[..|docs'| - 1] == init[i := d];
      assert docs'[|docs'| - 1] == last;
      StockOfUpdate(init, i, d);
      assert StockOf(docs') == StockOf(init)[d.name := v][last.name := last.fields["quantity"]];
      assert last.name != d.name;
      UpdatesCommute(StockOf(init), d.name, v, last.name, last.fields["quantity"]);
    }
  }

  /** Replacing a document by one of the same name with a quantity keeps names unique and quantities present. */
  lemma UpdateKeepsShape(docs: seq<Doc>, i: int, d: Doc)
    requires HasQuantity(docs) && UniqueNames(docs) && 0 <= i < |docs|
    requires d.name == docs[i].name && "quantity" in d.fields
    ensures HasQuantity(docs[i := d]) && UniqueNames(docs[i := d])
  {
  }

  /** Setting two different keys in either order gives the same map. */
  lemma UpdatesCommute(m: map<string, int>, a: string, va: int, b: string, vb: int)
    requires a != b
    ensures m[a := va][b := vb] == m[b := vb][a := va]
  {
  }

  /** Removing a document keeps every other document, so names stay unique and quantities present. */
  lemma RemoveKeepsShape(docs: seq<Doc>, i: int)
    requires HasQuantity(docs) && UniqueNames(docs) && 0 <= i < |docs|
    ensures HasQuantity(docs[..i] + docs[i + 1..]) && UniqueNames(docs[..i] + docs[i + 1..])
  {
    var rest := docs[..i] + docs[i + 1..];
    assert forall j :: 0 <= j < |rest| ==> rest[j] == (if j < i then docs[j] else docs[j + 1]);
  }

  /** Removing one key and then setting another is setting and then removing. */
  lemma RemoveThenUpdate(m: map<string, int>, n: string, k: string, v: int)
    requires k != n
    ensures (m - {n})[k := v] == m[k := v] - {n}
  {
  }

  /** Removing a document removes its name's stock entry and nothing else. */
  lemma {:induction false} StockOfRemove(docs: seq<Doc>, i: int)
    requires HasQuantity(docs) && UniqueNames(docs) && 0 <= i < |docs|
    ensures HasQuantity(docs[..i] + docs[i + 1..]) && UniqueNames(docs[..i] + docs[i + 1..])
    ensures StockOf(docs[..i] + docs[i + 1..]) == StockOf(docs) - {docs[i].name}
  {
    RemoveKeepsShape(docs, i);
    var rest := docs[..i] + docs[i + 1..];
    var init := docs[..|docs| - 1];
    var n := docs[i].name;
    if i == |docs| - 1 {
      assert rest == init;
      StockOfDomain(init, n);
    } else {
      var last := docs[|docs| - 1];
      var initRest := init[..i] + init[i + 1..];
      assert rest[..|rest| - 1] == initRest;
      assert rest[|rest| - 1] == last;
      StockOfRemove(init, i);
      assert StockOf(rest) == (StockOf(init) - {n})[last.name := last.fields["quantity"]];
      assert last.name != n;
      RemoveThenUpdate(StockOf(init), n, last.name, last.fields["quantity"]);
    }
  }

  class InventoryDatabase {
    const products: InMemoryCollection
    const sales: InMemoryCollection

    ghost predicate Valid()
      reads this, products, sales
    {
      && products != sales
      && products.Valid() && sales.Valid()
      && UniqueNames(products.docs)
      && HasQuantity(products.docs) && HasQuantity(sales.docs)
    }

    /** The stock and the sales log the two collections hold. */
    function View(): Ledger
      reads this, products, sales
      requires Valid()
    {
      Ledger(StockOf(products.docs), SalesOf(sales.docs))
    }

    /** The in-memory branch of `__init__`: two fresh, empty collections. */
    constructor()
      ensures Valid() && View() == Ledger(map[], [])
      ensures fresh(products) && fresh(sales)
    {
      products := new InMemoryCollection();
      sales := new InMemoryCollection();
    }

    /** `products.find_one({"name": name})`, read as the quantity of the record found. */
    method Lookup(name: string) returns (available: Option<int>)
      requires Valid()
      ensures available.None? <==> name !in View().stock
      ensures available.Some? ==> View().stock[name] == available.value
    {
      var item := products.FindOne(Some(name));
      StockOfDomain(products.docs, name);
      if item.None? {
        return None;
      }
      StockOfValue(products.docs, FirstIndex(products.docs, name).value);
      return Some(item.value.fields["quantity"]);
    }

    /** `products.update_one({"name": name}, {"$inc": {"quantity": delta}})` on a present record. */
    method Increment(name: string, delta: int)
      requires Valid() && name in View().stock
      modifies products
      ensures Valid()
      ensures View() == old(View()).(stock := old(View()).stock[name := old(View()).stock[name] + delta])
    {
      ghost var before := products.docs;
      StockOfDomain(before, name);
      var i := FirstIndex(before, name).value;
      StockOfValue(before, i);
      var _ := products.UpdateOne(Some(name), Some(map["quantity" := delta]));
      ghost var d := products.docs[i];
      assert products.docs == before[i := d];
      assert d.name == name && d.fields["quantity"] == before[i].fields["quantity"] + delta;
      StockOfUpdate(before, i, d);
    }

    /** `products.insert_one({"name": name, "quantity": q, ...})` for a name not yet present. */
    method Insert(name: string, q: int)
      requires Valid() && name !in View().stock
      modifies products
      ensures Valid()
      ensures View() == old(View()).(stock := old(View()).stock[name := q])
    {
      ghost var before := products.docs;
      StockOfDomain(before, name);
      var _ := products.InsertOne(name, map["quantity" := q]);
      assert products.docs[..|before|] == before;
    }

    /** `products.delete_one({"name": name})` on a present record, with the corrected collection. */
    method Remove(name: string)
      requires Valid() && name in View().stock
      modifies products
      ensures Valid()
      ensures View() == old(View()).(stock := old(View()).stock - {name})
    {
      ghost var before := products.docs;
      StockOfDomain(before, name);
      var i := FirstIndex(before, name).value;
      var _ := products.DeleteOne(Some(name));
      assert products.docs == before[..i] + before[i + 1..];
      StockOfRemove(before, i);
    }

    /** `add_product(name, quantity)`. */
    method AddProduct(name: string, q: int) returns (r: Outcome)
      requires Valid()
      modifies products
      ensures Valid()
      ensures (View(), r) == Add(old(View()), name, q)
    {
      var existing := Lookup(name);
      if existing.Some? {
        Increment(name, q);
        r := Success(Updated, name, q);
      } else {
        Insert(name, q);
        r := Success(Added, name, q);
      }
    }

    /** `sell_product(name, quantity)`. */
    method SellProduct(name: string, q: int) returns (r: Outcome)
      requires Valid()
      modifies products, sales
      ensures Valid()
      ensures (View(), r) == Sell(old(View()), name, q)
    {
      ghost var v0 := View();
      var item := Lookup(name);
      if item.None? {
        return Failure(ProductNotFound);
      }
      if item.value < q {
        return Failure(InsufficientStock(item.value));
      }
      ghost var stock := v0.stock[name := v0.stock[name] - q];
      Increment(name, -q);
      assert View() == Ledger(stock, v0.sales);
      LogSale(name, q);
      assert View() == Ledger(stock, v0.sales + [Sale(name, q)]);
      r := Success(Sold, name, q);
    }

    /** `sales.insert_one({"name": name, "quantity": q, "timestamp": ...})`; the timestamp is not modelled. */
    method LogSale(name: string, q: int)
      requires Valid()
      modifies sales
      ensures Valid()
      ensures View() == old(View()).(sales := old(View()).sales + [Sale(name, q)])
    {
      ghost var before := sales.docs;
      var _ := sales.InsertOne(name, map["quantity" := q]);
      assert sales.docs[..|before|] == before;
    }

    /**
     * `delete_product(name, quantity)` with a `delete_one` on the collection: the
     * record whose quantity reaches 0 is removed.
     */
    method DeleteProduct(name: string, q: int) returns (r: Outcome)
      requires Valid()
      modifies products
      ensures Valid()
      ensures (View(), r) == Delete(old(View()), name, q)
    {
      ghost var v0 := View();
      var item := Lookup(name);
      if item.None? {
        return Failure(ProductNotFound);
      }
      if item.value < q {
        return Failure(InsufficientQuantity(item.value));
      }
      ghost var stock := v0.stock[name := v0.stock[name] - q];
      Increment(name, -q);
      assert View() == v0.(stock := stock);
      var updated := Lookup(name);
      assert updated == Some(v0.stock[name] - q);
      if updated.value == 0 {
        Remove(name);
        assert View().stock == v0.stock - {name};
      }
      r := Success(Deleted, name, q);
    }

    /**
     * `delete_product(name, quantity)` as written against the in-memory collection,
     * which has no `delete_one`: once the quantity reaches 0 the call raises and the
     * handler returns a failure, with the zeroed record left in place.
     */
    method DeleteProductAsWritten(name: string, q: int) returns (r: Outcome)
      requires Valid()
      modifies products
      ensures Valid()
      ensures (View(), r) == DeleteAsWritten(old(View()), name, q)
    {
      var item := Lookup(name);
      if item.None? {
        return Failure(ProductNotFound);
      }
      if item.value < q {
        return Failure(InsufficientQuantity(item.value));
      }
      Increment(name, -q);
      var updated := Lookup(name);
      if updated.Some? && updated.value == 0 {
        return Failure(MissingDeleteOne);
      }
      r := Success(Deleted, name, q);
    }
  }

  /** `MockDatabase`: every ledger request fails with the connection message. */
  function MockStep(op: Op): (r: Outcome)
    ensures r == Failure(ConnectionFailed)
    ensures ErrorMessage(r.error) == "Database connection failed. Please check your MongoDB configuration."
  {
    Failure(ConnectionFailed)
  }

  /** `MockDatabase.get_inventory()`: a failure with the same message and an empty list of product documents. */
  function MockInventory(): (r: (Outcome, seq<Doc>))
    ensures r.0 == Failure(ConnectionFailed) && r.1 == []
  {
    (Failure(ConnectionFailed), [])
  }
}
