/**
 * The request logic of the inventory routes (src/backend/inventory_routes.py) that
 * does not depend on Flask: the command route's checks and dispatch to the ledger, the
 * dashboard statistics, and how the delete route settles on the quantity to remove.
 * Every route works on a `LedgerSpec.Ledger`; the product list that `get_inventory`
 * returns is a parameter (`InventoryRead`), since the listing itself is not modelled.
 */
module InventoryRoutes {
  import opened Wrappers
  import opened Text
  import P = CommandParser
  import L = LedgerSpec

  /** One entry of the product list `get_inventory` returns. */
  datatype Product = Product(name: string, quantity: int)

  /** The result of `get_inventory`: its `success` flag and its `products`. */
  datatype InventoryRead = InventoryRead(success: bool, products: seq<Product>)

  // ---------------------------------------------------------------------------
  // POST /command

  /** The JSON reply of `process_command`. */
  datatype CommandReply =
    | Saved(text: string, action: string, product: string, quantity: int)  // 200, "Text saved successfully!"
    | CommandRefused(status: nat, message: string, examples: seq<string>)

  /** The ledger request the parsed command becomes. */
  function OpOf(c: P.Command): (op: L.Op)
    ensures op.name == c.product && op.q == c.quantity
    ensures op.AddOp? <==> c.action == P.Add
    ensures op.SellOp? <==> c.action == P.Sell
    ensures op.DeleteOp? <==> c.action == P.Delete
  {
    match c.action
    case Add => L.AddOp(c.product, c.quantity)
    case Sell => L.SellOp(c.product, c.quantity)
    case Delete => L.DeleteOp(c.product, c.quantity)
  }

  /**
   * `process_command`: `text` is the body's "text" field, `None` when the body or the
   * field is missing. The text is stripped, parsed and, when it parses, handed to the
   * ledger; a failed ledger request is a 500. The parser yields only the three actions,
   * so the "Unknown action" branch has no counterpart here.
   */
  function ProcessCommand(l: L.Ledger, text: Option<string>): (L.Ledger, CommandReply) {
    if text.None? then (l, CommandRefused(400, "No text provided in request", []))
    else
      var t := Strip(text.value);
      if t == [] then (l, CommandRefused(400, "Empty text provided", []))
      else match P.Parse(t)
        case Failed(e) => (l, CommandRefused(400, P.ErrorMessage(e), P.CommandExamples()))
        case Parsed(c) =>
          var (l', outcome) := L.Step(l, OpOf(c));
          match outcome
          case Success(a, product, q) => (l', Saved(t, L.ActionName(a), product, q))
          case Failure(e) => (l', CommandRefused(500, L.ErrorMessage(e), []))
  }

  /** A missing or blank text is refused with 400 before anything reaches the ledger. */
  lemma CommandNeedsText(l: L.Ledger, text: Option<string>)
    requires text.None? || forall i :: 0 <= i < |text.value| ==> IsSpace(text.value[i])
    ensures ProcessCommand(l, text).0 == l
    ensures ProcessCommand(l, text).1.CommandRefused? && ProcessCommand(l, text).1.status == 400
  {
  }

  /** Text that does not parse is refused with the parser's message and the six examples. */
  lemma CommandParseFailure(l: L.Ledger, text: string)
    requires Strip(text) != [] && P.Parse(Strip(text)).Failed?
    ensures ProcessCommand(l, Some(text)) ==
      (l, CommandRefused(400, P.ErrorMessage(P.Parse(Strip(text)).error), P.CommandExamples()))
  {
  }

  /**
   * A parsed command makes exactly one ledger request: the new ledger is the ledger
   * after that request, and the reply is 200 exactly when the request succeeds, echoing
   * the parsed product and its positive quantity; a refused request is a 500 that
   * leaves the ledger as it was.
   */
  lemma CommandRunsOneRequest(l: L.Ledger, text: string, c: P.Command)
    requires Strip(text) != [] && P.Parse(Strip(text)) == P.Parsed(c)
    ensures ProcessCommand(l, Some(text)).0 == L.Run(l, [OpOf(c)])
    ensures ProcessCommand(l, Some(text)).1.Saved? <==> L.Step(l, OpOf(c)).1.Success?
    ensures ProcessCommand(l, Some(text)).1.Saved? ==>
      ProcessCommand(l, Some(text)).1.quantity == c.quantity > 0
      && ProcessCommand(l, Some(text)).1.product == c.product
    ensures ProcessCommand(l, Some(text)).1.Saved? ==>
      ProcessCommand(l, Some(text)).1.action == L.ActionName(L.Step(l, OpOf(c)).1.action)
      && ProcessCommand(l, Some(text)).1.text == Strip(text)
    ensures ProcessCommand(l, Some(text)).1.CommandRefused? ==>
      ProcessCommand(l, Some(text)).1.status == 500 && ProcessCommand(l, Some(text)).0 == l
      && ProcessCommand(l, Some(text)).1.message == L.ErrorMessage(L.Step(l, OpOf(c)).1.error)
  {
    var t := Strip(text);
    var op := OpOf(c);
    var st := L.Step(l, op);
    ParsedQuantityPositive(t);
    assert L.Run(l, [op]) == st.0 by {
      assert [op][1..] == [];
    }
    match st.1
    case Failure(e) =>
      L.FailureChangesNothing(l, op);
      assert ProcessCommand(l, Some(text)) == (st.0, CommandRefused(500, L.ErrorMessage(e), []));
    case Success(a, product, q) =>
      L.SuccessEchoesRequest(l, op);
      assert ProcessCommand(l, Some(text)) == (st.0, Saved(t, L.ActionName(a), product, q));
  }

  lemma ParsedQuantityPositive(text: string)
    requires P.Parse(text).Parsed?
    ensures P.Parse(text).command.quantity > 0
  {
    P.ParsedIsMatch(text);
  }

  // ---------------------------------------------------------------------------
  // GET /stats

  /** A product counts as low on stock below this quantity. */
  const LowStockThreshold: int := 5

  datatype Stats = Stats(totalProducts: nat, totalQuantity: int, lowStockCount: nat, lowStockItems: seq<Product>)

  /** The reply of `get_inventory_stats`: the statistics, or the failed listing with status 500. */
  datatype StatsReply = StatsOk(stats: Stats) | StatsFailed(listing: InventoryRead)

  /** `sum(product["quantity"] for product in products)`. */
  function TotalQuantity(ps: seq<Product>): int {
    if ps == [] then 0 else TotalQuantity(ps[..|ps| - 1]) + ps[|ps| - 1].quantity
  }

  /** `[p for p in products if p["quantity"] < 5]`. */
  function LowStock(ps: seq<Product>): (r: seq<Product>)
    ensures |r| <= |ps|
    ensures forall i :: 0 <= i < |r| ==> r[i].quantity < LowStockThreshold && r[i] in ps
    ensures forall i :: 0 <= i < |ps| && ps[i].quantity < LowStockThreshold ==> ps[i] in r
  {
    if ps == [] then []
    else
      var init := LowStock(ps[..|ps| - 1]);
      var last := ps[|ps| - 1];
      assert forall i :: 0 <= i < |ps| - 1 ==> ps[i] == ps[..|ps| - 1][i];
      if last.quantity < LowStockThreshold then init + [last] else init
  }

  /** The statistics block of `get_inventory_stats`. */
  function InventoryStats(inv: InventoryRead): (r: StatsReply)
    ensures r.StatsOk? <==> inv.success
    ensures r.StatsFailed? ==> r.listing == inv
    ensures r.StatsOk? ==> r.stats.totalProducts == |inv.products|
    ensures r.StatsOk? ==> r.stats.lowStockCount == |r.stats.lowStockItems| <= r.stats.totalProducts
    ensures r.StatsOk? ==> r.stats.totalQuantity == TotalQuantity(inv.products)
    ensures r.StatsOk? ==> r.stats.lowStockItems == LowStock(inv.products)
  {
    if !inv.success then StatsFailed(inv)
    else
      var ps := inv.products;
      var low := LowStock(ps);
      StatsOk(Stats(|ps|, TotalQuantity(ps), |low|, low))
  }

  /** The total of a concatenation is the sum of the totals. */
  lemma {:induction false} TotalQuantityAppend(a: seq<Product>, b: seq<Product>)
    ensures TotalQuantity(a + b) == TotalQuantity(a) + TotalQuantity(b)
    decreases |b|
  {
    if b == [] {
      assert a + b == a;
    } else {
      assert (a + b)[..|a + b| - 1] == a + b[..|b| - 1];
      assert (a + b)[|a + b| - 1] == b[|b| - 1];
      TotalQuantityAppend(a, b[..|b| - 1]);
    }
  }

  /** The low-stock list keeps the listing's order: filtering distributes over concatenation. */
  lemma {:induction false} LowStockAppend(a: seq<Product>, b: seq<Product>)
    ensures LowStock(a + b) == LowStock(a) + LowStock(b)
    decreases |b|
  {
    if b == [] {
      assert a + b == a;
    } else {
      assert (a + b)[..|a + b| - 1] == a + b[..|b| - 1];
      LowStockAppend(a, b[..|b| - 1]);
    }
  }

  /** With no negative quantities the total is at least the quantity of every product. */
  lemma {:induction false} TotalQuantityBounds(ps: seq<Product>, k: int)
    requires forall i :: 0 <= i < |ps| ==> ps[i].quantity >= 0
    requires 0 <= k < |ps|
    ensures TotalQuantity(ps) >= ps[k].quantity >= 0
    decreases |ps|
  {
    var init := ps[..|ps| - 1];
    if k < |ps| - 1 {
      TotalQuantityBounds(init, k);
    } else {
      TotalQuantityNonNegative(init);
    }
  }

  lemma {:induction false} TotalQuantityNonNegative(ps: seq<Product>)
    requires forall i :: 0 <= i < |ps| ==> ps[i].quantity >= 0
    ensures TotalQuantity(ps) >= 0
    decreases |ps|
  {
    if ps != [] {
      TotalQuantityNonNegative(ps[..|ps| - 1]);
    }
  }

  // ---------------------------------------------------------------------------
  // DELETE /delete

  /** A JSON value, as `data.get("quantity", None)` can return it (`JNull` also stands for an absent key). */
  datatype Json = JNull | JBool(b: bool) | JInt(i: int) | JReal(r: real) | JString(s: string) | JOther

  /** Python's `int(x)` truncates a float toward zero. */
  function Truncate(r: real): (n: int)
    ensures r >= 0.0 ==> n as real <= r < n as real + 1.0
    ensures r < 0.0 ==> n as real - 1.0 < r <= n as real
  {
    if r >= 0.0 then r.Floor else -((-r).Floor)
  }

  /** Digits with single underscores between them, as `int()` accepts them. */
  predicate DigitGroups(s: string) {
    && s != [] && IsDigit(s[0]) && IsDigit(s[|s| - 1])
    && (forall i :: 0 <= i < |s| ==> IsDigit(s[i]) || s[i] == '_')
    && (forall i :: 0 <= i < |s| - 1 ==> !(s[i] == '_' && s[i + 1] == '_'))
  }

  /** The digits of `s` without its underscores. */
  function DropUnderscores(s: string): (r: string)
    ensures (forall i :: 0 <= i < |s| ==> IsDigit(s[i]) || s[i] == '_') ==> forall i :: 0 <= i < |r| ==> IsDigit(r[i])
    ensures (forall i :: 0 <= i < |s| ==> IsDigit(s[i])) ==> r == s
  {
    if s == [] then []
    else if s[0] == '_' then DropUnderscores(s[1..])
    else [s[0]] + DropUnderscores(s[1..])
  }

  /**
   * Only the underscores go: every other character is kept as often as it occurs, and
   * `DropUnderscoresAppend` says the order is kept.
   */
  lemma {:induction false} DropUnderscoresKeeps(s: string)
    ensures '_' !in DropUnderscores(s)
    ensures forall c :: c != '_' ==> multiset(DropUnderscores(s))[c] == multiset(s)[c]
    decreases |s|
  {
    if s != [] {
      DropUnderscoresKeeps(s[1..]);
      assert s == [s[0]] + s[1..];
    }
  }

  /** Removing underscores distributes over concatenation: the digits stay in their order. */
  lemma {:induction false} DropUnderscoresAppend(a: string, b: string)
    ensures DropUnderscores(a + b) == DropUnderscores(a) + DropUnderscores(b)
    decreases |a|
  {
    if a == [] {
      assert a + b == b;
    } else {
      assert (a + b)[0] == a[0] && (a + b)[1..] == a[1..] + b;
      DropUnderscoresAppend(a[1..], b);
    }
  }

  /** The magnitude of an unsigned literal; `int()` refuses more than `MaxStrDigits` digits. */
  function Magnitude(s: string): Option<nat> {
    if DigitGroups(s) && |DropUnderscores(s)| <= MaxStrDigits then Some(DecimalValue(DropUnderscores(s)))
    else None
  }

  /** `int(s)` for a string: surrounding whitespace, an optional sign, then ASCII digit groups. */
  function IntLiteral(s: string): Option<int> {
    var t := Strip(s);
    if t != [] && (t[0] == '-' || t[0] == '+') then
      match Magnitude(t[1..])
      case None => None
      case Some(n) =>
        var m: int := n;
        Some(if t[0] == '-' then -m else m)
    else
      match Magnitude(t)
      case None => None
      case Some(n) => Some(n)
  }

  /** `int(x)`: `None` where Python raises `ValueError` or `TypeError`. */
  function PyInt(v: Json): Option<int> {
    match v
    case JNull => None
    case JBool(b) => Some(if b then 1 else 0)
    case JInt(i) => Some(i)
    case JReal(r) => Some(Truncate(r))
    case JString(s) => IntLiteral(s)
    case JOther => None
  }

  /**
   * `int(str(n)) == n`: the literal reading inverts the decimal form, for every number
   * of at most `MaxStrDigits` digits; a longer decimal form is refused by `int()`
   * (and `str()` itself raises before writing it).
   */
  lemma IntLiteralRoundTrip(n: int)
    ensures DigitCount(n) <= MaxStrDigits ==> IntLiteral(IntToDecimal(n)) == Some(n)
    ensures DigitCount(n) > MaxStrDigits ==> IntLiteral(IntToDecimal(n)) == None
  {
    if n < 0 {
      NegativeLiteral(n);
    } else {
      UnsignedLiteral(n);
    }
  }

  lemma UnsignedLiteral(n: nat)
    ensures |NatToDecimal(n)| <= MaxStrDigits ==> IntLiteral(IntToDecimal(n)) == Some(n)
    ensures |NatToDecimal(n)| > MaxStrDigits ==> IntLiteral(IntToDecimal(n)) == None
  {
    var d := NatToDecimal(n);
    assert IntToDecimal(n) == d;
    StripOfTrimmed(d);
    assert Strip(d) == d;
    assert !(d[0] == '-' || d[0] == '+');
    MagnitudeOfDecimal(n);
  }

  lemma NegativeLiteral(n: int)
    requires n < 0
    ensures |NatToDecimal(-n)| <= MaxStrDigits ==> IntLiteral(IntToDecimal(n)) == Some(n)
    ensures |NatToDecimal(-n)| > MaxStrDigits ==> IntLiteral(IntToDecimal(n)) == None
  {
    var m: nat := -n;
    var d := NatToDecimal(m);
    var t := "-" + d;
    assert IntToDecimal(n) == t;
    MinusBeforeDigits(d);
    SignedLiteral(t);
    MagnitudeOfDecimal(m);
    if |d| <= MaxStrDigits {
      assert Magnitude(t[1..]) == Some(m);
      assert -(m as int) == n;
    } else {
      assert Magnitude(t[1..]) == None;
    }
  }

  /** A minus sign before a run of digits is already stripped, and its rest is the digits. */
  lemma MinusBeforeDigits(d: string)
    requires d != [] && forall j :: 0 <= j < |d| ==> IsDigit(d[j])
    ensures Strip("-" + d) == "-" + d && ("-" + d)[0] == '-' && ("-" + d)[1..] == d
  {
    var t := "-" + d;
    assert t[|t| - 1] == d[|d| - 1];
    StripOfTrimmed(t);
  }

  /** A stripped literal with a minus sign reads as the negated magnitude of its rest, if any. */
  lemma SignedLiteral(t: string)
    requires Strip(t) == t && t != [] && t[0] == '-'
    ensures Magnitude(t[1..]).None? ==> IntLiteral(t).None?
    ensures Magnitude(t[1..]).Some? ==> IntLiteral(t) == Some(-(Magnitude(t[1..]).value as int))
  {
  }

  /** The decimal form of a number is a literal of that magnitude, unless it is too long for `int()`. */
  lemma MagnitudeOfDecimal(n: nat)
    ensures |NatToDecimal(n)| <= MaxStrDigits ==> Magnitude(NatToDecimal(n)) == Some(n)
    ensures |NatToDecimal(n)| > MaxStrDigits ==> Magnitude(NatToDecimal(n)) == None
  {
    var d := NatToDecimal(n);
    assert DigitGroups(d);
    assert DropUnderscores(d) == d;
    DecimalRoundTrip(n);
  }

  /** The position of the first product whose name equals `name` up to case. */
  function FirstMatch(ps: seq<Product>, name: string): (r: Option<nat>)
    ensures r.Some? ==> r.value < |ps| && Lower(ps[r.value].name) == Lower(name)
    ensures r.Some? ==> forall j :: 0 <= j < r.value ==> Lower(ps[j].name) != Lower(name)
    ensures r.None? ==> forall j :: 0 <= j < |ps| ==> Lower(ps[j].name) != Lower(name)
  {
    if ps == [] then None
    else if Lower(ps[0].name) == Lower(name) then Some(0)
    else match FirstMatch(ps[1..], name)
      case None => None
      case Some(i) => Some(i + 1)
  }

  /** How the delete route settles the quantity: a number, no number, or a refusal. */
  datatype Resolution = Resolved(quantity: Option<int>) | Unresolved(status: nat, message: string)

  /**
   * Quantity resolution of `delete_inventory_item` for the stripped, non-empty `name`.
   * Without a quantity, the whole stock of the first product matching up to case is
   * used; when the listing itself failed, the quantity stays `None`. A supplied value
   * must convert with `int()` and be positive.
   */
  function ResolveQuantity(name: string, quantity: Json, inv: InventoryRead): Resolution {
    if quantity.JNull? then
      if !inv.success then Resolved(None)
      else match FirstMatch(inv.products, name)
        case Some(k) => Resolved(Some(inv.products[k].quantity))
        case None => Unresolved(404, "Product '" + name + "' not found")
    else match PyInt(quantity)
      case None => Unresolved(400, "Invalid quantity format")
      case Some(q) => if q <= 0 then Unresolved(400, "Quantity must be greater than 0") else Resolved(Some(q))
  }

  /** The JSON reply of `delete_inventory_item`. */
  datatype DeleteReply =
    | Removed(message: string, name: string, quantity: int)   // 200
    | DeleteRefused(status: nat, message: string)

  /** The message of a successful delete: "Successfully deleted {q} units of {name}". */
  function RemovedMessage(name: string, q: int): string {
    "Successfully deleted " + IntToDecimal(q) + " units of " + name
  }

  /** The text of the `TypeError` that `item["quantity"] < None` raises inside `delete_product`. */
  const NoneComparison: string := "'<' not supported between instances of 'int' and 'NoneType'"

  /**
   * `delete_inventory_item`: `name` is the body's "name" field (`None` when the body or
   * the field is missing), `quantity` its "quantity" field. The ledger request uses the
   * stripped name as given, not the name of the product the case-insensitive search found.
   */
  function DeleteItem(l: L.Ledger, name: Option<string>, quantity: Json, inv: InventoryRead): (L.Ledger, DeleteReply) {
    if name.None? then (l, DeleteRefused(400, "Product name is required"))
    else
      var n := Strip(name.value);
      if n == [] then (l, DeleteRefused(400, "Product name cannot be empty"))
      else match ResolveQuantity(n, quantity, inv)
        case Unresolved(status, message) => (l, DeleteRefused(status, message))
        case Resolved(None) =>
          if n !in l.stock then (l, DeleteRefused(400, L.ErrorMessage(L.ProductNotFound)))
          else (l, DeleteRefused(400, NoneComparison))
        case Resolved(Some(q)) =>
          var (l', outcome) := L.Delete(l, n, q);
          if outcome.Success? then (l', Removed(RemovedMessage(n, q), n, q))
          else (l', DeleteRefused(400, L.ErrorMessage(outcome.error)))
  }

  /** A supplied quantity that is not an integer, or not positive, is refused with 400 and changes nothing. */
  lemma DeleteRejectsBadQuantity(l: L.Ledger, name: string, quantity: Json, inv: InventoryRead)
    requires Strip(name) != [] && !quantity.JNull?
    requires PyInt(quantity).None? || PyInt(quantity).value <= 0
    ensures DeleteItem(l, Some(name), quantity, inv).0 == l
    ensures DeleteItem(l, Some(name), quantity, inv).1 == DeleteRefused(400,
      if PyInt(quantity).None? then "Invalid quantity format" else "Quantity must be greater than 0")
  {
  }

  /** A positive supplied quantity is exactly one `delete_product` request on the stripped name. */
  lemma DeleteSuppliedQuantity(l: L.Ledger, name: string, quantity: Json, inv: InventoryRead)
    requires Strip(name) != [] && !quantity.JNull?
    requires PyInt(quantity).Some? && PyInt(quantity).value > 0
    ensures var q := PyInt(quantity).value;
      && DeleteItem(l, Some(name), quantity, inv).0 == L.Run(l, [L.DeleteOp(Strip(name), q)])
      && (DeleteItem(l, Some(name), quantity, inv).1.Removed? <==> L.Delete(l, Strip(name), q).1.Success?)
    ensures var q := PyInt(quantity).value;
      var d := L.Delete(l, Strip(name), q);
      DeleteItem(l, Some(name), quantity, inv).1 ==
        if d.1.Success? then Removed(RemovedMessage(Strip(name), q), Strip(name), q)
        else DeleteRefused(400, L.ErrorMessage(d.1.error))
  {
    var q := PyInt(quantity).value;
    assert L.Run(L.Step(l, L.DeleteOp(Strip(name), q)).0, []) == L.Step(l, L.DeleteOp(Strip(name), q)).0;
  }

  /**
   * Without a quantity and with a listing, the request removes the whole stock of the
   * first product matching up to case, or is refused with 404 when none matches.
   */
  lemma DeleteWithoutQuantity(l: L.Ledger, name: string, inv: InventoryRead)
    requires Strip(name) != [] && inv.success
    ensures var n := Strip(name);
      match FirstMatch(inv.products, n)
      case None =>
        DeleteItem(l, Some(name), JNull, inv) == (l, DeleteRefused(404, "Product '" + n + "' not found"))
      case Some(k) =>
        var q := inv.products[k].quantity;
        var d := L.Delete(l, n, q);
        && DeleteItem(l, Some(name), JNull, inv).0 == d.0
        && DeleteItem(l, Some(name), JNull, inv).1 ==
          if d.1.Success? then Removed(RemovedMessage(n, q), n, q) else DeleteRefused(400, L.ErrorMessage(d.1.error))
  {
  }

  /**
   * The case-insensitive search does not carry over to the ledger: when the only listed
   * product matches the stripped name up to case but the ledger has no record under
   * that exact name, the listed quantity is found and the deletion still fails with
   * "Product not found".
   */
  lemma DeleteByOtherCase(l: L.Ledger, name: string, inv: InventoryRead, p: Product)
    requires name != [] && Strip(name) == name && name !in l.stock
    requires inv == InventoryRead(true, [p]) && Lower(p.name) == Lower(name)
    ensures DeleteItem(l, Some(name), JNull, inv) == (l, DeleteRefused(400, L.ErrorMessage(L.ProductNotFound)))
  {
    assert inv.products[0] == p;
    assert FirstMatch(inv.products, name) == Some(0);
    assert ResolveQuantity(name, JNull, inv) == Resolved(Some(p.quantity));
  }

  /** "Milk" and "milk" are equal up to case, and "milk" is already stripped. */
  lemma MilkUpToCase(stored: string, requested: string)
    requires stored == "Milk" && requested == "milk"
    ensures Lower(stored) == Lower(requested)
    ensures requested != [] && Strip(requested) == requested
  {
    LowerCapitalised(stored);
    LowerOfLowerCase(requested);
    assert [LowerChar(stored[0])] + stored[1..] == requested;
    StripOfTrimmed(requested);
  }

  /**
   * `DeleteByOtherCase` on an instance: when the listing holds "Milk" and the request
   * says "milk", the record "Milk" is found for its quantity but the deletion of "milk"
   * fails with "Product not found".
   */
  lemma DeleteMatchesCaseButNotName(l: L.Ledger, inv: InventoryRead, q: int)
    requires "Milk" in l.stock && "milk" !in l.stock
    requires inv == InventoryRead(true, [Product("Milk", q)])
    ensures DeleteItem(l, Some("milk"), JNull, inv) == (l, DeleteRefused(400, "Product not found"))
  {
    MilkUpToCase("Milk", "milk");
    DeleteByOtherCase(l, "milk", inv, Product("Milk", q));
  }

  /**
   * A successful deletion reports a quantity that was never more than the stock, and the
   * stock drops by it; a supplied quantity is positive, while the whole stock taken
   * from the listing may be any number.
   */
  lemma DeleteSuccessWithinStock(l: L.Ledger, name: Option<string>, quantity: Json, inv: InventoryRead)
    requires DeleteItem(l, name, quantity, inv).1.Removed?
    ensures var r := DeleteItem(l, name, quantity, inv).1;
      r.name in l.stock && r.quantity <= l.stock[r.name]
      && L.Level(DeleteItem(l, name, quantity, inv).0, r.name) == l.stock[r.name] - r.quantity
    ensures !quantity.JNull? ==> DeleteItem(l, name, quantity, inv).1.quantity > 0
  {
  }
}
