/**
 * The spreadsheet import of `process_excel_file` (src/backend/inventory_routes.py),
 * from the point where the sheet has been read: the column check, the dropping of rows
 * without a name or quantity, the snapshot of known product names, and the row loop that
 * validates each record, recognises known products by their normalised name and hands
 * every valid record to the ledger's `add_product`. Cells arrive already typed.
 */
module BulkImport {
  import opened Wrappers
  import opened Text
  import opened ProductNames
  import L = LedgerSpec
  import R = InventoryRoutes

  /** A sheet row as read: a missing name or quantity cell is `None`. */
  datatype SheetRow = SheetRow(name: Option<string>, quantity: Option<int>, costPrice: real,
                               sellingPrice: real, totalValue: real, profit: real)

  /** A record of `to_dict(orient="records")`, with the derived columns filled in. */
  datatype Row = Row(name: string, quantity: int, costPrice: real, sellingPrice: real,
                     totalValue: real, profit: real)

  datatype ImportResult =
    | ImportFailed(message: string)
    | ImportDone(message: string, imported: nat, updated: nat, duplicates: nat, errors: seq<string>)

  const RequiredColumns: seq<string> := ["name", "quantity", "cost_price", "selling_price"]

  /** `[col for col in required if col not in columns]`, over a list of required names. */
  function MissingFrom(required: seq<string>, columns: set<string>): (r: seq<string>)
    ensures forall c :: c in r <==> c in required && c !in columns
    ensures |r| <= |required|
  {
    if required == [] then []
    else (if required[0] in columns then [] else [required[0]]) + MissingFrom(required[1..], columns)
  }

  /** The comprehension distributes over the required list, so the missing names keep its order. */
  lemma {:induction false} MissingFromAppend(a: seq<string>, b: seq<string>, columns: set<string>)
    ensures MissingFrom(a + b, columns) == MissingFrom(a, columns) + MissingFrom(b, columns)
  {
    if a == [] {
      assert a + b == b;
    } else {
      assert (a + b)[0] == a[0] && (a + b)[1..] == a[1..] + b;
      MissingFromAppend(a[1..], b, columns);
    }
  }

  /** `sep.join(parts)`. */
  function Join(parts: seq<string>, sep: string): string {
    if parts == [] then []
    else if |parts| == 1 then parts[0]
    else parts[0] + sep + Join(parts[1..], sep)
  }

  /**
   * The derived columns: `total_value` is `quantity * selling_price` and `profit` is
   * `(selling_price - cost_price) * quantity` when the sheet has no such column.
   */
  function Record(columns: set<string>, s: SheetRow): Row
    requires s.name.Some? && s.quantity.Some?
  {
    var q := s.quantity.value as real;
    Row(s.name.value, s.quantity.value, s.costPrice, s.sellingPrice,
        if "total_value" in columns then s.totalValue else q * s.sellingPrice,
        if "profit" in columns then s.profit else (s.sellingPrice - s.costPrice) * q)
  }

  /** `dropna(subset=['name', 'quantity'])` followed by `to_dict(orient="records")`. */
  function Records(columns: set<string>, sheet: seq<SheetRow>): (r: seq<Row>)
    ensures |r| <= |sheet|
    ensures r == [] <==> forall i :: 0 <= i < |sheet| ==> sheet[i].name.None? || sheet[i].quantity.None?
  {
    if sheet == [] then []
    else
      var rest := Records(columns, sheet[1..]);
      if sheet[0].name.Some? && sheet[0].quantity.Some? then [Record(columns, sheet[0])] + rest else rest
  }

  /** The names known before the loop: `name.lower().strip()` of every listed product. */
  function Snapshot(inv: R.InventoryRead): set<string> {
    if inv.success then set k | 0 <= k < |inv.products| :: Strip(Lower(inv.products[k].name)) else {}
  }

  // ---------------------------------------------------------------------------
  // One record.

  datatype Verdict = Valid | BadNameOrQuantity | NegativeValue | PriceNotAboveCost

  /** The three checks, in the order the loop applies them; the first that fails decides. */
  function Check(r: Row): Verdict {
    if Strip(r.name) == [] || r.quantity <= 0 then BadNameOrQuantity
    else if r.costPrice < 0.0 || r.sellingPrice < 0.0 || r.totalValue < 0.0 || r.profit < 0.0 then NegativeValue
    else if r.sellingPrice <= r.costPrice then PriceNotAboveCost
    else Valid
  }

  function VerdictText(v: Verdict): string {
    match v
    case Valid => ""
    case BadNameOrQuantity => "Invalid name or quantity"
    case NegativeValue => "Financial values cannot be negative"
    case PriceNotAboveCost => "Selling price should be greater than cost price"
  }

  /** The error line of the record at position `index` of the record list. */
  function RowError(index: nat, v: Verdict): string {
    "Row " + NatToDecimal(index + 2) + ": " + VerdictText(v)
  }

  /** The ledger request a valid record makes: `add_product` with the stripped name. */
  function AddOf(r: Row): L.Op {
    L.AddOp(Strip(r.name), r.quantity)
  }

  // ---------------------------------------------------------------------------
  // The loop, stated on prefixes of the record list.

  /** The ledger requests of the valid records, in order. */
  function Accepted(rows: seq<Row>): seq<L.Op> {
    if rows == [] then []
    else
      var last := rows[|rows| - 1];
      Accepted(rows[..|rows| - 1]) + (if Check(last) == Valid then [AddOf(last)] else [])
  }

  /** The error lines of the invalid records, in order, each numbered by its position plus 2. */
  function Errors(rows: seq<Row>): seq<string> {
    if rows == [] then []
    else
      var last := rows[|rows| - 1];
      Errors(rows[..|rows| - 1]) + (if Check(last) == Valid then [] else [RowError(|rows| - 1, Check(last))])
  }

  /**
   * The seen set after the records: the snapshot plus the key of every valid record's
   * stripped name. The loop's key is `Normalized`; the statements about the loop hold
   * for any key.
   */
  function SeenAfter(existing: set<string>, rows: seq<Row>, key: string -> string): set<string> {
    if rows == [] then existing
    else
      var last := rows[|rows| - 1];
      SeenAfter(existing, rows[..|rows| - 1], key) + (if Check(last) == Valid then {key(Strip(last.name))} else {})
  }

  /** Each record is either accepted or reported, never both. */
  lemma {:induction false} AcceptedOrReported(rows: seq<Row>)
    ensures |Accepted(rows)| + |Errors(rows)| == |rows|
  {
    if rows != [] {
      AcceptedOrReported(rows[..|rows| - 1]);
    }
  }

  /** An invalid record at position `k` is reported with its own number and reason. */
  lemma {:induction false} InvalidIsReported(rows: seq<Row>, k: int)
    requires 0 <= k < |rows| && Check(rows[k]) != Valid
    ensures RowError(k, Check(rows[k])) in Errors(rows)
  {
    var init := rows[..|rows| - 1];
    if k < |rows| - 1 {
      assert init[k] == rows[k];
      InvalidIsReported(init, k);
    }
  }

  /** A valid record at position `k` reaches the ledger as an addition of its quantity. */
  lemma {:induction false} ValidIsAdded(rows: seq<Row>, k: int)
    requires 0 <= k < |rows| && Check(rows[k]) == Valid
    ensures AddOf(rows[k]) in Accepted(rows)
  {
    var init := rows[..|rows| - 1];
    if k < |rows| - 1 {
      assert init[k] == rows[k];
      ValidIsAdded(init, k);
    }
  }

  /** The variables of the loop: the ledger, both counters, the error list and the seen set. */
  datatype Progress = Progress(ledger: L.Ledger, imported: nat, updated: nat, errors: seq<string>, seen: set<string>)

  /**
   * One pass of the loop body over the record at `index`. A valid record whose
   * normalised name is already known counts as updated, any other valid record as
   * imported, and its name becomes known; both call `add_product`, whose result (a
   * dictionary) is always truthy, so no ledger call is ever reported as failed.
   */
  function Visit(p: Progress, index: nat, row: Row, key: string -> string): Progress {
    var verdict := Check(row);
    if verdict != Valid then p.(errors := p.errors + [RowError(index, verdict)])
    else
      var k := key(Strip(row.name));
      var ledger := L.Add(p.ledger, Strip(row.name), row.quantity).0;
      if k in p.seen then p.(ledger := ledger, updated := p.updated + 1)
      else p.(ledger := ledger, imported := p.imported + 1, seen := p.seen + {k})
  }

  /** The loop's variables after the records, starting from `existing` as the seen set. */
  function Fold(l: L.Ledger, existing: set<string>, rows: seq<Row>, key: string -> string): Progress {
    if rows == [] then Progress(l, 0, 0, [], existing)
    else Visit(Fold(l, existing, rows[..|rows| - 1], key), |rows| - 1, rows[|rows| - 1], key)
  }

  /** The ledger after the loop is the ledger after the accepted requests, in order. */
  lemma {:induction false} FoldLedger(l: L.Ledger, existing: set<string>, rows: seq<Row>, key: string -> string)
    ensures Fold(l, existing, rows, key).ledger == L.Run(l, Accepted(rows))
  {
    if rows == [] {
      assert Accepted(rows) == [];
    } else {
      var init := rows[..|rows| - 1];
      var last := rows[|rows| - 1];
      FoldLedger(l, existing, init, key);
      VisitLedger(Fold(l, existing, init, key), |rows| - 1, last, key);
      if Check(last) == Valid {
        assert Accepted(rows) == Accepted(init) + [AddOf(last)];
        L.RunAppend(l, Accepted(init), AddOf(last));
      } else {
        assert Accepted(rows) == Accepted(init);
      }
    }
  }

  /** One record moves the ledger by its own request when it is valid, and not at all otherwise. */
  lemma VisitLedger(p: Progress, index: nat, row: Row, key: string -> string)
    ensures Visit(p, index, row, key).ledger ==
      if Check(row) == Valid then L.Step(p.ledger, AddOf(row)).0 else p.ledger
  {
  }

  /** The error list after the loop reports exactly the invalid records. */
  lemma {:induction false} FoldErrors(l: L.Ledger, existing: set<string>, rows: seq<Row>, key: string -> string)
    ensures Fold(l, existing, rows, key).errors == Errors(rows)
  {
    if rows != [] {
      FoldErrors(l, existing, rows[..|rows| - 1], key);
    }
  }

  /**
   * The seen set grows by the normalised names of the valid records, and the imported
   * counter is the number of names it gained; every valid record bumps one counter.
   */
  lemma {:induction false} FoldCounts(l: L.Ledger, existing: set<string>, rows: seq<Row>, key: string -> string)
    ensures var p := Fold(l, existing, rows, key);
      && p.seen == SeenAfter(existing, rows, key)
      && existing <= p.seen
      && p.imported == |p.seen - existing|
      && p.imported + p.updated == |Accepted(rows)|
  {
    if rows != [] {
      var init := rows[..|rows| - 1];
      var last := rows[|rows| - 1];
      var p := Fold(l, existing, init, key);
      var q := Fold(l, existing, rows, key);
      FoldCounts(l, existing, init, key);
      assert q == Visit(p, |rows| - 1, last, key);
      VisitCounts(p, |rows| - 1, last, key);
      CountStep(p, q, existing, key(Strip(last.name)), Check(last) == Valid);
      AcceptedLength(rows);
    }
  }

  /** The counters' relation to the seen set survives one step of the loop. */
  lemma CountStep(p: Progress, q: Progress, existing: set<string>, k: string, valid: bool)
    requires existing <= p.seen && p.imported == |p.seen - existing|
    requires q.seen == p.seen + (if valid then {k} else {})
    requires q.imported == p.imported + (if valid && k !in p.seen then 1 else 0)
    ensures existing <= q.seen && q.imported == |q.seen - existing|
  {
    if valid && k !in p.seen {
      assert q.seen - existing == (p.seen - existing) + {k};
    } else {
      assert q.seen == p.seen;
    }
  }

  /** One more record adds one request exactly when it is valid. */
  lemma AcceptedLength(rows: seq<Row>)
    requires rows != []
    ensures |Accepted(rows)| ==
      |Accepted(rows[..|rows| - 1])| + (if Check(rows[|rows| - 1]) == Valid then 1 else 0)
  {
  }

  /** One record adds its key to the seen set and bumps one counter when it is valid. */
  lemma VisitCounts(p: Progress, index: nat, row: Row, key: string -> string)
    ensures var q := Visit(p, index, row, key);
      var k := key(Strip(row.name));
      && q.seen == p.seen + (if Check(row) == Valid then {k} else {})
      && q.imported == p.imported + (if Check(row) == Valid && k !in p.seen then 1 else 0)
      && q.imported + q.updated == p.imported + p.updated + (if Check(row) == Valid then 1 else 0)
  {
  }

  /** The fold one record further on. */
  lemma NextFold(l: L.Ledger, existing: set<string>, rows: seq<Row>, index: int, key: string -> string)
    requires 0 <= index < |rows|
    ensures Fold(l, existing, rows[..index + 1], key) == Visit(Fold(l, existing, rows[..index], key), index, rows[index], key)
  {
    assert rows[..index + 1][..index] == rows[..index];
    assert rows[..index + 1][index] == rows[index];
  }

  /** The loop of `process_excel_file` over the records. */
  method ImportRecords(l: L.Ledger, rows: seq<Row>, existing: set<string>) returns (p: Progress)
    ensures p == Fold(l, existing, rows, Normalized)
    ensures p.ledger == L.Run(l, Accepted(rows))
    ensures p.errors == Errors(rows) && p.seen == SeenAfter(existing, rows, Normalized)
    ensures p.imported == |p.seen - existing|
    ensures p.imported + p.updated + |p.errors| == |rows|
  {
    p := Progress(l, 0, 0, [], existing);
    var index := 0;
    assert rows[..index] == [];
    while index < |rows|
      invariant 0 <= index <= |rows|
      invariant p == Fold(l, existing, rows[..index], Normalized)
    {
      NextFold(l, existing, rows, index, Normalized);
      var normalizedName := NormalizeProductName(Strip(rows[index].name));
      p := VisitRecord(p, index, rows[index], Normalized, normalizedName);
      index := index + 1;
    }
    assert rows[..index] == rows;
    FoldLedger(l, existing, rows, Normalized);
    FoldErrors(l, existing, rows, Normalized);
    FoldCounts(l, existing, rows, Normalized);
    AcceptedOrReported(rows);
  }

  /**
   * The body of the loop for one record, given the key of its stripped name (the loop
   * computes it with `NormalizeProductName`).
   */
  method VisitRecord(p: Progress, index: nat, row: Row, key: string -> string, normalizedName: string)
    returns (p': Progress)
    requires normalizedName == key(Strip(row.name))
    ensures p' == Visit(p, index, row, key)
  {
    var name := Strip(row.name);
    var verdict := Check(row);
    if verdict != Valid {
      return p.(errors := p.errors + [RowError(index, verdict)]);
    }
    var ledger := L.Add(p.ledger, name, row.quantity).0;
    if normalizedName in p.seen {
      p' := p.(ledger := ledger, updated := p.updated + 1);
    } else {
      p' := p.(ledger := ledger, imported := p.imported + 1, seen := p.seen + {normalizedName});
    }
  }

  /** The summary message: the non-zero counts, joined by ", ". */
  function Summary(imported: nat, updated: nat, errors: nat): string {
    Join((if imported > 0 then ["Imported " + NatToDecimal(imported) + " new products"] else [])
         + (if updated > 0 then ["Updated " + NatToDecimal(updated) + " existing products"] else [])
         + (if errors > 0 then ["Encountered " + NatToDecimal(errors) + " errors"] else []), ", ")
  }

  lemma JoinOfThree(x: string, y: string, z: string, sep: string)
    ensures Join([x, y, z], sep) == x + sep + y + sep + z
  {
    assert [x, y, z][1..] == [y, z] && [y, z][1..] == [z];
    assert Join([z], sep) == z;
    assert Join([y, z], sep) == y + sep + z;
    ConcatAssociates(x + sep, y + sep, z);
  }

  /**
   * The summary names exactly the non-zero counts, in the order imported, updated,
   * errors: nothing at all when every count is 0, one part alone, or all three
   * separated by ", ".
   */
  lemma SummaryParts(imported: nat, updated: nat, errors: nat)
    ensures imported == 0 && updated == 0 && errors == 0 ==> Summary(imported, updated, errors) == ""
    ensures imported > 0 && updated == 0 && errors == 0 ==>
      Summary(imported, updated, errors) == "Imported " + NatToDecimal(imported) + " new products"
    ensures imported == 0 && updated > 0 && errors == 0 ==>
      Summary(imported, updated, errors) == "Updated " + NatToDecimal(updated) + " existing products"
    ensures imported == 0 && updated == 0 && errors > 0 ==>
      Summary(imported, updated, errors) == "Encountered " + NatToDecimal(errors) + " errors"
    ensures imported > 0 && updated > 0 && errors > 0 ==>
      var i := "Imported " + NatToDecimal(imported) + " new products";
      var u := "Updated " + NatToDecimal(updated) + " existing products";
      var e := "Encountered " + NatToDecimal(errors) + " errors";
      Summary(imported, updated, errors) == i + ", " + u + ", " + e
  {
    var i := "Imported " + NatToDecimal(imported) + " new products";
    var u := "Updated " + NatToDecimal(updated) + " existing products";
    var e := "Encountered " + NatToDecimal(errors) + " errors";
    var parts := (if imported > 0 then [i] else []) + (if updated > 0 then [u] else []) + (if errors > 0 then [e] else []);
    assert Summary(imported, updated, errors) == Join(parts, ", ");
    if imported > 0 && updated > 0 && errors > 0 {
      assert parts == [i, u, e];
      JoinOfThree(i, u, e, ", ");
    } else if imported > 0 && updated == 0 && errors == 0 {
      assert parts == [i];
    } else if imported == 0 && updated > 0 && errors == 0 {
      assert parts == [u];
    } else if imported == 0 && updated == 0 && errors > 0 {
      assert parts == [e];
    }
  }

  /**
   * `process_excel_file` once the sheet is read: `columns` are its column names and
   * `inv` is what `get_inventory` returned for the snapshot.
   */
  method ProcessSheet(l: L.Ledger, columns: set<string>, sheet: seq<SheetRow>, inv: R.InventoryRead)
    returns (l': L.Ledger, result: ImportResult)
    ensures MissingFrom(RequiredColumns, columns) != [] ==>
      l' == l && result == ImportFailed("Missing required columns: " + Join(MissingFrom(RequiredColumns, columns), ", "))
    ensures MissingFrom(RequiredColumns, columns) == [] && Records(columns, sheet) == [] ==>
      l' == l && result == ImportFailed("No valid data found in Excel file")
    ensures MissingFrom(RequiredColumns, columns) == [] && Records(columns, sheet) != [] ==>
      var rows := Records(columns, sheet);
      && l' == L.Run(l, Accepted(rows))
      && result.ImportDone? && result.duplicates == 0
      && result.errors == Errors(rows)
      && result.imported == |SeenAfter(Snapshot(inv), rows, Normalized) - Snapshot(inv)|
      && result.imported + result.updated + |result.errors| == |rows|
      && result.message == Summary(result.imported, result.updated, |result.errors|)
  {
    var missing := MissingFrom(RequiredColumns, columns);
    if missing != [] {
      return l, ImportFailed("Missing required columns: " + Join(missing, ", "));
    }
    var rows := Records(columns, sheet);
    if |rows| == 0 {
      return l, ImportFailed("No valid data found in Excel file");
    }
    var existing := Snapshot(inv);
    var p := ImportRecords(l, rows, existing);
    var duplicates := 0;
    l' := p.ledger;
    result := ImportDone(Summary(p.imported, p.updated, |p.errors|), p.imported, p.updated, duplicates, p.errors);
  }

  // ---------------------------------------------------------------------------
  // Consequences.

  /** Valid records only add positive quantities, so an import keeps every quantity non-negative. */
  lemma ImportKeepsNonNegative(l: L.Ledger, rows: seq<Row>)
    requires L.NonNegative(l)
    ensures L.NonNegative(L.Run(l, Accepted(rows)))
  {
    AcceptedArePositiveAdds(rows);
    L.RunKeepsNonNegative(l, Accepted(rows));
  }

  /** Every accepted request is an addition of a positive quantity. */
  lemma {:induction false} AcceptedArePositiveAdds(rows: seq<Row>)
    ensures forall i :: 0 <= i < |Accepted(rows)| ==> Accepted(rows)[i].AddOp? && Accepted(rows)[i].q > 0
  {
    if rows != [] {
      AcceptedArePositiveAdds(rows[..|rows| - 1]);
    }
  }

  /**
   * With the derived `profit` column, a record priced below cost has a negative profit,
   * so it is reported as "Financial values cannot be negative" and never reaches the
   * selling-price check.
   */
  lemma BelowCostReportedAsNegative(columns: set<string>, s: SheetRow)
    requires "profit" !in columns && s.name.Some? && s.quantity.Some?
    requires Strip(s.name.value) != [] && s.quantity.value > 0
    requires s.sellingPrice < s.costPrice
    ensures Check(Record(columns, s)) == NegativeValue
  {
    var q := s.quantity.value as real;
    assert (s.sellingPrice - s.costPrice) * q < 0.0;
  }

  /**
   * The snapshot keeps plural names that the normaliser would shorten: a stored product
   * whose lower-case name is a word plus "s" is known by that plural, while a record with
   * the same name looks up the word, so that record counts as a new product.
   */
  lemma SnapshotMissesPlurals(inv: R.InventoryRead, name: string, q: int, w: string)
    requires inv == R.InventoryRead(true, [R.Product(name, q)])
    requires w != [] && w[|w| - 1] != 's' && forall i :: 0 <= i < |w| ==> 'a' <= w[i] <= 'z'
    requires Lower(name) == w + "s"
    ensures Snapshot(inv) == {w + "s"}
    ensures Normalized(Strip(name)) == w && w !in Snapshot(inv)
  {
    var t := w + "s";
    StripOfTrimmed(t);
    SnapshotOfOne(inv, R.Product(name, q));
    PluralIsTrimmed(name, w);
    PluralOfWord(name, w);
    assert |w| != |t|;
  }

  /** The snapshot of a one-product listing is that product's cleaned name. */
  lemma SnapshotOfOne(inv: R.InventoryRead, p: R.Product)
    requires inv == R.InventoryRead(true, [p])
    ensures Snapshot(inv) == {Strip(Lower(p.name))}
  {
    assert inv.products[0] == p;
  }

  /** A name whose lower-case form is a word plus "s" has no surrounding white space. */
  lemma PluralIsTrimmed(name: string, w: string)
    requires forall i :: 0 <= i < |w| ==> 'a' <= w[i] <= 'z'
    requires Lower(name) == w + "s"
    ensures Strip(name) == name
  {
    assert Lower(name)[0] == LowerChar(name[0]);
    assert Lower(name)[|name| - 1] == LowerChar(name[|name| - 1]);
    StripOfTrimmed(name);
  }

  /** A stored "Apples" is known as "apples"; a record named "Apples" looks up "apple". */
  lemma SnapshotMissesApples(inv: R.InventoryRead, name: string, w: string)
    requires name == "Apples" && w == "apple" && inv == R.InventoryRead(true, [R.Product(name, 3)])
    ensures Normalized(Strip(name)) == w && w !in Snapshot(inv)
  {
    LowerCapitalised(name);
    assert Lower(name) == w + "s";
    SnapshotMissesPlurals(inv, name, 3, w);
  }
}
