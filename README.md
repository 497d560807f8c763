# Voice_Tory inventory engine — a Dafny model

Voice_Tory keeps a shop's inventory from short spoken or typed commands such as
"Add 10 packets of milk", "Sold 5 soaps" or "Delete 2 bottles of oil". This project models
the command engine behind it and proves properties of that model:

- **the command parser** (`parse_inventory_command`, `get_command_examples`): lower-casing and
  stripping, the three patterns `add|sold|delete \s+(\d+)\s+(.+)` matched at the start of the
  text in a fixed order, and the positive-quantity check (`parser.dfy`, `parser_examples.dfy`);
- **the ledger** (`InventoryDatabase.add_product`, `sell_product`, `delete_product` over
  `InMemoryCollection`, and `MockDatabase`): first as functions on a value (`ledger.dfy`, stock
  per name plus the sale log), then as classes that update collections in place and are proved
  to follow those functions (`collection.dfy`, `inventory_db.dfy`);
- **the inventory routes' own logic**: the command route's checks and dispatch, the dashboard
  statistics, how the delete route settles the quantity (`routes.dfy`), product-name
  normalisation (`names.dfy`) and the row loop of the spreadsheet import (`bulk_import.dfy`);
- **authentication checks**: the token lookup and decision of `require_auth`, and the
  required-field checks of the signup, login, validate, logout and profile routes (`auth.dfy`).

Python's string behaviour is written out in `text.dfy`: the white-space set of `str.isspace`
(used by `strip()` and `\s`), ASCII `lower()`, decimal literals and `str(int)`.

## Model

| member | source | states |
|---|---|---|
| Text.Lower | src/utils/parser.py:19 | `lower()` keeps the length and lower-cases each character on its own |
| Text.Strip | src/utils/parser.py:19 | `strip()` is the middle slice of the text with no white space at either end; it is empty exactly when the text is all white space |
| Text.StripIdempotent | src/backend/inventory_routes.py:616 | stripping twice is stripping once |
| Text.DecimalRoundTrip | src/utils/parser.py:33 | the digit value of the decimal form of a natural number is the number; `int()` reads it back when it has at most 4300 digits (`InventoryRoutes.IntLiteralRoundTrip`) |
| CommandParser.Parse | src/utils/parser.py:19-49 | `parse_inventory_command`: lower-case, strip, try the three patterns in order; its results are stated by `CommandParser.ParseCases`, `CommandParser.ParsedIsMatch` and `CommandParser.InvalidQuantityFormatIff` |
| CommandParser.MatchPattern | src/utils/parser.py:23-30 | `re.match` of `verb\s+(\d+)\s+(.+)`; its matches are exactly those of `CommandParser.MatchPatternSound` and `CommandParser.MatchPatternComplete` |
| CommandParser.Interpret | src/utils/parser.py:32-46 | the body run on a match: `int()` of the digit group, the positive check and the stripped product; its three outcomes are `CommandParser.OutcomeOfGroupsCases` |
| CommandParser.MatchPatternSound | src/utils/parser.py:23-30 | a match of `verb\s+(\d+)\s+(.+)` at the start has the verb, a space run, the digit group, a space run and a non-empty product group on one line |
| CommandParser.MatchPatternComplete | src/utils/parser.py:23-30 | every way the text fits that layout makes the pattern match, with the greedy digit group |
| CommandParser.LeadingVerb | src/utils/parser.py:22-30 | the verb found among "add", "sold", "delete" begins the text; when none is found, none of them begins it |
| CommandParser.TryPatternsCases | src/utils/parser.py:28-49 | with no leading verb every pattern fails and the result is the invalid-format error; otherwise only that verb's pattern decides |
| CommandParser.ParseCases | src/utils/parser.py:19-49 | the parser's result on any text, stated through the leading verb of the lower-cased stripped text |
| CommandParser.ParsedIsMatch | src/utils/parser.py:33-44 | a parsed command has quantity > 0 and a non-empty, stripped, single-line product that the pattern matched |
| CommandParser.OutcomeIsMatch | src/utils/parser.py:30-44 | when one verb's pattern yields a command on a text without trailing white space, the command has that verb's action, a positive quantity and a stripped single-line product, all read from a match of the pattern |
| CommandParser.MatchedIsParsed | src/utils/parser.py:32-46 | a pattern match whose digit group is longer than 4300 digits gives "Invalid quantity format"; otherwise digit value 0 gives "Quantity must be greater than 0" and a positive value the command with that action and quantity |
| CommandParser.OutcomeOfGroupsCases | src/utils/parser.py:32-46 | once one verb's pattern matched, its outcome is the format error for more than 4300 digits, else the quantity error for value 0, else the command with the stripped product |
| CommandParser.OutcomeFormatError | src/utils/parser.py:32-46 | one verb's pattern gives "Invalid quantity format" exactly when it matched with more than 4300 digits |
| CommandParser.InvalidQuantityFormatIff | src/utils/parser.py:28-46 | `parse_inventory_command` returns "Invalid quantity format" exactly when a verb begins the lower-cased stripped text and its pattern matched a digit group of more than 4300 digits, which `int()` refuses |
| CommandParser.ParseIgnoresCase | src/utils/parser.py:19 | texts equal up to case parse alike |
| CommandParser.ParseOfCanonicalForm | src/utils/parser.py:19-46 | "verb digits product" in canonical form parses to that action, value and product; to the zero-quantity error when the value is 0; to "Invalid quantity format" when there are more than 4300 digits |
| CommandParser.ParseOfLowerForm | src/utils/parser.py:19-46 | the same three cases for any text whose lower-case form is "verb digits product" |
| CommandParser.RejectedAfterDigits | src/utils/parser.py:23-34 | digits followed directly by something other than a digit or white space give the invalid-format error |
| CommandParser.RejectedWithoutVerb | src/utils/parser.py:19-49 | text whose lower-cased, stripped form does not start with one of the three verbs gives the invalid-format error |
| ParserExamples.ParseOfCapitalised | src/utils/parser.py:19 | a capitalised text parses as its lower-case form |
| ParserExamples.ParseOfLowerCaseForm | src/utils/parser.py:19-46 | lower-case "verb digits product" parses to that command when the value is positive, to "Quantity must be greater than 0" when it is 0, and to "Invalid quantity format" for more than 4300 digits |
| ParserExamples.ParseOfCapitalisedForm | src/utils/parser.py:19-46 | a capitalised "Verb digits product" gives the same three cases |
| ParserExamples.RejectedLowerCase | src/utils/parser.py:23-49 | lower-case "verb digits" followed directly by a non-digit, non-space character gives the invalid-format error |
| ParserExamples.RejectedLowerCaseWithoutVerb | src/utils/parser.py:19-49 | a lower-case text that, once stripped, is empty or starts with neither "a", "d" nor "so" gives the invalid-format error |
| ParserExamples.LowerAddMilk | src/utils/parser.py:19 | "ADD 10 Milk" lower-cases to "add 10 milk" |
| ParserExamples.ExampleAddUpperCase | src/utils/parser.py:19-44 | "ADD 10 Milk" gives add, 10, "milk" |
| ParserExamples.ExampleNumberInProduct | src/utils/parser.py:23-34 | "delete 10 5 apples" gives quantity 10 and product "5 apples" |
| ParserExamples.ExampleZeroQuantity | src/utils/parser.py:37-38 | "add 00 milk" gives "Quantity must be greater than 0" |
| ParserExamples.ExampleOverlongQuantity | src/utils/parser.py:32-46 | "add", a space, 4300 zeros and "1 milk" gives "Invalid quantity format", since leading zeros count towards the `int()` limit |
| ParserExamples.ExampleNegativeQuantity | src/utils/parser.py:23-49 | "add -1 milk" gives the invalid-format error |
| ParserExamples.ExampleMissingSpace | src/utils/parser.py:23-49 | "add 10milk" gives the invalid-format error |
| ParserExamples.ExampleVerbNotFirst | src/utils/parser.py:30-49 | "please add 5 milk" gives the invalid-format error |
| ParserExamples.ExampleSellIsNotAVerb | src/utils/parser.py:24-49 | "sell 3 eggs" gives the invalid-format error; only "sold" maps to the sell action |
| ParserExamples.ExampleAddPacketsOfMilk | src/utils/parser.py:59 | the first example parses to add, 10, "packets of milk" |
| ParserExamples.ExampleSoldSoaps | src/utils/parser.py:60 | "Sold 5 soaps" parses to sell, 5, "soaps" |
| ParserExamples.ExampleDeleteBottlesOfOil | src/utils/parser.py:61 | "Delete 2 bottles of oil" parses to delete, 2, "bottles of oil" |
| ParserExamples.ExampleAddApples | src/utils/parser.py:62 | "Add 25 apples" parses to add, 25, "apples" |
| ParserExamples.ExampleSoldBottlesOfWater | src/utils/parser.py:63 | "Sold 3 bottles of water" parses to sell, 3, "bottles of water" |
| ParserExamples.ExampleDeleteChocolateBar | src/utils/parser.py:64 | "Delete 1 chocolate bar" parses to delete, 1, "chocolate bar" |
| ParserExamples.CommandExamplesParse | src/utils/parser.py:51-65 | every one of the six example commands parses successfully |
| LedgerSpec.Add | src/backend/db/models.py:101-135 | `add_product`; never fails, merges with an existing record (`LedgerSpec.AddTwiceMerges`, `LedgerSpec.SuccessTouchesOneRecord`) |
| LedgerSpec.Sell | src/backend/db/models.py:137-180 | `sell_product`; succeeds exactly when the stock suffices, logs one sale and conserves stock plus sales (`LedgerSpec.WithdrawalSucceeds`, `LedgerSpec.SellConserves`, `LedgerSpec.SellUndoesAdd`) |
| LedgerSpec.Delete | src/backend/db/models.py:182-223 | `delete_product` with a working `delete_one`, the corrected behaviour (`LedgerSpec.WithdrawalSucceeds`, `LedgerSpec.DeleteAllRemoves`) |
| LedgerSpec.DeleteAsWritten | src/backend/db/models.py:182-223 | `delete_product` against the in-memory collection; it differs from `LedgerSpec.Delete` only at quantity 0 (`LedgerSpec.DeleteAsWrittenAgrees`, `LedgerSpec.DeleteAsWrittenLeavesZeroRecord`) |
| LedgerSpec.Step | src/backend/db/models.py:101-223 | one request to one of the three operations; a failure changes nothing (`LedgerSpec.FailureChangesNothing`) |
| LedgerSpec.Run | src/backend/db/models.py:101-223 | requests one after the other (`LedgerSpec.RunAppend`, `LedgerSpec.RunKeepsNonNegative`, `LedgerSpec.RunSalesAppendOnly`, `LedgerSpec.RunOfSalesConserves`) |
| LedgerSpec.FailureChangesNothing | src/backend/db/models.py:142-154 | a refused sell or delete leaves stock and sales unchanged; "Product not found" exactly when the name has no record; an add never fails |
| LedgerSpec.SuccessTouchesOneRecord | src/backend/db/models.py:106-129 | a successful request changes only its own name's record and echoes name and quantity |
| LedgerSpec.WithdrawalSucceeds | src/backend/db/models.py:142-160 | a sell or delete succeeds exactly when the record exists with at least the quantity, and lowers it by that quantity |
| LedgerSpec.AddTwiceMerges | src/backend/db/models.py:106-122 | two adds of one name equal one add of the sum, and the second reports "updated" |
| LedgerSpec.SellUndoesAdd | src/backend/db/models.py:106-174 | selling what was just added succeeds and restores the stock level, logging one sale |
| LedgerSpec.DeleteAllRemoves | src/backend/db/models.py:201-210 | deleting a record's whole quantity removes the record |
| LedgerSpec.WithdrawalKeepsNonNegative | src/backend/db/models.py:150-205 | sells and deletes keep every quantity non-negative |
| LedgerSpec.SellConserves | src/backend/db/models.py:157-167 | for every name, stock plus quantity sold is the same before and after a sell |
| LedgerSpec.RunKeepsNonNegative | src/backend/db/models.py:101-217 | any sequence of requests without negative additions keeps every quantity non-negative |
| LedgerSpec.RunAppend | src/backend/db/models.py:101-217 | running one more request is one more step |
| LedgerSpec.RunSalesAppendOnly | src/backend/db/models.py:162-167 | the sale log only grows, by at most one entry per request, keeping its earlier entries |
| LedgerSpec.RunOfSalesConserves | src/backend/db/models.py:157-167 | over any run of sells, stock plus quantity sold stays constant for every name |
| LedgerSpec.DeleteAsWrittenAgrees | src/backend/db/models.py:182-223 | the in-memory delete behaves as the corrected one except when the quantity reaches exactly 0 |
| LedgerSpec.DeleteAsWrittenLeavesZeroRecord | src/backend/db/models.py:207-223 | deleting a whole quantity in memory reports a failure and leaves a record at 0, where the corrected delete succeeds and removes it |
| Collection.FirstIndex | src/backend/db/models.py:27-29 | the first document whose name matches, or none |
| Collection.Incremented | src/backend/db/models.py:38-40 | `$inc` adds each delta to its field, a missing field counting as 0, and leaves other fields alone |
| Collection.InMemoryCollection.constructor | src/backend/db/models.py:19-21 | a new collection is empty with counter 0 |
| Collection.InMemoryCollection.FindOne | src/backend/db/models.py:23-30 | the first document with the name, none without a name in the query, nothing changed |
| Collection.InMemoryCollection.UpdateOne | src/backend/db/models.py:32-42 | true and the increments applied to the first match, or false and nothing changed when there is no match or no name |
| Collection.InMemoryCollection.InsertOne | src/backend/db/models.py:44-50 | the counter goes up by one and the document is appended under that fresh key, larger than every earlier key |
| Collection.InMemoryCollection.DeleteOne | src/backend/db/models.py:210 | removes the first document with the name, keeping the rest in order |
| Collection.ApplyIncrements | src/backend/db/models.py:39-40 | the in-place loop over the `$inc` fields computes the increments |
| Collection.KeysDistinct | src/backend/db/models.py:46-47 | the ids `str(counter)` of two different documents differ |
| InventoryDb.InventoryDatabase.constructor | src/backend/db/models.py:67-72 | two fresh, empty collections: empty stock and empty sale log |
| InventoryDb.InventoryDatabase.Lookup | src/backend/db/models.py:23-30 | `find_one` finds a record exactly when the stock has the name, with its quantity |
| InventoryDb.InventoryDatabase.Increment | src/backend/db/models.py:110-113 | `$inc` on a present record changes only that name's quantity |
| InventoryDb.InventoryDatabase.Insert | src/backend/db/models.py:117-121 | inserting a new name adds exactly that record, names stay unique |
| InventoryDb.InventoryDatabase.Remove | src/backend/db/models.py:210 | removing drops exactly that name's record |
| InventoryDb.StockOfUpdate | src/backend/db/models.py:32-42 | replacing a document by one of the same name sets only that name's stock entry, keeping names unique |
| InventoryDb.StockOfRemove | src/backend/db/models.py:210 | removing a document drops only its name from the stock |
| InventoryDb.InventoryDatabase.AddProduct | src/backend/db/models.py:101-135 | the stock and the result are those of `LedgerSpec.Add`, names stay unique |
| InventoryDb.InventoryDatabase.SellProduct | src/backend/db/models.py:137-180 | the stock, sale log and result are those of `LedgerSpec.Sell` |
| InventoryDb.InventoryDatabase.LogSale | src/backend/db/models.py:162-167 | one sale is appended to the log and nothing else changes |
| InventoryDb.InventoryDatabase.DeleteProduct | src/backend/db/models.py:182-223 | with `delete_one`, the stock and result are those of `LedgerSpec.Delete` |
| InventoryDb.InventoryDatabase.DeleteProductAsWritten | src/backend/db/models.py:182-223 | against the in-memory collection, the stock and result are those of `LedgerSpec.DeleteAsWritten` |
| InventoryDb.MockStep | src/backend/db/models.py:263-279 | every ledger request of the mock fails with the fixed connection message |
| InventoryDb.MockInventory | src/backend/db/models.py:281-286 | the mock listing fails with the same message and an empty list |
| ProductNames.LaterEndingsUnreachable | src/backend/inventory_routes.py:619-628 | a name ending in "es", "ies" or "ves" already ends in "s", so those branches never run |
| ProductNames.DropPlural | src/backend/inventory_routes.py:619-628 | a name ending in "s" loses exactly one trailing "s"; any other is unchanged |
| ProductNames.KeepAllowed | src/backend/inventory_routes.py:631 | only a-z, 0-9 and white space remain, each of them exactly as often as in the input, and a clean string is unchanged |
| ProductNames.KeepAllowedAppend | src/backend/inventory_routes.py:631 | the filter distributes over concatenation, so the kept characters keep their order |
| ProductNames.CollapseSpaces | src/backend/inventory_routes.py:632 | the result has single spaces only, the same non-white-space characters in order, and starts with a space exactly when the input starts with white space |
| ProductNames.CollapseRun | src/backend/inventory_routes.py:632 | a whole run of white space becomes one space |
| ProductNames.CollapseAppend | src/backend/inventory_routes.py:632 | collapsing distributes over a concatenation that does not split a white-space run, so each maximal run becomes exactly one space and everything else is kept in place |
| ProductNames.Normalized | src/backend/inventory_routes.py:614-634 | `normalize_product_name` as a function; its results are stated by `ProductNames.NormalizedIsCanonical`, `ProductNames.NormalizedStable`, `ProductNames.NormalizedIgnoresCase`, `ProductNames.PluralOfWord` and `ProductNames.CaseOfWord` |
| ProductNames.NormalizeProductName | src/backend/inventory_routes.py:602-634 | the loop over the plural endings and the clean-up compute `Normalized` |
| ProductNames.NormalizedIsCanonical | src/backend/inventory_routes.py:631-632 | the result has only a-z, 0-9 and single spaces, with none at either end |
| ProductNames.CanonicalIsFixed | src/backend/inventory_routes.py:616-634 | a canonical name without a final "s" normalises to itself |
| ProductNames.NormalizedStable | src/backend/inventory_routes.py:616-634 | normalising again changes nothing unless the result ends in "s" |
| ProductNames.NormalizedIgnoresCase | src/backend/inventory_routes.py:616 | names equal up to case normalise alike |
| ProductNames.PluralOfWord | src/backend/inventory_routes.py:616-632 | a name whose lower-case form is a word plus "s" normalises to the word (the word may itself end in "s": only one "s" is removed) |
| ProductNames.CaseOfWord | src/backend/inventory_routes.py:616-632 | a name whose lower-case form is a word not ending in "s" normalises to the word (a word ending in "s" is the case of ProductNames.PluralOfWord) |
| ProductNames.ExampleApple | src/backend/inventory_routes.py:616-632 | "Apples", "apple" and "APPLE" all give "apple" |
| ProductNames.ExampleKnives | src/backend/inventory_routes.py:619-628 | "Knives" gives "knive": the "ves" rewrite never runs |
| InventoryRoutes.ProcessCommand | src/backend/inventory_routes.py:20-116 | the `/command` route; stated by `InventoryRoutes.CommandNeedsText`, `InventoryRoutes.CommandParseFailure` and `InventoryRoutes.CommandRunsOneRequest` |
| InventoryRoutes.OpOf | src/backend/inventory_routes.py:61-76 | each parsed action calls its own ledger operation with the parsed product and quantity |
| InventoryRoutes.CommandNeedsText | src/backend/inventory_routes.py:31-47 | a missing or blank text is refused with 400 and the ledger is unchanged |
| InventoryRoutes.CommandParseFailure | src/backend/inventory_routes.py:50-58 | a parse error is a 400 with the parser's message and the example commands |
| InventoryRoutes.CommandRunsOneRequest | src/backend/inventory_routes.py:60-109 | a parsed command runs exactly one ledger request; 200 exactly when it succeeds, echoing the stripped text, the ledger's action name, the parsed product and its positive quantity; otherwise 500 with the ledger's error message and the ledger unchanged |
| InventoryRoutes.ParsedQuantityPositive | src/utils/parser.py:37-38 | a parsed quantity is positive |
| InventoryRoutes.LowStock | src/backend/inventory_routes.py:173 | the low-stock list is exactly the products with quantity below 5 |
| InventoryRoutes.InventoryStats | src/backend/inventory_routes.py:167-185 | a listing that failed is passed on; otherwise the product count is the listing's length, the total is the sum of all quantities, the low-stock list is the products below 5 in listing order and its count is its length |
| InventoryRoutes.TotalQuantity | src/backend/inventory_routes.py:170 | the sum of the quantities (`InventoryRoutes.TotalQuantityAppend`, `InventoryRoutes.TotalQuantityBounds`, `InventoryRoutes.TotalQuantityNonNegative`) |
| InventoryRoutes.TotalQuantityAppend | src/backend/inventory_routes.py:170 | the total of two listings together is the sum of their totals |
| InventoryRoutes.LowStockAppend | src/backend/inventory_routes.py:173 | the low-stock list keeps listing order |
| InventoryRoutes.TotalQuantityBounds | src/backend/inventory_routes.py:170 | with non-negative quantities the total is at least each product's quantity |
| InventoryRoutes.TotalQuantityNonNegative | src/backend/inventory_routes.py:170 | with non-negative quantities the total is non-negative |
| InventoryRoutes.Truncate | src/backend/inventory_routes.py:268 | `int()` of a float rounds toward zero |
| InventoryRoutes.DropUnderscores | src/backend/inventory_routes.py:268 | removing the digit-group underscores from digits and underscores leaves only digits, and a string of digits is unchanged |
| InventoryRoutes.DropUnderscoresKeeps | src/backend/inventory_routes.py:268 | no underscore remains and every other character is kept exactly as often as it occurs |
| InventoryRoutes.DropUnderscoresAppend | src/backend/inventory_routes.py:268 | removing underscores distributes over concatenation, so the digits keep their order |
| InventoryRoutes.Magnitude | src/backend/inventory_routes.py:268 | digit groups without sign, at most 4300 digits (`InventoryRoutes.MagnitudeOfDecimal`) |
| InventoryRoutes.IntLiteral | src/backend/inventory_routes.py:268 | `int()` of a string (`InventoryRoutes.IntLiteralRoundTrip`, `InventoryRoutes.NegativeLiteral`) |
| InventoryRoutes.PyInt | src/backend/inventory_routes.py:268 | `int()` of a JSON value: booleans as 0 and 1, floats truncated (`InventoryRoutes.Truncate`), strings read as literals, null and others refused |
| InventoryRoutes.IntLiteralRoundTrip | src/backend/inventory_routes.py:268 | `int(str(n)) == n` for every integer of at most 4300 digits; a longer decimal form is refused by `int()` |
| InventoryRoutes.NegativeLiteral | src/backend/inventory_routes.py:268 | `int()` of a negative number's decimal form is the number when it has at most 4300 digits, and fails otherwise |
| InventoryRoutes.MagnitudeOfDecimal | src/backend/inventory_routes.py:268 | a plain decimal string reads back as its number when it has at most 4300 digits, and is refused otherwise |
| InventoryRoutes.FirstMatch | src/backend/inventory_routes.py:257 | the first product whose name equals the given one up to case, or none |
| InventoryRoutes.ResolveQuantity | src/backend/inventory_routes.py:252-278 | how the delete route settles the quantity; stated through `InventoryRoutes.DeleteItem` by the lemmas below |
| InventoryRoutes.DeleteItem | src/backend/inventory_routes.py:215-306 | the `/delete` route; stated by `InventoryRoutes.DeleteRejectsBadQuantity`, `InventoryRoutes.DeleteSuppliedQuantity`, `InventoryRoutes.DeleteWithoutQuantity`, `InventoryRoutes.DeleteByOtherCase` and `InventoryRoutes.DeleteSuccessWithinStock` |
| InventoryRoutes.RemovedMessage | src/backend/inventory_routes.py:286-293 | the 200 message "Successfully deleted {q} units of {name}" (stated in `InventoryRoutes.DeleteSuppliedQuantity` and `InventoryRoutes.DeleteWithoutQuantity`) |
| InventoryRoutes.DeleteRejectsBadQuantity | src/backend/inventory_routes.py:266-278 | a supplied quantity that does not convert or is not positive is refused with 400 and nothing changes |
| InventoryRoutes.DeleteSuppliedQuantity | src/backend/inventory_routes.py:266-298 | a valid supplied quantity is exactly one delete of the stripped name; the reply is 200 with "Successfully deleted {q} units of {name}", that name and quantity when the ledger succeeds, and otherwise 400 with the ledger's error message |
| InventoryRoutes.DeleteWithoutQuantity | src/backend/inventory_routes.py:252-298 | without a quantity, the first case-insensitive match's whole stock is deleted from the stripped name, with the same 200 or 400 reply as a supplied quantity; no match is a 404 |
| InventoryRoutes.DeleteByOtherCase | src/backend/inventory_routes.py:257-281 | a listed product equal to the name only up to case supplies the quantity, but the ledger, which has no record under the exact name, refuses with "Product not found" |
| InventoryRoutes.DeleteMatchesCaseButNotName | src/backend/inventory_routes.py:257-281 | a stored "Milk" found for "milk" is still deleted under "milk", which the ledger does not know |
| InventoryRoutes.DeleteSuccessWithinStock | src/backend/inventory_routes.py:266-293 | a successful delete reports a quantity no larger than the stock, the stock drops by exactly that quantity, and a supplied quantity is positive |
| BulkImport.MissingFrom | src/backend/inventory_routes.py:428-435 | the missing columns are exactly the required ones not in the sheet |
| BulkImport.MissingFromAppend | src/backend/inventory_routes.py:428-429 | the missing list distributes over the required list, so the missing names keep the required order |
| BulkImport.Records | src/backend/inventory_routes.py:444-470 | `dropna` then `to_dict`: at most as many records as rows, and none exactly when every row lacks a name or a quantity |
| BulkImport.Record | src/backend/inventory_routes.py:437-442 | the derived `total_value` and `profit` columns when the sheet has none (`BulkImport.BelowCostReportedAsNegative`) |
| BulkImport.Check | src/backend/inventory_routes.py:510-522 | the three checks in order, the first failing one deciding (`BulkImport.InvalidIsReported`, `BulkImport.ValidIsAdded`, `BulkImport.BelowCostReportedAsNegative`) |
| BulkImport.AcceptedOrReported | src/backend/inventory_routes.py:510-561 | each record is either sent to the ledger or reported as an error, never both |
| BulkImport.InvalidIsReported | src/backend/inventory_routes.py:510-522 | an invalid record is reported as "Row {index + 2}: " and its first failing check |
| BulkImport.ValidIsAdded | src/backend/inventory_routes.py:529-556 | a valid record reaches the ledger as an addition of its stripped name and quantity |
| BulkImport.AcceptedArePositiveAdds | src/backend/inventory_routes.py:510 | every ledger request of the import adds a positive quantity |
| BulkImport.FoldLedger | src/backend/inventory_routes.py:529-561 | the ledger after the loop is the ledger after the valid records' additions, in order |
| BulkImport.FoldErrors | src/backend/inventory_routes.py:510-522 | the error list after the loop is exactly the invalid records' lines, in order |
| BulkImport.FoldCounts | src/backend/inventory_routes.py:531-559 | the imported counter counts the keys added to the seen set, and imported plus updated counts the valid records |
| BulkImport.ImportRecords | src/backend/inventory_routes.py:473-567 | the row loop yields that ledger, that error list, and imported + updated + errors = number of records |
| BulkImport.VisitRecord | src/backend/inventory_routes.py:478-561 | one pass of the loop body: an error line, or one ledger add and one counter bumped |
| BulkImport.VisitLedger | src/backend/inventory_routes.py:529-556 | one record moves the ledger by its own `add_product` exactly when it is valid |
| BulkImport.VisitCounts | src/backend/inventory_routes.py:531-559 | one valid record adds its key to the seen set and bumps exactly one counter, the imported one exactly when the key was new |
| BulkImport.ProcessSheet | src/backend/inventory_routes.py:427-589 | missing columns or no records fail with their messages; otherwise success with zero duplicates, the counts above and the summary message |
| BulkImport.Summary | src/backend/inventory_routes.py:569-577 | the non-zero counts joined by ", " (`BulkImport.SummaryParts`) |
| BulkImport.SummaryParts | src/backend/inventory_routes.py:569-577 | the summary is empty when every count is 0, one part alone when one count is non-zero, and all three parts in the order imported, updated, errors |
| BulkImport.ImportKeepsNonNegative | src/backend/inventory_routes.py:510-556 | an import keeps every quantity non-negative |
| BulkImport.BelowCostReportedAsNegative | src/backend/inventory_routes.py:441-517 | without a profit column, a record priced below cost is reported as a negative financial value, not by the selling-price check |
| BulkImport.Snapshot | src/backend/inventory_routes.py:456-461 | the lower-cased, stripped names of a successful listing, none otherwise (`BulkImport.SnapshotOfOne`, `BulkImport.SnapshotMissesPlurals`) |
| BulkImport.SnapshotOfOne | src/backend/inventory_routes.py:459 | the known names are the listed names lower-cased and stripped |
| BulkImport.SnapshotMissesPlurals | src/backend/inventory_routes.py:457-531 | a stored plural name is known by its plural, while a record with that name looks up the singular and counts as new |
| BulkImport.SnapshotMissesApples | src/backend/inventory_routes.py:457-531 | a stored "Apples" is known as "apples"; a record "Apples" looks up "apple" |
| Auth.HeaderToken | src/backend/auth_routes.py:287-289 | the header yields a token exactly when it starts with "Bearer ", and the token is the stripped rest |
| Auth.FirstTruthy | src/backend/auth_routes.py:292-301 | the chosen token is truthy and one of the candidates; there is none exactly when no candidate is truthy |
| Auth.FirstTruthyIsFirst | src/backend/auth_routes.py:292-299 | no truthy candidate comes before the chosen one |
| Auth.Refusal | src/backend/auth_routes.py:301-324 | a GET outside "/api/" is redirected to "/login"; every other request gets a 401 with the error |
| Auth.RequireAuth | src/backend/auth_routes.py:281-332 | no token: refused with "Authorization required"; token refused by the validator: refused with its error; otherwise the handler runs as the validator's user and username |
| Auth.Candidates | src/backend/auth_routes.py:284-299 | the header, the query for GET and the body for JSON POST, in that order (`Auth.ChannelsByMethod`, `Auth.HeaderTakesPrecedence`) |
| Auth.Chosen | src/backend/auth_routes.py:284-299 | the first truthy candidate (`Auth.FirstTruthy`, `Auth.FirstTruthyIsFirst`, `Auth.ChosenIsToken`) |
| Auth.ChosenIsToken | src/backend/auth_routes.py:284-299 | the reassignment chain ends with the first truthy candidate, or with a falsy value when there is none |
| Auth.HeaderTakesPrecedence | src/backend/auth_routes.py:287-289 | a non-blank Bearer token is chosen whatever the query or body holds |
| Auth.SchemeIsCaseSensitive | src/backend/auth_routes.py:288 | a header without the exact "Bearer " prefix gives no token |
| Auth.BlankHeaderFallsThrough | src/backend/auth_routes.py:289-293 | a header token of only white space counts as none, and a GET falls through to the unstripped query argument |
| Auth.ChannelsByMethod | src/backend/auth_routes.py:292-299 | the query argument counts for GET only, the body for JSON POST only |
| Auth.BodyNeedsObject | src/backend/auth_routes.py:296-299 | the body token counts only when the body is a non-empty object holding a truthy field |
| Auth.SignupFields | src/backend/auth_routes.py:19-38 | no body is refused with "No data provided" |
| Auth.LoginFields | src/backend/auth_routes.py:70-87 | no body is refused with "No data provided" |
| Auth.SessionFields | src/backend/auth_routes.py:136-150 | no body is refused with "No data provided" |
| Auth.SessionAccepts | src/backend/auth_routes.py:136-153 | validate and logout reach the session store exactly when the stripped `session_token` is non-empty, refuse a blank one with 400 "Session token is required", and pass the token on stripped |
| Auth.ProfileHeader | src/backend/auth_routes.py:224-231 | a header without "Bearer " is refused with 401 "Invalid authorization header" |
| Auth.SignupAccepts | src/backend/auth_routes.py:28-38 | signup reaches the user store exactly when stripped username and e-mail and the raw password are non-empty, with username and e-mail stripped |
| Auth.LoginAccepts | src/backend/auth_routes.py:79-87 | login reaches the user store exactly when the stripped username and the raw password are non-empty |
| Auth.BlankPasswordKept | src/backend/auth_routes.py:80-83 | a password of spaces is accepted as sent; a username of spaces is refused |
| Auth.ProfileAgreesWithGuard | src/backend/auth_routes.py:227-289 | the profile route accepts a header token exactly when the guard finds one in the header, and it is the same token |
| Auth.ProfileRefusals | src/backend/auth_routes.py:227-239 | a missing scheme is a 401, a blank token a 400 |

## Left out

- Flask, pandas, MongoDB, logging, timestamps (`created_at`, sale `timestamp`), `serialize_datetime`
  and the try/except blocks that turn unexpected exceptions into 500 replies: I/O and library code.
- The MongoDB branch of `InventoryDatabase.__init__`, the connection test and `get_db`'s global
  instance: external storage. Only the in-memory collections are modelled.
- `InMemoryCollection.find` and `get_inventory`: `find` calls `type()` with four arguments and
  cannot run. Routes that need the listing take it as a parameter (`InventoryRead`).
- The routes pass `user_id` and, in the import, price keywords to `add_product`, `sell_product`,
  `delete_product` and `get_inventory`. The shown methods take only a name and a quantity and
  scope nothing by owner. The model calls the shown two-argument ledger. As written, each of those
  calls raises `TypeError`: a parsed command, the statistics and every delete that gets past its
  400 checks answer 500 from the routes' outer handlers (inventory_routes.py:111-116, 187-192,
  300-306), and `db.get_inventory(user_id)` (inventory_routes.py:457) makes every import that
  passes the column and empty-sheet checks return "Error processing Excel file: ..." (596-600).
- InventoryRoutes.ProcessCommand: the "Unknown action" 400 branch is unreachable, because the
  parser only returns the three actions.
- BulkImport.ProcessSheet: rows arrive already typed (`int` quantity, `real` prices). It does not
  model the `int(float(...))` and `float(...)` coercions that turn unreadable cells into 0. It
  does not model NaN or infinite prices. It does not model the per-row exception handler, which
  itself refers to an undefined `row`.
- BulkImport.ProcessSheet: `existing_products` starts empty when the listing fails. The model
  takes the listing as a parameter and reads it with `Snapshot`.
- Unicode: `lower()`, `\d` and `[^a-z0-9\s]` are modelled on ASCII letters and digits only; the
  white-space set is the full one of `str.isspace`. Likewise `int()` of a JSON string
  (`InventoryRoutes.IntLiteral`) reads ASCII digits only, while Python also reads other decimal
  digits (`int("٣")` is 3): the model refuses such a delete quantity with 400 where the program
  deletes.
- Auth: `validate_session`, `create_user`, `authenticate_user`, `create_session` and
  `delete_session` are not in the shown models.py. Validation is a function parameter; the other
  routes stop at the call into the user store (`CreateUser`, `Authenticate`, `CheckSession`).
- Auth.SignupFields, Auth.LoginFields, Auth.SessionFields, Auth.RequireAuth: body fields are
  strings and a non-empty body is an object. A non-string value makes `.strip()` raise, and a
  truthy body that is not an object (a list, a string) makes `.get` raise (auth_routes.py:298 in
  the guard); neither is modelled.
- Auth.RequireAuth: a JSON body that does not parse is left out. The guard's own call to
  `request.get_json()` (auth_routes.py:297) raises, and Flask answers 400.
- InventoryRoutes.DeleteItem, InventoryRoutes.DeleteWithoutQuantity, InventoryRoutes.CommandRunsOneRequest:
  the routes call the corrected `LedgerSpec.Delete` (see Findings). Against the in-memory
  collection, a delete that brings the quantity to exactly 0 instead fails with the message of
  the missing `delete_one` and leaves a record at 0 (`LedgerSpec.DeleteAsWrittenLeavesZeroRecord`).
  This is always the case for the whole-stock delete without a quantity.
- InventoryRoutes.DeleteSuccessWithinStock: a success is the corrected delete's success; in memory
  a delete of the whole stock reports no success at all.
- InventoryRoutes.PyInt: JSON `Infinity` and `NaN`, which Python's JSON parser accepts, are not
  modelled. `int(nan)` raises `ValueError` (400 "Invalid quantity format"); `int(inf)` raises
  `OverflowError`, which only the route's outer handler catches (500 "Server error: ...").
- InventoryRoutes.RemovedMessage: `str()` and f-strings raise for integers of more than 4300 digits;
  the success message and the ledger's messages are modelled as if every quantity could be written.
- Concurrency: the read-then-write race between two sells of the same product. The model is
  sequential.
- Normalisation follows the code: "Knives" becomes "knive". The "es", "ies" and "ves" rewrites
  never run, because the "s" ending is tested first.

## Findings

| source | as written | input that shows it | evidently intended | confidence | as-written member | corrected member |
|---|---|---|---|---|---|---|
| src/backend/db/models.py:207-210 | `delete_product` calls `delete_one`, which `InMemoryCollection` (models.py:16-55) does not define | in-memory store holding "milk" at 3, `delete_product("milk", 3)` | the record is removed and the delete succeeds | not executed | LedgerSpec.DeleteAsWrittenLeavesZeroRecord | InventoryDb.InventoryDatabase.DeleteProduct |
