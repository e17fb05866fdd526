# Supermarket billing and inventory engine, in Dafny

This project models the transaction engine of a single-till supermarket
point of sale (`supermarket.py`, class `SupermarketApp`), without its tkinter
screens, sqlite plumbing, e-mail and PDF receipts. The state is:

- the **inventory** table;
- the append-only **stock history**, one (item id, time, quantity on hand)
  observation per row;
- the append-only **sales** table;
- the cashier's **current bill**, a list of (barcode, name, price, quantity)
  lines.

The operations act on that state:

- adding a product by barcode;
- editing a line's quantity;
- removing a line and clearing the bill;
- the bill totals;
- checkout, which validates every line, then deducts and logs each line,
  records the sale, reports the products now low on stock and clears the bill;
- the dashboard's low-stock filter and the product list's search filter;
- first-run seeding of the fifteen default products with
  INSERT OR IGNORE.

The modules follow the program's parts:

- `Text`: `strip()`, `lower()` and `in`.
- `Catalog`: the inventory rows and their invariant, lookups,
  `ORDER BY name`, the low-stock and search filters.
- `Bill`: bill lines, adding a unit, the edit verdict, removal, totals.
- `StockHistory`: history entries and the invariant the log keeps.
- `Checkout`: validation, deduction, the history rows a commit appends,
  the sale record and the post-sale low-stock report.
- `Seeding`: the default list and `seed_default_items`.
- `App`: the class `SupermarketApp`. Its methods change the tables and the
  bill in place, and each is proved against the pure functions of the modules
  above.

The class keeps `Valid()` across every operation:

- inventory barcodes are unique;
- ids increase along the table and stay below the next AUTOINCREMENT id;
- no stock is negative;
- bill barcodes are distinct and every line asks for at least one unit;
- every history entry is at least its product's current stock;
- each product's history never increases;
- history and sales timestamps are in order and none is later than the
  clock.

Modelling choices:

- Prices are whole paise (`nat`).
- The tax is `DEFAULT_TAX_PERCENT = 0.0` (supermarket.py:57), which makes the
  tax zero and the total equal to the subtotal. The program multiplies the
  subtotal by this value as a fraction (supermarket.py:483, 571). The model's
  `TaxPercent` is a whole percentage. Both are zero, so the results agree.
- Timestamps are an abstract `now: nat`. The field `clock` is the latest time
  written, and checkout requires `clock <= now`.
- The name-ordered cache `self.inventory` is `SortByName(rows)`. The program
  reloads it right after each checkout (supermarket.py:580), and nothing else
  in the core writes the table.
- The tables are sequences in rowid order, not maps. A SELECT
  `WHERE barcode=?` takes the first row with that barcode, and an UPDATE
  `WHERE barcode=?` changes every row with it. The UNIQUE constraint makes
  that one row in both cases.
- A dialog's answer is a parameter: the selected bill position, the parsed
  quantity entry, the clear confirmation, the customer box's text.

## Model

| member | source | states |
|---|---|---|
| Text.StripSpec | supermarket.py:432 | `strip()` yields s[a..b] where everything before a and from b on is white space (Python's `isspace` set); the result is blank exactly when the text is all white space, and otherwise starts and ends with non-space |
| Text.LowerSpec | supermarket.py:432-433 | `lower()` maps each character through the ASCII case map, leaves no upper-case letter and is idempotent |
| Text.Contains | supermarket.py:433 | `q in s` is true exactly when q occurs at some position of s (so the empty text occurs everywhere) |
| Catalog.IndexOf | supermarket.py:552-553 | the `WHERE barcode=?` lookup finds a row with exactly that barcode, the first one, and finds none exactly when no row has it |
| Catalog.IndexOfRow | supermarket.py:85 | with UNIQUE barcodes a row's own barcode finds that row |
| Catalog.IndexOfAppend | supermarket.py:139-142 | looking a code up after an INSERT appended a row: an earlier match wins, else the new row if its barcode matches, else none |
| Catalog.Available | supermarket.py:531-534 | the stock the editor checks against is the quantity of the row with that barcode, and 0 when no row has it |
| Catalog.FindByCode | supermarket.py:451 | the `next(...)` lookup returns the first listed product whose trimmed, lower-cased barcode equals the trimmed, lower-cased code, or none exactly when no product matches |
| Catalog.ScanListing | supermarket.py:451 | the generator's walk stops exactly where FindByCode says, and at the end when nothing matches |
| Catalog.NameLeTotal | supermarket.py:345 | the code-point string order compares any two names |
| Catalog.NameLeTrans | supermarket.py:345 | the code-point string order is transitive |
| Catalog.InsertByName | supermarket.py:345 | inserting into a name-ordered listing keeps it ordered and adds exactly that product to its multiset |
| Catalog.SortByName | supermarket.py:345-346 | `ORDER BY name` yields a name-ordered permutation of the table |
| Catalog.LowStock | supermarket.py:669 | the low-stock filter keeps exactly the products strictly below 10 on hand, and a name-ordered listing gives a name-ordered result |
| Catalog.LowStockCount | supermarket.py:669 | each low product appears in the result as many times as in the listing (once per table row), every other product not at all |
| Catalog.Matching | supermarket.py:433 | the search keeps exactly the products whose lower-cased name, barcode or category contains the text, and a name-ordered listing gives a name-ordered result |
| Catalog.MatchingCount | supermarket.py:433 | each hit appears in the result as many times as in the listing, every other product not at all |
| Catalog.Search | supermarket.py:432-433 | a blank trimmed search shows the listing itself; otherwise exactly the hits of the trimmed, lower-cased text, each as often as in the listing, name-ordered when the listing is |
| Bill.LineOf | supermarket.py:459-460 | the first bill line with exactly that barcode, or none exactly when no line has it |
| Bill.ScanBill | supermarket.py:459-463 | the `for ... break / else` walk stops at the line LineOf finds, and at the end when there is none |
| Bill.AddUnitSpec | supermarket.py:458-464 | adding raises exactly the line with the product's barcode by one unit and leaves the other lines alone; with no such line it appends one line of one unit at the product's current price |
| Bill.AddUnitAt | supermarket.py:458-464 | the same two outcomes, given where the walk stopped, and a valid bill stays valid |
| Bill.AddUnitKeepsValid | supermarket.py:458-464 | adding keeps bill barcodes distinct and every quantity at least one |
| Bill.EditVerdict | supermarket.py:521-537 | an entry is refused as invalid exactly when it is not an integer or is below 1, refused as short exactly when it is above the stock (reporting that stock), accepted otherwise |
| Bill.SetQuantityKeepsValid | supermarket.py:538 | setting one line to a positive quantity keeps the bill valid |
| Bill.RemoveAt | supermarket.py:502-503 | `pop(idx)` for an in-range idx drops exactly that line and keeps the others in order; any other idx leaves the bill alone |
| Bill.RemoveAtKeepsValid | supermarket.py:502-503 | removal keeps the bill valid, and the removed barcode is no longer billed |
| Bill.Total | supermarket.py:483-484 | with the zero rate the total equals the subtotal |
| Bill.SubtotalConcat | supermarket.py:478-481 | the accumulated subtotal of two bills end to end is the sum of their subtotals |
| Bill.AddUnitSubtotal | supermarket.py:458-464 | adding a unit raises the subtotal by the pinned price of the line that got it, or by the product's price for a new line |
| Bill.SetQuantitySubtotal | supermarket.py:538 | changing a line's quantity changes the subtotal by its price times the difference |
| Bill.RemoveAtSubtotal | supermarket.py:503 | removing a line takes exactly its line total off the subtotal |
| StockHistory.AppendKeepsValid | supermarket.py:567-568 | appending a batch stamped `now` keeps the log valid when each new entry is bounded by its product's stock, is not above an older entry for that product, and names each product once |
| Checkout.RecordSaleKeepsValid | supermarket.py:574-575 | a sale stamped no earlier than the clock keeps the sales table in time order |
| Checkout.CustomerLabel | supermarket.py:573 | the customer is the trimmed entry, or "Walk-in" exactly when the entry is blank, and is never blank |
| Checkout.FindConflict | supermarket.py:551-557 | validation stops at the first line whose barcode has no row or whose row holds fewer units than asked, and passes exactly when no line is short |
| Checkout.QtyInDistinct | supermarket.py:559-560 | with distinct bill barcodes, the units asked under a line's barcode are that line's quantity |
| Checkout.Deducted | supermarket.py:559-560 | after the update loop each row has lost exactly the units the bill asks under its barcode, and nothing else about it changed |
| Checkout.CommitEffect | supermarket.py:559-560 | each billed product loses exactly its line's quantity; every product not on the bill is unchanged |
| Checkout.CommitKeepsStoreValid | supermarket.py:551-560 | after validation passes the deduction keeps the table valid; in particular no stock goes below zero |
| Checkout.HistoryRows | supermarket.py:559-568 | a commit appends at most one entry per line, and exactly one per line when every barcode has a row |
| Checkout.DeductedIndexOf | supermarket.py:560-562 | the UPDATE leaves barcodes alone, so the read-back finds the same row |
| Checkout.HistoryRowsAt | supermarket.py:559-568 | entry j of a commit is line j's product id, the commit time and that product's stock minus line j's quantity |
| Checkout.NoConflictAllFound | supermarket.py:554 | passing validation means every billed barcode has a row |
| Checkout.SameIdSameRow | supermarket.py:84 | AUTOINCREMENT ids identify rows: two rows share an id only when they are the same row |
| Checkout.OldEntriesBounded | supermarket.py:559-560 | deduction only lowers stock, so older entries stay at or above current stock |
| Checkout.NewEntriesBounded | supermarket.py:562-568 | each new entry holds exactly the current stock of its product |
| Checkout.NewEntriesBelowOld | supermarket.py:562-568 | no new entry is above an older entry for the same product, so each product's history is non-increasing |
| Checkout.NewEntriesDistinct | supermarket.py:559-568 | one commit logs each product at most once |
| Checkout.NewEntriesAt | supermarket.py:568 | every new entry carries the commit's time |
| Checkout.CommitKeepsHistoryValid | supermarket.py:559-568 | a commit keeps the log bounded by stock, non-increasing per product and in time order |
| Checkout.CheckoutKeepsValid | supermarket.py:544-576 | a successful checkout leaves a valid table, a valid log and a sales table in time order |
| Checkout.SoldProducts | supermarket.py:584-588 | the rows re-read for the sold lines: one per line, in bill order, each the row with that line's barcode |
| Checkout.LowAfterSaleIsLowStock | supermarket.py:583-591 | the post-sale scan is the dashboard's strict `<` filter applied to the products just sold, in bill order |
| Seeding.DefaultCodesDistinct | supermarket.py:121-137 | the fifteen default barcodes are pairwise distinct |
| Seeding.DefaultsWellFormed | supermarket.py:121-137 | the default list has fifteen seeds, distinct barcodes and no negative stock |
| Seeding.SeedOneSpec | supermarket.py:139-146 | a round leaves a row for the seed's barcode; an ignored insert keeps the table (and, in the model, the id counter); a new barcode is appended under the next id; exactly one entry is logged with the seed's quantity against the row found |
| Seeding.SeedOneKeepsStoreValid | supermarket.py:139-140 | one INSERT OR IGNORE of a seed with non-negative stock keeps the table valid |
| Seeding.SeedAllKeepsStoreValid | supermarket.py:138-146 | the seeding loop keeps the table valid |
| Seeding.SeedAllGrows | supermarket.py:138-146 | seeding never rewrites or drops a row or an entry and logs exactly one entry per seed |
| Seeding.SeedAllPresent | supermarket.py:138-146 | after seeding every seed's barcode has a row |
| Seeding.SeedAllIdle | supermarket.py:139-140 | when every seed is already present the table comes out unchanged (and, in the model, the id counter) |
| Seeding.SeedAllIdempotent | supermarket.py:139-140 | seeding a seeded table again, at any time, changes no row (and, in the model, consumes no id) |
| Seeding.SeedOneNew | supermarket.py:139-146 | a new barcode is appended under the next id and its quantity is logged under that id |
| Seeding.SeedFresh | supermarket.py:138-146 | seeding an empty table with distinct seeds gives row k = seed k under id first + k and entry k = seed k's quantity under that id |
| Seeding.OpeningLogValid | supermarket.py:141-146 | an opening log of one entry per row with that row's id and stock is valid against the table |
| Seeding.LayoutValid | supermarket.py:138-146 | tables laid out from distinct, stocked seeds are valid |
| Seeding.FreshSeedValid | supermarket.py:112-115 | seeding distinct, stocked seeds into empty tables leaves a valid inventory and a valid log |
| Seeding.InitialTables | supermarket.py:112-146 | a fresh database holds the fifteen defaults in list order under ids 1 to 15, each with one opening entry, and is valid |
| App.SupermarketApp.Inventory | supermarket.py:342-346 | the cached listing is a permutation of the table's rows (each row once), in name order |
| App.SupermarketApp.LowStockWarning | supermarket.py:668-669 | the dashboard panel lists each product strictly below 10 on hand exactly as often as the table holds it, and nothing else, in name order |
| App.SupermarketApp.ProductList | supermarket.py:432-433 | a blank trimmed search shows the whole listing; otherwise each product whose name, barcode or category contains the text, as often as the table holds it, and nothing else, in name order |
| App.SupermarketApp.InitDb | supermarket.py:112-115 | opening a fresh database seeds the given defaults into the empty tables, with the sales table and the bill empty, and the state is valid |
| App.SupermarketApp.SeedItems | supermarket.py:138-146 | the seeding loop leaves the tables as SeedAll over the seeds in list order |
| App.SupermarketApp.AddItemByBarcode | supermarket.py:449-464 | an unknown code and a product with no stock are refused with the bill unchanged; otherwise the bill is AddUnit of the found product, and it stays valid |
| App.SupermarketApp.AddToBill | supermarket.py:458-464 | the bill becomes AddUnit of the item and stays valid |
| App.SupermarketApp.EditSelectedQty | supermarket.py:520-538 | the verdict is EditVerdict against the live stock; an accepted edit sets only that line's quantity to the new value; a refused one leaves the bill unchanged |
| App.SupermarketApp.RemoveSelectedBillItem | supermarket.py:496-505 | the bill becomes RemoveAt of the selection, and the removed line is returned exactly when the position is in range |
| App.SupermarketApp.ClearBill | supermarket.py:489-494 | a non-empty bill is emptied when confirmed; otherwise it is unchanged |
| App.SupermarketApp.BillTotals | supermarket.py:475-487 | the loop's subtotal is Subtotal of the bill, the tax is zero and the total equals the subtotal; nothing changes |
| App.SupermarketApp.FindStockConflict | supermarket.py:551-557 | the validation loop returns FindConflict, which is none exactly when every line can be served |
| App.SupermarketApp.LowStockAfterSale | supermarket.py:582-591 | the post-sale loop returns LowAfterSale of the sold lines against the table as it now is |
| App.SupermarketApp.ProcessCheckout | supermarket.py:544-616 | an empty bill or a short line changes no table, the bill or the clock; otherwise the table is Deducted, the log grows by HistoryRows, one sale with the bill, its total and the customer label is recorded, the low-stock report is returned, the bill is cleared, and the state stays valid |
| App.SupermarketApp.CompleteSale | supermarket.py:558-616 | after validation: deduct and log, record the sale, report low stock, clear the bill, and stay valid |
| App.SupermarketApp.RecordSale | supermarket.py:574-575 | the sales INSERT appends exactly the sale, moves the clock to its time and the bill is cleared |
| App.SupermarketApp.CommitBill | supermarket.py:558-568 | the update and history loop leaves the table Deducted and appends HistoryRows to the log |

## Left out

- The tkinter screens and dialogs, the login and authentication, the SMTP
  low-stock e-mail and the PDF or text receipt are I/O. The model returns the
  alert list and the sale instead.
- The matplotlib sales graph is plotting, and is not part of this model.
- sqlite is not modelled. The tables are fields of the class, and a commit
  is the end of the method. Durability and atomicity against crashes are left
  out.
- Floating-point prices, the `float` subtotal and the `:.2f` formatting are
  left out. Prices are whole paise.
- `datetime.now()` is left out. It is a single `now` per checkout, where the
  program reads the clock once per history row and once for the sale.
- `str.lower()` is modelled for ASCII letters only. Unicode case mapping is
  left out.
- Parsing the quantity entry with `int()` is left out. The edit takes the
  parse result as an `Option<int>`.
- The early returns when no bill row is selected (supermarket.py:497-500,
  508-511) are left out. The selected position is a parameter.
- The blank-entry check of `add_by_barcode_button` is left out. It belongs to
  the UI. In `FindByCode` a blank code matches only a product whose trimmed
  barcode is blank, and none of the default products has one.
- SQLite's order among rows with equal names is not specified by the
  program. The model puts a later row after earlier rows of the same name.
- App.SupermarketApp.InitDb: models opening a fresh database file only. An
  existing non-empty inventory, whose seeding is skipped, is not modelled.
- App.SupermarketApp.EditSelectedQty: the closure captures the line object
  when the dialog opens. The model takes the line's current position, so it
  does not model a dialog kept open while the bill changes under it.
- Seeding.SeedAllIdempotent: states idempotence of the inventory rows and the
  id counter only. Each seeding run, including one whose inserts are
  ignored, still logs one history entry per seed, with the seed's default
  quantity (supermarket.py:142-146).
- Seeding.SeedAllIdempotent, Seeding.SeedOneSpec and Seeding.SeedAllIdle:
  the model keeps the AUTOINCREMENT counter when an INSERT OR IGNORE is
  ignored. SQLite does not promise this, and an ignored insert may use up an
  id, leaving a gap. Only the rows are idempotent in the program itself. No
  observable behaviour depends on it: the program seeds only an empty
  inventory (supermarket.py:113-115), and the default barcodes are distinct,
  so no seed insert is ever ignored.
- Clearing the customer entry box after checkout (supermarket.py:618-621) is
  UI state, and is not part of this model.
- The `created_at` column of the inventory (supermarket.py:90, written at
  139-140) is not modelled. Nothing in the billing core reads it.
