/** The application object: the inventory, stock-history and sales tables,
    the current bill and the latest timestamp written, with the billing and
    checkout operations of the cashier screen. */
module App {
  import opened Optional
  import opened Catalog
  import opened StockHistory
  import opened Bill
  import opened Checkout
  import opened Seeding

  /** What scanning or clicking a barcode does. */
  datatype AddOutcome = NotFound | OutOfStock(name: string) | Added

  /** What the checkout button does. */
  datatype CheckoutResult =
    | EmptyBill
    | StockConflict(line: nat)
    | Completed(sale: Sale, lowStock: seq<Alert>)

  class SupermarketApp {
    /** The inventory table in rowid order. */
    var rows: seq<Product>
    /** The inventory's next AUTOINCREMENT id. */
    var nextItemId: nat
    /** The stock_history table. */
    var history: seq<HistoryEntry>
    /** The sales table. */
    var sales: seq<Sale>
    /** The current bill. */
    var bill: seq<BillLine>
    /** The latest timestamp written to any table. */
    var clock: nat

    ghost predicate Valid()
      reads this
    {
      && StoreValid(rows, nextItemId)
      && BillValid(bill)
      && HistoryValid(rows, history, clock)
      && SalesValid(sales, clock)
    }

    /** The cached inventory listing: every row, ordered by name. After a
        checkout the cache is reloaded, so it always shows the live table. */
    function Inventory(): (r: seq<Product>)
      reads this`rows
      ensures SortedByName(r)
      ensures multiset(r) == multiset(rows)
      ensures forall p :: p in r <==> p in rows
    {
      var r := SortByName(rows);
      assert forall p :: p in r <==> p in multiset(r);
      r
    }

    /** The dashboard's low-stock panel: exactly the products strictly below
        the threshold, in name order. */
    function LowStockWarning(): (r: seq<Product>)
      reads this`rows
      ensures forall p :: p in r <==> p in rows && p.quantity < LowStockThreshold
      ensures forall p :: multiset(r)[p] == (if p.quantity < LowStockThreshold then multiset(rows)[p] else 0)
      ensures SortedByName(r)
    {
      LowStockCount(Inventory());
      LowStock(Inventory())
    }

    /** The product list under the search box: the whole listing for a blank
        search, otherwise the products whose name, barcode or category
        contains the trimmed, lower-cased text, in name order. */
    function ProductList(query: string): (r: seq<Product>)
      reads this`rows
      ensures Normalize(query) == [] ==> r == Inventory()
      ensures forall p :: p in r <==> p in rows && Hit(p, Normalize(query))
      ensures forall p :: multiset(r)[p] == (if Hit(p, Normalize(query)) then multiset(rows)[p] else 0)
      ensures SortedByName(r)
    {
      Search(Inventory(), query)
    }

    /** init_db on a fresh database file, seeding `seeds` (the application
        passes Defaults): the tables start empty, so the inventory is empty
        and is seeded at `now`. */
    constructor InitDb(seeds: seq<Seed>, now: nat)
      requires DistinctSeeds(seeds) && StockedSeeds(seeds)
      ensures Valid()
      ensures Tables(rows, nextItemId, history) == SeedAll(Tables([], 1, []), seeds, now)
      ensures sales == [] && bill == [] && clock == now
    {
      rows, nextItemId, history := [], 1, [];
      sales, bill, clock := [], [], now;
      new;
      if |rows| == 0 {
        SeedItems(seeds, now);
      }
      FreshSeedValid(Tables(rows, nextItemId, history), seeds, now);
      assert BillValid(bill) && SalesValid(sales, clock);
    }

    /** seed_default_items over a list of seeds: one INSERT OR IGNORE and
        one opening history entry per seed, in list order. */
    method SeedItems(seeds: seq<Seed>, now: nat)
      modifies this`rows, this`nextItemId, this`history
      ensures Tables(rows, nextItemId, history) ==
              SeedAll(Tables(old(rows), old(nextItemId), old(history)), seeds, now)
    {
      ghost var t0 := Tables(rows, nextItemId, history);
      for i := 0 to |seeds|
        invariant Tables(rows, nextItemId, history) == SeedAll(t0, seeds[..i], now)
      {
        var s := seeds[i];
        ghost var before := Tables(rows, nextItemId, history);
        if IndexOf(rows, s.barcode).None? {
          rows := rows + [RowOf(nextItemId, s)];
          nextItemId := nextItemId + 1;
        }
        match IndexOf(rows, s.barcode) {
          case Some(k) =>
            history := history + [HistoryEntry(rows[k].id, now, s.quantity)];
          case None =>
        }
        assert seeds[..i + 1][..i] == seeds[..i];
        assert Tables(rows, nextItemId, history) == SeedOne(before, s, now);
      }
      assert seeds[..|seeds|] == seeds;
    }

    /** add_item_by_barcode: look the code up in the listing (trimmed, case
        ignored); refuse an unknown code or a product with no stock;
        otherwise add one unit of it to the bill. */
    method AddItemByBarcode(code: string) returns (outcome: AddOutcome)
      requires Valid()
      modifies this`bill
      ensures Valid()
      ensures match FindByCode(Inventory(), code)
        case None => outcome == NotFound && bill == old(bill)
        case Some(k) =>
          if Inventory()[k].quantity <= 0 then outcome == OutOfStock(Inventory()[k].name) && bill == old(bill)
          else outcome == Added && bill == AddUnit(old(bill), Inventory()[k])
    {
      var listing := Inventory();
      var i := ScanListing(listing, code);
      if i == |listing| {
        return NotFound;
      }
      var item := listing[i];
      if item.quantity <= 0 {
        return OutOfStock(item.name);
      }
      AddToBill(item);
      outcome := Added;
    }

    /** The second half of add_item_by_barcode: the first line with the
        item's barcode gains a unit, or a new one-unit line is appended. */
    method AddToBill(item: Product)
      requires BillValid(bill)
      modifies this`bill
      ensures bill == AddUnit(old(bill), item)
      ensures BillValid(bill)
    {
      var j := ScanBill(bill, item.barcode);
      AddUnitAt(bill, item, j);
      if j < |bill| {
        bill := bill[j := bill[j].(quantity := bill[j].quantity + 1)];
      } else {
        bill := bill + [NewLine(item)];
      }
    }

    /** save_qty for bill line idx: `parsed` is the entry as an integer (None
        when it is not one). The new quantity is checked against the live
        table and, when accepted, replaces that line's quantity and nothing
        else. */
    method EditSelectedQty(idx: nat, parsed: Option<int>) returns (verdict: EditOutcome)
      requires Valid() && idx < |bill|
      modifies this`bill
      ensures Valid()
      ensures verdict == EditVerdict(parsed, Available(rows, old(bill)[idx].barcode))
      ensures verdict == Accepted ==> bill == old(bill)[idx := old(bill)[idx].(quantity := parsed.value)]
      ensures verdict != Accepted ==> bill == old(bill)
    {
      var item := bill[idx];
      if parsed.None? || parsed.value <= 0 {
        return InvalidQuantity;
      }
      var nq := parsed.value;
      var avail := match IndexOf(rows, item.barcode) case Some(k) => rows[k].quantity case None => 0;
      if nq > avail {
        return InsufficientStock(avail);
      }
      SetQuantityKeepsValid(bill, idx, nq);
      bill := bill[idx := item.(quantity := nq)];
      verdict := Accepted;
    }

    /** remove_selected_bill_item for the selected position idx: pops that
        line when idx is in range, does nothing otherwise. */
    method RemoveSelectedBillItem(idx: int) returns (removed: Option<BillLine>)
      requires Valid()
      modifies this`bill
      ensures Valid()
      ensures bill == RemoveAt(old(bill), idx)
      ensures 0 <= idx < |old(bill)| ==> removed == Some(old(bill)[idx])
      ensures !(0 <= idx < |old(bill)|) ==> removed == None
    {
      RemoveAtKeepsValid(bill, idx);
      if 0 <= idx < |bill| {
        removed := Some(bill[idx]);
        bill := bill[..idx] + bill[idx + 1..];
      } else {
        removed := None;
      }
    }

    /** clear_bill: empties a non-empty bill once the cashier confirms. */
    method ClearBill(confirmed: bool)
      requires Valid()
      modifies this`bill
      ensures Valid()
      ensures old(bill) != [] && confirmed ==> bill == []
      ensures !(old(bill) != [] && confirmed) ==> bill == old(bill)
    {
      if bill == [] {
        return;
      }
      if confirmed {
        bill := [];
      }
    }

    /** The totals update_bill_display shows: the subtotal accumulated line
        by line, the tax on it and their sum, which with a zero rate is the
        subtotal. Nothing is changed. */
    method BillTotals() returns (subtotal: nat, tax: nat, total: nat)
      ensures subtotal == Subtotal(bill)
      ensures tax == Tax(subtotal) && total == subtotal + tax
      ensures total == subtotal
    {
      subtotal := 0;
      for i := 0 to |bill|
        invariant subtotal == Subtotal(bill[..i])
      {
        assert bill[..i + 1][..i] == bill[..i];
        subtotal := subtotal + LineTotal(bill[i]);
      }
      assert bill[..|bill|] == bill;
      tax := Tax(subtotal);
      total := subtotal + tax;
    }

    /** The validation pass of process_checkout: the first bill line that
        the live table cannot serve, or None. Nothing is changed. */
    method FindStockConflict() returns (conflict: Option<nat>)
      ensures conflict == FindConflict(rows, bill)
      ensures conflict.None? <==> forall j :: 0 <= j < |bill| ==> !Short(rows, bill[j])
    {
      var i := 0;
      while i < |bill|
        invariant 0 <= i <= |bill|
        invariant forall j :: 0 <= j < i ==> !Short(rows, bill[j])
      {
        var found := IndexOf(rows, bill[i].barcode);
        if found.None? || rows[found.value].quantity < bill[i].quantity {
          return Some(i);
        }
        i := i + 1;
      }
      return None;
    }

    /** The post-commit scan of process_checkout: for each sold line in
        order, its row as it now is, reported when below the threshold.
        Nothing is changed. */
    method LowStockAfterSale(sold: seq<BillLine>) returns (alerts: seq<Alert>)
      ensures alerts == LowAfterSale(rows, sold)
    {
      alerts := [];
      for i := 0 to |sold|
        invariant alerts == LowAfterSale(rows, sold[..i])
      {
        LowAfterSaleStep(rows, sold, i);
        match IndexOf(rows, sold[i].barcode) {
          case Some(k) =>
            if rows[k].quantity < LowStockThreshold {
              alerts := alerts + [AlertOf(rows[k])];
            }
          case None =>
        }
      }
      assert sold[..|sold|] == sold;
    }

    /** process_checkout at time `now` with the customer box holding
        `customerInput`. An empty bill, or a bill with a line the table
        cannot serve, changes nothing. Otherwise every line is deducted and
        logged, one sale is recorded, the low-stock products among those
        just sold are reported and the bill is cleared. */
    method ProcessCheckout(customerInput: string, now: nat) returns (result: CheckoutResult)
      requires Valid() && clock <= now
      modifies this`rows, this`history, this`sales, this`clock, this`bill
      ensures Valid()
      ensures old(bill) == [] ==>
        && result == EmptyBill
        && rows == old(rows) && history == old(history) && sales == old(sales)
        && bill == old(bill) && clock == old(clock)
      ensures old(bill) != [] && FindConflict(old(rows), old(bill)).Some? ==>
        && result == StockConflict(FindConflict(old(rows), old(bill)).value)
        && rows == old(rows) && history == old(history) && sales == old(sales)
        && bill == old(bill) && clock == old(clock)
      ensures old(bill) != [] && FindConflict(old(rows), old(bill)).None? ==>
        && rows == Deducted(old(rows), old(bill))
        && history == old(history) + HistoryRows(old(rows), old(bill), now)
        && sales == old(sales) + [Sale(now, old(bill), Total(Subtotal(old(bill))), CustomerLabel(customerInput))]
        && bill == [] && clock == now
        && result == Completed(sales[|sales| - 1], LowAfterSale(rows, old(bill)))
    {
      if bill == [] {
        return EmptyBill;
      }
      var conflict := FindStockConflict();
      if conflict.Some? {
        return StockConflict(conflict.value);
      }
      var sale, alerts := CompleteSale(customerInput, now);
      result := Completed(sale, alerts);
    }

    /** The part of process_checkout after validation has passed: deduct
        and log every line, record the sale, collect the low-stock alerts
        and clear the bill. */
    method CompleteSale(customerInput: string, now: nat) returns (sale: Sale, alerts: seq<Alert>)
      requires Valid() && clock <= now && FindConflict(rows, bill).None?
      modifies this`rows, this`history, this`sales, this`clock, this`bill
      ensures Valid()
      ensures rows == Deducted(old(rows), old(bill))
      ensures history == old(history) + HistoryRows(old(rows), old(bill), now)
      ensures sale == Sale(now, old(bill), Total(Subtotal(old(bill))), CustomerLabel(customerInput))
      ensures sales == old(sales) + [sale]
      ensures bill == [] && clock == now
      ensures alerts == LowAfterSale(rows, old(bill))
    {
      ghost var rows0, history0, clock0 := rows, history, clock;
      sale := Sale(now, bill, Total(Subtotal(bill)), CustomerLabel(customerInput));
      CommitBill(now);
      CheckoutKeepsValid(rows0, nextItemId, history0, sales, bill, clock0, sale, rows, history);
      alerts := LowStockAfterSale(bill);
      RecordSale(sale);
    }

    /** The sales INSERT and the clearing of the bill, once the table and
        the log hold their new, valid contents. */
    method RecordSale(sale: Sale)
      requires StoreValid(rows, nextItemId) && HistoryValid(rows, history, sale.time)
      requires SalesValid(sales + [sale], sale.time)
      modifies this`sales, this`clock, this`bill
      ensures Valid()
      ensures sales == old(sales) + [sale] && clock == sale.time && bill == []
    {
      sales, clock, bill := sales + [sale], sale.time, [];
    }

    /** The second loop of process_checkout: each line's quantity comes off
        its product, and the product's remaining quantity is logged. */
    method CommitBill(now: nat)
      modifies this`rows, this`history
      ensures rows == Deducted(old(rows), bill)
      ensures history == old(history) + HistoryRows(old(rows), bill, now)
    {
      ghost var rows0, history0 := rows, history;
      for i := 0 to |bill|
        invariant rows == Deducted(rows0, bill[..i])
        invariant history == history0 + HistoryRows(rows0, bill[..i], now)
      {
        DeductedStep(rows0, bill, i);
        HistoryRowsStep(rows0, history0, bill, i, now);
        rows := DeductLine(rows, bill[i]);
        ghost var before := history;
        match IndexOf(rows, bill[i].barcode) {
          case Some(k) =>
            history := history + [HistoryEntry(rows[k].id, now, rows[k].quantity)];
          case None =>
        }
        assert history == before + EntryFor(rows, bill[i].barcode, now);
      }
      assert bill[..|bill|] == bill;
    }
  }
}
