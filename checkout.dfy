/** The checkout engine: validate every bill line against live stock, then
    deduct each line, log one stock observation per line, record the sale
    and report the products that are now low on stock. */
module Checkout {
  import opened Optional
  import opened Text
  import opened Catalog
  import opened StockHistory
  import opened Bill

  /** One row of the sales table: the bill's lines as they were at commit. */
  datatype Sale = Sale(time: nat, lines: seq<BillLine>, total: nat, customer: string)

  /** Sales are recorded in time order, none later than the clock. */
  predicate SalesValid(sales: seq<Sale>, clock: nat) {
    && (forall i, j :: 0 <= i < j < |sales| ==> sales[i].time <= sales[j].time)
    && (forall i :: 0 <= i < |sales| ==> sales[i].time <= clock)
  }

  /** Recording a sale stamped no earlier than the clock keeps the sales
      table in time order, with the clock moved to the sale's time. */
  lemma RecordSaleKeepsValid(sales: seq<Sale>, clock: nat, sale: Sale)
    requires SalesValid(sales, clock) && clock <= sale.time
    ensures SalesValid(sales + [sale], sale.time)
  {
    var s := sales + [sale];
    assert forall i :: 0 <= i < |sales| ==> s[i] == sales[i];
  }

  /** One low-stock notice: (name, barcode, quantity remaining). */
  datatype Alert = Alert(name: string, barcode: string, quantity: int)

  /** The customer recorded when none is given. */
  const WalkIn: string := "Walk-in"

  /** `customer_entry.get().strip() or "Walk-in"`: the trimmed input, or
      Walk-in when the input is blank. The label is never blank. */
  function CustomerLabel(raw: string): (c: string)
    ensures (forall i :: 0 <= i < |raw| ==> IsSpace(raw[i])) ==> c == WalkIn
    ensures (exists i :: 0 <= i < |raw| && !IsSpace(raw[i])) ==> c == Strip(raw)
    ensures c != [] && !IsSpace(c[0]) && !IsSpace(c[|c| - 1])
  {
    StripSpec(raw);
    var s := Strip(raw);
    if s == [] then WalkIn else s
  }

  // ---- Validation ----

  /** A line the live table cannot serve: its barcode has no row, or the row
      holds fewer units than the line asks for. */
  predicate Short(rows: seq<Product>, line: BillLine) {
    match IndexOf(rows, line.barcode)
    case None => true
    case Some(k) => rows[k].quantity < line.quantity
  }

  /** The first line the table cannot serve, or None when it can serve them all. */
  function FindConflict(rows: seq<Product>, bill: seq<BillLine>): (r: Option<nat>)
    ensures r.Some? ==> r.value < |bill| && Short(rows, bill[r.value])
    ensures r.Some? ==> forall j :: 0 <= j < r.value ==> !Short(rows, bill[j])
    ensures r.None? <==> forall j :: 0 <= j < |bill| ==> !Short(rows, bill[j])
    decreases |bill|
  {
    if bill == [] then None
    else if Short(rows, bill[0]) then Some(0)
    else match FindConflict(rows, bill[1..])
      case None => None
      case Some(k) => Some(k + 1)
  }

  // ---- Deduction ----

  /** The total quantity the bill asks for under one barcode. */
  function QtyIn(bill: seq<BillLine>, code: string): (n: nat)
    ensures (forall j :: 0 <= j < |bill| ==> bill[j].barcode != code) ==> n == 0
    decreases |bill|
  {
    if bill == [] then 0
    else
      var last := bill[|bill| - 1];
      QtyIn(bill[..|bill| - 1], code) + (if last.barcode == code then last.quantity else 0)
  }

  /** With distinct barcodes, what the bill asks for under a line's barcode
      is that line's quantity. */
  lemma {:induction false} QtyInDistinct(bill: seq<BillLine>, j: nat)
    requires DistinctLines(bill) && j < |bill|
    ensures QtyIn(bill, bill[j].barcode) == bill[j].quantity
    decreases |bill|
  {
    var init := bill[..|bill| - 1];
    if j < |bill| - 1 {
      QtyInDistinct(init, j);
    }
  }

  /** `UPDATE inventory SET quantity = quantity - ? WHERE barcode=?`. */
  function DeductLine(rows: seq<Product>, line: BillLine): seq<Product> {
    seq(|rows|, k requires 0 <= k < |rows| =>
      if rows[k].barcode == line.barcode then rows[k].(quantity := rows[k].quantity - line.quantity)
      else rows[k])
  }

  /** The table after the update of every line, in bill order: each row has
      lost exactly what the bill asks for under its barcode, and nothing
      else about any row has changed. */
  function Deducted(rows: seq<Product>, bill: seq<BillLine>): (r: seq<Product>)
    ensures |r| == |rows|
    ensures forall k :: 0 <= k < |rows| ==>
      r[k] == rows[k].(quantity := rows[k].quantity - QtyIn(bill, rows[k].barcode))
    decreases |bill|
  {
    if bill == [] then rows
    else DeductLine(Deducted(rows, bill[..|bill| - 1]), bill[|bill| - 1])
  }

  /** One more round of the update loop: the table after the first i + 1
      lines is the table after the first i lines with line i deducted. */
  lemma DeductedStep(rows: seq<Product>, bill: seq<BillLine>, i: nat)
    requires i < |bill|
    ensures Deducted(rows, bill[..i + 1]) == DeductLine(Deducted(rows, bill[..i]), bill[i])
  {
    assert bill[..i + 1][..i] == bill[..i];
  }

  /** What a successful checkout does to the table: each billed product
      loses exactly its line's quantity, and every product not on the bill
      is left as it was. */
  lemma CommitEffect(rows: seq<Product>, bill: seq<BillLine>)
    requires DistinctLines(bill)
    ensures forall j, k :: 0 <= j < |bill| && 0 <= k < |rows| && rows[k].barcode == bill[j].barcode ==>
      Deducted(rows, bill)[k] == rows[k].(quantity := rows[k].quantity - bill[j].quantity)
    ensures forall k :: 0 <= k < |rows| && LineOf(bill, rows[k].barcode).None? ==>
      Deducted(rows, bill)[k] == rows[k]
  {
    forall j | 0 <= j < |bill| {
      QtyInDistinct(bill, j);
    }
  }

  /** After validation passes, the deduction keeps the table valid: in
      particular no quantity goes below zero. */
  lemma CommitKeepsStoreValid(rows: seq<Product>, nextId: nat, bill: seq<BillLine>)
    requires StoreValid(rows, nextId) && DistinctLines(bill)
    requires FindConflict(rows, bill).None?
    ensures StoreValid(Deducted(rows, bill), nextId)
  {
    var r := Deducted(rows, bill);
    CommitEffect(rows, bill);
    forall k | 0 <= k < |rows| ensures r[k].quantity >= 0 {
      var found := LineOf(bill, rows[k].barcode);
      if found.Some? {
        var j := found.value;
        assert !Short(rows, bill[j]);
        IndexOfRow(rows, k);
      }
    }
  }

  // ---- Stock history ----

  /** `SELECT id, quantity ... WHERE barcode=?` and, when the row is there,
      one history entry holding its quantity at that point. */
  function EntryFor(rows: seq<Product>, code: string, now: nat): seq<HistoryEntry> {
    match IndexOf(rows, code)
    case None => []
    case Some(k) => [HistoryEntry(rows[k].id, now, rows[k].quantity)]
  }

  /** Every line's barcode has a row. */
  predicate AllFound(rows: seq<Product>, bill: seq<BillLine>) {
    forall j :: 0 <= j < |bill| ==> IndexOf(rows, bill[j].barcode).Some?
  }

  /** The entries a commit appends: after updating each line, the entry for
      that line's product read back from the table as it then is. */
  function HistoryRows(rows: seq<Product>, bill: seq<BillLine>, now: nat): (r: seq<HistoryEntry>)
    ensures |r| <= |bill|
    ensures AllFound(rows, bill) ==> |r| == |bill|
    decreases |bill|
  {
    if bill == [] then []
    else
      var init, last := bill[..|bill| - 1], bill[|bill| - 1];
      assert AllFound(rows, bill) ==> AllFound(rows, init) by {
        assert forall j :: 0 <= j < |init| ==> init[j] == bill[j];
      }
      DeductedIndexOf(rows, bill, last.barcode);
      HistoryRows(rows, init, now) + EntryFor(Deducted(rows, bill), last.barcode, now)
  }

  /** One more round of the history loop: the entry for line i is read
      back from the table after the first i + 1 lines. */
  lemma HistoryRowsStep(rows: seq<Product>, prior: seq<HistoryEntry>, bill: seq<BillLine>, i: nat, now: nat)
    requires i < |bill|
    ensures prior + HistoryRows(rows, bill[..i + 1], now) ==
      prior + HistoryRows(rows, bill[..i], now) + EntryFor(Deducted(rows, bill[..i + 1]), bill[i].barcode, now)
  {
    assert bill[..i + 1][..i] == bill[..i];
  }

  /** The observation a line yields: its product, now, and the product's
      quantity less the line's. */
  function Observation(rows: seq<Product>, line: BillLine, now: nat): HistoryEntry
    requires IndexOf(rows, line.barcode).Some?
  {
    var k := IndexOf(rows, line.barcode).value;
    HistoryEntry(rows[k].id, now, rows[k].quantity - line.quantity)
  }

  /** Deduction leaves barcodes alone, so lookups find the same rows. */
  lemma DeductedIndexOf(rows: seq<Product>, bill: seq<BillLine>, code: string)
    ensures IndexOf(Deducted(rows, bill), code) == IndexOf(rows, code)
  {
    IndexOfSameCodes(Deducted(rows, bill), rows, code);
  }

  /** The quantity left for a billed product, when barcodes are distinct. */
  lemma DeductedAtLine(rows: seq<Product>, bill: seq<BillLine>, j: nat, k: nat)
    requires DistinctLines(bill) && j < |bill| && k < |rows| && rows[k].barcode == bill[j].barcode
    ensures Deducted(rows, bill)[k] == rows[k].(quantity := rows[k].quantity - bill[j].quantity)
  {
    QtyInDistinct(bill, j);
  }

  /** Reading a line's row back from a table that kept the row where it was
      and took the line's quantity off it gives that line's observation. */
  lemma EntryAfter(rows: seq<Product>, d: seq<Product>, line: BillLine, now: nat)
    requires IndexOf(rows, line.barcode).Some?
    requires IndexOf(d, line.barcode) == IndexOf(rows, line.barcode)
    requires var k := IndexOf(rows, line.barcode).value;
      d[k] == rows[k].(quantity := rows[k].quantity - line.quantity)
    ensures EntryFor(d, line.barcode, now) == [Observation(rows, line, now)]
  {
  }

  /** The entry read back after updating the last line of a bill. */
  lemma LastEntry(rows: seq<Product>, bill: seq<BillLine>, now: nat)
    requires DistinctLines(bill) && bill != []
    requires IndexOf(rows, bill[|bill| - 1].barcode).Some?
    ensures EntryFor(Deducted(rows, bill), bill[|bill| - 1].barcode, now)
         == [Observation(rows, bill[|bill| - 1], now)]
  {
    var last := bill[|bill| - 1];
    var k := IndexOf(rows, last.barcode).value;
    DeductedIndexOf(rows, bill, last.barcode);
    DeductedAtLine(rows, bill, |bill| - 1, k);
    EntryAfter(rows, Deducted(rows, bill), last, now);
  }

  /** Observations for all but the last line, followed by the last line's,
      are the observations for the whole bill. */
  lemma ObservationsSnoc(h: seq<HistoryEntry>, earlier: seq<HistoryEntry>, rows: seq<Product>,
                         bill: seq<BillLine>, now: nat)
    requires bill != [] && |earlier| == |bill| - 1 && AllFound(rows, bill)
    requires h == earlier + [Observation(rows, bill[|bill| - 1], now)]
    requires forall j :: 0 <= j < |earlier| ==> earlier[j] == Observation(rows, bill[..|bill| - 1][j], now)
    ensures forall j :: 0 <= j < |bill| ==> h[j] == Observation(rows, bill[j], now)
  {
    forall j | 0 <= j < |bill| ensures h[j] == Observation(rows, bill[j], now) {
      if j < |earlier| {
        assert h[j] == earlier[j] && bill[..|bill| - 1][j] == bill[j];
      }
    }
  }

  /** A commit appends exactly one entry per line, in bill order, holding
      that product's post-deduction quantity. */
  lemma {:induction false} HistoryRowsAt(rows: seq<Product>, bill: seq<BillLine>, now: nat)
    requires UniqueCodes(rows) && DistinctLines(bill) && AllFound(rows, bill)
    ensures forall j :: 0 <= j < |bill| ==> HistoryRows(rows, bill, now)[j] == Observation(rows, bill[j], now)
    decreases |bill|
  {
    if bill != [] {
      var init, last := bill[..|bill| - 1], bill[|bill| - 1];
      assert forall j :: 0 <= j < |init| ==> init[j] == bill[j];
      HistoryRowsAt(rows, init, now);
      LastEntry(rows, bill, now);
      ObservationsSnoc(HistoryRows(rows, bill, now), HistoryRows(rows, init, now), rows, bill, now);
    }
  }

  /** Validation passing means every line's barcode has a row. */
  lemma NoConflictAllFound(rows: seq<Product>, bill: seq<BillLine>)
    requires FindConflict(rows, bill).None?
    ensures AllFound(rows, bill)
  {
    forall j | 0 <= j < |bill| ensures IndexOf(rows, bill[j].barcode).Some? {
      assert !Short(rows, bill[j]);
    }
  }

  /** Distinct increasing ids: two rows share an id only when they are the same row. */
  lemma SameIdSameRow(rows: seq<Product>, nextId: nat, k1: nat, k2: nat)
    requires IdsIncreasing(rows, nextId) && k1 < |rows| && k2 < |rows|
    ensures rows[k1].id == rows[k2].id <==> k1 == k2
  {
    if k1 < k2 {
      assert rows[k1].id < rows[k2].id;
    } else if k2 < k1 {
      assert rows[k2].id < rows[k1].id;
    }
  }

  /** Old entries stay bounded: a deduction only lowers quantities and keeps ids. */
  lemma OldEntriesBounded(rows: seq<Product>, history: seq<HistoryEntry>, bill: seq<BillLine>)
    requires Bounded(rows, history)
    ensures Bounded(Deducted(rows, bill), history)
  {
    var d := Deducted(rows, bill);
    forall i, k | 0 <= i < |history| && 0 <= k < |d| && history[i].itemId == d[k].id
      ensures history[i].quantity >= d[k].quantity
    {
      assert d[k].id == rows[k].id;
    }
  }

  /** Each new entry holds exactly the current quantity of its product. */
  lemma NewEntriesBounded(rows: seq<Product>, nextId: nat, bill: seq<BillLine>, now: nat)
    requires StoreValid(rows, nextId) && DistinctLines(bill) && AllFound(rows, bill)
    ensures forall j, k :: 0 <= j < |bill| && 0 <= k < |rows| ==>
      HistoryRows(rows, bill, now)[j].itemId != Deducted(rows, bill)[k].id ||
      HistoryRows(rows, bill, now)[j].quantity == Deducted(rows, bill)[k].quantity
  {
    var d := Deducted(rows, bill);
    var added := HistoryRows(rows, bill, now);
    HistoryRowsAt(rows, bill, now);
    forall j, k | 0 <= j < |bill| && 0 <= k < |rows|
      ensures added[j].itemId != d[k].id || added[j].quantity == d[k].quantity
    {
      var kj := IndexOf(rows, bill[j].barcode).value;
      assert added[j] == Observation(rows, bill[j], now);
      assert d[k].id == rows[k].id;
      SameIdSameRow(rows, nextId, kj, k);
      if kj == k {
        DeductedAtLine(rows, bill, j, k);
      }
    }
  }

  /** A new entry is never above an older entry for the same product. */
  lemma NewEntriesBelowOld(rows: seq<Product>, history: seq<HistoryEntry>, bill: seq<BillLine>, now: nat)
    requires UniqueCodes(rows) && DistinctLines(bill) && AllFound(rows, bill)
    requires Bounded(rows, history)
    ensures forall i, j :: 0 <= i < |history| && 0 <= j < |bill| ==>
      history[i].itemId != HistoryRows(rows, bill, now)[j].itemId ||
      history[i].quantity >= HistoryRows(rows, bill, now)[j].quantity
  {
    var added := HistoryRows(rows, bill, now);
    HistoryRowsAt(rows, bill, now);
    forall i, j | 0 <= i < |history| && 0 <= j < |bill|
      ensures history[i].itemId != added[j].itemId || history[i].quantity >= added[j].quantity
    {
      assert added[j] == Observation(rows, bill[j], now);
    }
  }

  /** One commit logs each product at most once, since lines have distinct barcodes. */
  lemma NewEntriesDistinct(rows: seq<Product>, nextId: nat, bill: seq<BillLine>, now: nat)
    requires StoreValid(rows, nextId) && DistinctLines(bill) && AllFound(rows, bill)
    ensures forall i, j :: 0 <= i < j < |bill| ==>
      HistoryRows(rows, bill, now)[i].itemId != HistoryRows(rows, bill, now)[j].itemId
  {
    var added := HistoryRows(rows, bill, now);
    HistoryRowsAt(rows, bill, now);
    forall i, j | 0 <= i < j < |bill| ensures added[i].itemId != added[j].itemId {
      var ki := IndexOf(rows, bill[i].barcode).value;
      var kj := IndexOf(rows, bill[j].barcode).value;
      assert added[i] == Observation(rows, bill[i], now);
      assert added[j] == Observation(rows, bill[j], now);
      assert bill[i].barcode != bill[j].barcode;
      SameIdSameRow(rows, nextId, ki, kj);
    }
  }

  /** Every new entry is stamped with the commit's time. */
  lemma NewEntriesAt(rows: seq<Product>, bill: seq<BillLine>, now: nat)
    requires UniqueCodes(rows) && DistinctLines(bill) && AllFound(rows, bill)
    ensures forall j :: 0 <= j < |bill| ==> HistoryRows(rows, bill, now)[j].time == now
  {
    HistoryRowsAt(rows, bill, now);
  }

  /** A commit keeps the log's invariant: entries stay at or above current
      stock, each product's observations stay non-increasing, and times stay
      in order. */
  lemma CommitKeepsHistoryValid(rows: seq<Product>, nextId: nat, history: seq<HistoryEntry>,
                                bill: seq<BillLine>, clock: nat, now: nat)
    requires StoreValid(rows, nextId) && BillValid(bill)
    requires FindConflict(rows, bill).None?
    requires HistoryValid(rows, history, clock) && clock <= now
    ensures HistoryValid(Deducted(rows, bill), history + HistoryRows(rows, bill, now), now)
  {
    var d := Deducted(rows, bill);
    var added := HistoryRows(rows, bill, now);
    NoConflictAllFound(rows, bill);
    OldEntriesBounded(rows, history, bill);
    NewEntriesBounded(rows, nextId, bill, now);
    NewEntriesBelowOld(rows, history, bill, now);
    NewEntriesDistinct(rows, nextId, bill, now);
    NewEntriesAt(rows, bill, now);
    AppendKeepsValid(d, history, added, clock, now);
  }

  // ---- Low stock after the sale ----

  /** A successful checkout keeps every table invariant: the deducted
      inventory `deducted`, the extended stock log `logged` and the sales
      table with the new sale. */
  lemma CheckoutKeepsValid(rows: seq<Product>, nextId: nat, history: seq<HistoryEntry>,
                           sales: seq<Sale>, bill: seq<BillLine>, clock: nat, sale: Sale,
                           deducted: seq<Product>, logged: seq<HistoryEntry>)
    requires StoreValid(rows, nextId) && BillValid(bill) && FindConflict(rows, bill).None?
    requires HistoryValid(rows, history, clock) && SalesValid(sales, clock) && clock <= sale.time
    requires deducted == Deducted(rows, bill) && logged == history + HistoryRows(rows, bill, sale.time)
    ensures StoreValid(deducted, nextId)
    ensures HistoryValid(deducted, logged, sale.time)
    ensures SalesValid(sales + [sale], sale.time)
  {
    CommitKeepsStoreValid(rows, nextId, bill);
    CommitKeepsHistoryValid(rows, nextId, history, bill, clock, sale.time);
    RecordSaleKeepsValid(sales, clock, sale);
  }

  /** The rows of the products just sold, read back in bill order. */
  function SoldProducts(rows: seq<Product>, bill: seq<BillLine>): (r: seq<Product>)
    ensures AllFound(rows, bill) ==> |r| == |bill|
    ensures AllFound(rows, bill) ==>
      forall j :: 0 <= j < |bill| ==> r[j] == rows[IndexOf(rows, bill[j].barcode).value]
    decreases |bill|
  {
    if bill == [] then []
    else
      var init := bill[..|bill| - 1];
      assert AllFound(rows, bill) ==> AllFound(rows, init) by {
        assert forall j :: 0 <= j < |init| ==> init[j] == bill[j];
      }
      SoldProducts(rows, init) +
      match IndexOf(rows, bill[|bill| - 1].barcode)
      case None => []
      case Some(k) => [rows[k]]
  }

  /** The notice for one product. */
  function AlertOf(p: Product): Alert {
    Alert(p.name, p.barcode, p.quantity)
  }

  function Alerts(ps: seq<Product>): seq<Alert> {
    seq(|ps|, i requires 0 <= i < |ps| => AlertOf(ps[i]))
  }

  /** The post-commit scan: for each line in bill order, re-read its row and
      report it when the row holds fewer than the threshold. */
  function LowAfterSale(rows: seq<Product>, bill: seq<BillLine>): seq<Alert>
    decreases |bill|
  {
    if bill == [] then []
    else
      LowAfterSale(rows, bill[..|bill| - 1]) +
      match IndexOf(rows, bill[|bill| - 1].barcode)
      case Some(k) => if rows[k].quantity < LowStockThreshold then [AlertOf(rows[k])] else []
      case None => []
  }

  /** The detector over one more product: that product is kept at the end
      exactly when it is below the threshold. */
  lemma LowStockSnoc(a: seq<Product>, p: Product)
    ensures LowStock(a + [p]) == LowStock(a) + if p.quantity < LowStockThreshold then [p] else []
  {
    assert (a + [p])[..|a + [p]| - 1] == a;
  }

  lemma AlertsConcat(a: seq<Product>, b: seq<Product>)
    ensures Alerts(a + b) == Alerts(a) + Alerts(b)
  {
  }

  /** The products sold by a bill one line longer. */
  lemma SoldProductsSnoc(rows: seq<Product>, bill: seq<BillLine>)
    requires bill != []
    ensures SoldProducts(rows, bill) == SoldProducts(rows, bill[..|bill| - 1]) +
      match IndexOf(rows, bill[|bill| - 1].barcode) case None => [] case Some(k) => [rows[k]]
  {
  }

  /** The scan of a bill one line longer. */
  lemma LowAfterSaleSnoc(rows: seq<Product>, bill: seq<BillLine>)
    requires bill != []
    ensures LowAfterSale(rows, bill) == LowAfterSale(rows, bill[..|bill| - 1]) +
      match IndexOf(rows, bill[|bill| - 1].barcode)
      case Some(k) => if rows[k].quantity < LowStockThreshold then [AlertOf(rows[k])] else []
      case None => []
  {
  }

  lemma LowAfterSaleStep(rows: seq<Product>, bill: seq<BillLine>, i: nat)
    requires i < |bill|
    ensures LowAfterSale(rows, bill[..i + 1]) == LowAfterSale(rows, bill[..i]) +
      match IndexOf(rows, bill[i].barcode)
      case Some(k) => if rows[k].quantity < LowStockThreshold then [AlertOf(rows[k])] else []
      case None => []
  {
    assert bill[..i + 1][..i] == bill[..i];
  }

  /** The post-commit scan is the low-stock detector applied to the products
      just sold: the detector is one function, used by the dashboard over the
      whole catalog and by checkout over the sold lines. */
  lemma {:induction false} LowAfterSaleIsLowStock(rows: seq<Product>, bill: seq<BillLine>)
    ensures LowAfterSale(rows, bill) == Alerts(LowStock(SoldProducts(rows, bill)))
    decreases |bill|
  {
    if bill != [] {
      var init := bill[..|bill| - 1];
      LowAfterSaleIsLowStock(rows, init);
      LowAfterSaleSnoc(rows, bill);
      SoldProductsSnoc(rows, bill);
      var a := SoldProducts(rows, init);
      match IndexOf(rows, bill[|bill| - 1].barcode)
      case None =>
        assert a + [] == a;
      case Some(k) =>
        var p := rows[k];
        var x := if p.quantity < LowStockThreshold then [p] else [];
        var y := if p.quantity < LowStockThreshold then [AlertOf(p)] else [];
        LowStockSnoc(a, p);
        AlertsConcat(LowStock(a), x);
        assert Alerts(x) == y;
        calc {
          Alerts(LowStock(SoldProducts(rows, bill)));
          == Alerts(LowStock(a + [p]));
          == Alerts(LowStock(a) + x);
          == Alerts(LowStock(a)) + Alerts(x);
          == LowAfterSale(rows, init) + y;
          == LowAfterSale(rows, bill);
        }
    }
  }
}
