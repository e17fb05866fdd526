/** The stock history log: an append-only series of (item, time, quantity
    on hand afterwards) observations, and the invariants it keeps under
    checkout-only activity. */
module StockHistory {
  import opened Catalog

  /** One row of the stock_history table: the quantity is the product's
      on-hand quantity right after the change, not a delta. */
  datatype HistoryEntry = HistoryEntry(itemId: nat, time: nat, quantity: int)

  /** Every entry is at least the current on-hand quantity of the product it
      is about: stock only goes down between observations. */
  predicate Bounded(rows: seq<Product>, history: seq<HistoryEntry>) {
    forall i, k :: 0 <= i < |history| && 0 <= k < |rows| && history[i].itemId == rows[k].id ==>
      history[i].quantity >= rows[k].quantity
  }

  /** For each product, its observations never increase in insertion order. */
  predicate NonIncreasing(history: seq<HistoryEntry>) {
    forall i, j :: 0 <= i < j < |history| && history[i].itemId == history[j].itemId ==>
      history[i].quantity >= history[j].quantity
  }

  /** Timestamps never go backwards in insertion order, and none is later
      than the clock. */
  predicate Chronological(history: seq<HistoryEntry>, clock: nat) {
    && (forall i, j :: 0 <= i < j < |history| ==> history[i].time <= history[j].time)
    && (forall i :: 0 <= i < |history| ==> history[i].time <= clock)
  }

  /** The invariant the log keeps against the inventory table. */
  predicate HistoryValid(rows: seq<Product>, history: seq<HistoryEntry>, clock: nat) {
    Bounded(rows, history) && NonIncreasing(history) && Chronological(history, clock)
  }

  /** Appending a batch of observations stamped `now` keeps the log valid
      when each new entry is bounded by its product's quantity, is not above
      any older entry for the same product, and the batch names each product
      at most once. */
  lemma AppendKeepsValid(rows: seq<Product>, history: seq<HistoryEntry>, added: seq<HistoryEntry>,
                         clock: nat, now: nat)
    requires HistoryValid(rows, history, clock) && clock <= now
    requires forall j, k :: 0 <= j < |added| && 0 <= k < |rows| ==>
      added[j].itemId != rows[k].id || added[j].quantity >= rows[k].quantity
    requires forall i, j :: 0 <= i < |history| && 0 <= j < |added| ==>
      history[i].itemId != added[j].itemId || history[i].quantity >= added[j].quantity
    requires forall i, j :: 0 <= i < j < |added| ==> added[i].itemId != added[j].itemId
    requires forall j :: 0 <= j < |added| ==> added[j].time == now
    ensures HistoryValid(rows, history + added, now)
  {
    var h := history + added;
    forall i, k | 0 <= i < |h| && 0 <= k < |rows| && h[i].itemId == rows[k].id
      ensures h[i].quantity >= rows[k].quantity
    {
      if i >= |history| {
        assert h[i] == added[i - |history|];
      }
    }
    forall i, j | 0 <= i < j < |h|
      ensures h[i].itemId != h[j].itemId || h[i].quantity >= h[j].quantity
    {
      if j >= |history| {
        assert h[j] == added[j - |history|];
        if i >= |history| {
          assert h[i] == added[i - |history|];
        }
      }
    }
    forall i, j | 0 <= i < j < |h| ensures h[i].time <= h[j].time {
      if j >= |history| {
        assert h[j] == added[j - |history|];
        if i >= |history| {
          assert h[i] == added[i - |history|];
        }
      }
    }
  }
}
