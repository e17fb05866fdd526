/** First-run seeding: the fifteen default products, each inserted with
    INSERT OR IGNORE and followed by one opening stock-history entry. */
module Seeding {
  import opened Optional
  import opened Catalog
  import opened StockHistory

  /** One default product: barcode, name, category, price (paise) and
      opening quantity. */
  datatype Seed = Seed(barcode: string, name: string, category: string, price: nat, quantity: int)

  const Defaults: seq<Seed> := [
    Seed("MILK500", "Milk 500ml", "Dairy", 3000, 20),
    Seed("BREAD01", "Bread (400g)", "Bakery", 4000, 20),
    Seed("PARLEG1", "Parle-G (100g)", "Snacks", 1000, 20),
    Seed("SUGAR1", "Sugar 1kg", "Grocery", 4500, 20),
    Seed("RICE1KG", "Rice 1kg", "Grocery", 7000, 20),
    Seed("ATTA1KG", "Atta/Flour 1kg", "Grocery", 5500, 20),
    Seed("PANEER2", "Paneer 200g", "Dairy", 7500, 20),
    Seed("CHEESE1", "Cheese Slice Pack", "Dairy", 12000, 20),
    Seed("DAIRYM", "Dairy Milk 65g", "Snacks", 2000, 20),
    Seed("LAYS50", "Lays Chips 50g", "Snacks", 2000, 20),
    Seed("KITKAT", "KitKat 2-finger", "Snacks", 2500, 20),
    Seed("SHAMPOO_S", "Shampoo Sachet", "Personal Care", 500, 50),
    Seed("SHAMPOO_B", "Shampoo Bottle 200ml", "Personal Care", 9500, 20),
    Seed("SOAP001", "Soap (Lux)", "Personal Care", 3500, 20),
    Seed("BAGPLST", "Plastic Carry Bag", "General", 500, 100)
  ]

  /** No two seeds share a barcode. */
  predicate DistinctSeeds(seeds: seq<Seed>) {
    forall i, j :: 0 <= i < j < |seeds| ==> seeds[i].barcode != seeds[j].barcode
  }

  /** Every seed starts with a stock that is not negative. */
  predicate StockedSeeds(seeds: seq<Seed>) {
    forall i :: 0 <= i < |seeds| ==> seeds[i].quantity >= 0
  }

  /** The default barcodes, in list order. DefaultsWellFormed proves that
      they are the barcodes of Defaults; they are written out as plain
      strings because distinctness of literal strings is cheap for the
      verifier, while distinctness read through the Seed records is not. */
  const DefaultCodes: seq<string> := ["MILK500", "BREAD01", "PARLEG1", "SUGAR1", "RICE1KG", "ATTA1KG",
    "PANEER2", "CHEESE1", "DAIRYM", "LAYS50", "KITKAT", "SHAMPOO_S", "SHAMPOO_B", "SOAP001", "BAGPLST"]

  lemma DefaultCodesDistinct()
    ensures forall i, j :: 0 <= i < j < |DefaultCodes| ==> DefaultCodes[i] != DefaultCodes[j]
  {
  }

  /** The default list has distinct barcodes and no negative stock. */
  lemma DefaultsWellFormed()
    ensures |Defaults| == 15
    ensures DistinctSeeds(Defaults) && StockedSeeds(Defaults)
  {
    assert |DefaultCodes| == 15;
    assert forall i :: 0 <= i < 15 ==> Defaults[i].barcode == DefaultCodes[i];
    DefaultCodesDistinct();
  }

  /** The inventory and stock-history tables together, with the next
      AUTOINCREMENT id of the inventory. */
  datatype Tables = Tables(rows: seq<Product>, nextId: nat, history: seq<HistoryEntry>)

  /** The product row a seed becomes under a given id. */
  function RowOf(id: nat, s: Seed): Product {
    Product(id, s.barcode, s.name, s.category, s.price, s.quantity)
  }

  /** One round of the seeding loop: INSERT OR IGNORE the seed, then look
      the barcode up and log the seed's quantity against the row found. */
  function SeedOne(t: Tables, s: Seed, now: nat): Tables {
    var absent := IndexOf(t.rows, s.barcode).None?;
    var rows := if absent then t.rows + [RowOf(t.nextId, s)] else t.rows;
    var nextId := if absent then t.nextId + 1 else t.nextId;
    var history := match IndexOf(rows, s.barcode)
      case None => t.history
      case Some(k) => t.history + [HistoryEntry(rows[k].id, now, s.quantity)];
    Tables(rows, nextId, history)
  }

  /** A round always leaves a row for the seed's barcode. An ignored insert
      leaves the table alone, and this model also keeps the id counter
      (SQLite may use up an id on it); a new barcode is appended
      under the next id. Either way exactly one entry is logged, holding the
      seed's quantity against the row now found. */
  lemma SeedOneSpec(t: Tables, s: Seed, now: nat)
    ensures IndexOf(SeedOne(t, s, now).rows, s.barcode).Some?
    ensures IndexOf(t.rows, s.barcode).Some? ==>
      SeedOne(t, s, now).rows == t.rows && SeedOne(t, s, now).nextId == t.nextId
    ensures IndexOf(t.rows, s.barcode).None? ==>
      SeedOne(t, s, now).rows == t.rows + [RowOf(t.nextId, s)] && SeedOne(t, s, now).nextId == t.nextId + 1
    ensures SeedOne(t, s, now).history ==
      t.history + [HistoryEntry(SeedOne(t, s, now).rows[IndexOf(SeedOne(t, s, now).rows, s.barcode).value].id, now, s.quantity)]
  {
    IndexOfAppend(t.rows, RowOf(t.nextId, s), s.barcode);
  }

  /** The whole seeding loop, one seed after another in list order. */
  function SeedAll(t: Tables, seeds: seq<Seed>, now: nat): Tables
    decreases |seeds|
  {
    if seeds == [] then t else SeedOne(SeedAll(t, seeds[..|seeds| - 1], now), seeds[|seeds| - 1], now)
  }

  /** A seed that is not yet in the table is appended with the next id; one
      that is there already leaves the table as it is. Either way the table
      stays valid. */
  lemma SeedOneKeepsStoreValid(t: Tables, s: Seed, now: nat)
    requires StoreValid(t.rows, t.nextId) && s.quantity >= 0
    ensures StoreValid(SeedOne(t, s, now).rows, SeedOne(t, s, now).nextId)
  {
    SeedOneSpec(t, s, now);
    if IndexOf(t.rows, s.barcode).None? {
      AppendKeepsStoreValid(t.rows, t.nextId, RowOf(t.nextId, s));
    }
  }

  /** A row with a new barcode, the next id and a stock that is not negative
      can be appended to a valid table. */
  lemma AppendKeepsStoreValid(rows: seq<Product>, nextId: nat, p: Product)
    requires StoreValid(rows, nextId) && p.id == nextId && p.quantity >= 0
    requires forall k :: 0 <= k < |rows| ==> rows[k].barcode != p.barcode
    ensures StoreValid(rows + [p], nextId + 1)
  {
  }

  lemma {:induction false} SeedAllKeepsStoreValid(t: Tables, seeds: seq<Seed>, now: nat)
    requires StoreValid(t.rows, t.nextId) && StockedSeeds(seeds)
    ensures StoreValid(SeedAll(t, seeds, now).rows, SeedAll(t, seeds, now).nextId)
    decreases |seeds|
  {
    if seeds != [] {
      SeedAllKeepsStoreValid(t, seeds[..|seeds| - 1], now);
      SeedOneKeepsStoreValid(SeedAll(t, seeds[..|seeds| - 1], now), seeds[|seeds| - 1], now);
    }
  }

  /** Seeding never rewrites or drops a row: the old table is a prefix of
      the new one, and each round logs exactly one entry. */
  lemma {:induction false} SeedAllGrows(t: Tables, seeds: seq<Seed>, now: nat)
    ensures t.rows <= SeedAll(t, seeds, now).rows
    ensures t.nextId <= SeedAll(t, seeds, now).nextId
    ensures t.history <= SeedAll(t, seeds, now).history
    ensures |SeedAll(t, seeds, now).history| == |t.history| + |seeds|
    decreases |seeds|
  {
    if seeds != [] {
      SeedAllGrows(t, seeds[..|seeds| - 1], now);
      SeedOneSpec(SeedAll(t, seeds[..|seeds| - 1], now), seeds[|seeds| - 1], now);
    }
  }

  /** After seeding, every seed's barcode has a row. */
  lemma {:induction false} SeedAllPresent(t: Tables, seeds: seq<Seed>, now: nat)
    ensures forall j :: 0 <= j < |seeds| ==> IndexOf(SeedAll(t, seeds, now).rows, seeds[j].barcode).Some?
    decreases |seeds|
  {
    if seeds != [] {
      var init := seeds[..|seeds| - 1];
      var u := SeedAll(t, init, now);
      SeedAllPresent(t, init, now);
      SeedOneSpec(u, seeds[|seeds| - 1], now);
      forall j | 0 <= j < |init|
        ensures IndexOf(SeedOne(u, seeds[|seeds| - 1], now).rows, seeds[j].barcode).Some?
      {
        assert init[j] == seeds[j];
        var k := IndexOf(u.rows, seeds[j].barcode).value;
        assert SeedOne(u, seeds[|seeds| - 1], now).rows[k] == u.rows[k];
      }
    }
  }

  /** When every seed is already in the table, the inventory comes out
      exactly as it went in, and so does the id counter of this model. */
  lemma {:induction false} SeedAllIdle(t: Tables, seeds: seq<Seed>, now: nat)
    requires forall j :: 0 <= j < |seeds| ==> IndexOf(t.rows, seeds[j].barcode).Some?
    ensures SeedAll(t, seeds, now).rows == t.rows
    ensures SeedAll(t, seeds, now).nextId == t.nextId
    decreases |seeds|
  {
    if seeds != [] {
      var init := seeds[..|seeds| - 1];
      assert forall j :: 0 <= j < |init| ==> init[j] == seeds[j];
      SeedAllIdle(t, init, now);
      SeedOneSpec(t, seeds[|seeds| - 1], now);
    }
  }

  /** INSERT OR IGNORE makes seeding idempotent on the inventory: seeding
      an already seeded table again, at any time, changes no row and,
      in this model, consumes no id. */
  lemma SeedAllIdempotent(t: Tables, seeds: seq<Seed>, now: nat, later: nat)
    ensures SeedAll(SeedAll(t, seeds, now), seeds, later).rows == SeedAll(t, seeds, now).rows
    ensures SeedAll(SeedAll(t, seeds, now), seeds, later).nextId == SeedAll(t, seeds, now).nextId
  {
    SeedAllPresent(t, seeds, now);
    SeedAllIdle(SeedAll(t, seeds, now), seeds, later);
  }

  /** A round whose barcode is new appends the seed under the next id and
      logs its quantity under that id. */
  lemma SeedOneNew(t: Tables, s: Seed, now: nat)
    requires IndexOf(t.rows, s.barcode).None?
    ensures SeedOne(t, s, now) == Tables(t.rows + [RowOf(t.nextId, s)], t.nextId + 1,
                                         t.history + [HistoryEntry(t.nextId, now, s.quantity)])
  {
    IndexOfAppend(t.rows, RowOf(t.nextId, s), s.barcode);
  }

  /** The tables hold exactly the seeds in order: row k is seed k under id
      first + k, history entry k records seed k's quantity under that id, and
      the next id follows the last one. */
  predicate Layout(t: Tables, first: nat, seeds: seq<Seed>, now: nat) {
    && |t.rows| == |seeds| && |t.history| == |seeds| && t.nextId == first + |seeds|
    && (forall k :: 0 <= k < |seeds| ==> t.rows[k] == RowOf(first + k, seeds[k]))
    && (forall k :: 0 <= k < |seeds| ==> t.history[k] == HistoryEntry(first + k, now, seeds[k].quantity))
  }

  /** A barcode no laid-out seed has is not in the table. */
  lemma LayoutAbsent(u: Tables, first: nat, init: seq<Seed>, last: Seed, now: nat)
    requires Layout(u, first, init, now)
    requires forall k :: 0 <= k < |init| ==> init[k].barcode != last.barcode
    ensures IndexOf(u.rows, last.barcode).None?
  {
    forall k | 0 <= k < |u.rows| ensures u.rows[k].barcode != last.barcode {
      assert u.rows[k].barcode == init[k].barcode;
    }
  }

  /** One more seed with a barcode not seen before extends the layout. */
  lemma LayoutStep(u: Tables, first: nat, init: seq<Seed>, last: Seed, now: nat)
    requires Layout(u, first, init, now)
    requires forall k :: 0 <= k < |init| ==> init[k].barcode != last.barcode
    ensures Layout(SeedOne(u, last, now), first, init + [last], now)
  {
    LayoutAbsent(u, first, init, last, now);
    SeedOneNew(u, last, now);
  }

  /** Distinct seeds split into distinct leading seeds and a last seed
      unlike all of them. */
  lemma SplitSeeds(init: seq<Seed>, last: Seed)
    requires DistinctSeeds(init + [last])
    ensures DistinctSeeds(init)
    ensures forall k :: 0 <= k < |init| ==> init[k].barcode != last.barcode
  {
    var s := init + [last];
    forall k | 0 <= k < |init| ensures init[k].barcode != last.barcode {
      assert s[k] == init[k] && s[|init|] == last;
    }
    assert forall k :: 0 <= k < |init| ==> s[k] == init[k];
  }

  /** Seeding an empty table with distinct seeds lays them out in order. */
  lemma {:induction false} SeedFresh(first: nat, seeds: seq<Seed>, now: nat)
    requires DistinctSeeds(seeds)
    ensures Layout(SeedAll(Tables([], first, []), seeds, now), first, seeds, now)
    decreases |seeds|
  {
    if seeds != [] {
      var init, last := seeds[..|seeds| - 1], seeds[|seeds| - 1];
      assert seeds == init + [last];
      SplitSeeds(init, last);
      SeedFresh(first, init, now);
      LayoutStep(SeedAll(Tables([], first, []), init, now), first, init, last, now);
    }
  }

  /** A log holding, for each row in turn, one entry with that row's id and
      quantity, where ids count up from `first`, is valid against the table. */
  lemma OpeningLogValid(rows: seq<Product>, history: seq<HistoryEntry>, first: nat, now: nat)
    requires |history| == |rows|
    requires forall k :: 0 <= k < |rows| ==>
      rows[k].id == first + k && history[k] == HistoryEntry(first + k, now, rows[k].quantity)
    ensures HistoryValid(rows, history, now)
  {
    forall i, k | 0 <= i < |history| && 0 <= k < |rows| && history[i].itemId == rows[k].id
      ensures history[i].quantity >= rows[k].quantity
    {
      assert history[i].itemId == first + i;
    }
    forall i, j | 0 <= i < j < |history|
      ensures history[i].itemId != history[j].itemId
    {
      assert history[i].itemId == first + i && history[j].itemId == first + j;
    }
  }

  /** Tables laid out from distinct, stocked seeds are valid: barcodes are
      unique, ids count up below the next id, no stock is negative, and the
      opening log is bounded by the table, names each product once and is
      stamped `now`. */
  lemma LayoutValid(t: Tables, first: nat, seeds: seq<Seed>, now: nat)
    requires Layout(t, first, seeds, now) && DistinctSeeds(seeds) && StockedSeeds(seeds)
    ensures StoreValid(t.rows, t.nextId)
    ensures HistoryValid(t.rows, t.history, now)
  {
    assert forall k :: 0 <= k < |t.rows| ==> t.rows[k].barcode == seeds[k].barcode;
    OpeningLogValid(t.rows, t.history, first, now);
  }

  /** Seeding distinct, stocked seeds into empty tables leaves a valid
      inventory and a valid stock history. */
  lemma FreshSeedValid(t: Tables, seeds: seq<Seed>, now: nat)
    requires DistinctSeeds(seeds) && StockedSeeds(seeds)
    requires t == SeedAll(Tables([], 1, []), seeds, now)
    ensures StoreValid(t.rows, t.nextId) && HistoryValid(t.rows, t.history, now)
  {
    SeedFresh(1, seeds, now);
    LayoutValid(t, 1, seeds, now);
  }

  /** init_db on a fresh database: the inventory is empty, so the defaults
      are seeded starting from id 1. */
  function InitialTables(now: nat): (t: Tables)
    ensures Layout(t, 1, Defaults, now)
    ensures StoreValid(t.rows, t.nextId) && HistoryValid(t.rows, t.history, now)
  {
    DefaultsWellFormed();
    SeedFresh(1, Defaults, now);
    LayoutValid(SeedAll(Tables([], 1, []), Defaults, now), 1, Defaults, now);
    SeedAll(Tables([], 1, []), Defaults, now)
  }
}
