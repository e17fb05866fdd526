/** The catalog store: the inventory table, its lookups, its listing in name
    order, and the two pure filters over that listing (the low-stock
    detector of the dashboard and the search box of the product list). */
module Catalog {
  import opened Optional
  import opened Text

  /** A product whose on-hand quantity is strictly below this is low on stock. */
  const LowStockThreshold: int := 10

  /** One row of the inventory table. Prices are in minor units (paise). */
  datatype Product = Product(
    id: nat,
    barcode: string,
    name: string,
    category: string,
    price: nat,
    quantity: int)

  /** The UNIQUE constraint on the barcode column. */
  predicate UniqueCodes(rows: seq<Product>) {
    forall i, j :: 0 <= i < j < |rows| ==> rows[i].barcode != rows[j].barcode
  }

  /** AUTOINCREMENT: ids grow along the table and stay below the next id. */
  predicate IdsIncreasing(rows: seq<Product>, nextId: nat) {
    && (forall i, j :: 0 <= i < j < |rows| ==> rows[i].id < rows[j].id)
    && (forall i :: 0 <= i < |rows| ==> rows[i].id < nextId)
  }

  /** No product is ever below zero on hand. */
  predicate NonNegative(rows: seq<Product>) {
    forall i :: 0 <= i < |rows| ==> rows[i].quantity >= 0
  }

  /** The invariant the inventory table keeps. */
  predicate StoreValid(rows: seq<Product>, nextId: nat) {
    UniqueCodes(rows) && IdsIncreasing(rows, nextId) && NonNegative(rows)
  }

  /** `SELECT ... FROM inventory WHERE barcode=?`: the position of the first
      row whose barcode is exactly `code` (the comparison is case-sensitive),
      or None when there is none. The bill's own lookup, Bill.LineOf, is the
      same first-match search over bill lines: the two are kept apart because
      they model different code (a query on the table against a walk of the
      in-memory bill) over different element types. */
  function IndexOf(rows: seq<Product>, code: string): (r: Option<nat>)
    ensures r.Some? ==> r.value < |rows| && rows[r.value].barcode == code
    ensures r.Some? ==> forall j :: 0 <= j < r.value ==> rows[j].barcode != code
    ensures r.None? <==> forall j :: 0 <= j < |rows| ==> rows[j].barcode != code
    decreases |rows|
  {
    if rows == [] then None
    else if rows[0].barcode == code then Some(0)
    else match IndexOf(rows[1..], code)
      case None => None
      case Some(k) => Some(k + 1)
  }

  /** With unique barcodes, a row's own barcode finds that row. */
  lemma IndexOfRow(rows: seq<Product>, k: nat)
    requires UniqueCodes(rows) && k < |rows|
    ensures IndexOf(rows, rows[k].barcode) == Some(k)
  {
  }

  /** Lookups only look at barcodes, so two tables with the same barcodes in
      the same places answer every lookup alike. */
  lemma {:induction false} IndexOfSameCodes(a: seq<Product>, b: seq<Product>, code: string)
    requires |a| == |b|
    requires forall i :: 0 <= i < |a| ==> a[i].barcode == b[i].barcode
    ensures IndexOf(a, code) == IndexOf(b, code)
    decreases |a|
  {
    if a != [] && a[0].barcode != code {
      IndexOfSameCodes(a[1..], b[1..], code);
    }
  }

  /** Looking up a code in a table with one more row at its end. */
  lemma {:induction false} IndexOfAppend(rows: seq<Product>, p: Product, code: string)
    ensures IndexOf(rows + [p], code) ==
      if IndexOf(rows, code).Some? then IndexOf(rows, code)
      else if p.barcode == code then Some(|rows|)
      else None
    decreases |rows|
  {
    if rows != [] && rows[0].barcode != code {
      assert (rows + [p])[1..] == rows[1..] + [p];
      IndexOfAppend(rows[1..], p, code);
    }
  }

  /** The quantity the live table holds for a barcode, 0 when it has no row
      for it (the availability the quantity editor checks against). */
  function Available(rows: seq<Product>, code: string): (a: int)
    ensures (forall k :: 0 <= k < |rows| ==> rows[k].barcode != code) ==> a == 0
    ensures UniqueCodes(rows) ==>
      forall k :: 0 <= k < |rows| && rows[k].barcode == code ==> a == rows[k].quantity
  {
    match IndexOf(rows, code)
    case None => 0
    case Some(k) => rows[k].quantity
  }

  /** A scanned code as the product list compares it: trimmed, lower case. */
  function Normalize(code: string): string {
    Lower(Strip(code))
  }

  /** The product list's barcode comparison: equal once both are trimmed
      and lower-cased. */
  predicate SameCode(p: Product, code: string) {
    Normalize(p.barcode) == Normalize(code)
  }

  /** The first product of the listing whose barcode matches `code` under
      SameCode, or None when there is none. */
  function FindByCode(listing: seq<Product>, code: string): (r: Option<nat>)
    ensures r.Some? ==> r.value < |listing| && SameCode(listing[r.value], code)
    ensures r.Some? ==> forall j :: 0 <= j < r.value ==> !SameCode(listing[j], code)
    ensures r.None? <==> forall j :: 0 <= j < |listing| ==> !SameCode(listing[j], code)
    decreases |listing|
  {
    if listing == [] then None
    else if SameCode(listing[0], code) then Some(0)
    else match FindByCode(listing[1..], code)
      case None => None
      case Some(k) => Some(k + 1)
  }

  /** A scan that stops at position i, having passed only non-matching
      products, has found what FindByCode finds. */
  lemma FindByCodeAt(listing: seq<Product>, code: string, i: nat)
    requires i <= |listing|
    requires forall j :: 0 <= j < i ==> !SameCode(listing[j], code)
    requires i < |listing| ==> SameCode(listing[i], code)
    ensures FindByCode(listing, code) == if i < |listing| then Some(i) else None
  {
  }

  /** The generator in add_item_by_barcode: walk the listing until a
      product matches the code; i is |listing| when none does. */
  method ScanListing(listing: seq<Product>, code: string) returns (i: nat)
    ensures i <= |listing|
    ensures FindByCode(listing, code) == if i < |listing| then Some(i) else None
  {
    i := 0;
    while i < |listing| && !SameCode(listing[i], code)
      invariant 0 <= i <= |listing|
      invariant forall j :: 0 <= j < i ==> !SameCode(listing[j], code)
    {
      i := i + 1;
    }
    FindByCodeAt(listing, code, i);
  }

  // ---- ORDER BY name ----

  /** Python's (and SQLite's BINARY) string order: lexicographic on code points. */
  predicate NameLe(a: string, b: string)
    decreases |a|
  {
    a == [] || (b != [] && (a[0] < b[0] || (a[0] == b[0] && NameLe(a[1..], b[1..]))))
  }

  lemma {:induction false} NameLeTotal(a: string, b: string)
    ensures NameLe(a, b) || NameLe(b, a)
    decreases |a|
  {
    if a != [] && b != [] && a[0] == b[0] {
      NameLeTotal(a[1..], b[1..]);
    }
  }

  lemma {:induction false} NameLeTrans(a: string, b: string, c: string)
    requires NameLe(a, b) && NameLe(b, c)
    ensures NameLe(a, c)
    decreases |a|
  {
    if a != [] && a[0] == b[0] && b[0] == c[0] {
      NameLeTrans(a[1..], b[1..], c[1..]);
    }
  }

  predicate SortedByName(s: seq<Product>) {
    forall i, j :: 0 <= i < j < |s| ==> NameLe(s[i].name, s[j].name)
  }

  /** Inserts p into a name-ordered listing, after every product whose name
      is not greater than p's. */
  function InsertByName(s: seq<Product>, p: Product): (r: seq<Product>)
    requires SortedByName(s)
    ensures SortedByName(r)
    ensures multiset(r) == multiset(s) + multiset{p}
    ensures forall x :: x in r ==> x == p || x in s
    decreases |s|
  {
    if s == [] then
      [p]
    else if !NameLe(s[0].name, p.name) then
      NameLeTotal(s[0].name, p.name);
      forall j | 0 <= j < |s| ensures NameLe(p.name, s[j].name) {
        if j > 0 {
          NameLeTrans(p.name, s[0].name, s[j].name);
        }
      }
      [p] + s
    else
      var t := InsertByName(s[1..], p);
      forall x | x in t ensures NameLe(s[0].name, x.name) {
        if x != p {
          var j :| 0 <= j < |s[1..]| && s[1..][j] == x;
          assert s[j + 1] == x;
        }
      }
      assert s == [s[0]] + s[1..];
      [s[0]] + t
  }

  /** The inventory listing the application caches: every row of the table,
      ordered by name. */
  function SortByName(rows: seq<Product>): (r: seq<Product>)
    ensures SortedByName(r)
    ensures multiset(r) == multiset(rows)
    decreases |rows|
  {
    if rows == [] then
      []
    else
      var init, last := rows[..|rows| - 1], rows[|rows| - 1];
      assert rows == init + [last];
      InsertByName(SortByName(init), last)
  }

  // ---- Filters over the listing ----

  /** The dashboard's low-stock list: exactly the products on hand strictly
      below the threshold, in listing order. */
  function LowStock(items: seq<Product>): (r: seq<Product>)
    ensures |r| <= |items|
    ensures forall p :: p in r <==> p in items && p.quantity < LowStockThreshold
    ensures SortedByName(items) ==> SortedByName(r)
    decreases |items|
  {
    if items == [] then
      []
    else
      var init, last := items[..|items| - 1], items[|items| - 1];
      assert items == init + [last];
      var r := LowStock(init) + (if last.quantity < LowStockThreshold then [last] else []);
      assert SortedByName(items) ==> SortedByName(r) by {
        if SortedByName(items) {
          forall x | x in LowStock(init) ensures NameLe(x.name, last.name) {
            var i :| 0 <= i < |init| && init[i] == x;
          }
        }
      }
      r
  }

  /** The low-stock filter keeps each low product as many times as the
      listing holds it (once, for a listing of table rows), and drops every
      other product. */
  lemma {:induction false} LowStockCount(items: seq<Product>)
    ensures forall p :: multiset(LowStock(items))[p] == (if p.quantity < LowStockThreshold then multiset(items)[p] else 0)
    decreases |items|
  {
    if items != [] {
      var init, last := items[..|items| - 1], items[|items| - 1];
      LowStockCount(init);
      assert items == init + [last];
      LowStockCountStep(LowStock(items), LowStock(init), items, init, last);
    }
  }

  /** One more product for the count: it is kept exactly when it is low. */
  lemma LowStockCountStep(r: seq<Product>, r0: seq<Product>, items: seq<Product>, init: seq<Product>, last: Product)
    requires items == init + [last]
    requires r == r0 + if last.quantity < LowStockThreshold then [last] else []
    requires forall p :: multiset(r0)[p] == (if p.quantity < LowStockThreshold then multiset(init)[p] else 0)
    ensures forall p :: multiset(r)[p] == (if p.quantity < LowStockThreshold then multiset(items)[p] else 0)
  {
    var x := if last.quantity < LowStockThreshold then [last] else [];
    forall p: Product ensures multiset(r)[p] == (if p.quantity < LowStockThreshold then multiset(items)[p] else 0) {
      CountConcat(r, r0, x, p);
      CountConcat(items, init, [last], p);
    }
  }

  /** How often p occurs in s = a + b. */
  lemma CountConcat(s: seq<Product>, a: seq<Product>, b: seq<Product>, p: Product)
    requires s == a + b
    ensures multiset(s)[p] == multiset(a)[p] + multiset(b)[p]
  {
  }

  /** A product matches a (normalised) search text when the text occurs in
      its lower-cased name, barcode or category. */
  predicate Hit(p: Product, q: string) {
    Contains(Lower(p.name), q) || Contains(Lower(p.barcode), q) || Contains(Lower(p.category), q)
  }

  function Matching(items: seq<Product>, q: string): (r: seq<Product>)
    ensures forall p :: p in r <==> p in items && Hit(p, q)
    ensures SortedByName(items) ==> SortedByName(r)
    decreases |items|
  {
    if items == [] then
      []
    else
      var init, last := items[..|items| - 1], items[|items| - 1];
      assert items == init + [last];
      var r := Matching(init, q) + (if Hit(last, q) then [last] else []);
      assert SortedByName(items) ==> SortedByName(r) by {
        if SortedByName(items) {
          forall x | x in Matching(init, q) ensures NameLe(x.name, last.name) {
            var i :| 0 <= i < |init| && init[i] == x;
          }
        }
      }
      r
  }

  /** The search keeps each hit as many times as the listing holds it and
      drops every other product. */
  lemma {:induction false} MatchingCount(items: seq<Product>, q: string)
    ensures forall p :: multiset(Matching(items, q))[p] == (if Hit(p, q) then multiset(items)[p] else 0)
    decreases |items|
  {
    if items != [] {
      var init, last := items[..|items| - 1], items[|items| - 1];
      MatchingCount(init, q);
      assert items == init + [last];
      MatchingCountStep(Matching(items, q), Matching(init, q), items, init, last, q);
    }
  }

  /** One more product for the count: it is kept exactly when it is a hit. */
  lemma MatchingCountStep(r: seq<Product>, r0: seq<Product>, items: seq<Product>, init: seq<Product>,
                          last: Product, q: string)
    requires items == init + [last]
    requires r == r0 + if Hit(last, q) then [last] else []
    requires forall p :: multiset(r0)[p] == (if Hit(p, q) then multiset(init)[p] else 0)
    ensures forall p :: multiset(r)[p] == (if Hit(p, q) then multiset(items)[p] else 0)
  {
    var x := if Hit(last, q) then [last] else [];
    forall p: Product ensures multiset(r)[p] == (if Hit(p, q) then multiset(items)[p] else 0) {
      CountConcat(r, r0, x, p);
      CountConcat(items, init, [last], p);
    }
  }

  /** The product list's search box: a blank search shows the whole listing;
      otherwise exactly the products the trimmed, lower-cased text hits,
      still in listing order. */
  function Search(items: seq<Product>, query: string): (r: seq<Product>)
    ensures Normalize(query) == [] ==> r == items
    ensures forall p :: p in r <==> p in items && Hit(p, Normalize(query))
    ensures forall p :: multiset(r)[p] == (if Hit(p, Normalize(query)) then multiset(items)[p] else 0)
    ensures SortedByName(items) ==> SortedByName(r)
  {
    var q := Normalize(query);
    if q == [] then
      assert forall t: string :: OccursAt(t, q, 0);
      items
    else
      MatchingCount(items, q);
      Matching(items, q)
  }
}
