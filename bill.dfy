/** The bill builder: the in-memory current bill, its line operations and
    its totals. */
module Bill {
  import opened Optional
  import opened Catalog

  /** One line of the current bill. The price is pinned when the product is
      first added and is not refreshed from the catalog afterwards. */
  datatype BillLine = BillLine(barcode: string, name: string, price: nat, quantity: nat)

  /** Lines merge by barcode, so no barcode appears twice. */
  predicate DistinctLines(bill: seq<BillLine>) {
    forall i, j :: 0 <= i < j < |bill| ==> bill[i].barcode != bill[j].barcode
  }

  /** Every line asks for at least one unit. */
  predicate PositiveLines(bill: seq<BillLine>) {
    forall i :: 0 <= i < |bill| ==> bill[i].quantity >= 1
  }

  /** The invariant the current bill keeps. */
  predicate BillValid(bill: seq<BillLine>) {
    DistinctLines(bill) && PositiveLines(bill)
  }

  /** The line a product starts with: one unit at the product's price. */
  function NewLine(p: Product): BillLine {
    BillLine(p.barcode, p.name, p.price, 1)
  }

  /** The position of the first line for `code`, or None. */
  function LineOf(bill: seq<BillLine>, code: string): (r: Option<nat>)
    ensures r.Some? ==> r.value < |bill| && bill[r.value].barcode == code
    ensures r.Some? ==> forall j :: 0 <= j < r.value ==> bill[j].barcode != code
    ensures r.None? <==> forall j :: 0 <= j < |bill| ==> bill[j].barcode != code
    decreases |bill|
  {
    if bill == [] then None
    else if bill[0].barcode == code then Some(0)
    else match LineOf(bill[1..], code)
      case None => None
      case Some(k) => Some(k + 1)
  }

  /** A scan that stops at position j, having passed only other barcodes,
      has found what LineOf finds. */
  lemma LineOfAt(bill: seq<BillLine>, code: string, j: nat)
    requires j <= |bill|
    requires forall m :: 0 <= m < j ==> bill[m].barcode != code
    requires j < |bill| ==> bill[j].barcode == code
    ensures LineOf(bill, code) == if j < |bill| then Some(j) else None
  {
  }

  /** The for/else over the bill: walk the lines until one has the
      barcode; j is |bill| when none does. */
  method ScanBill(bill: seq<BillLine>, code: string) returns (j: nat)
    ensures j <= |bill|
    ensures LineOf(bill, code) == if j < |bill| then Some(j) else None
  {
    j := 0;
    while j < |bill| && bill[j].barcode != code
      invariant 0 <= j <= |bill|
      invariant forall m :: 0 <= m < j ==> bill[m].barcode != code
    {
      j := j + 1;
    }
    LineOfAt(bill, code, j);
  }

  /** Adding one unit of p: the first line with p's barcode gains a unit;
      when there is none, a new line is appended. */
  function AddUnit(bill: seq<BillLine>, p: Product): seq<BillLine>
    decreases |bill|
  {
    if bill == [] then [NewLine(p)]
    else if bill[0].barcode == p.barcode then [bill[0].(quantity := bill[0].quantity + 1)] + bill[1..]
    else [bill[0]] + AddUnit(bill[1..], p)
  }

  /** Adding p increments exactly the line for p's barcode by one and leaves
      every other line as it was; with no such line, the bill grows by one
      line for p priced as p is now. */
  lemma {:induction false} AddUnitSpec(bill: seq<BillLine>, p: Product)
    ensures match LineOf(bill, p.barcode)
      case Some(i) => AddUnit(bill, p) == bill[i := bill[i].(quantity := bill[i].quantity + 1)]
      case None => AddUnit(bill, p) == bill + [NewLine(p)]
    decreases |bill|
  {
    if bill != [] && bill[0].barcode != p.barcode {
      AddUnitSpec(bill[1..], p);
      assert bill == [bill[0]] + bill[1..];
    }
  }

  /** AddUnit, given the position a scan of the bill stopped at. */
  lemma AddUnitAt(bill: seq<BillLine>, p: Product, j: nat)
    requires j <= |bill|
    requires LineOf(bill, p.barcode) == if j < |bill| then Some(j) else None
    ensures j < |bill| ==> AddUnit(bill, p) == bill[j := bill[j].(quantity := bill[j].quantity + 1)]
    ensures j == |bill| ==> AddUnit(bill, p) == bill + [NewLine(p)]
    ensures BillValid(bill) ==> BillValid(AddUnit(bill, p))
  {
    AddUnitSpec(bill, p);
    if BillValid(bill) {
      AddUnitKeepsValid(bill, p);
    }
  }

  /** Adding keeps barcodes distinct and every quantity positive. */
  lemma AddUnitKeepsValid(bill: seq<BillLine>, p: Product)
    requires BillValid(bill)
    ensures BillValid(AddUnit(bill, p))
  {
    AddUnitSpec(bill, p);
  }

  /** Choosing a new quantity for a line: refused when the entry is not an
      integer or is below one, refused when it is above what the inventory
      holds, accepted otherwise. */
  datatype EditOutcome = Accepted | InvalidQuantity | InsufficientStock(available: int)

  /** The verdict on an entry, given as the integer it parses to (None when
      it does not parse) and the quantity the inventory holds. */
  function EditVerdict(parsed: Option<int>, available: int): (v: EditOutcome)
    ensures v == Accepted <==> parsed.Some? && 1 <= parsed.value <= available
    ensures v == InvalidQuantity <==> parsed.None? || parsed.value < 1
    ensures v.InsufficientStock? <==> parsed.Some? && 1 <= parsed.value && available < parsed.value
    ensures v.InsufficientStock? ==> v.available == available
  {
    match parsed
    case None => InvalidQuantity
    case Some(nq) =>
      if nq <= 0 then InvalidQuantity
      else if nq > available then InsufficientStock(available)
      else Accepted
  }

  /** Setting a line to a positive quantity keeps the bill valid. */
  lemma SetQuantityKeepsValid(bill: seq<BillLine>, idx: nat, nq: nat)
    requires BillValid(bill) && idx < |bill| && nq >= 1
    ensures BillValid(bill[idx := bill[idx].(quantity := nq)])
  {
  }

  /** list.pop(idx) when idx is a position of the bill; otherwise nothing. */
  function RemoveAt(bill: seq<BillLine>, idx: int): (r: seq<BillLine>)
    ensures 0 <= idx < |bill| ==> |r| == |bill| - 1
    ensures 0 <= idx < |bill| ==> forall j :: 0 <= j < idx ==> r[j] == bill[j]
    ensures 0 <= idx < |bill| ==> forall j :: idx <= j < |r| ==> r[j] == bill[j + 1]
    ensures !(0 <= idx < |bill|) ==> r == bill
  {
    if 0 <= idx < |bill| then bill[..idx] + bill[idx + 1..] else bill
  }

  /** Removing a line keeps the bill valid, and with distinct barcodes the
      removed line's barcode is no longer billed. */
  lemma RemoveAtKeepsValid(bill: seq<BillLine>, idx: int)
    requires BillValid(bill)
    ensures BillValid(RemoveAt(bill, idx))
    ensures 0 <= idx < |bill| ==> LineOf(RemoveAt(bill, idx), bill[idx].barcode).None?
  {
  }

  // ---- Totals ----

  /** Tax, as a whole percentage of the subtotal; the application keeps it at zero. */
  const TaxPercent: nat := 0

  function LineTotal(line: BillLine): nat {
    line.price * line.quantity
  }

  /** Σ price × quantity over the lines, accumulated in bill order. */
  function Subtotal(bill: seq<BillLine>): nat
    decreases |bill|
  {
    if bill == [] then 0 else Subtotal(bill[..|bill| - 1]) + LineTotal(bill[|bill| - 1])
  }

  function Tax(subtotal: nat): nat {
    subtotal * TaxPercent / 100
  }

  /** subtotal + tax, which with a zero rate is the subtotal itself. */
  function Total(subtotal: nat): (t: nat)
    ensures t == subtotal
  {
    subtotal + Tax(subtotal)
  }

  /** The subtotal of two bills laid end to end is the sum of their subtotals. */
  lemma {:induction false} SubtotalConcat(a: seq<BillLine>, b: seq<BillLine>)
    ensures Subtotal(a + b) == Subtotal(a) + Subtotal(b)
    decreases |b|
  {
    if b != [] {
      var b' := b[..|b| - 1];
      assert (a + b)[..|a + b| - 1] == a + b';
      SubtotalConcat(a, b');
    } else {
      assert a + b == a;
    }
  }

  /** The subtotal of a bill split around one line. */
  lemma SubtotalAround(bill: seq<BillLine>, idx: nat)
    requires idx < |bill|
    ensures Subtotal(bill) == Subtotal(bill[..idx]) + LineTotal(bill[idx]) + Subtotal(bill[idx + 1..])
  {
    assert bill == bill[..idx] + [bill[idx]] + bill[idx + 1..];
    SubtotalConcat(bill[..idx] + [bill[idx]], bill[idx + 1..]);
    SubtotalConcat(bill[..idx], [bill[idx]]);
    assert [bill[idx]][..0] == [];
  }

  /** Replacing one line changes the subtotal by the difference of the two
      line totals. */
  lemma SubtotalReplace(bill: seq<BillLine>, idx: nat, line: BillLine)
    requires idx < |bill|
    ensures Subtotal(bill[idx := line]) + LineTotal(bill[idx]) == Subtotal(bill) + LineTotal(line)
  {
    var r := bill[idx := line];
    SubtotalAround(bill, idx);
    SubtotalAround(r, idx);
    assert r[..idx] == bill[..idx] && r[idx + 1..] == bill[idx + 1..];
  }

  lemma IncrementSubtotal(bill: seq<BillLine>, i: nat)
    requires i < |bill|
    ensures Subtotal(bill[i := bill[i].(quantity := bill[i].quantity + 1)]) == Subtotal(bill) + bill[i].price
  {
    var line := bill[i].(quantity := bill[i].quantity + 1);
    SubtotalReplace(bill, i, line);
    assert LineTotal(line) == LineTotal(bill[i]) + bill[i].price;
  }

  lemma AppendSubtotal(bill: seq<BillLine>, line: BillLine)
    ensures Subtotal(bill + [line]) == Subtotal(bill) + LineTotal(line)
  {
    SubtotalConcat(bill, [line]);
    assert [line][..0] == [];
  }

  /** Adding a unit raises the subtotal by the price of the line that got it:
      the pinned price of an existing line, or p's price for a new one. */
  lemma AddUnitSubtotal(bill: seq<BillLine>, p: Product)
    ensures Subtotal(AddUnit(bill, p)) == Subtotal(bill) +
      match LineOf(bill, p.barcode) case Some(i) => bill[i].price case None => p.price
  {
    AddUnitSpec(bill, p);
    match LineOf(bill, p.barcode)
    case Some(i) => IncrementSubtotal(bill, i);
    case None => AppendSubtotal(bill, NewLine(p));
  }

  /** Changing one line's quantity changes the subtotal by that line's
      price times the difference. */
  lemma SetQuantitySubtotal(bill: seq<BillLine>, idx: nat, nq: nat)
    requires idx < |bill|
    ensures Subtotal(bill[idx := bill[idx].(quantity := nq)]) + LineTotal(bill[idx])
         == Subtotal(bill) + bill[idx].price * nq
  {
    SubtotalReplace(bill, idx, bill[idx].(quantity := nq));
  }

  /** Removing a line takes exactly its total off the subtotal. */
  lemma RemoveAtSubtotal(bill: seq<BillLine>, idx: nat)
    requires idx < |bill|
    ensures Subtotal(RemoveAt(bill, idx)) + LineTotal(bill[idx]) == Subtotal(bill)
  {
    SubtotalAround(bill, idx);
    SubtotalConcat(bill[..idx], bill[idx + 1..]);
  }
}
