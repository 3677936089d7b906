/** Invoice lines, and how tax is split. */
module Invoicing {
  import opened Wrappers

  /** The nearest whole number, halves rounded up. */
  function Round(x: real): int { (x + 0.5).Floor }

  /** A percentage of an amount in paise, to the nearest paisa. */
  function PctOfPaise(paise: int, pct: real): int { Round(paise as real * pct / 100.0) }

  /** What a caller gives for a line; what is absent takes its default. */
  datatype Item = Item(unitPrice: Option<int>, quantity: Option<real>, discount: Option<int>, taxRate: Option<real>)

  function Or<T>(value: Option<T>, default: T): T { if value.Some? then value.value else default }

  function Rate(i: Item): real { Or(i.taxRate, 18.0) }

  function Gross(i: Item): int { Round(Or(i.unitPrice, 0) as real * Or(i.quantity, 1.0)) }

  function NetOf(i: Item): int {
    if Gross(i) - Or(i.discount, 0) > 0 then Gross(i) - Or(i.discount, 0) else 0
  }

  function TaxOf(i: Item): int { PctOfPaise(NetOf(i), Rate(i)) }

  function HalfOf(i: Item): int { PctOfPaise(NetOf(i), Rate(i) / 2.0) }

  /** A stored line. */
  datatype Line = Line(tax: int, amount: int, sortOrder: int)

  datatype Totals = Totals(subtotal: int, discount: int, cgst: int, sgst: int, igst: int) {
    function Tax(): int { cgst + sgst + igst }

    function Total(): int { subtotal + Tax() }
  }

  /** Whether the supply crosses a state border; with no place of supply it does not. */
  predicate InterState(place: Option<string>, supplierState: string) {
    place.Some? && place.value != "" && place.value != supplierState
  }

  /** An item once priced. */
  datatype Priced = Priced(net: int, discount: int, tax: int, half: int)

  function Price(i: Item): Priced { Priced(NetOf(i), Or(i.discount, 0), TaxOf(i), HalfOf(i)) }

  function Prices(items: seq<Item>): (r: seq<Priced>)
    ensures |r| == |items| && forall k :: 0 <= k < |items| ==> r[k] == Price(items[k])
  {
    if items == [] then [] else Prices(items[..|items| - 1]) + [Price(items[|items| - 1])]
  }

  /** The totals of priced items, one item at a time. */
  function TotalsOf(ps: seq<Priced>, interState: bool): Totals {
    if ps == [] then Totals(0, 0, 0, 0, 0)
    else
      var n := |ps| - 1;
      var t, p := TotalsOf(ps[..n], interState), ps[n];
      Totals(t.subtotal + p.net, t.discount + p.discount,
             t.cgst + (if interState then 0 else p.half),
             t.sgst + (if interState then 0 else p.tax - p.half),
             t.igst + (if interState then p.tax else 0))
  }

  method PriceItem(item: Item) returns (net: int, tax: int, half: int)
    ensures net == Price(item).net && tax == Price(item).tax && half == Price(item).half
  {
    var gross := Gross(item);
    net := if gross - Or(item.discount, 0) > 0 then gross - Or(item.discount, 0) else 0;
    tax := PctOfPaise(net, Rate(item));
    half := PctOfPaise(net, Rate(item) / 2.0);
  }

  lemma OneMoreItem(ps: seq<Priced>, p: Priced, interState: bool)
    ensures var t := TotalsOf(ps, interState);
      TotalsOf(ps + [p], interState) ==
      Totals(t.subtotal + p.net, t.discount + p.discount,
             t.cgst + (if interState then 0 else p.half),
             t.sgst + (if interState then 0 else p.tax - p.half),
             t.igst + (if interState then p.tax else 0))
  {
    assert (ps + [p])[..|ps|] == ps;
  }

  /** The running totals, and the lines, of the first `k` items. */
  ghost predicate Accumulated(ps: seq<Priced>, interState: bool, k: nat, t: Totals, lines: seq<Line>) {
    && k <= |ps| && |lines| == k
    && t == TotalsOf(ps[..k], interState)
    && forall j :: 0 <= j < k ==> lines[j] == Line(ps[j].tax, ps[j].net + ps[j].tax, j * 10)
  }

  lemma AccumulateItem(ps: seq<Priced>, interState: bool, k: nat, t: Totals, lines: seq<Line>)
    requires Accumulated(ps, interState, k, t, lines) && k < |ps|
    ensures var p := ps[k];
      Accumulated(ps, interState, k + 1,
        Totals(t.subtotal + p.net, t.discount + p.discount,
               t.cgst + (if interState then 0 else p.half),
               t.sgst + (if interState then 0 else p.tax - p.half),
               t.igst + (if interState then p.tax else 0)),
        lines + [Line(p.tax, p.net + p.tax, k * 10)])
  {
    OneMoreItem(ps[..k], ps[k], interState);
    assert ps[..k + 1] == ps[..k] + [ps[k]];
  }

  method CreateInvoice(items: seq<Item>, place: Option<string>, supplierState: string)
    returns (lines: seq<Line>, t: Totals)
    ensures t == TotalsOf(Prices(items), InterState(place, supplierState))
    ensures |lines| == |items|
    ensures forall k :: 0 <= k < |items| ==>
              var p := Prices(items)[k]; lines[k] == Line(p.tax, p.net + p.tax, k * 10)
  {
    var interState := InterState(place, supplierState);
    var subtotal, discount, cgst, sgst, igst := 0, 0, 0, 0, 0;
    lines := [];
    ghost var ps := Prices(items);
    for k := 0 to |items|
      invariant Accumulated(ps, interState, k, Totals(subtotal, discount, cgst, sgst, igst), lines)
    {
      AccumulateItem(ps, interState, k, Totals(subtotal, discount, cgst, sgst, igst), lines);
      var item := items[k];
      var net, tax, half := PriceItem(item);
      subtotal := subtotal + net;
      discount := discount + Or(item.discount, 0);
      if interState {
        igst := igst + tax;
      } else {
        cgst := cgst + half;
        sgst := sgst + (tax - half);
      }
      lines := lines + [Line(tax, net + tax, k * 10)];
    }
    assert ps[..|items|] == ps;
    t := Totals(subtotal, discount, cgst, sgst, igst);
  }

  /** The sum of the tax, and of the amount, on the stored lines. */
  function LineTax(ps: seq<Priced>): int {
    if ps == [] then 0 else LineTax(ps[..|ps| - 1]) + ps[|ps| - 1].tax
  }

  function LineAmount(ps: seq<Priced>): int {
    if ps == [] then 0 else LineAmount(ps[..|ps| - 1]) + (ps[|ps| - 1].net + ps[|ps| - 1].tax)
  }

  /** Rounding twice a number differs from twice its rounding by at most one. */
  lemma HalfRounding(h: real)
    ensures -1 <= Round(2.0 * h) - 2 * Round(h) <= 1
    ensures h >= 0.0 ==> Round(h) >= 0 && Round(2.0 * h) >= Round(h)
  {
    var n, m := Round(h), Round(2.0 * h);
    assert n as real <= h + 0.5 < n as real + 1.0;
    assert m as real <= 2.0 * h + 0.5 < m as real + 1.0;
  }

  /** One item's split is fair: the two shares differ by at most a paisa, and neither is negative. */
  predicate Fair(p: Priced, nonNegative: bool) {
    -1 <= (p.tax - p.half) - p.half <= 1 && (nonNegative ==> p.half >= 0 && p.tax - p.half >= 0)
  }

  lemma ItemSplit(i: Item)
    ensures Fair(Price(i), Rate(i) >= 0.0)
  {
    var n, r := NetOf(i) as real, Rate(i);
    var h := n * (r / 2.0) / 100.0;
    assert n * r / 100.0 == 2.0 * h;
    if r >= 0.0 { assert n * (r / 2.0) >= 0.0; }
    HalfRounding(h);
  }

  lemma {:induction false} SplitKeepsSums(ps: seq<Priced>, interState: bool)
    ensures var t := TotalsOf(ps, interState); t.Tax() == LineTax(ps) && t.Total() == LineAmount(ps)
    decreases |ps|
  {
    if ps != [] { SplitKeepsSums(ps[..|ps| - 1], interState); }
  }

  lemma {:induction false} SharesAreClose(ps: seq<Priced>, nonNegative: bool)
    requires forall k :: 0 <= k < |ps| ==> Fair(ps[k], nonNegative)
    ensures var t := TotalsOf(ps, false);
      t.igst == 0 && -|ps| <= t.sgst - t.cgst <= |ps| && (nonNegative ==> t.cgst >= 0 && t.sgst >= 0)
    decreases |ps|
  {
    if ps != [] {
      var n := |ps| - 1;
      var t, p := TotalsOf(ps[..n], false), ps[n];
      SharesAreClose(ps[..n], nonNegative);
      assert Fair(p, nonNegative);
      assert TotalsOf(ps, false).sgst - TotalsOf(ps, false).cgst == (t.sgst - t.cgst) + (p.tax - 2 * p.half);
    }
  }

  lemma {:induction false} AcrossStates(ps: seq<Priced>)
    ensures TotalsOf(ps, true).cgst == 0 && TotalsOf(ps, true).sgst == 0
    decreases |ps|
  {
    if ps != [] { AcrossStates(ps[..|ps| - 1]); }
  }

  /**
   The tax total is the lines' tax however it is split; the invoice total is the sum of the lines'
   amounts, wherever the supply is; and inside a state the centre's and the state's shares differ
   by at most one paisa an item, and are never negative when no rate is.
   */
  lemma TaxIsSplitFairly(items: seq<Item>, interState: bool)
    ensures var ps := Prices(items); var t := TotalsOf(ps, interState);
      && t.Tax() == LineTax(ps)
      && t.Total() == LineAmount(ps) == TotalsOf(ps, !interState).Total()
      && (interState ==> t.cgst == 0 && t.sgst == 0)
      && (!interState ==> t.igst == 0 && -|items| <= t.sgst - t.cgst <= |items|)
      && (!interState && (forall k :: 0 <= k < |items| ==> Rate(items[k]) >= 0.0) ==> t.cgst >= 0 && t.sgst >= 0)
  {
    var ps := Prices(items);
    var nonNegative := forall k :: 0 <= k < |items| ==> Rate(items[k]) >= 0.0;
    forall k | 0 <= k < |ps| ensures Fair(ps[k], nonNegative) { ItemSplit(items[k]); }
    SplitKeepsSums(ps, interState);
    SplitKeepsSums(ps, !interState);
    AcrossStates(ps);
    SharesAreClose(ps, nonNegative);
  }

  // ---- Where the tax goes, and what a line costs -------------------------------------------

  /**
   A supply to a named place other than the supplier's state bears the integrated tax alone; any other,
   one without a place included, the centre's and the state's alone. Either way it is all the tax there is.
   */
  lemma TaxGoesByPlace(items: seq<Item>, place: Option<string>, supplierState: string)
    ensures var t, tax := TotalsOf(Prices(items), InterState(place, supplierState)), LineTax(Prices(items));
      if place.Some? && place.value != "" && place.value != supplierState then t.igst == tax && t.cgst == 0 && t.sgst == 0
      else t.igst == 0 && t.cgst + t.sgst == tax
  {
    TaxIsSplitFairly(items, InterState(place, supplierState));
  }

  /** A whole number within half of a real one, and above it where it is halfway. */
  predicate Nearest(n: int, x: real) { x - 0.5 < n as real <= x + 0.5 }

  lemma RoundIsNearest(x: real)
    ensures Nearest(Round(x), x)
  {
  }

  /**
   A line's net is its price times its quantity to the nearest paisa, less the discount and never below
   nothing. What is not given is a price of 0, one piece and no discount.
   */
  lemma LineCosts(i: Item, price: int, quantity: real, discount: int) returns (gross: int)
    requires price == if i.unitPrice.Some? then i.unitPrice.value else 0
    requires quantity == if i.quantity.Some? then i.quantity.value else 1.0
    requires discount == if i.discount.Some? then i.discount.value else 0
    ensures Nearest(gross, price as real * quantity)
    ensures Price(i).discount == discount && Price(i).net == if gross > discount then gross - discount else 0
  {
    gross := Gross(i);
    RoundIsNearest(price as real * quantity);
  }

  /** Its tax is that net's percentage to the nearest paisa, 18 percent if none is given. */
  lemma LineIsTaxed(i: Item, rate: real)
    requires rate == if i.taxRate.Some? then i.taxRate.value else 18.0
    ensures Nearest(Price(i).tax, Price(i).net as real * rate / 100.0)
  {
    RoundIsNearest(NetOf(i) as real * rate / 100.0);
  }

  /** The invoice's subtotal and discount are those of its lines. */
  lemma {:induction false} TotalsAreSums(ps: seq<Priced>, interState: bool, p: Priced)
    ensures var t, u := TotalsOf(ps, interState), TotalsOf(ps + [p], interState);
      u.subtotal == t.subtotal + p.net && u.discount == t.discount + p.discount
    ensures TotalsOf([], interState).subtotal == 0 && TotalsOf([], interState).discount == 0
  {
    OneMoreItem(ps, p, interState);
  }
}
