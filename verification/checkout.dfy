/** The over-limit warning, the checkout validator and one pass of the kiosk
    script from the chosen menu entry to the checkout outcome. */
module Checkout {
  import opened Catalogue
  import opened Flavors
  import opened Pricing

  /** The warning shown under the flavour picker: it is on exactly when some
      chosen flavours would go unbilled. */
  predicate OverLimitWarning(m: Container, chosen: seq<Flavor>)
    ensures OverLimitWarning(m, chosen) <==> BilledScoops(m, |chosen|) < |chosen|
  {
    |chosen| > m.scoops
  }

  /** What pressing the pay button leads to. */
  datatype Outcome =
    | NoFlavorChosen
    | TooManyFlavors(limit: nat)
    | Paid(total: nat)

  /** Checkout refuses an order without flavours, then one with more flavours
      than the container's scoop cap; any other order is paid at its total. */
  function Checkout(m: Container, chosen: seq<Flavor>, dining: Dining): (r: Outcome)
    ensures r.NoFlavorChosen? <==> |chosen| == 0
    ensures r.TooManyFlavors? <==> |chosen| != 0 && |chosen| > m.scoops
    ensures r.TooManyFlavors? ==> r.limit == m.scoops
    ensures r.Paid? <==> 1 <= |chosen| <= m.scoops
    ensures r.Paid? ==> r.total == Total(Charge(m, |chosen|), dining)
  {
    if |chosen| == 0 then NoFlavorChosen
    else if |chosen| > m.scoops then TooManyFlavors(m.scoops)
    else Paid(Total(Charge(m, |chosen|), dining))
  }

  /** For a non-empty order, checkout rejects it for its size exactly when the
      warning is on screen. */
  lemma WarningMatchesRejection(m: Container, chosen: seq<Flavor>, dining: Dining)
    requires |chosen| != 0
    ensures OverLimitWarning(m, chosen) <==> Checkout(m, chosen, dining).TooManyFlavors?
  {
  }

  /** A paid order bills one scoop per chosen flavour: for a cup or cone the
      total is the per-scoop price times the flavour count plus the surcharge,
      then taxed; for a pint or tub it is the fixed price, then taxed. */
  lemma PaidOrderBillsEveryFlavor(m: Container, chosen: seq<Flavor>, dining: Dining)
    requires Checkout(m, chosen, dining).Paid?
    ensures BilledScoops(m, |chosen|) == |chosen|
    ensures !m.IsFixedPrice() ==>
      Checkout(m, chosen, dining).total == Total(m.pricePerScoop * |chosen| + m.surcharge, dining)
    ensures m.IsFixedPrice() ==> Checkout(m, chosen, dining).total == Total(m.priceFixed, dining)
  {
  }

  /** One pass of the kiosk script for menu entry `choice`: the warning flag,
      the priced order and what the pay button does with it. */
  method PlaceOrder(choice: Choice, chosen: seq<Flavor>, dining: Dining)
    returns (warning: bool, subtotal: nat, breakdown: seq<Line>, tax: nat, total: nat, outcome: Outcome)
    ensures warning <==> |chosen| > Lookup(choice).scoops
    ensures subtotal == Sum(breakdown) == Charge(Lookup(choice), |chosen|)
    ensures Lookup(choice).kind in {Pint, Tub} ==>
      breakdown == [Line(FixedPrice, Lookup(choice).priceFixed)]
    ensures Lookup(choice).kind in {Cup, Cone} ==>
      var m, used := Lookup(choice), BilledScoops(Lookup(choice), |chosen|);
      |breakdown| >= 1 && breakdown[0] == Line(Scoops(used, m.pricePerScoop), m.pricePerScoop * used) &&
      (if choice == WaffleCone then breakdown[1..] == [Line(ConeSurcharge, 500)]
       else |breakdown| == 1)
    ensures dining == Takeout ==> tax == 0
    ensures dining == EatIn ==> 10 * tax == subtotal
    ensures total == subtotal + tax
    ensures outcome == Checkout(Lookup(choice), chosen, dining)
    ensures outcome.Paid? ==> outcome.total == total
  {
    var meta := Lookup(choice);
    warning := OverLimitWarning(meta, chosen);
    subtotal, breakdown := ComputePrice(meta, chosen);
    tax := Tax(subtotal, dining);
    TableTaxIsExact(choice, |chosen|);
    total := subtotal + tax;
    outcome := Checkout(meta, chosen, dining);
  }
}
