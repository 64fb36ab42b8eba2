/** The price calculation: the subtotal with its itemised breakdown, the
    eat-in tax and the total. */
module Pricing {
  import opened Catalogue
  import opened Flavors

  /** What a breakdown line is for. A scoop line carries the billed scoop
      count and the unit price that its label shows. */
  datatype Label = FixedPrice | Scoops(count: nat, unitPrice: nat) | ConeSurcharge

  datatype Line = Line(item: Label, amount: nat)

  /** Whether the order is eaten in the shop or taken away. */
  datatype Dining = EatIn | Takeout

  function Sum(lines: seq<Line>): nat {
    if lines == [] then 0 else lines[0].amount + Sum(lines[1..])
  }

  lemma {:induction false} SumAppend(lines: seq<Line>, x: Line)
    ensures Sum(lines + [x]) == Sum(lines) + x.amount
  {
    if lines != [] {
      assert (lines + [x])[1..] == lines[1..] + [x];
      SumAppend(lines[1..], x);
    }
  }

  /** The number of scoops billed for `flavorCount` chosen flavours: the
      smaller of the flavour count and the container's scoop cap. */
  function BilledScoops(m: Container, flavorCount: nat): (n: nat)
    ensures n <= flavorCount && n <= m.scoops
    ensures n == flavorCount || n == m.scoops
  {
    if flavorCount < m.scoops then flavorCount else m.scoops
  }

  /** What an order of `flavorCount` flavours in container `m` costs before tax:
      the fixed price of a fixed-price container, otherwise the billed scoops
      at the per-scoop price plus the container's surcharge. */
  function Charge(m: Container, flavorCount: nat): (r: nat)
    ensures m.IsFixedPrice() ==> r == m.priceFixed
    ensures !m.IsFixedPrice() ==> r >= m.surcharge
    ensures !m.IsFixedPrice() && flavorCount <= m.scoops ==>
      r == m.pricePerScoop * flavorCount + m.surcharge
  {
    if m.IsFixedPrice() then m.priceFixed
    else m.pricePerScoop * BilledScoops(m, flavorCount) + m.surcharge
  }

  /** The pricing block: start from a zero subtotal and an empty breakdown,
      then add the container's price, or the scoop charge and any surcharge,
      one line at a time. */
  method ComputePrice(m: Container, chosen: seq<Flavor>) returns (subtotal: nat, breakdown: seq<Line>)
    ensures subtotal == Sum(breakdown)
    ensures subtotal == Charge(m, |chosen|)
    ensures m.IsFixedPrice() ==> breakdown == [Line(FixedPrice, m.priceFixed)]
    ensures !m.IsFixedPrice() ==>
      var used := BilledScoops(m, |chosen|);
      |breakdown| >= 1 && breakdown[0] == Line(Scoops(used, m.pricePerScoop), m.pricePerScoop * used) &&
      (if m.surcharge != 0 then breakdown[1..] == [Line(ConeSurcharge, m.surcharge)]
       else |breakdown| == 1)
  {
    subtotal := 0;
    breakdown := [];
    if m.IsFixedPrice() {
      subtotal := m.priceFixed;
      breakdown := breakdown + [Line(FixedPrice, m.priceFixed)];
    } else {
      var pricePerScoop := m.pricePerScoop;
      var usedScoops := BilledScoops(m, |chosen|);
      var scoopCost := pricePerScoop * usedScoops;
      subtotal := subtotal + scoopCost;
      breakdown := breakdown + [Line(Scoops(usedScoops, pricePerScoop), scoopCost)];
      var surcharge := m.surcharge;
      if surcharge != 0 {
        SumAppend(breakdown, Line(ConeSurcharge, surcharge));
        subtotal := subtotal + surcharge;
        breakdown := breakdown + [Line(ConeSurcharge, surcharge)];
      }
    }
  }

  /** The scoop charge never exceeds the per-scoop price times the scoop cap,
      however many flavours are chosen. */
  lemma ScoopChargeCapped(m: Container, flavorCount: nat)
    requires !m.IsFixedPrice()
    ensures Charge(m, flavorCount) - m.surcharge <= m.pricePerScoop * m.scoops
  {
  }

  /** Choosing more flavours never lowers the charge. */
  lemma ChargeMonotone(m: Container, fewer: nat, more: nat)
    requires fewer <= more
    ensures Charge(m, fewer) <= Charge(m, more)
  {
    if !m.IsFixedPrice() {
      MulMonotone(m.pricePerScoop, BilledScoops(m, fewer), BilledScoops(m, more));
    }
  }

  lemma MulMonotone(k: nat, a: nat, b: nat)
    requires a <= b
    ensures k * a <= k * b
  {
    assert k * b == k * a + k * (b - a);
  }

  /** Flavours beyond the scoop cap are not billed. */
  lemma ChargeSaturates(m: Container, flavorCount: nat)
    requires flavorCount >= m.scoops
    ensures Charge(m, flavorCount) == Charge(m, m.scoops)
  {
  }

  /** The eat-in tax: a tenth of the subtotal rounded down; no tax on takeout. */
  function Tax(subtotal: nat, dining: Dining): (t: nat)
    ensures dining == Takeout ==> t == 0
    ensures dining == EatIn ==> 10 * t <= subtotal < 10 * t + 10
  {
    if dining == EatIn then subtotal / 10 else 0
  }

  /** The total adds the tax to the subtotal: on takeout it is the subtotal,
      on eat-in it is 110% of the subtotal rounded down. */
  function Total(subtotal: nat, dining: Dining): (r: nat)
    ensures r >= subtotal
    ensures dining == Takeout ==> r == subtotal
    ensures dining == EatIn ==> 10 * r <= 11 * subtotal < 10 * r + 10
  {
    subtotal + Tax(subtotal, dining)
  }

  /** Every subtotal an entry of the table can produce is a whole number of
      hundreds no larger than the party tub's 35,000, so the eat-in tax on it
      is exactly a tenth, with nothing rounded away. */
  lemma TableTaxIsExact(c: Choice, flavorCount: nat)
    ensures Charge(Lookup(c), flavorCount) % 100 == 0
    ensures Charge(Lookup(c), flavorCount) <= 35000
    ensures 10 * Tax(Charge(Lookup(c), flavorCount), EatIn) == Charge(Lookup(c), flavorCount)
  {
  }
}
