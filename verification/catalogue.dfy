/** The kiosk's fixed container table: six entries, each with a container type,
    a maximum scoop count and either a per-scoop price or a fixed price. */
module Catalogue {

  /** The `type` field of a container entry. */
  datatype Kind = Cup | Cone | Pint | Tub

  /** One entry of the container table. A price key that the entry does not have
      is read as 0, as a dictionary lookup with a default (or a falsy `None`) does. */
  datatype Container = Container(
    kind: Kind,
    scoops: nat,         // maximum scoop count
    pricePerScoop: nat,  // 0 when the entry has no per-scoop price
    priceFixed: nat,     // 0 when the entry has no fixed price
    surcharge: nat)
  {
    /** The entry takes the fixed-price branch exactly when its fixed price is
        truthy: present and non-zero. A missing key reads as 0 and is falsy. */
    predicate IsFixedPrice() { priceFixed != 0 }
  }

  /** The six keys of the container table, in the order the menu lists them. */
  datatype Choice = CupOneScoop | CupTwoScoops | WaffleCone | SugarCone | PintTakeHome | PartyTub

  /** The container table: which entry each menu key selects. */
  function Lookup(c: Choice): (m: Container)
    ensures m.scoops >= 1
    ensures m.IsFixedPrice() <==> m.kind == Pint || m.kind == Tub
    ensures m.IsFixedPrice() ==> m.pricePerScoop == 0 && m.surcharge == 0
    ensures !m.IsFixedPrice() ==> m.pricePerScoop > 0
    ensures m.surcharge != 0 <==> c == WaffleCone
    ensures m.pricePerScoop % 100 == 0 && m.priceFixed % 100 == 0 && m.surcharge % 100 == 0
  {
    match c
    case CupOneScoop  => Container(Cup, 1, 3000, 0, 0)
    case CupTwoScoops => Container(Cup, 2, 3000, 0, 0)
    case WaffleCone   => Container(Cone, 1, 3500, 0, 500)
    case SugarCone    => Container(Cone, 1, 3200, 0, 0)
    case PintTakeHome => Container(Pint, 4, 0, 12000, 0)
    case PartyTub     => Container(Tub, 12, 0, 35000, 0)
  }
}
