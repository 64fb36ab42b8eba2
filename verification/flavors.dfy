/** The three flavour lists and the rule that decides which of them a
    container offers: cups and cones get the classic and seasonal flavours,
    pints and tubs get the premium ones as well. */
module Flavors {
  import opened Catalogue

  datatype Flavor =
    | Vanilla | Chocolate | Strawberry | MintChocolateChip | CookiesAndCream | GreenTea | Rose
    | AlmondCaramel | MangoCheesecake | SaltedCaramel | RainbowSherbet
    | BlackSaltCaramel | PecanPraline | ChocolateBrownie

  const ClassicFlavors: seq<Flavor> :=
    [Vanilla, Chocolate, Strawberry, MintChocolateChip, CookiesAndCream, GreenTea, Rose]
  const SeasonalFlavors: seq<Flavor> :=
    [AlmondCaramel, MangoCheesecake, SaltedCaramel, RainbowSherbet]
  const PremiumFlavors: seq<Flavor> :=
    [BlackSaltCaramel, PecanPraline, ChocolateBrownie]

  /** No flavour occurs twice in `s`. */
  predicate Distinct(s: seq<Flavor>) {
    forall i, j :: 0 <= i < j < |s| ==> s[i] != s[j]
  }

  /** The three lists partition the flavours: each is free of repeats, no
      flavour is on two lists, and every flavour is on one of them. */
  lemma ListsPartitionFlavors()
    ensures Distinct(ClassicFlavors) && Distinct(SeasonalFlavors) && Distinct(PremiumFlavors)
    ensures forall f :: f in ClassicFlavors ==> f !in SeasonalFlavors && f !in PremiumFlavors
    ensures forall f :: f in SeasonalFlavors ==> f !in PremiumFlavors
    ensures forall f :: f in ClassicFlavors || f in SeasonalFlavors || f in PremiumFlavors
  {
    forall f: Flavor ensures f in ClassicFlavors || f in SeasonalFlavors || f in PremiumFlavors {
      match f
      case Vanilla | Chocolate | Strawberry | MintChocolateChip | CookiesAndCream | GreenTea | Rose =>
        assert f in ClassicFlavors;
      case AlmondCaramel | MangoCheesecake | SaltedCaramel | RainbowSherbet =>
        assert f in SeasonalFlavors;
      case BlackSaltCaramel | PecanPraline | ChocolateBrownie =>
        assert f in PremiumFlavors;
    }
  }

  /** Cups and cones offer every classic and seasonal flavour and no premium one;
      pints and tubs offer every flavour. Each option is listed once. */
  function AvailableFlavors(k: Kind): (r: seq<Flavor>)
    ensures forall f :: f in r <==>
      f in ClassicFlavors || f in SeasonalFlavors || ((k == Pint || k == Tub) && f in PremiumFlavors)
    ensures k == Cup || k == Cone ==> forall f :: f in PremiumFlavors ==> f !in r
    ensures k == Pint || k == Tub ==> forall f: Flavor :: f in r
    ensures Distinct(r)
    ensures |r| == if k == Cup || k == Cone then 11 else 14
  {
    ListsPartitionFlavors();
    if k == Cup || k == Cone then ClassicFlavors + SeasonalFlavors
    else
      assert k == Pint || k == Tub;
      ClassicFlavors + SeasonalFlavors + PremiumFlavors
  }

  /** What the multiselect widget can return for container kind `k`: a list
      of distinct options drawn from the flavours that kind offers. */
  predicate IsSelection(k: Kind, chosen: seq<Flavor>) {
    Distinct(chosen) && forall f :: f in chosen ==> f in AvailableFlavors(k)
  }

  /** A selection is never longer than the offer it is drawn from. */
  lemma SelectionWithinOffer(k: Kind, chosen: seq<Flavor>)
    requires IsSelection(k, chosen)
    ensures |chosen| <= |AvailableFlavors(k)|
  {
    DistinctWithinBound(chosen, AvailableFlavors(k));
  }

  /** A list without repeats has as many distinct elements as it is long. */
  lemma {:induction false} DistinctSetSize(s: seq<Flavor>)
    requires Distinct(s)
    ensures |set f | f in s| == |s|
  {
    if s != [] {
      DistinctSetSize(s[1..]);
      assert (set f | f in s) == {s[0]} + (set f | f in s[1..]);
      assert s[0] !in s[1..];
    }
  }

  /** No list has more distinct elements than it is long. */
  lemma {:induction false} SetSizeBound(t: seq<Flavor>)
    ensures |set f | f in t| <= |t|
  {
    if t != [] {
      SetSizeBound(t[1..]);
      assert (set f | f in t) == {t[0]} + (set f | f in t[1..]);
    }
  }

  /** A list without repeats drawn from `t` is no longer than `t`. */
  lemma DistinctWithinBound(s: seq<Flavor>, t: seq<Flavor>)
    requires Distinct(s)
    requires forall f :: f in s ==> f in t
    ensures |s| <= |t|
  {
    DistinctSetSize(s);
    SetSizeBound(t);
    var a, b := set f | f in s, set f | f in t;
    assert a <= b;
    SubsetSize(a, b);
  }

  lemma SubsetSize(a: set<Flavor>, b: set<Flavor>)
    requires a <= b
    ensures |a| <= |b|
  {
    assert b == a + (b - a);
  }

  /** A cup or cone order never contains a premium flavour. */
  lemma CupOrConeSelectionHasNoPremium(k: Kind, chosen: seq<Flavor>)
    requires k == Cup || k == Cone
    requires IsSelection(k, chosen)
    ensures forall i :: 0 <= i < |chosen| ==> chosen[i] !in PremiumFlavors
  {
    forall i | 0 <= i < |chosen| ensures chosen[i] !in PremiumFlavors {
      assert chosen[i] in chosen;
    }
  }

  /** For every entry of the table a selection with more flavours than its
      scoop cap exists, so the over-limit warning is not dead code. */
  lemma OverLimitSelectionExists(c: Choice)
    ensures exists chosen :: IsSelection(Lookup(c).kind, chosen) && |chosen| > Lookup(c).scoops
  {
    var m := Lookup(c);
    var all := AvailableFlavors(m.kind);
    var chosen := all[..m.scoops + 1];
    assert forall f :: f in chosen ==> f in all;
    assert IsSelection(m.kind, chosen);
  }
}
