# Ice-cream kiosk order pricing and checkout

A Dafny model of the order logic of the ice-cream kiosk script `name.py`:
the fixed container table (cups, cones, a pint and a party tub), the rule
that decides which flavours a container offers, the scoop cap and its
over-limit warning, the pricing block that builds a subtotal and an
itemised breakdown, the eat-in tax and total, and the checkout validator
behind the pay button.

Modules, one per part of the script:

- `Catalogue` (`catalogue.dfy`): the container table, as a `Container`
  record per menu key (`Choice`).
- `Flavors` (`flavors.dfy`): the classic, seasonal and premium flavour
  lists and the availability rule.
- `Pricing` (`pricing.dfy`): the pricing block as a method that starts from
  a zero subtotal and an empty breakdown and adds to them step by step,
  specified against `Charge` (what an order costs) and `Sum` (what a
  breakdown adds up to); the tax and the total.
- `Checkout` (`checkout.dfy`): the over-limit warning, the checkout
  validator and `PlaceOrder`, one pass of the script from menu key to
  checkout outcome.

Decisions:

- A price key that a table entry lacks reads as 0, as the script's
  `get` with a default (or a falsy missing value) does; an entry takes the
  fixed-price branch exactly when its fixed price is non-zero.
- The tax is `subtotal * 0.10` truncated to an integer in the script. It is
  modelled as `subtotal / 10` (integer division). The two agree on every
  subtotal the table can produce: `Pricing.TableTaxIsExact` shows that such
  a subtotal is a whole number of hundreds no larger than 35,000, so its
  tenth is an exact integer. The double nearest 0.1 lies slightly above one
  tenth, so the product never falls below that integer. It stays far below
  the next one, because at this size the rounding error is many orders of
  magnitude smaller than 1. The agreement is not general: for very large
  subtotals (around 10^16) rounding the product can carry it up to the next
  integer (see `Pricing.Tax` under "Left out").
- Flavours are an enumeration with English names, and breakdown labels are
  an abstract `Label` (the scoop label keeps the two numbers it displays).
- Dine-in versus takeout is the `Dining` datatype, standing for the radio
  choice whose eat-in label the script tests for.

## Model

| member | source | states |
|---|---|---|
| `Catalogue.Lookup` | name.py:15-25 | every entry allows at least one scoop; `IsFixedPrice()`, the truthiness test of the fixed price at name.py:48 and 66, holds exactly for the pint and the tub, and then no per-scoop price or surcharge; cups and cones have a positive per-scoop price; the waffle cone is the only entry with a surcharge; all prices are whole hundreds |
| `Flavors.ListsPartitionFlavors` | name.py:29-37 | the classic, seasonal and premium lists have no repeats, share no flavour, and together hold every flavour |
| `Flavors.AvailableFlavors` | name.py:39-43 | a flavour is offered iff it is classic or seasonal, or premium and the container is a pint or tub; cups and cones offer no premium flavour, pints and tubs offer every flavour; the offer has no repeats and has 11 options for cups and cones, 14 for pints and tubs |
| `Flavors.SelectionWithinOffer` | name.py:50-56 | a selection the flavour picker can return (`IsSelection`: no repeats, only offered flavours) is never longer than the offer |
| `Flavors.CupOrConeSelectionHasNoPremium` | name.py:39-56 | any selection the flavour picker allows for a cup or cone contains no premium flavour |
| `Flavors.OverLimitSelectionExists` | name.py:46-60 | for every table entry the picker allows a selection larger than the scoop cap, so the over-limit warning can appear |
| `Pricing.SumAppend` | name.py:63-80 | appending a breakdown line adds exactly its amount to the breakdown's sum |
| `Pricing.BilledScoops` | name.py:72 | billed scoops are at most the flavour count and at most the scoop cap, and equal one of them (their minimum) |
| `Pricing.Charge` | name.py:66-80 | the pre-tax charge of an order: the fixed price whatever the flavour count for a fixed-price container; otherwise at least the surcharge, and exactly per-scoop price times flavour count plus surcharge while the count is within the cap |
| `Pricing.ComputePrice` | name.py:63-80 | the breakdown sums to the subtotal; the subtotal is the order's charge; a fixed-price container yields a single fixed-price line whatever flavours are chosen; otherwise a scoop line with the billed scoops and unit price, followed by a surcharge line only when the surcharge is non-zero |
| `Pricing.ScoopChargeCapped` | name.py:71-74 | for a per-scoop container the scoop charge never exceeds the per-scoop price times the scoop cap |
| `Pricing.ChargeMonotone` | name.py:66-80 | choosing more flavours never lowers the charge |
| `Pricing.ChargeSaturates` | name.py:72-73 | flavours beyond the scoop cap are not billed |
| `Pricing.Tax` | name.py:83-88 | takeout pays no tax; eat-in pays a tenth of the subtotal rounded down |
| `Pricing.Total` | name.py:90 | the total is never below the subtotal; it equals the subtotal on takeout and is 110% of the subtotal rounded down on eat-in |
| `Pricing.TableTaxIsExact` | name.py:15-22 | every subtotal a table entry can produce is a multiple of 100 and at most 35,000, and its eat-in tax is exactly a tenth of it |
| `Checkout.OverLimitWarning` | name.py:59-60 | the over-limit warning is shown exactly when some chosen flavours would go unbilled |
| `Checkout.Checkout` | name.py:117-125 | an order with no flavours is refused; otherwise one with more flavours than the scoop cap is refused with that cap; every order with 1 to cap flavours is paid at its taxed total |
| `Checkout.WarningMatchesRejection` | name.py:118-121 | for a non-empty order, checkout refuses it for its size exactly when the warning is shown |
| `Checkout.PaidOrderBillsEveryFlavor` | name.py:118-125 | a paid order bills one scoop per chosen flavour: per-scoop price times flavour count plus surcharge, or the fixed price, then taxed |
| `Checkout.PlaceOrder` | name.py:25-125 | one pass of the script: the warning flag matches the cap; the breakdown sums to the subtotal, which is the order's charge; a pint or tub gets one fixed-price line, a cup or cone a scoop line plus a surcharge line of 500 only for the waffle cone; the tax is zero on takeout and exactly a tenth on eat-in; the total is subtotal plus tax; a paid checkout charges that total |

## Left out

- The page widgets and their rendering: page setup, titles, radios, select
  boxes, the multiselect, markdown, warnings, errors, balloons and success
  messages. The warning and the checkout refusals are modelled as values.
- The pay button: the script checks out only after a press, while
  `PlaceOrder` always computes an `Outcome`, which is what a press produces.
- The payment method choice: it is only echoed in the success message.
- Currency formatting with thousands separators, the displayed tax
  percentage, and the Korean label texts of the breakdown lines.
- Floating-point arithmetic: the tax rate is not modelled as a float (see
  the tax decision above).
- Pricing.Tax: states the exact floor of a tenth for every subtotal, while the
  script's truncated floating-point product can exceed it by one for very
  large subtotals (around 10^16). The two agree on all subtotals the table
  produces, and the model does not capture floating-point rounding.
- The scoop cap's default of 1 when an entry lacks a `scoops` key: every
  table entry has one, so the default never applies and `Container.scoops`
  is a plain field.
- The order in which the menu lists the containers, and that the picker
  shows options in list order: presentation only.
- The repository's other dashboards (the MBTI chart viewer and the
  lost-and-found boards) are not part of this model.
