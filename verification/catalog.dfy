/** The hard-coded shipment price table.

    Prices are integer cents: the application's decimal prices 1.50, 4.90,
    6.90, 2.00, 3.00 and 4.00 are exact, so 1 unit here is 0.01. */
module Catalog {
  import opened Enums

  /** The base price of a shipment. Every (carrier, size) pair of the two
      closed enums has an entry, so the source's fallback arm that throws for
      an unknown pair has no counterpart here. */
  function Price(carrier: Carrier, size: PackageSize): (p: int)
    ensures p > 0
  {
    match (carrier, size)
    case (LaPoste, Small) => 150
    case (LaPoste, Medium) => 490
    case (LaPoste, Large) => 690
    case (MondialRelay, Small) => 200
    case (MondialRelay, Medium) => 300
    case (MondialRelay, Large) => 400
  }

  /** The carriers in declaration order, as enumerated by `Enum.GetValues`. */
  const AllCarriers: seq<Carrier> := [LaPoste, MondialRelay]

  /** The smallest price for `size` among `carriers` (LINQ `Min`, which
      needs a non-empty source). */
  function MinPrice(carriers: seq<Carrier>, size: PackageSize): (p: int)
    requires |carriers| > 0
    ensures exists i :: 0 <= i < |carriers| && p == Price(carriers[i], size)
    ensures forall i :: 0 <= i < |carriers| ==> p <= Price(carriers[i], size)
  {
    if |carriers| == 1 then Price(carriers[0], size)
    else
      var rest := MinPrice(carriers[1..], size);
      assert forall i :: 1 <= i < |carriers| ==> carriers[i] == carriers[1..][i - 1];
      if Price(carriers[0], size) <= rest then Price(carriers[0], size) else rest
  }

  /** The best price among all carriers for a package size: no carrier is
      cheaper, and some carrier charges exactly this. */
  function BestPrice(size: PackageSize): (p: int)
    ensures forall c :: p <= Price(c, size)
    ensures exists c :: p == Price(c, size)
    ensures p > 0
  {
    assert forall c :: Price(c, size) == Price(AllCarriers[0], size) || Price(c, size) == Price(AllCarriers[1], size);
    MinPrice(AllCarriers, size)
  }

  /** The best prices are 1.50 (LaPoste) for small, 3.00 (MondialRelay) for
      medium and 4.00 (MondialRelay) for large packages. */
  lemma BestPrices()
    ensures BestPrice(Small) == Price(LaPoste, Small) == 150
    ensures BestPrice(Medium) == Price(MondialRelay, Medium) == 300
    ensures BestPrice(Large) == Price(MondialRelay, Large) == 400
  {
    assert BestPrice(Small) <= Price(LaPoste, Small);
    assert BestPrice(Medium) <= Price(MondialRelay, Medium);
    assert BestPrice(Large) <= Price(MondialRelay, Large);
  }
}
