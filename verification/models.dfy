/** The records that flow through the discount pipeline, and the
    size-specific evaluation context given to a discount rule. */
module Models {
  import opened Enums
  import opened Dates

  /** A parsed input line. */
  datatype Transaction = Transaction(date: Date, size: PackageSize, carrier: Carrier)

  /** A transaction after its discount rule ran; amounts in cents. */
  datatype DiscountedTransaction = DiscountedTransaction(
    date: Date,
    size: PackageSize,
    carrier: Carrier,
    reducedCost: int,
    discount: int)

  /** What a discount rule needs, one variant per package size. Every
      variant has the date, carrier and available budget; the large variant
      also has the number of large LaPoste transactions earlier in the same
      month, not counting the current one. */
  datatype Context =
    | SmallContext(date: Date, carrier: Carrier, availableBudget: int)
    | MediumContext(date: Date, carrier: Carrier, availableBudget: int)
    | LargeContext(date: Date, carrier: Carrier, availableBudget: int, largeLaPosteCountBeforeCurrent: int)
  {
    /** The package size fixed by the variant. */
    function Size(): (size: PackageSize)
      ensures size == Small <==> SmallContext?
      ensures size == Medium <==> MediumContext?
      ensures size == Large <==> LargeContext?
    {
      match this
      case SmallContext(_, _, _) => Small
      case MediumContext(_, _, _) => Medium
      case LargeContext(_, _, _, _) => Large
    }
  }

  /** `Math.Min` on amounts. */
  function Min(a: int, b: int): (m: int)
    ensures m <= a && m <= b
    ensures m == a || m == b
  {
    if a <= b then a else b
  }
}
