/** The three size-specific discount rules and their dispatch.

    A rule turns a context into a discounted transaction whose reduced cost
    and discount add up to the base price. With a non-negative available
    budget the discount never exceeds that budget. */
module Rules {
  import opened Enums
  import opened Models
  import opened Catalog

  /** Small packages: cover the gap to the cheapest carrier, as far as the
      budget allows, so that a small shipment costs the same whichever
      carrier takes it. */
  function SmallPackageRule(context: Context): (r: DiscountedTransaction)
    requires context.SmallContext?
    ensures r.date == context.date && r.size == Small && r.carrier == context.carrier
    ensures r.discount == Min(context.availableBudget, Price(context.carrier, Small) - BestPrice(Small))
    ensures r.reducedCost + r.discount == Price(context.carrier, Small)
    ensures context.availableBudget >= 0 ==>
      0 <= r.discount <= context.availableBudget && r.reducedCost >= BestPrice(Small)
    ensures context.availableBudget >= Price(context.carrier, Small) - BestPrice(Small) ==>
      r.reducedCost == BestPrice(Small)
  {
    var lowestPrice := BestPrice(context.Size());
    var currentPrice := Price(context.carrier, context.Size());
    var coveredPrice := Min(context.availableBudget, currentPrice - lowestPrice);
    DiscountedTransaction(context.date, context.Size(), context.carrier, currentPrice - coveredPrice, coveredPrice)
  }

  /** LaPoste already is the cheapest small-package carrier, so its small
      shipments are never discounted. */
  lemma SmallLaPosteNeverDiscounted(context: Context)
    requires context.SmallContext? && context.carrier == LaPoste
    requires context.availableBudget >= 0
    ensures SmallPackageRule(context).discount == 0
    ensures SmallPackageRule(context).reducedCost == Price(LaPoste, Small)
  {
    BestPrices();
  }

  /** Medium packages: never discounted. */
  function MediumPackageRule(context: Context): (r: DiscountedTransaction)
    requires context.MediumContext?
    ensures r.date == context.date && r.size == Medium && r.carrier == context.carrier
    ensures r.discount == 0
    ensures r.reducedCost == Price(context.carrier, Medium)
  {
    var currentPrice := Price(context.carrier, context.Size());
    DiscountedTransaction(context.date, context.Size(), context.carrier, currentPrice, 0)
  }

  /** The trigger of the large-package rule: exactly two large LaPoste
      shipments came earlier this month and this one is large LaPoste too. */
  function IsThirdLargeLaPosteTransactionThisMonth(context: Context): (third: bool)
    requires context.LargeContext?
    ensures third <==> context.largeLaPosteCountBeforeCurrent == 2 && context.carrier == LaPoste
  {
    && context.largeLaPosteCountBeforeCurrent == 2
    && context.Size() == Large
    && context.carrier == LaPoste
  }

  /** Large packages: the third large LaPoste shipment of a month is covered
      in full, as far as the budget allows; any other is not discounted. */
  function LargePackageRule(context: Context): (r: DiscountedTransaction)
    requires context.LargeContext?
    ensures r.date == context.date && r.size == Large && r.carrier == context.carrier
    ensures r.discount ==
      if context.largeLaPosteCountBeforeCurrent == 2 && context.carrier == LaPoste
      then Min(context.availableBudget, Price(context.carrier, Large))
      else 0
    ensures r.reducedCost + r.discount == Price(context.carrier, Large)
    ensures context.availableBudget >= 0 ==> 0 <= r.discount <= context.availableBudget && r.reducedCost >= 0
    ensures IsThirdLargeLaPosteTransactionThisMonth(context) && context.availableBudget >= Price(LaPoste, Large) ==>
      r.reducedCost == 0
  {
    var currentPrice := Price(context.carrier, context.Size());
    var coveredPrice :=
      if IsThirdLargeLaPosteTransactionThisMonth(context) then Min(context.availableBudget, currentPrice) else 0;
    DiscountedTransaction(context.date, context.Size(), context.carrier, currentPrice - coveredPrice, coveredPrice)
  }

  /** Sends a context to the rule for `size`. The source casts the context to
      the rule's context type, so the context must be of that size. */
  function ApplyDiscount(size: PackageSize, context: Context): (r: DiscountedTransaction)
    requires context.Size() == size
    ensures r.date == context.date && r.size == size && r.carrier == context.carrier
    ensures r.reducedCost + r.discount == Price(context.carrier, size)
    ensures context.availableBudget >= 0 ==> 0 <= r.discount <= context.availableBudget && r.reducedCost >= 0
    ensures size == Small ==>
      r.discount == Min(context.availableBudget, Price(context.carrier, Small) - BestPrice(Small))
    ensures size == Medium ==> r.discount == 0
    ensures size == Large ==>
      r.discount ==
        if context.largeLaPosteCountBeforeCurrent == 2 && context.carrier == LaPoste
        then Min(context.availableBudget, Price(context.carrier, Large))
        else 0
  {
    match size
    case Small => SmallPackageRule(context)
    case Medium => MediumPackageRule(context)
    case Large => LargePackageRule(context)
  }
}
