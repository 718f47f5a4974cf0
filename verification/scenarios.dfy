/** Concrete batches worked through the model: the parser on sample lines
    and the discount pass on small batches. */
module Scenarios {
  import opened Core
  import opened Enums
  import opened Dates
  import opened Models
  import opened Catalog
  import opened Parser
  import opened ContextBuilder
  import opened Service
  import Rules

  /** The empty line has one token and fails. */
  lemma EmptyLineFails()
    ensures Parse("") == Failure("")
  {
  }

  /** A well-formed line parses to its date, size and carrier. */
  lemma SampleLineParses(line: string)
    requires line == "2024-01-12 L LP"
    ensures Parse(line) == Success(Transaction(Date(2024, 1, 12), Large, LaPoste))
  {
    var t := Transaction(Date(2024, 1, 12), Large, LaPoste);
    assert FormatDate(t.date) == "2024-01-12";
    assert FormatLine(t) == line;
    ParseFormatLine(t);
  }

  /** A double space makes four tokens, so the line fails with itself as
      the error. */
  lemma DoubleSpaceFails(line: string)
    requires line == "2024-01-12  L LP"
    ensures Parse(line) == Failure(line)
  {
    SplitAfterPiece("2024-01-12", ' ', " L LP");
    SplitAfterPiece("", ' ', "L LP");
    SplitAfterPiece("L", ' ', "LP");
    SplitPiece("LP", ' ');
    assert line == "2024-01-12" + " " + (" L LP");
    assert " L LP" == "" + " " + "L LP";
    assert "L LP" == "L" + " " + "LP";
  }

  const Jan1 := Date(2024, 1, 1)
  const Jan2 := Date(2024, 1, 2)
  const Jan3 := Date(2024, 1, 3)

  /** Three large LaPoste shipments, all of month number `m`. */
  predicate ThreeLargeLaPoste(results: seq<Result<Transaction>>, m: int) {
    && |results| == 3
    && forall k :: 0 <= k < 3 ==>
         && results[k].Success?
         && results[k].value.date.month == m
         && results[k].value.size == Large
         && results[k].value.carrier == LaPoste
  }

  /** Such a batch starts with the full budget for `m` alone, and each
      shipment sees the earlier ones counted. */
  lemma ThreeLargeLaPosteCounts(results: seq<Result<Transaction>>, m: int)
    requires ThreeLargeLaPoste(results, m)
    ensures PoolBefore(results, 0) == map[m := MonthlyDiscountBudget]
    ensures CountBefore(results, 0, m) == 0
    ensures CountBefore(results, 1, m) == 1
    ensures CountBefore(results, 2, m) == 2
  {
    assert SuccessMonths(results) == {m} by {
      assert results[0].value.date.month == m;
    }
    assert results[..0] == [];
    CountBeforeStep(results, 0, m);
    CountBeforeStep(results, 1, m);
  }

  /** In such a batch the first two shipments pay in full and the third is
      covered by the whole month's budget. */
  lemma ThreeLargeLaPosteDiscounts(results: seq<Result<Transaction>>, m: int)
    requires ThreeLargeLaPoste(results, m)
    ensures Apply(results)[0].Success? && Apply(results)[0].value.discount == 0
    ensures Apply(results)[1].Success? && Apply(results)[1].value.discount == 0
    ensures Apply(results)[2].Success? && Apply(results)[2].value.discount == 690
  {
    ThreeLargeLaPosteCounts(results, m);
    DispatchBySize(results, 0);
    DiscountWithinAvailableBudget(results, 0);
    DispatchBySize(results, 1);
    DiscountWithinAvailableBudget(results, 1);
    DispatchBySize(results, 2);
  }

  /** Three large LaPoste shipments in January 2024: the third is covered
      in full (6.90), the first two are not discounted. */
  lemma ThirdLargeLaPosteCovered(results: seq<Result<Transaction>>)
    requires results == [
      Success(Transaction(Jan1, Large, LaPoste)),
      Success(Transaction(Jan2, Large, LaPoste)),
      Success(Transaction(Jan3, Large, LaPoste))]
    ensures Apply(results) == [
      Success(DiscountedTransaction(Jan1, Large, LaPoste, 690, 0)),
      Success(DiscountedTransaction(Jan2, Large, LaPoste, 690, 0)),
      Success(DiscountedTransaction(Jan3, Large, LaPoste, 0, 690))]
  {
    ThreeLargeLaPosteDiscounts(results, 1);
    var out := Apply(results);
    assert Derived(results[0], out[0]) && Derived(results[1], out[1]) && Derived(results[2], out[2]);
  }

  /** Months are keyed by month number alone: two large LaPoste shipments in
      January 2023 make a January 2024 one the third of "its" month. */
  lemma YearsShareMonthNumber(results: seq<Result<Transaction>>)
    requires results == [
      Success(Transaction(Date(2023, 1, 5), Large, LaPoste)),
      Success(Transaction(Date(2023, 1, 6), Large, LaPoste)),
      Success(Transaction(Date(2024, 1, 7), Large, LaPoste))]
    ensures Apply(results)[2] == Success(DiscountedTransaction(Date(2024, 1, 7), Large, LaPoste, 0, 690))
  {
    ThreeLargeLaPosteDiscounts(results, 1);
    assert Derived(results[2], Apply(results)[2]);
  }

  /** A single small LaPoste shipment: LaPoste is the cheapest, so 1.50 is
      charged and nothing is discounted. */
  lemma SmallLaPosteUndiscounted(results: seq<Result<Transaction>>)
    requires results == [Success(Transaction(Jan1, Small, LaPoste))]
    ensures Apply(results) == [Success(DiscountedTransaction(Jan1, Small, LaPoste, 150, 0))]
  {
    assert SuccessMonths(results) == {1} by {
      assert results[0].value.date.month == 1;
    }
    assert PoolBefore(results, 0) == map[1 := MonthlyDiscountBudget];
    DispatchBySize(results, 0);
    BestPrices();
  }

  /** A single small MondialRelay shipment: the 0.50 gap to LaPoste is
      covered, so it also costs 1.50. */
  lemma SmallMondialRelayMatched(results: seq<Result<Transaction>>)
    requires results == [Success(Transaction(Jan1, Small, MondialRelay))]
    ensures Apply(results) == [Success(DiscountedTransaction(Jan1, Small, MondialRelay, 150, 50))]
  {
    assert SuccessMonths(results) == {1} by {
      assert results[0].value.date.month == 1;
    }
    assert PoolBefore(results, 0) == map[1 := MonthlyDiscountBudget];
    DispatchBySize(results, 0);
    BestPrices();
  }

  /** A line that does not parse comes out as the same failure, and a batch
      of failures opens no month's budget. */
  lemma BadLinePassesThrough(results: seq<Result<Transaction>>)
    requires results == [Parse("bad line")]
    ensures Apply(results) == [Failure("bad line")]
    ensures PoolBefore(results, 0) == map[]
  {
    assert SuccessMonths(results) == {};
    FailurePassesThrough(results, 0);
  }

  /** The third large LaPoste shipment is covered only as far as the month's
      remaining budget goes. */
  lemma LargeCoverCappedByBudget()
    ensures Rules.LargePackageRule(LargeContext(Jan3, LaPoste, 300, 2)) ==
      DiscountedTransaction(Jan3, Large, LaPoste, 390, 300)
    ensures Rules.LargePackageRule(LargeContext(Jan3, LaPoste, 1000, 3)) ==
      DiscountedTransaction(Jan3, Large, LaPoste, 690, 0)
  {
  }
}
