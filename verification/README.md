# DiscountApp discount pipeline in Dafny

DiscountApp reads shipment transactions, one per line as `yyyy-MM-dd SIZE CARRIER`. For each transaction it works out the shipment price and a discount. There are three package sizes: `S`, `M` and `L`. There are two carriers: LaPoste (`LP`) and MondialRelay (`MR`).

This project models the decision core as immutable datatypes and pure functions:

- **Price catalog (`Catalog`).** Six fixed prices. The best price of a size is the minimum over the carriers.
- **Rules (`Rules`).** Three size rules, each working on a size-specific context (`Models.Context`, one variant per size):
  - small packages get the gap to the cheapest carrier covered;
  - medium packages are never discounted;
  - the third large LaPoste shipment of a month is covered in full.

  Both covers go only as far as the month's remaining budget allows.
- **Context builder (`ContextBuilder`).** Builds a transaction's context. For large packages it counts the earlier large LaPoste transactions of the same month.
- **Orchestrator (`Service`).** A left-to-right pass over the parse results. It threads a per-month budget pool that starts at 10.00 for each month seen. Each discount is debited from its month.
- **Result types (`Core`).** The Either-style result types that carry parse failures through the pass.
- **Line parser (`Parser`).** Needs exactly three single-space separated tokens.
- **Enum lookups (`Enums`).** Short code to member and member to short code.

Money is integer cents. The source uses C# `decimal`, whose values here are exact, so 1.50 is 150 and the monthly budget of 10.00 is 1000.

A date is a `(year, month, day)` triple (`Dates`).

Enum reflection becomes an explicit table of `Field`s, each with a name, a value and an optional display name, in declaration order. The generic lookups work over any such table. `SizeFields` and `CarrierFields` are the declarations of the two enums, and lemmas tie the size and carrier code functions to the generic lookups over those tables.

The source calls the carrier enum both `Carrier` and `Provider`. The model has one `Carrier` datatype.

Two behaviours of the source are kept as written:

- The budget pool and the large-package count key a month by its number alone. January 2023 and January 2024 therefore share one budget and one count (`Scenarios.YearsShareMonthNumber`).
- A failed parse result keeps its position in the batch and passes through unchanged.

`Service.Apply` is a recursive fold. `Service.ApplyEagerly` is the same pass written as a loop that updates one pool, and it is proved equal to the fold.

Each output depends only on its own line and the lines before it, and on those only through the line's month. Two consequences are proved:

- lines appended after a batch never change the batch's own outputs (`Service.AppendingKeepsOutputs`);
- two neighbouring lines of different month numbers can trade places, and then only their two outputs trade places (`Reordering.SwapIndependentLines`).

## Model

| member | source | states |
|---|---|---|
| Core.Result.Error | DiscountApp.Driver/Core/Result.cs:17-22 | The error is present exactly on a failure and is then the failure's text |
| Core.Result.Value | DiscountApp.Driver/Core/Result.cs:12-27 | The value is present exactly on a success and is then the success's value |
| Core.Result.Select | DiscountApp.Driver/Core/Result.cs:46-50 | A failure stays a failure with the same error; a success of v becomes a success of selector(v) |
| Core.Result.Bind | DiscountApp.Driver/Core/Result.cs:52-56 | A failure propagates its error unchanged; a success of v becomes bind(v) |
| Core.Result.BindUnit | DiscountApp.Driver/Core/Result.cs:58-62 | Binding into the non-generic result: a failure keeps its error, a success of v becomes bind(v) |
| Core.ConvertError | DiscountApp.Driver/Core/Result.cs:68 | Converting an error text gives a failure carrying exactly that text |
| Core.ConvertValue | DiscountApp.Driver/Core/Result.cs:74 | Converting a value gives a success carrying exactly that value |
| Core.UnitResult.Select | DiscountApp.Driver/Core/Result.cs:111-115 | On success the selector's result; on failure a failure with the same error |
| Core.UnitResult.Ok | DiscountApp.Driver/Core/Result.cs:127 | `Ok` is a success and not a failure |
| Core.UnitResult.ConvertError | DiscountApp.Driver/Core/Result.cs:121 | Converting an error text gives a failure carrying that text |
| Core.SelectIdentity | DiscountApp.Driver/Core/Result.cs:46-50 | Selecting the identity changes no result |
| Core.SelectComposition | DiscountApp.Driver/Core/Result.cs:46-50 | Two selects equal one select of the composed selector |
| Core.SelectIsBind | DiscountApp.Driver/Core/Result.cs:46-56 | Select equals Bind followed by the value conversion |
| Core.BindLeftIdentity | DiscountApp.Driver/Core/Result.cs:52-74 | Binding a converted value applies the continuation to it |
| Core.BindRightIdentity | DiscountApp.Driver/Core/Result.cs:52-74 | Binding the value conversion changes no result |
| Core.BindAssociativity | DiscountApp.Driver/Core/Result.cs:52-56 | Nested binds can be regrouped |
| Enums.FirstWithKey | DiscountApp.Driver/Enums/EnumParsingUtilities.cs:29-35 | The position found holds the key and no earlier member holds it |
| Enums.BuildValueLookupFirstWins | DiscountApp.Driver/Enums/EnumParsingUtilities.cs:22-35 | The dictionary's keys are exactly the registered keys (display name, or member name without one); each maps to the first member registered under it |
| Enums.TryParseByDisplayName | DiscountApp.Driver/Enums/EnumParsingUtilities.cs:18-43 | Succeeds iff the input is exactly a registered key (case-sensitive), yielding the first member under it; otherwise yields the default; an empty table never succeeds |
| Enums.GetName | DiscountApp.Driver/Extensions/EnumExtensions.cs:19-24 | No name exactly when no member has the value. Otherwise the name of a member with that value: the first declared one, where `Enum.GetName` leaves the choice among aliases open |
| Enums.FieldNamed | DiscountApp.Driver/Extensions/EnumExtensions.cs:26-28 | The first member declared under the name |
| Enums.GetDisplayNameOrDefault | DiscountApp.Driver/Extensions/EnumExtensions.cs:17-38 | A value that is not a member gives no name; a member gives its display name, none when it has no attribute |
| Enums.DisplayNameRoundTrip | DiscountApp.Driver/Enums/EnumParsingUtilities.cs:22-42 | For any table with distinct names, values and keys: a member's display name comes back from the lookup and parses back to the member |
| Enums.ParseSize | DiscountApp.Driver/Enums/PackageSize.cs:8-18 | Accepts exactly "S", "M" and "L", mapping each to the size with that code; rejects everything else with `Small` |
| Enums.ParseCarrier | DiscountApp.Driver/Enums/Provider.cs:8-15 | Accepts exactly "LP" and "MR", mapping each to the carrier with that code; rejects everything else with `LaPoste` |
| Enums.SizeNamesMatchDeclaration | DiscountApp.Driver/Enums/PackageSize.cs:10-17 | The display name of each declared size is its short code |
| Enums.SizeParsingMatchesDeclaration | DiscountApp.Driver/Enums/PackageSize.cs:10-17 | The generic lookup over the declaration of `PackageSize` agrees with `ParseSize` on every input |
| Enums.CarrierNamesMatchDeclaration | DiscountApp.Driver/Enums/Provider.cs:10-14 | The display name of each declared carrier is its short code |
| Enums.CarrierParsingMatchesDeclaration | DiscountApp.Driver/Enums/Provider.cs:10-14 | The generic lookup over the declaration of `Carrier` agrees with `ParseCarrier` on every input |
| Enums.SizeCodeRoundTrip | DiscountApp.Driver/Enums/PackageSize.cs:10-17 | Every size's code parses back to that size |
| Enums.CarrierCodeRoundTrip | DiscountApp.Driver/Enums/Provider.cs:10-14 | Every carrier's code parses back to that carrier |
| Enums.SizeDisplayNameRoundTrip | DiscountApp.Driver/Extensions/EnumExtensions.cs:17-38 | Every size has a display name, and parsing it by display name gives the size back |
| Enums.CarrierDisplayNameRoundTrip | DiscountApp.Driver/Extensions/EnumExtensions.cs:17-38 | Every carrier has a display name, and parsing it by display name gives the carrier back |
| Enums.SizeLookupAcceptsCodesOnly | DiscountApp.Driver/Enums/EnumParsingUtilities.cs:42 | The size lookup accepts exactly "S", "M" and "L"; "Small" and "s" are rejected with the default |
| Enums.FirstRegistrationWins | DiscountApp.Driver/Enums/EnumParsingUtilities.cs:22-35 | A member without display name is registered under its own name; a later member under a taken key is ignored; no attribute means no display name |
| Dates.DaysInMonth | DiscountApp.Driver/Parsers/TransactionInputModelParser.cs:28-31 | Between 28 and 31 days; 29 exactly for February of a leap year |
| Dates.ParseDigits | DiscountApp.Driver/Parsers/TransactionInputModelParser.cs:28-31 | Succeeds exactly on all-digit text; the value fits the width and formats back to the text |
| Dates.ParseFormatFixed | DiscountApp.Driver/Parsers/TransactionInputModelParser.cs:28-31 | A number that fits the width is formatted and read back unchanged |
| Dates.ParseDate | DiscountApp.Driver/Parsers/TransactionInputModelParser.cs:28-31 | A parsed date is a valid calendar date and formats back to exactly the token |
| Dates.ParseFormatDate | DiscountApp.Driver/Parsers/TransactionInputModelParser.cs:28-31 | Formatting a date and parsing it back gives the date exactly when it is a valid calendar date |
| Dates.FebruaryTwentyNinth | DiscountApp.Driver/Parsers/TransactionInputModelParser.cs:28-31 | February 29th reads back exactly in leap years |
| Catalog.Price | DiscountApp.Driver/Repositories/TransactionPriceRepository.cs:29-38 | Every (carrier, size) pair has a price and every price is positive, so the throwing fallback arm is never reached |
| Catalog.MinPrice | DiscountApp.Driver/Repositories/TransactionPriceRepository.cs:41-44 | The minimum over a non-empty carrier list is attained by some carrier and is at most every carrier's price |
| Catalog.BestPrice | DiscountApp.Driver/Repositories/TransactionPriceRepository.cs:41-44 | No carrier is cheaper than the best price, some carrier charges exactly it, and it is positive |
| Catalog.BestPrices | DiscountApp.Driver/Repositories/TransactionPriceRepository.cs:31-36 | The best prices are 1.50 (LaPoste) small, 3.00 (MondialRelay) medium, 4.00 (MondialRelay) large |
| Models.Context.Size | DiscountApp.Driver/Models/DiscountApplicationContext.cs:34-89 | Each context variant has exactly its own size |
| Models.Min | DiscountApp.Driver/Rules/DiscountApplicationRule.cs:38 | The minimum is one of the two amounts and no larger than either |
| Rules.SmallPackageRule | DiscountApp.Driver/Rules/DiscountApplicationRule.cs:32-47 | Fields are copied; discount is min(budget, price − best price); reduced cost plus discount is the price; with a non-negative budget the discount is within the budget and the cost never drops below the best price, and is exactly the best price when the budget covers the gap |
| Rules.SmallLaPosteNeverDiscounted | DiscountApp.Driver/Rules/DiscountApplicationRule.cs:36-38 | A small LaPoste shipment is never discounted and costs its full price |
| Rules.MediumPackageRule | DiscountApp.Driver/Rules/DiscountApplicationRule.cs:58-63 | Fields are copied, the discount is zero and the cost is the full price, whatever the budget |
| Rules.LargePackageRule | DiscountApp.Driver/Rules/DiscountApplicationRule.cs:74-99 | Fields are copied; the discount is min(budget, price) when two large LaPoste shipments came earlier and this one is LaPoste, else zero; cost plus discount is the price; within budget for a non-negative budget; the cost is zero when the budget covers it |
| Rules.IsThirdLargeLaPosteTransactionThisMonth | DiscountApp.Driver/Rules/DiscountApplicationRule.cs:96-99 | Holds exactly when two large LaPoste shipments came earlier in the month and this one is LaPoste; the size test always holds for a large context |
| Rules.ApplyDiscount | DiscountApp.Driver/Services/DiscountApplicationService.cs:62-68 | Dispatches on size: a small package gets min(budget, price − best price), a medium one nothing, a large one min(budget, price) exactly when it is the third large LaPoste shipment of the month. Date, size and carrier are kept and the price is conserved. With a non-negative budget the discount is within the budget and the reduced cost is not negative |
| ContextBuilder.CountQualifying | DiscountApp.Driver/Rules/DiscountApplicationContextBuilder.cs:56-64 | The count never exceeds the number of entries |
| ContextBuilder.CountIsNumberOfPositions | DiscountApp.Driver/Rules/DiscountApplicationContextBuilder.cs:56-64 | The count is the number of positions holding a successful large LaPoste transaction of the month |
| ContextBuilder.CountAppend | DiscountApp.Driver/Rules/DiscountApplicationContextBuilder.cs:59-64 | Counting distributes over concatenation |
| ContextBuilder.FailuresNeverCounted | DiscountApp.Driver/Rules/DiscountApplicationContextBuilder.cs:59 | Inserting a failed result anywhere leaves the count unchanged |
| ContextBuilder.TakeLength | DiscountApp.Driver/Rules/DiscountApplicationContextBuilder.cs:58 | `Take` keeps nothing for a non-positive count, all elements beyond the end, and exactly `count` otherwise |
| ContextBuilder.CountBefore | DiscountApp.Driver/Rules/DiscountApplicationContextBuilder.cs:56-64 | The prior count is at most the batch length and at most the index |
| ContextBuilder.Build | DiscountApp.Driver/Rules/DiscountApplicationContextBuilder.cs:33-67 | The variant matches the size; date, carrier and budget are copied; a large context's count is the number of earlier positions holding a successful large LaPoste transaction of the same month number, between 0 and the index |
| ContextBuilder.LaterEntriesIgnored | DiscountApp.Driver/Rules/DiscountApplicationContextBuilder.cs:57-58 | Two batches that agree before the index give the same count, whatever follows |
| ContextBuilder.AppendingIgnored | DiscountApp.Driver/Rules/DiscountApplicationContextBuilder.cs:57-58 | Appending to a batch leaves the count at every existing position unchanged |
| ContextBuilder.CountBeforeStep | DiscountApp.Driver/Rules/DiscountApplicationContextBuilder.cs:56-64 | Moving one position on adds one exactly when the entry passed over qualifies |
| ContextBuilder.CountMonotone | DiscountApp.Driver/Rules/DiscountApplicationContextBuilder.cs:56-64 | The prior count never decreases along the batch |
| ContextBuilder.CountStrictlyIncreases | DiscountApp.Driver/Rules/DiscountApplicationContextBuilder.cs:56-64 | Each qualifying transaction sees a larger count than every earlier qualifying one of its month |
| ContextBuilder.ThirdFiresAtMostOnce | DiscountApp.Driver/Rules/DiscountApplicationRule.cs:96-99 | At most one qualifying transaction of a month number sees a prior count of two |
| Service.BuildMonthDiscountBudgetLookup | DiscountApp.Driver/Services/DiscountApplicationService.cs:54-60 | The pool's keys are exactly the months of successful transactions, each starting at 10.00 |
| Service.Step | DiscountApp.Driver/Services/DiscountApplicationService.cs:41-50 | A failure passes through and keeps the pool. A success gets a discount within its month's budget, and exactly that discount is debited from that month only. Budgets stay between 0 and 10.00, and the output's discount and reduced cost are not negative |
| Service.Run | DiscountApp.Driver/Services/DiscountApplicationService.cs:36-52 | After any prefix there is one output per input, each derived from its input: same date, size and carrier, and a non-negative discount and reduced cost adding up to the price. The pool keeps the initial months, and every budget stays between 0 and 10.00 |
| Service.Apply | DiscountApp.Driver/Services/DiscountApplicationService.cs:36-52 | One output per input, in order. Failures pass through with the same error. Successes keep date, size and carrier, and their non-negative discount and non-negative reduced cost add up to the price |
| Service.RunPrefix | DiscountApp.Driver/Services/DiscountApplicationService.cs:40-51 | Later steps never change earlier outputs |
| Service.ApplyAt | DiscountApp.Driver/Services/DiscountApplicationService.cs:40-51 | Output k is the step at k against the pool left by the outputs before it; a successful input's month is always in that pool |
| Service.RunStep | DiscountApp.Driver/Services/DiscountApplicationService.cs:40-51 | One more step appends that step's output and replaces the pool by the step's pool |
| Service.DiscountWithinAvailableBudget | DiscountApp.Driver/Services/DiscountApplicationService.cs:43-47 | A success sees its month's current budget, gets a discount between zero and it, and exactly that discount is debited from its month with all other months unchanged |
| Service.FailurePassesThrough | DiscountApp.Driver/Services/DiscountApplicationService.cs:41 | A failed input comes out as the same failure and leaves the pool untouched |
| Service.DispatchBySize | DiscountApp.Driver/Services/DiscountApplicationService.cs:62-67 | Each success gets its own size's rule: the small gap, no medium discount, and the large cover for the third large LaPoste shipment of the month |
| Service.StepConserves | DiscountApp.Driver/Services/DiscountApplicationService.cs:43-47 | One step keeps, for every month, remaining budget plus discounts granted equal to 10.00 |
| Service.BudgetConservation | DiscountApp.Driver/Services/DiscountApplicationService.cs:36-52 | After any prefix, each month's remaining budget plus its granted discounts is 10.00, and months without a budget get no discounts |
| Service.SpendingCapped | DiscountApp.Driver/Services/DiscountApplicationService.cs:33-47 | Over a whole batch, the discounts granted in any month total between 0 and 10.00 |
| Service.ApplyEagerly | DiscountApp.Driver/Services/DiscountApplicationService.cs:36-52 | The single loop that updates one pool computes exactly the fold `Apply` |
| Service.StepExtends | DiscountApp.Driver/Services/DiscountApplicationService.cs:41-50 | A line gets the same output in a longer batch, against any pool that agrees on the months of the shorter batch, and the pools still agree afterwards |
| Service.RunExtends | DiscountApp.Driver/Services/DiscountApplicationService.cs:36-60 | Extending a batch changes neither the outputs of its first n lines nor the budgets of the months the shorter batch holds |
| Service.AppendingKeepsOutputs | DiscountApp.Driver/Services/DiscountApplicationService.cs:36-60 | Lines appended after a batch never change the batch's own outputs |
| Reordering.Swap | DiscountApp.Driver/Services/DiscountApplicationService.cs:40-51 | Exchanging two neighbouring lines keeps the length, exchanges the pair and leaves every other position alone |
| Reordering.SwapKeepsSuccessMonths | DiscountApp.Driver/Services/DiscountApplicationService.cs:54-60 | Reordering a batch keeps the set of months of its successful lines |
| Reordering.SwapKeepsInitialPool | DiscountApp.Driver/Services/DiscountApplicationService.cs:54-60 | The initial pool does not depend on the order of the lines |
| Reordering.SwapKeepsLaterCounts | DiscountApp.Driver/Rules/DiscountApplicationContextBuilder.cs:56-64 | From the position after the pair on, every prior count is the same in either order |
| Reordering.SwapKeepsEarlierRun | DiscountApp.Driver/Services/DiscountApplicationService.cs:40-51 | Before the exchanged pair both orders produce the same outputs and the same pool |
| Reordering.PairFirstLine | DiscountApp.Driver/Services/DiscountApplicationService.cs:41-50 | When the pair's months differ, the pair's first line gets the same output one place later |
| Reordering.PairSecondLine | DiscountApp.Driver/Services/DiscountApplicationService.cs:41-50 | When the pair's months differ, the pair's second line gets the same output one place earlier |
| Reordering.PoolStep | DiscountApp.Driver/Services/DiscountApplicationService.cs:43-47 | One step debits that step's discount from the line's month and leaves the pool alone for a failure |
| Reordering.DebitsCommute | DiscountApp.Driver/Services/DiscountApplicationService.cs:43-47 | Debits to two different months can be made in either order |
| Reordering.PairPool | DiscountApp.Driver/Services/DiscountApplicationService.cs:40-51 | After an exchanged pair of different months the pool is the same in either order |
| Reordering.SwapPair | DiscountApp.Driver/Services/DiscountApplicationService.cs:40-51 | Up to the end of the pair, the exchanged batch produces the same outputs with the pair's two exchanged, and the same pool |
| Reordering.LaterStep | DiscountApp.Driver/Services/DiscountApplicationService.cs:40-51 | Past the pair, one more step keeps the two orders in that agreement |
| Reordering.SwapKeepsLaterRun | DiscountApp.Driver/Services/DiscountApplicationService.cs:40-51 | Agreement after the pair carries on to every later count of lines |
| Reordering.SwapIndependentLines | DiscountApp.Driver/Services/DiscountApplicationService.cs:36-60 | Exchanging two neighbouring lines of different month numbers (or where either failed) exchanges their two outputs and leaves every other output unchanged |
| Parser.Split | DiscountApp.Driver/Parsers/TransactionInputModelParser.cs:21 | At least one token, no token holds the separator, and joining the tokens with it gives back the input |
| Parser.SplitJoin | DiscountApp.Driver/Parsers/TransactionInputModelParser.cs:21 | Joining separator-free tokens and splitting again gives the tokens |
| Parser.Parse | DiscountApp.Driver/Parsers/TransactionInputModelParser.cs:17-44 | Every failure carries the input unchanged; a success has a valid date and the input is exactly its date, size code and carrier code separated by single spaces |
| Parser.ParseFormatLine | DiscountApp.Driver/Parsers/TransactionInputModelParser.cs:17-44 | Every transaction with a valid date parses back from its canonical line |
| Parser.ParseAccepts | DiscountApp.Driver/Parsers/TransactionInputModelParser.cs:21-43 | A line parses iff it has exactly three tokens, a valid date, a size code and a carrier code |
| Scenarios.EmptyLineFails | DiscountApp.UnitTests/TransactionInputModelParserTests.cs:9-17 | The empty line fails with itself as the error |
| Scenarios.SampleLineParses | DiscountApp.UnitTests/TransactionInputModelParserTests.cs:19-34 | "2024-01-12 L LP" parses to 2024-01-12, Large, LaPoste |
| Scenarios.DoubleSpaceFails | DiscountApp.Driver/Parsers/TransactionInputModelParser.cs:21-26 | A double space gives four tokens and the line fails with itself as the error |
| Scenarios.ThreeLargeLaPosteCounts | DiscountApp.Driver/Rules/DiscountApplicationContextBuilder.cs:56-64 | In any batch of three large LaPoste shipments of one month, the month starts at 10.00 and the shipments see prior counts 0, 1 and 2 |
| Scenarios.ThreeLargeLaPosteDiscounts | DiscountApp.Driver/Rules/DiscountApplicationRule.cs:74-99 | In any batch of three large LaPoste shipments of one month, the discounts are 0, 0 and 6.90 |
| Scenarios.ThirdLargeLaPosteCovered | DiscountApp.UnitTests/DiscountApplicationServiceTests.cs:16-46 | Three large LaPoste shipments in January 2024 get discounts 0, 0 and 6.90 |
| Scenarios.YearsShareMonthNumber | DiscountApp.Driver/Rules/DiscountApplicationContextBuilder.cs:61 | Two January 2023 shipments make a January 2024 one the third of its month |
| Scenarios.SmallLaPosteUndiscounted | DiscountApp.Driver/Rules/DiscountApplicationRule.cs:36-45 | A small LaPoste shipment costs 1.50 with no discount |
| Scenarios.SmallMondialRelayMatched | DiscountApp.Driver/Rules/DiscountApplicationRule.cs:36-45 | A small MondialRelay shipment gets 0.50 off and costs 1.50 |
| Scenarios.BadLinePassesThrough | DiscountApp.Driver/Services/DiscountApplicationService.cs:40-60 | An unparseable line comes out as the same failure and opens no month's budget |
| Scenarios.LargeCoverCappedByBudget | DiscountApp.Driver/Rules/DiscountApplicationRule.cs:81-92 | The third shipment's cover stops at the remaining budget; a fourth gets nothing |

## Left out

- Date parsing: `DateOnly.TryParse` is culture-dependent library code. The model accepts exactly the fixed `yyyy-MM-dd` form with years 1 to 9999 and proleptic Gregorian leap years. Other spellings that the library may accept are not modelled.
- Lazy evaluation: `Apply` returns a deferred query whose enumeration debits the shared budget dictionary, so enumerating it twice debits twice. The model is a single eager pass.
- The zero-initialised `Result<T>` (both value and error null) cannot be represented; `Result<T>` has exactly two constructors.
- Reflection: `GetFields`, `GetCustomAttribute` and the display-name attribute class are replaced by explicit `Field` tables in declaration order. The lookup is assumed to visit members in declaration order.
- Enums.TryParseByDisplayName: for a table with two members of the same value the source's `ToDictionary` throws; the model does not throw and keeps the first member.
- Enums.GetDisplayNameOrDefault: its contract fixes the result only for tables whose names and values are distinct, as for every enum the application declares. For aliased values `Enum.GetName` may return any one of the aliases, while the model always takes the first declared one; nothing is stated about aliased tables.
- Enums.GetName: picks the first declared member among members sharing a value. `Enum.GetName` does not specify which alias it returns.
- Core.Result.Select: the model holds for reference-type payloads, as every payload in the application is. The source tests `Value` against null. For a value-type `T`, a failure's `Value` is `default(T)` rather than null, so the source would treat the failure as a success and run the selector on `default(T)`. The same applies to `Core.Result.Bind` and `Core.Result.BindUnit`.
- Null arguments (`ArgumentNullException.ThrowIfNull`) cannot occur with Dafny values.
- The throwing fallback arms in the price table, the context builder and the dispatch are unreachable for the closed enums and are exhaustive matches here.
- The unit test replaces the large rule with a mock. The model uses the real rule, which gives the same discounts (0, 0, 6.90) in a single pass. The test enumerates its lazy result several times (DiscountApp.UnitTests/DiscountApplicationServiceTests.cs:41-45). With the real rule each full enumeration would debit the shared budget again, so the last one would see 3.10 (see "Lazy evaluation" above). The mock's fixed answer hides this.
- File reading, output formatting, argument handling and dependency wiring are I/O and are not modelled (`Program.cs`, `Driver.cs`, the file and output services).
- `Solution.cs` is an earlier draft that does not compile, superseded by the application files, and is not part of this model.
- Decimal arithmetic: amounts are integer cents, exact for every price and budget in the source. Rounding or scale of `decimal` output is not modelled.
