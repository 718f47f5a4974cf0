/** Builds the context for one transaction of a batch.

    The batch is the full sequence of parse results, failures included. For
    a large package the context counts the large LaPoste transactions that
    parsed successfully, come strictly before the current position and fall
    in the same month number; the year is not compared. */
module ContextBuilder {
  import opened Core
  import opened Enums
  import opened Models

  /** A parse result that counts towards the large-package trigger. */
  predicate Qualifies(result: Result<Transaction>, month: int) {
    && result.Success?
    && result.value.date.month == month
    && result.value.carrier == LaPoste
    && result.value.size == Large
  }

  /** The number of qualifying entries of `results`. */
  function CountQualifying(results: seq<Result<Transaction>>, month: int): (n: nat)
    ensures n <= |results|
  {
    if |results| == 0 then 0
    else
      CountQualifying(results[..|results| - 1], month) + (if Qualifies(results[|results| - 1], month) then 1 else 0)
  }

  /** The positions of the qualifying entries. */
  function QualifyingPositions(results: seq<Result<Transaction>>, month: int): set<int> {
    set j | 0 <= j < |results| && Qualifies(results[j], month)
  }

  /** Counting agrees with the number of qualifying positions. */
  lemma {:induction false} CountIsNumberOfPositions(results: seq<Result<Transaction>>, month: int)
    ensures CountQualifying(results, month) == |QualifyingPositions(results, month)|
  {
    if |results| > 0 {
      var init := results[..|results| - 1];
      var last := |results| - 1;
      CountIsNumberOfPositions(init, month);
      var before := QualifyingPositions(init, month);
      var after := QualifyingPositions(results, month);
      assert forall j :: 0 <= j < |init| ==> init[j] == results[j];
      if Qualifies(results[last], month) {
        assert after == before + {last};
        assert last !in before;
      } else {
        assert after == before;
      }
    }
  }

  /** Counting distributes over concatenation. */
  lemma {:induction false} CountAppend(a: seq<Result<Transaction>>, b: seq<Result<Transaction>>, month: int)
    ensures CountQualifying(a + b, month) == CountQualifying(a, month) + CountQualifying(b, month)
  {
    if |b| > 0 {
      CountAppend(a, b[..|b| - 1], month);
      assert (a + b)[..|a + b| - 1] == a + b[..|b| - 1];
    } else {
      assert a + b == a;
    }
  }

  /** Failed parse results are never counted, wherever they stand. */
  lemma FailuresNeverCounted(a: seq<Result<Transaction>>, b: seq<Result<Transaction>>, error: string, month: int)
    ensures CountQualifying(a + [Failure(error)] + b, month) == CountQualifying(a + b, month)
  {
    var failed: seq<Result<Transaction>> := [Failure(error)];
    CountAppend(a + failed, b, month);
    CountAppend(a, failed, month);
    CountAppend(a, b, month);
    assert CountQualifying(failed, month) == 0 by {
      assert failed[..0] == [];
    }
  }

  /** How many elements LINQ `Take(count)` keeps of a sequence of `length`
      elements: none for a non-positive count, all for a count beyond the
      end. */
  function TakeLength(count: int, length: nat): (n: nat)
    ensures n <= length
    ensures count >= 0 ==> n <= count
    ensures 0 <= count <= length ==> n == count
    ensures count <= 0 ==> n == 0
  {
    if count <= 0 then 0 else if count <= length then count else length
  }

  /** The qualifying entries among the first `index` results. */
  function CountBefore(results: seq<Result<Transaction>>, index: int, month: int): (n: nat)
    ensures n <= |results|
    ensures index >= 0 ==> n <= index
  {
    CountQualifying(results[..TakeLength(index, |results|)], month)
  }

  /** The context for the transaction at `index`, which the rules read. */
  function Build(index: int, transaction: Transaction, availableBudget: int, results: seq<Result<Transaction>>): (context: Context)
    ensures context.Size() == transaction.size
    ensures context.date == transaction.date && context.carrier == transaction.carrier
    ensures context.availableBudget == availableBudget
    ensures context.LargeContext? ==>
      var count := context.largeLaPosteCountBeforeCurrent;
      && 0 <= count <= |results|
      && (index >= 0 ==> count <= index)
      && count == |set j | 0 <= j < |results| && j < index && Qualifies(results[j], transaction.date.month)|
  {
    match transaction.size
    case Small => SmallContext(transaction.date, transaction.carrier, availableBudget)
    case Medium => MediumContext(transaction.date, transaction.carrier, availableBudget)
    case Large =>
      var month := transaction.date.month;
      var prefix := results[..TakeLength(index, |results|)];
      CountIsNumberOfPositions(prefix, month);
      assert QualifyingPositions(prefix, month) == set j | 0 <= j < |results| && j < index && Qualifies(results[j], month);
      LargeContext(transaction.date, transaction.carrier, availableBudget, CountBefore(results, index, month))
  }

  /** Entries at or after `index` never affect the count: two batches that
      agree before `index` give the same count, whatever follows. */
  lemma LaterEntriesIgnored(results: seq<Result<Transaction>>, other: seq<Result<Transaction>>, index: int, month: int)
    requires 0 <= index <= |results| && index <= |other|
    requires results[..index] == other[..index]
    ensures CountBefore(results, index, month) == CountBefore(other, index, month)
  {
  }

  /** Appending to a batch leaves the counts at existing positions alone. */
  lemma AppendingIgnored(results: seq<Result<Transaction>>, more: seq<Result<Transaction>>, index: int, month: int)
    requires 0 <= index <= |results|
    ensures CountBefore(results + more, index, month) == CountBefore(results, index, month)
  {
    assert (results + more)[..index] == results[..index];
  }

  /** Moving one position forward adds the entry passed over, if it counts. */
  lemma CountBeforeStep(results: seq<Result<Transaction>>, index: nat, month: int)
    requires index < |results|
    ensures CountBefore(results, index + 1, month) ==
      CountBefore(results, index, month) + (if Qualifies(results[index], month) then 1 else 0)
  {
    assert results[..index + 1][..index] == results[..index];
  }

  /** Every qualifying transaction sees a strictly larger count than every
      earlier qualifying transaction of the same month, so the "third one"
      trigger (a count of exactly two) fires at most once per month number. */
  lemma {:induction false} CountStrictlyIncreases(results: seq<Result<Transaction>>, i: nat, j: nat, month: int)
    requires i < j < |results|
    requires Qualifies(results[i], month)
    ensures CountBefore(results, i, month) < CountBefore(results, j, month)
    decreases j - i
  {
    CountBeforeStep(results, j - 1, month);
    if i < j - 1 {
      CountMonotone(results, i + 1, j - 1, month);
      CountBeforeStep(results, i, month);
    }
  }

  lemma {:induction false} CountMonotone(results: seq<Result<Transaction>>, i: nat, j: nat, month: int)
    requires i <= j <= |results|
    ensures CountBefore(results, i, month) <= CountBefore(results, j, month)
    decreases j - i
  {
    if i < j {
      CountBeforeStep(results, j - 1, month);
      CountMonotone(results, i, j - 1, month);
    }
  }

  /** At most one qualifying transaction of a month sees a count of two. */
  lemma ThirdFiresAtMostOnce(results: seq<Result<Transaction>>, i: nat, j: nat, month: int)
    requires i < |results| && j < |results|
    requires Qualifies(results[i], month) && Qualifies(results[j], month)
    requires CountBefore(results, i, month) == 2 && CountBefore(results, j, month) == 2
    ensures i == j
  {
    if i < j {
      CountStrictlyIncreases(results, i, j, month);
    } else if j < i {
      CountStrictlyIncreases(results, j, i, month);
    }
  }
}
