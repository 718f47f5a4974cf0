/** Order sensitivity of the discount pass.

    A line's discount depends on the lines before it only through its own
    month: the month's remaining budget and, for large packages, the month's
    earlier large LaPoste count. So two neighbouring lines of different
    month numbers (or where either failed to parse) can trade places and
    every line keeps its output. */
module Reordering {
  import opened Core
  import opened Models
  import opened ContextBuilder
  import opened Service

  /** The batch with the lines at `i` and `i + 1` exchanged. */
  function Swap<T>(s: seq<T>, i: nat): (r: seq<T>)
    requires i + 1 < |s|
    ensures |r| == |s|
    ensures r[i] == s[i + 1] && r[i + 1] == s[i]
    ensures forall k :: 0 <= k < |s| && k != i && k != i + 1 ==> r[k] == s[k]
  {
    s[..i] + [s[i + 1], s[i]] + s[i + 2..]
  }

  /** Two parse results that never share a month's budget or count. */
  predicate Independent(x: Result<Transaction>, y: Result<Transaction>) {
    x.Success? && y.Success? ==> x.value.date.month != y.value.date.month
  }

  lemma SwapKeepsSuccessMonths(results: seq<Result<Transaction>>, i: nat)
    requires i + 1 < |results|
    ensures SuccessMonths(Swap(results, i)) == SuccessMonths(results)
  {
    var swapped := Swap(results, i);
    forall m | m in SuccessMonths(results)
      ensures m in SuccessMonths(swapped)
    {
      var k :| 0 <= k < |results| && results[k].Success? && results[k].value.date.month == m;
      var j := if k == i then i + 1 else if k == i + 1 then i else k;
      assert swapped[j] == results[k];
    }
    forall m | m in SuccessMonths(swapped)
      ensures m in SuccessMonths(results)
    {
      var k :| 0 <= k < |swapped| && swapped[k].Success? && swapped[k].value.date.month == m;
      var j := if k == i then i + 1 else if k == i + 1 then i else k;
      assert results[j] == swapped[k];
    }
  }

  /** The initial pool depends only on which months occur, not on the order
      of the lines. */
  lemma SwapKeepsInitialPool(results: seq<Result<Transaction>>, i: nat)
    requires i + 1 < |results|
    ensures BuildMonthDiscountBudgetLookup(Swap(results, i)) == BuildMonthDiscountBudgetLookup(results)
  {
    SwapKeepsSuccessMonths(results, i);
    FullPoolsEqual(BuildMonthDiscountBudgetLookup(Swap(results, i)), BuildMonthDiscountBudgetLookup(results));
  }

  /** Two pools over the same months, each month at the full budget, are the
      same pool. */
  lemma FullPoolsEqual(a: map<int, int>, b: map<int, int>)
    requires a.Keys == b.Keys
    requires forall m :: m in a ==> a[m] == MonthlyDiscountBudget
    requires forall m :: m in b ==> b[m] == MonthlyDiscountBudget
    ensures a == b
  {
    assert forall m | m in a :: a[m] == b[m];
  }

  /** Two lines of the same batch prefix in either order add up to the same
      count. */
  lemma CountPairCommutes(x: Result<Transaction>, y: Result<Transaction>, month: int)
    ensures CountQualifying([x, y], month) == CountQualifying([y, x], month)
  {
    assert [x, y][..1] == [x] && [y, x][..1] == [y];
    assert [x][..0] == [] && [y][..0] == [];
  }

  /** From `i + 2` on, every position sees the same earlier count after the
      swap: the prefix holds the same lines. */
  lemma SwapKeepsLaterCounts(results: seq<Result<Transaction>>, i: nat, k: nat, month: int)
    requires i + 2 <= k <= |results|
    ensures CountBefore(Swap(results, i), k, month) == CountBefore(results, k, month)
  {
    var swapped := Swap(results, i);
    var head := results[..i];
    var tail := results[i + 2..k];
    var pair := [results[i], results[i + 1]];
    var flipped := [results[i + 1], results[i]];
    assert results[..k] == head + pair + tail;
    assert swapped[..k] == head + flipped + tail;
    CountAppend(head + pair, tail, month);
    CountAppend(head, pair, month);
    CountAppend(head + flipped, tail, month);
    CountAppend(head, flipped, month);
    CountPairCommutes(results[i], results[i + 1], month);
  }

  /** Steps on two batches agree when the lines agree and a success sees the
      same budget and the same earlier count in both. */
  lemma StepAgrees(a: seq<Result<Transaction>>, ka: nat, pa: map<int, int>,
                   b: seq<Result<Transaction>>, kb: nat, pb: map<int, int>)
    requires ka < |a| && kb < |b| && a[ka] == b[kb]
    requires a[ka].Success? ==>
      var m := a[ka].value.date.month;
      && m in pa && m in pb && pa[m] == pb[m]
      && CountBefore(a, ka, m) == CountBefore(b, kb, m)
    ensures Step(a, ka, pa).0 == Step(b, kb, pb).0
    ensures pa == pb ==> Step(a, ka, pa) == Step(b, kb, pb)
  {
  }

  /** Two batches that have run alike so far and take the same step run
      alike one step further. */
  lemma RunAgreesStep(a: seq<Result<Transaction>>, b: seq<Result<Transaction>>, n: nat)
    requires n < |a| && n < |b|
    requires Run(a, n) == Run(b, n)
    requires a[n].Success? ==> a[n].value.date.month in Run(a, n).1
    requires b[n].Success? ==> b[n].value.date.month in Run(b, n).1
    requires Step(a, n, Run(a, n).1) == Step(b, n, Run(b, n).1)
    ensures Run(a, n + 1) == Run(b, n + 1)
  {
    RunStep(a, n);
    RunStep(b, n);
  }

  /** Before the swapped pair both batches run identically. */
  lemma {:induction false} SwapKeepsEarlierRun(results: seq<Result<Transaction>>, i: nat, n: nat)
    requires i + 1 < |results| && n <= i
    ensures Run(Swap(results, i), n) == Run(results, n)
  {
    var swapped := Swap(results, i);
    if n == 0 {
      SwapKeepsInitialPool(results, i);
      assert Run(swapped, 0) == ([], BuildMonthDiscountBudgetLookup(swapped));
      assert Run(results, 0) == ([], BuildMonthDiscountBudgetLookup(results));
    } else {
      var k := n - 1;
      SwapKeepsEarlierRun(results, i, k);
      var pool := Run(results, k).1;
      RunStep(results, k);
      assert swapped[k] == results[k];
      assert swapped[..k] == results[..k];
      if results[k].Success? {
        LaterEntriesIgnored(results, swapped, k, results[k].value.date.month);
      }
      StepAgrees(results, k, pool, swapped, k, pool);
      RunAgreesStep(results, swapped, k);
    }
  }

  /** A line's month holds the same budget before and after the other line
      of an independent pair: the other line debits another month or none. */
  lemma OtherLineKeepsBudget(results: seq<Result<Transaction>>, n: nat, m: int)
    requires n < |results|
    requires m in PoolBefore(results, n)
    requires results[n].Success? ==> results[n].value.date.month != m
    ensures m in PoolBefore(results, n + 1) && PoolBefore(results, n + 1)[m] == PoolBefore(results, n)[m]
  {
    RunStep(results, n);
  }

  /** Nor does the other line of an independent pair change the line's
      count, wherever it stands. */
  lemma OtherLineKeepsCount(results: seq<Result<Transaction>>, other: seq<Result<Transaction>>, n: nat, m: int)
    requires n < |results| && n <= |other|
    requires results[..n] == other[..n]
    requires results[n].Success? ==> results[n].value.date.month != m
    ensures CountBefore(results, n + 1, m) == CountBefore(other, n, m)
  {
    CountBeforeStep(results, n, m);
    LaterEntriesIgnored(results, other, n, m);
  }

  /** The month of a successful line is in every pool of its batch. */
  lemma MonthInPool(results: seq<Result<Transaction>>, index: nat, n: nat)
    requires index < |results| && n <= |results|
    requires results[index].Success?
    ensures results[index].value.date.month in PoolBefore(results, n)
  {
    assert results[index].value.date.month in SuccessMonths(results);
  }

  /** The first line of the pair, moved one place on, gets the same output:
      the other line neither shares its month's budget nor its count. */
  lemma PairFirstLine(results: seq<Result<Transaction>>, i: nat)
    requires i + 1 < |results|
    requires Independent(results[i], results[i + 1])
    ensures results[i].Success? ==> results[i].value.date.month in PoolBefore(Swap(results, i), i + 1)
    ensures Step(Swap(results, i), i + 1, PoolBefore(Swap(results, i), i + 1)).0 ==
            Step(results, i, PoolBefore(results, i)).0
  {
    var swapped := Swap(results, i);
    SwapKeepsEarlierRun(results, i, i);
    if results[i].Success? {
      var m := results[i].value.date.month;
      SwapKeepsSuccessMonths(results, i);
      MonthInPool(results, i, i);
      OtherLineKeepsBudget(swapped, i, m);
      assert swapped[..i] == results[..i];
      OtherLineKeepsCount(swapped, results, i, m);
    }
    StepAgrees(results, i, PoolBefore(results, i), swapped, i + 1, PoolBefore(swapped, i + 1));
  }

  /** The second line of the pair, moved one place back, gets the same
      output. */
  lemma PairSecondLine(results: seq<Result<Transaction>>, i: nat)
    requires i + 1 < |results|
    requires Independent(results[i], results[i + 1])
    ensures results[i + 1].Success? ==> results[i + 1].value.date.month in PoolBefore(results, i + 1)
    ensures Step(Swap(results, i), i, PoolBefore(Swap(results, i), i)).0 ==
            Step(results, i + 1, PoolBefore(results, i + 1)).0
  {
    var swapped := Swap(results, i);
    SwapKeepsEarlierRun(results, i, i);
    if results[i + 1].Success? {
      var m := results[i + 1].value.date.month;
      MonthInPool(results, i + 1, i);
      OtherLineKeepsBudget(results, i, m);
      assert swapped[..i] == results[..i];
      OtherLineKeepsCount(results, swapped, i, m);
    }
    StepAgrees(results, i + 1, PoolBefore(results, i + 1), swapped, i, PoolBefore(results, i));
  }

  /** The pool after `input` produced `output`: a success debits its
      discount from its month, anything else leaves the pool alone. */
  function Debit(pool: map<int, int>, input: Result<Transaction>, output: Result<DiscountedTransaction>): map<int, int> {
    if input.Success? && output.Success? && input.value.date.month in pool then
      var m := input.value.date.month;
      pool[m := pool[m] - output.value.discount]
    else pool
  }

  /** One step of the pass leaves the pool debited by that step's output. */
  lemma PoolStep(results: seq<Result<Transaction>>, n: nat)
    requires n < |results|
    ensures results[n].Success? ==> results[n].value.date.month in PoolBefore(results, n)
    ensures PoolBefore(results, n + 1) ==
            Debit(PoolBefore(results, n), results[n], Step(results, n, PoolBefore(results, n)).0)
  {
    RunStep(results, n);
  }

  /** Debits for two independent lines can be made in either order. */
  lemma DebitsCommute(pool: map<int, int>, x: Result<Transaction>, ox: Result<DiscountedTransaction>,
                      y: Result<Transaction>, oy: Result<DiscountedTransaction>)
    requires Independent(x, y)
    ensures Debit(Debit(pool, x, ox), y, oy) == Debit(Debit(pool, y, oy), x, ox)
  {
  }

  /** After the pair the pool is the same in either order. */
  lemma PairPool(results: seq<Result<Transaction>>, i: nat)
    requires i + 1 < |results|
    requires Independent(results[i], results[i + 1])
    ensures PoolBefore(Swap(results, i), i + 2) == PoolBefore(results, i + 2)
  {
    var swapped := Swap(results, i);
    var pool := PoolBefore(results, i);
    SwapKeepsEarlierRun(results, i, i);
    PairFirstLine(results, i);
    PairSecondLine(results, i);
    PoolStep(results, i);
    PoolStep(results, i + 1);
    PoolStep(swapped, i);
    PoolStep(swapped, i + 1);
    var ox := Step(results, i, pool).0;
    var oy := Step(results, i + 1, PoolBefore(results, i + 1)).0;
    assert PoolBefore(results, i + 2) == Debit(Debit(pool, results[i], ox), results[i + 1], oy);
    assert PoolBefore(swapped, i + 2) == Debit(Debit(pool, results[i + 1], oy), results[i], ox);
    DebitsCommute(pool, results[i], ox, results[i + 1], oy);
  }

  /** Across the pair itself: the two outputs trade places and the pool
      afterwards is the same. */
  lemma SwapPair(results: seq<Result<Transaction>>, i: nat)
    requires i + 1 < |results|
    requires Independent(results[i], results[i + 1])
    ensures Run(Swap(results, i), i + 2) == SwapOutputs(Run(results, i + 2), i)
  {
    var swapped := Swap(results, i);
    SwapKeepsEarlierRun(results, i, i);
    PairFirstLine(results, i);
    PairSecondLine(results, i);
    PairPool(results, i);
    RunStep(results, i);
    RunStep(results, i + 1);
    RunStep(swapped, i);
    RunStep(swapped, i + 1);
    var outputs := Run(results, i + 2).0;
    var reordered := Run(swapped, i + 2).0;
    assert outputs[..i] == Run(results, i).0 == reordered[..i];
    assert reordered[i] == outputs[i + 1] && reordered[i + 1] == outputs[i];
    assert reordered == Swap(outputs, i);
  }

  /** Exchanging two places of a sequence commutes with appending. */
  lemma SwapAppend<T>(s: seq<T>, x: T, i: nat)
    requires i + 1 < |s|
    ensures Swap(s + [x], i) == Swap(s, i) + [x]
  {
  }

  /** A pass state with the outputs at `i` and `i + 1` exchanged. */
  function SwapOutputs(state: (seq<Result<DiscountedTransaction>>, map<int, int>), i: nat): (swapped: (seq<Result<DiscountedTransaction>>, map<int, int>))
    requires i + 1 < |state.0|
    ensures swapped.0 == Swap(state.0, i) && swapped.1 == state.1
  {
    (Swap(state.0, i), state.1)
  }

  /** Past the pair, a step taken by both batches from agreeing states keeps
      them agreeing. */
  lemma LaterStep(results: seq<Result<Transaction>>, i: nat, k: nat)
    requires i + 2 <= k < |results|
    requires Run(Swap(results, i), k) == SwapOutputs(Run(results, k), i)
    ensures Run(Swap(results, i), k + 1) == SwapOutputs(Run(results, k + 1), i)
  {
    var swapped := Swap(results, i);
    var pool := Run(results, k).1;
    RunStep(results, k);
    RunStep(swapped, k);
    if results[k].Success? {
      SwapKeepsLaterCounts(results, i, k, results[k].value.date.month);
    }
    StepAgrees(results, k, pool, swapped, k, pool);
    SwapAppend(Run(results, k).0, Step(results, k, pool).0, i);
  }

  /** Every step past the pair keeps the two batches agreeing. */
  lemma LaterSteps(results: seq<Result<Transaction>>, i: nat)
    requires i + 1 < |results|
    ensures forall k :: i + 2 <= k < |results| && Run(Swap(results, i), k) == SwapOutputs(Run(results, k), i) ==>
      Run(Swap(results, i), k + 1) == SwapOutputs(Run(results, k + 1), i)
  {
    forall k | i + 2 <= k < |results| && Run(Swap(results, i), k) == SwapOutputs(Run(results, k), i)
      ensures Run(Swap(results, i), k + 1) == SwapOutputs(Run(results, k + 1), i)
    {
      LaterStep(results, i, k);
    }
  }

  /** Agreement after `k` lines is agreement after `n` lines when the two
      counts are equal. */
  lemma SameCount(results: seq<Result<Transaction>>, i: nat, k: nat, n: nat)
    requires i + 2 <= k == n <= |results|
    requires Run(Swap(results, i), k) == SwapOutputs(Run(results, k), i)
    ensures Run(Swap(results, i), n) == SwapOutputs(Run(results, n), i)
  {
  }

  /** Once the two batches agree after `k` lines, the steps past the pair
      carry the agreement to every later count. */
  lemma {:induction false} SwapKeepsLaterRun(results: seq<Result<Transaction>>, i: nat, k: nat, n: nat)
    requires i + 2 <= k <= n <= |results|
    requires forall k :: i + 2 <= k < |results| && Run(Swap(results, i), k) == SwapOutputs(Run(results, k), i) ==>
      Run(Swap(results, i), k + 1) == SwapOutputs(Run(results, k + 1), i)
    requires Run(Swap(results, i), k) == SwapOutputs(Run(results, k), i)
    ensures Run(Swap(results, i), n) == SwapOutputs(Run(results, n), i)
    decreases n - k
  {
    if k == n {
      SameCount(results, i, k, n);
    } else {
      SwapKeepsLaterRun(results, i, k + 1, n);
    }
  }

  /** Exchanging two neighbouring lines of different months (or where either
      failed) exchanges their outputs and leaves every other output alone. */
  lemma SwapIndependentLines(results: seq<Result<Transaction>>, i: nat)
    requires i + 1 < |results|
    requires Independent(results[i], results[i + 1])
    ensures Apply(Swap(results, i)) == Swap(Apply(results), i)
  {
    SwapPair(results, i);
    LaterSteps(results, i);
    SwapKeepsLaterRun(results, i, i + 2, |results|);
  }
}
