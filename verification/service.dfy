/** The discount orchestrator: one left-to-right pass over the parse results
    of a batch, threading a per-month budget pool.

    The pool maps a month number (1 to 12, years not distinguished) to the
    budget still available in cents. It starts at 10.00 for every month that
    occurs among the successfully parsed transactions; each applied discount
    is debited from the month of its transaction. */
module Service {
  import opened Core
  import opened Enums
  import opened Models
  import opened Catalog
  import opened Rules
  import opened ContextBuilder

  /** The discount budget of every month: 10.00. */
  const MonthlyDiscountBudget: int := 1000

  /** The months of the successfully parsed transactions. */
  function SuccessMonths(results: seq<Result<Transaction>>): set<int> {
    set i | 0 <= i < |results| && results[i].Success? :: results[i].value.date.month
  }

  /** The initial pool: every month of a successful transaction, and no
      other, starts with the full monthly budget. */
  function BuildMonthDiscountBudgetLookup(results: seq<Result<Transaction>>): (pool: map<int, int>)
    ensures pool.Keys == SuccessMonths(results)
    ensures forall m :: m in pool ==> pool[m] == MonthlyDiscountBudget
  {
    if |results| == 0 then map[]
    else
      var init := results[..|results| - 1];
      var pool := BuildMonthDiscountBudgetLookup(init);
      assert forall i :: 0 <= i < |init| ==> init[i] == results[i];
      match results[|results| - 1]
      case Failure(_) =>
        assert SuccessMonths(results) == SuccessMonths(init);
        pool
      case Success(t) =>
        assert SuccessMonths(results) == SuccessMonths(init) + {t.date.month};
        if t.date.month in pool then pool else pool[t.date.month := MonthlyDiscountBudget]
  }

  /** Every remaining budget lies between zero and the monthly budget. */
  predicate BudgetsWithin(pool: map<int, int>) {
    forall m :: m in pool ==> 0 <= pool[m] <= MonthlyDiscountBudget
  }

  /** `output` is what the pass makes of `input`: a failure is passed on
      with its error; a success becomes a discounted transaction with the
      same date, size and carrier, a non-negative discount and a
      non-negative reduced cost that add up to the base price. */
  predicate Derived(input: Result<Transaction>, output: Result<DiscountedTransaction>) {
    match input
    case Failure(e) => output == Failure(e)
    case Success(t) =>
      && output.Success?
      && output.value.date == t.date
      && output.value.size == t.size
      && output.value.carrier == t.carrier
      && output.value.reducedCost + output.value.discount == Price(t.carrier, t.size)
      && output.value.discount >= 0
      && output.value.reducedCost >= 0
  }

  /** Processes the result at `index` against the current pool. A failure
      leaves the pool alone; a success reads its month's budget, goes through
      the context builder and its size's rule, and has its discount debited
      from that month only. */
  function Step(results: seq<Result<Transaction>>, index: nat, pool: map<int, int>): (r: (Result<DiscountedTransaction>, map<int, int>))
    requires index < |results|
    requires results[index].Success? ==> results[index].value.date.month in pool
    ensures r.1.Keys == pool.Keys
    ensures results[index].Failure? ==> r.1 == pool
    ensures BudgetsWithin(pool) ==> Derived(results[index], r.0) && BudgetsWithin(r.1)
    ensures results[index].Success? ==>
      var m := results[index].value.date.month;
      && r.0.Success?
      && (pool[m] >= 0 ==> r.0.value.discount <= pool[m])
      && r.1 == pool[m := pool[m] - r.0.value.discount]
  {
    match results[index]
    case Failure(e) => (Failure(e), pool)
    case Success(t) =>
      var month := t.date.month;
      var availableBudget := pool[month];
      var context := Build(index, t, availableBudget, results);
      var discounted := ApplyDiscount(t.size, context);
      (Success(discounted), pool[month := availableBudget - discounted.discount])
  }

  /** The first `n` outputs and the pool after them. Every output is derived
      from its input, the pool keeps exactly the initial months, and no
      budget ever drops below zero. */
  function Run(results: seq<Result<Transaction>>, n: nat): (state: (seq<Result<DiscountedTransaction>>, map<int, int>))
    requires n <= |results|
    ensures |state.0| == n
    ensures state.1.Keys == SuccessMonths(results)
    ensures BudgetsWithin(state.1)
    ensures forall k :: 0 <= k < n ==> Derived(results[k], state.0[k])
  {
    if n == 0 then ([], BuildMonthDiscountBudgetLookup(results))
    else
      var previous := Run(results, n - 1);
      assert results[n - 1].Success? ==> results[n - 1].value.date.month in SuccessMonths(results);
      var step := Step(results, n - 1, previous.1);
      (previous.0 + [step.0], step.1)
  }

  /** The pool as it stands when the result at `index` is processed. */
  function PoolBefore(results: seq<Result<Transaction>>, index: nat): map<int, int>
    requires index <= |results|
  {
    Run(results, index).1
  }

  /** Discounts a whole batch: one output per input, in input order, each
      derived from the input at the same position. */
  function Apply(results: seq<Result<Transaction>>): (outputs: seq<Result<DiscountedTransaction>>)
    ensures |outputs| == |results|
    ensures forall k :: 0 <= k < |results| ==> Derived(results[k], outputs[k])
  {
    Run(results, |results|).0
  }

  /** Later steps never rewrite earlier outputs. */
  lemma {:induction false} RunPrefix(results: seq<Result<Transaction>>, k: nat, n: nat)
    requires k <= n <= |results|
    ensures Run(results, n).0[..k] == Run(results, k).0
    decreases n
  {
    if k < n {
      RunPrefix(results, k, n - 1);
      assert Run(results, n).0[..n - 1] == Run(results, n - 1).0;
    }
  }

  /** Output `k` of the batch is the step at `k` against the pool left by the
      outputs before it, and that step leaves the pool seen by `k + 1`. */
  lemma ApplyAt(results: seq<Result<Transaction>>, k: nat)
    requires k < |results|
    ensures results[k].Success? ==> results[k].value.date.month in PoolBefore(results, k)
    ensures Apply(results)[k] == Step(results, k, PoolBefore(results, k)).0
    ensures PoolBefore(results, k + 1) == Step(results, k, PoolBefore(results, k)).1
  {
    assert results[k].Success? ==> results[k].value.date.month in SuccessMonths(results);
    RunPrefix(results, k + 1, |results|);
  }

  /** A successful input sees its month's current budget, gets a discount of
      at most that budget, and exactly that discount is debited from its
      month while every other month keeps its budget. */
  lemma DiscountWithinAvailableBudget(results: seq<Result<Transaction>>, k: nat)
    requires k < |results| && results[k].Success?
    ensures var m := results[k].value.date.month;
      var before := PoolBefore(results, k);
      var output := Apply(results)[k];
      && m in before
      && output.Success?
      && 0 <= output.value.discount <= before[m]
      && PoolBefore(results, k + 1) == before[m := before[m] - output.value.discount]
  {
    ApplyAt(results, k);
  }

  /** A failed input is passed on unchanged and leaves the pool untouched. */
  lemma FailurePassesThrough(results: seq<Result<Transaction>>, k: nat)
    requires k < |results| && results[k].Failure?
    ensures Apply(results)[k] == Failure(results[k].error)
    ensures PoolBefore(results, k + 1) == PoolBefore(results, k)
  {
    ApplyAt(results, k);
  }

  /** Each success goes to the rule of its own size: small packages get the
      gap to the best price as far as the budget allows, medium packages
      nothing, and a large package a full cover (as far as the budget allows)
      exactly when it is LaPoste with two earlier large LaPoste transactions
      in its month number. */
  lemma DispatchBySize(results: seq<Result<Transaction>>, k: nat)
    requires k < |results| && results[k].Success?
    ensures var t := results[k].value;
      var m := t.date.month;
      var budget := PoolBefore(results, k)[m];
      var d := Apply(results)[k].value;
      && (t.size == Small ==> d.discount == Min(budget, Price(t.carrier, Small) - BestPrice(Small)))
      && (t.size == Medium ==> d.discount == 0)
      && (t.size == Large ==>
            d.discount == if CountBefore(results, k, m) == 2 && t.carrier == LaPoste
                          then Min(budget, Price(LaPoste, Large)) else 0)
  {
    ApplyAt(results, k);
  }

  /** The discounts granted to transactions of `month` among `outputs`. */
  function SpentIn(outputs: seq<Result<DiscountedTransaction>>, month: int): int {
    if |outputs| == 0 then 0
    else
      SpentIn(outputs[..|outputs| - 1], month) + Granted(outputs[|outputs| - 1], month)
  }

  /** Each month's remaining budget and its granted discounts add up to the
      monthly budget, and months without a budget get no discounts. */
  ghost predicate Conserved(outputs: seq<Result<DiscountedTransaction>>, pool: map<int, int>) {
    && (forall m :: m in pool ==> pool[m] + SpentIn(outputs, m) == MonthlyDiscountBudget)
    && (forall m :: m !in pool ==> SpentIn(outputs, m) == 0)
  }

  /** Granted amount of one output towards `month`. */
  function Granted(output: Result<DiscountedTransaction>, month: int): int {
    if output.Success? && output.value.date.month == month then output.value.discount else 0
  }

  lemma SpentInAppend(outputs: seq<Result<DiscountedTransaction>>, output: Result<DiscountedTransaction>, month: int)
    ensures SpentIn(outputs + [output], month) == SpentIn(outputs, month) + Granted(output, month)
  {
    assert (outputs + [output])[..|outputs|] == outputs;
  }

  /** One step keeps the balance between remaining budgets and granted
      discounts. */
  lemma StepConserves(results: seq<Result<Transaction>>, index: nat, outputs: seq<Result<DiscountedTransaction>>, pool: map<int, int>)
    requires index < |results|
    requires results[index].Success? ==> results[index].value.date.month in pool
    requires Conserved(outputs, pool)
    ensures Conserved(outputs + [Step(results, index, pool).0], Step(results, index, pool).1)
  {
    var step := Step(results, index, pool);
    var next := outputs + [step.0];
    forall m
      ensures SpentIn(next, m) == SpentIn(outputs, m) + Granted(step.0, m)
    {
      SpentInAppend(outputs, step.0, m);
    }
    if results[index].Success? {
      var m0 := results[index].value.date.month;
      assert step.1 == pool[m0 := pool[m0] - step.0.value.discount];
      forall m | m in step.1
        ensures step.1[m] + SpentIn(next, m) == MonthlyDiscountBudget
      {
        if m == m0 {
          assert Granted(step.0, m) == step.0.value.discount;
        } else {
          assert Granted(step.0, m) == 0;
        }
      }
      forall m | m !in step.1
        ensures SpentIn(next, m) == 0
      {
        assert Granted(step.0, m) == 0;
      }
    } else {
      forall m
        ensures Granted(step.0, m) == 0
      {
      }
    }
  }

  /** Budget is conserved: after any prefix of the pass, each month's
      remaining budget plus the discounts granted in that month is the
      monthly budget, and months without a successful transaction get no
      discounts at all. */
  lemma {:induction false} BudgetConservation(results: seq<Result<Transaction>>, n: nat)
    requires n <= |results|
    ensures Conserved(Run(results, n).0, Run(results, n).1)
  {
    if n > 0 {
      BudgetConservation(results, n - 1);
      var previous := Run(results, n - 1);
      RunStep(results, n - 1);
      StepConserves(results, n - 1, previous.0, previous.1);
    }
  }

  /** Over a whole batch no month is granted more than its budget. */
  lemma SpendingCapped(results: seq<Result<Transaction>>, month: int)
    ensures 0 <= SpentIn(Apply(results), month) <= MonthlyDiscountBudget
  {
    BudgetConservation(results, |results|);
    var state := Run(results, |results|);
    assert Apply(results) == state.0;
    if month in state.1 {
      assert state.1[month] + SpentIn(state.0, month) == MonthlyDiscountBudget;
      assert 0 <= state.1[month] <= MonthlyDiscountBudget;
    } else {
      assert SpentIn(state.0, month) == 0;
    }
  }

  /** One more step of the pass extends the outputs by the step's output and
      replaces the pool by the step's pool. */
  lemma RunStep(results: seq<Result<Transaction>>, n: nat)
    requires n < |results|
    ensures results[n].Success? ==> results[n].value.date.month in Run(results, n).1
    ensures Run(results, n + 1).0 == Run(results, n).0 + [Step(results, n, Run(results, n).1).0]
    ensures Run(results, n + 1).1 == Step(results, n, Run(results, n).1).1
  {
  }

  /** `big` holds every month of `small` with the same budget. */
  predicate Extends(big: map<int, int>, small: map<int, int>) {
    forall m :: m in small ==> m in big && big[m] == small[m]
  }

  /** A step at a position of `results` gives the same output when the batch
      goes on with `more`, against any pool that agrees with the original
      one on its months; the pools after the step still agree. */
  lemma StepExtends(results: seq<Result<Transaction>>, more: seq<Result<Transaction>>, index: nat,
                    small: map<int, int>, big: map<int, int>)
    requires index < |results|
    requires results[index].Success? ==> results[index].value.date.month in small
    requires Extends(big, small)
    ensures (results + more)[index].Success? ==> (results + more)[index].value.date.month in big
    ensures Step(results + more, index, big).0 == Step(results, index, small).0
    ensures Extends(Step(results + more, index, big).1, Step(results, index, small).1)
  {
    assert (results + more)[index] == results[index];
    if results[index].Success? {
      AppendingIgnored(results, more, index, results[index].value.date.month);
    }
  }

  /** Extending a batch changes neither the outputs of its first `n` lines
      nor the budgets of the months those lines have seen. */
  lemma {:induction false} RunExtends(results: seq<Result<Transaction>>, more: seq<Result<Transaction>>, n: nat)
    requires n <= |results|
    ensures Run(results + more, n).0 == Run(results, n).0
    ensures Extends(Run(results + more, n).1, Run(results, n).1)
  {
    if n == 0 {
      forall m | m in SuccessMonths(results)
        ensures m in SuccessMonths(results + more)
      {
        var i :| 0 <= i < |results| && results[i].Success? && results[i].value.date.month == m;
        assert (results + more)[i] == results[i];
      }
    } else {
      RunExtends(results, more, n - 1);
      RunStep(results, n - 1);
      RunStep(results + more, n - 1);
      StepExtends(results, more, n - 1, Run(results, n - 1).1, Run(results + more, n - 1).1);
    }
  }

  /** Lines added after a batch never change the batch's own outputs: each
      output depends on its line and the lines before it only. */
  lemma AppendingKeepsOutputs(results: seq<Result<Transaction>>, more: seq<Result<Transaction>>)
    ensures Apply(results + more)[..|results|] == Apply(results)
  {
    RunExtends(results, more, |results|);
    RunPrefix(results + more, |results|, |results + more|);
  }

  /** The pass as a single loop that updates one pool in place, as the
      application's enumeration runs it; it computes exactly `Apply`. */
  method ApplyEagerly(results: seq<Result<Transaction>>) returns (outputs: seq<Result<DiscountedTransaction>>)
    ensures outputs == Apply(results)
  {
    var lookup := BuildMonthDiscountBudgetLookup(results);
    outputs := [];
    var id := 0;
    while id < |results|
      invariant 0 <= id <= |results|
      invariant outputs == Run(results, id).0
      invariant lookup == Run(results, id).1
    {
      RunStep(results, id);
      var step := Step(results, id, lookup);
      outputs := outputs + [step.0];
      lookup := step.1;
      id := id + 1;
    }
  }
}
