/**
 * The balance calculator of the balance sheet: from a roster and an expense
 * list to each friend's net balance (positive: the group owes this friend;
 * negative: this friend owes the group).
 *
 * It works in two passes, both over the whole expense list:
 *  - the baseline charges every friend an equal share of the total of all
 *    expenses and credits each friend with what they paid;
 *  - the overlay then takes every expense that names a non-empty `sharedBy`
 *    list (and passes the checks below), debits each listed roster member
 *    `amount / |sharedBy|` and credits the payer with the full amount again.
 * An expense with `sharedBy` is therefore accounted for in both passes; the
 * model reproduces this.
 */
module BalanceCalculator {
  import opened Lists
  import opened Expenses

  /** A balance per participant name. */
  type BalanceMap = map<string, real>

  /** The names on the roster. */
  function RosterSet(roster: seq<string>): set<string> {
    set p | p in roster
  }

  /** Sum of all expense amounts (`totalExpenses`). */
  function Total(expenses: seq<Expense>): real {
    if expenses == [] then 0.0
    else Total(expenses[..|expenses| - 1]) + expenses[|expenses| - 1].amount
  }

  /** Sum of the amounts of the expenses paid by `p` (`totalPaid[p]`). */
  function PaidBy(expenses: seq<Expense>, p: string): real {
    if expenses == [] then 0.0
    else
      var last := expenses[|expenses| - 1];
      PaidBy(expenses[..|expenses| - 1], p) + (if last.payer == p then last.amount else 0.0)
  }

  /** The equal share of one friend (`perPersonShare`); never used when the roster is empty. */
  function Share(roster: seq<string>, expenses: seq<Expense>): real {
    if |roster| == 0 then 0.0 else Total(expenses) / (|roster| as real)
  }

  /** The baseline pass: paid minus equal share, for every roster name. */
  function Baseline(roster: seq<string>, expenses: seq<Expense>): BalanceMap {
    map p | p in roster :: PaidBy(expenses, p) - Share(roster, expenses)
  }

  /**
   * The guards of the overlay pass: a non-empty payer, a non-zero amount, a
   * non-empty `sharedBy` array and a payer on the roster. An expense failing
   * any of them is skipped by the overlay.
   */
  predicate Fires(roster: seq<string>, e: Expense) {
    e.payer != "" && e.amount != 0.0 && e.sharedBy.SplitAmong? &&
    |e.sharedBy.names| > 0 && e.payer in roster
  }

  /** `splitAmount`: the amount divided by the length of the `sharedBy` list. */
  function SplitAmount(e: Expense): real
    requires e.sharedBy.SplitAmong? && |e.sharedBy.names| > 0
  {
    e.amount / (|e.sharedBy.names| as real)
  }

  /** The inner loop of the overlay: debit `split` from each listed name that is on the roster. */
  function DebitAll(roster: seq<string>, names: seq<string>, split: real, m: BalanceMap): (r: BalanceMap)
    requires RosterSet(roster) <= m.Keys
    ensures r.Keys == m.Keys
  {
    if names == [] then m
    else
      var before := DebitAll(roster, names[..|names| - 1], split, m);
      var n := names[|names| - 1];
      if n in roster then before[n := before[n] - split] else before
  }

  /** One step of the overlay: the debits of the listed names, then the credit of the payer. */
  function ApplyExpense(roster: seq<string>, e: Expense, m: BalanceMap): (r: BalanceMap)
    requires RosterSet(roster) <= m.Keys
    ensures r.Keys == m.Keys
  {
    if Fires(roster, e) then
      var debited := DebitAll(roster, e.sharedBy.names, SplitAmount(e), m);
      debited[e.payer := debited[e.payer] + e.amount]
    else m
  }

  /** The overlay pass over the expenses in list order. */
  function Overlay(roster: seq<string>, expenses: seq<Expense>, m: BalanceMap): (r: BalanceMap)
    requires RosterSet(roster) <= m.Keys
    ensures r.Keys == m.Keys
  {
    if expenses == [] then m
    else ApplyExpense(roster, expenses[|expenses| - 1], Overlay(roster, expenses[..|expenses| - 1], m))
  }

  /**
   * `balances`: the baseline followed by the overlay. There is exactly one
   * entry per roster name and no other; an empty roster gives an empty map.
   */
  function Balances(roster: seq<string>, expenses: seq<Expense>): (b: BalanceMap)
    ensures b.Keys == RosterSet(roster)
    ensures roster == [] ==> b == map[]
  {
    Overlay(roster, expenses, Baseline(roster, expenses))
  }

  /**
   * The balance computation as the component runs it: the baseline map, then
   * the overlay mutating the map expense by expense and, inside, listed name
   * by listed name.
   */
  method ComputeBalances(roster: seq<string>, expenses: seq<Expense>) returns (balances: BalanceMap)
    ensures balances == Balances(roster, expenses)
  {
    var baseline := Baseline(roster, expenses);
    balances := baseline;
    var i := 0;
    while i < |expenses|
      invariant 0 <= i <= |expenses|
      invariant balances == Overlay(roster, expenses[..i], baseline)
    {
      var e := expenses[i];
      assert expenses[..i + 1][..i] == expenses[..i];
      ghost var before := balances;
      if Fires(roster, e) {
        balances := DebitListed(roster, e.sharedBy.names, e.amount / (|e.sharedBy.names| as real), balances);
        balances := balances[e.payer := balances[e.payer] + e.amount];
      }
      assert balances == ApplyExpense(roster, e, before);
      i := i + 1;
    }
    assert expenses[..i] == expenses;
  }

  /**
   * The `sharedBy.forEach` loop: subtract `split` from each listed name that
   * is on the roster, skipping the others.
   */
  method DebitListed(roster: seq<string>, names: seq<string>, split: real, start: BalanceMap)
    returns (balances: BalanceMap)
    requires RosterSet(roster) <= start.Keys
    ensures balances == DebitAll(roster, names, split, start)
  {
    balances := start;
    var j := 0;
    while j < |names|
      invariant 0 <= j <= |names|
      invariant balances == DebitAll(roster, names[..j], split, start)
    {
      assert names[..j + 1][..j] == names[..j];
      if names[j] in roster {
        balances := balances[names[j] := balances[names[j]] - split];
      }
      j := j + 1;
    }
    assert names[..j] == names;
  }

  // ---------------------------------------------------------------------
  // What one expense does to each balance

  /** `k` copies of `x` added up: what `k` repeated subtractions of a split take away. */
  function Times(k: nat, x: real): real {
    if k == 0 then 0.0 else Times(k - 1, x) + x
  }

  /** Repeated addition is multiplication. */
  lemma {:induction false} TimesIsProduct(k: nat, x: real)
    ensures Times(k, x) == (k as real) * x
  {
    if k > 0 {
      TimesIsProduct(k - 1, x);
      assert (k as real) * x == ((k - 1) as real) * x + x;
    }
  }

  /** How often `p` occurs in `names`. */
  function Occurrences(names: seq<string>, p: string): nat {
    if names == [] then 0
    else Occurrences(names[..|names| - 1], p) + (if names[|names| - 1] == p then 1 else 0)
  }

  /**
   * The change one expense makes to the balance of `p` in the overlay: the
   * full amount when `p` pays, minus one split per occurrence of `p` in
   * `sharedBy` when `p` is on the roster; nothing when the guards fail.
   */
  function ExpenseDelta(roster: seq<string>, e: Expense, p: string): real {
    if Fires(roster, e) then
      (if p == e.payer then e.amount else 0.0)
      - (if p in roster then Times(Occurrences(e.sharedBy.names, p), SplitAmount(e)) else 0.0)
    else 0.0
  }

  /** The total change the overlay makes to the balance of `p`. */
  function OverlayDelta(roster: seq<string>, expenses: seq<Expense>, p: string): real {
    if expenses == [] then 0.0
    else OverlayDelta(roster, expenses[..|expenses| - 1], p) + ExpenseDelta(roster, expenses[|expenses| - 1], p)
  }

  /** Each listed roster name loses one split per occurrence; other names are untouched. */
  lemma {:induction false} DebitAllAt(roster: seq<string>, names: seq<string>, split: real, m: BalanceMap, p: string)
    requires RosterSet(roster) <= m.Keys
    requires p in m
    ensures DebitAll(roster, names, split, m)[p]
      == m[p] - (if p in roster then Times(Occurrences(names, p), split) else 0.0)
  {
    if names != [] {
      DebitAllAt(roster, names[..|names| - 1], split, m, p);
    }
  }

  /**
   * An expense failing the overlay guards leaves every balance unchanged; one
   * passing them debits each listed roster member `amount / |sharedBy|` per
   * listing, skips names not on the roster, and credits the payer with the
   * full amount regardless.
   */
  lemma ApplyExpenseAt(roster: seq<string>, e: Expense, m: BalanceMap, p: string)
    requires RosterSet(roster) <= m.Keys
    requires p in m
    ensures !Fires(roster, e) ==> ApplyExpense(roster, e, m) == m
    ensures ApplyExpense(roster, e, m)[p] == m[p] + ExpenseDelta(roster, e, p)
  {
    if Fires(roster, e) {
      var debited := DebitAll(roster, e.sharedBy.names, SplitAmount(e), m);
      DebitAllAt(roster, e.sharedBy.names, SplitAmount(e), m, p);
      var debit := if p in roster then Times(Occurrences(e.sharedBy.names, p), SplitAmount(e)) else 0.0;
      assert debited[p] == m[p] - debit;
      assert ExpenseDelta(roster, e, p) == (if p == e.payer then e.amount else 0.0) - debit;
    }
  }

  /** The overlay adds to each balance exactly the per-expense changes, summed over the list. */
  lemma {:induction false} OverlayAt(roster: seq<string>, expenses: seq<Expense>, m: BalanceMap, p: string)
    requires RosterSet(roster) <= m.Keys
    requires p in m
    ensures Overlay(roster, expenses, m)[p] == m[p] + OverlayDelta(roster, expenses, p)
  {
    if expenses != [] {
      var prefix := expenses[..|expenses| - 1];
      OverlayAt(roster, prefix, m, p);
      ApplyExpenseAt(roster, expenses[|expenses| - 1], Overlay(roster, prefix, m), p);
    }
  }

  /**
   * Closed form of a balance: what `p` paid, minus the equal share of the
   * total, plus the overlay's changes.
   */
  lemma BalanceAt(roster: seq<string>, expenses: seq<Expense>, p: string)
    requires p in roster
    ensures Balances(roster, expenses)[p]
      == PaidBy(expenses, p) - Total(expenses) / (|roster| as real) + OverlayDelta(roster, expenses, p)
  {
    OverlayAt(roster, expenses, Baseline(roster, expenses), p);
  }

  /** Without any expense that passes the overlay guards, the overlay changes nothing. */
  lemma {:induction false} NoOverlayDelta(roster: seq<string>, expenses: seq<Expense>, p: string)
    requires forall i :: 0 <= i < |expenses| ==> !Fires(roster, expenses[i])
    ensures OverlayDelta(roster, expenses, p) == 0.0
  {
    if expenses != [] {
      NoOverlayDelta(roster, expenses[..|expenses| - 1], p);
    }
  }

  /**
   * When no expense carries a `sharedBy` list, every balance is what the
   * friend paid minus the equal share of the total.
   */
  lemma UnsplitBalances(roster: seq<string>, expenses: seq<Expense>, p: string)
    requires forall i :: 0 <= i < |expenses| ==> expenses[i].sharedBy == Unsplit
    requires p in roster
    ensures Balances(roster, expenses)[p] == PaidBy(expenses, p) - Total(expenses) / (|roster| as real)
  {
    BalanceAt(roster, expenses, p);
    NoOverlayDelta(roster, expenses, p);
  }

  /**
   * Expenses created through the form never carry `sharedBy`, so the overlay
   * never fires for them and the balances are the baseline.
   */
  lemma FormExpensesUseBaseline(roster: seq<string>, expenses: seq<Expense>)
    requires AllFromForm(expenses)
    ensures Balances(roster, expenses) == Baseline(roster, expenses)
  {
    var b := Balances(roster, expenses);
    forall p | p in roster
      ensures b[p] == Baseline(roster, expenses)[p]
    {
      UnsplitBalances(roster, expenses, p);
    }
  }

  // ---------------------------------------------------------------------
  // The balances sum to zero

  /** Sum of the balances of the listed names. */
  function SumOver(keys: seq<string>, m: BalanceMap): real
    requires RosterSet(keys) <= m.Keys
  {
    if keys == [] then 0.0
    else SumOver(keys[..|keys| - 1], m) + m[keys[|keys| - 1]]
  }

  /** Changing one balance changes the sum over a duplicate-free list by the difference, if listed. */
  lemma {:induction false} SumOverUpdate(keys: seq<string>, m: BalanceMap, q: string, v: real)
    requires RosterSet(keys) <= m.Keys && q in m
    requires NoDuplicates(keys)
    ensures SumOver(keys, m[q := v]) == SumOver(keys, m) + (if q in keys then v - m[q] else 0.0)
  {
    if keys != [] {
      var prefix := keys[..|keys| - 1];
      assert NoDuplicates(prefix);
      SumOverUpdate(prefix, m, q, v);
      assert q in keys <==> q in prefix || q == keys[|keys| - 1];
      assert q == keys[|keys| - 1] ==> q !in prefix;
    }
  }

  /** How many entries of `names` are on the roster. */
  function CountOnRoster(roster: seq<string>, names: seq<string>): nat {
    if names == [] then 0
    else CountOnRoster(roster, names[..|names| - 1]) + (if names[|names| - 1] in roster then 1 else 0)
  }

  /** The debits of the inner loop lower the roster's sum by one split per listed roster name. */
  lemma {:induction false} DebitAllSum(roster: seq<string>, names: seq<string>, split: real, m: BalanceMap)
    requires RosterSet(roster) <= m.Keys
    requires NoDuplicates(roster)
    ensures SumOver(roster, DebitAll(roster, names, split, m))
      == SumOver(roster, m) - Times(CountOnRoster(roster, names), split)
  {
    if names != [] {
      var prefix := names[..|names| - 1];
      DebitAllSum(roster, prefix, split, m);
      var before := DebitAll(roster, prefix, split, m);
      var n := names[|names| - 1];
      if n in roster {
        SumOverUpdate(roster, before, n, before[n] - split);
      }
    }
  }

  /** All names listed are on the roster. */
  lemma {:induction false} CountAllOnRoster(roster: seq<string>, names: seq<string>)
    requires forall i :: 0 <= i < |names| ==> names[i] in roster
    ensures CountOnRoster(roster, names) == |names|
  {
    if names != [] {
      CountAllOnRoster(roster, names[..|names| - 1]);
    }
  }

  /** `|names|` splits of `amount / |names|` make up `amount` again. */
  lemma SplitsAddUp(n: nat, amount: real)
    requires n > 0
    ensures Times(n, amount / (n as real)) == amount
  {
    TimesIsProduct(n, amount / (n as real));
  }

  /** What the friends paid, less `n` equal shares of the same total, is nothing. */
  lemma SharesAddUp(paid: real, total: real, n: nat, share: real)
    requires n > 0 && paid == total && share == total / (n as real)
    ensures paid - Times(n, share) == 0.0
  {
    SplitsAddUp(n, total);
  }

  /** Every expense the overlay takes lists only roster names in `sharedBy`. */
  predicate ListedOnRoster(roster: seq<string>, expenses: seq<Expense>) {
    forall i :: 0 <= i < |expenses| ==> Fires(roster, expenses[i]) ==>
      forall k :: 0 <= k < |expenses[i].sharedBy.names| ==> expenses[i].sharedBy.names[k] in roster
  }

  /**
   * The expenses whose payer is on the roster and whose `sharedBy` names
   * (when the overlay fires) are all on the roster too.
   */
  predicate OnRoster(roster: seq<string>, expenses: seq<Expense>) {
    (forall i :: 0 <= i < |expenses| ==> expenses[i].payer in roster) &&
    ListedOnRoster(roster, expenses)
  }

  /**
   * The overlay moves money between roster members only: the roster's sum is
   * unchanged. Payers off the roster need not be excluded, since their
   * expenses are skipped.
   */
  lemma {:induction false} OverlayKeepsSum(roster: seq<string>, expenses: seq<Expense>, m: BalanceMap)
    requires RosterSet(roster) <= m.Keys
    requires NoDuplicates(roster)
    requires ListedOnRoster(roster, expenses)
    ensures SumOver(roster, Overlay(roster, expenses, m)) == SumOver(roster, m)
  {
    if expenses != [] {
      var prefix := expenses[..|expenses| - 1];
      assert ListedOnRoster(roster, prefix) by {
        forall i | 0 <= i < |prefix| ensures prefix[i] == expenses[i] { }
      }
      OverlayKeepsSum(roster, prefix, m);
      var before := Overlay(roster, prefix, m);
      var e := expenses[|expenses| - 1];
      if Fires(roster, e) {
        var names := e.sharedBy.names;
        DebitAllSum(roster, names, SplitAmount(e), before);
        CountAllOnRoster(roster, names);
        var debited := DebitAll(roster, names, SplitAmount(e), before);
        SumOverUpdate(roster, debited, e.payer, debited[e.payer] + e.amount);
        SplitsAddUp(|names|, e.amount);
      }
    }
  }

  /** Sum over the listed names of what each paid. */
  function SumPaid(keys: seq<string>, expenses: seq<Expense>): real {
    if keys == [] then 0.0
    else SumPaid(keys[..|keys| - 1], expenses) + PaidBy(expenses, keys[|keys| - 1])
  }

  /** The baseline's sum over roster names is what they paid minus one share each. */
  lemma {:induction false} BaselineSum(roster: seq<string>, keys: seq<string>, expenses: seq<Expense>)
    requires forall i :: 0 <= i < |keys| ==> keys[i] in roster
    ensures RosterSet(keys) <= Baseline(roster, expenses).Keys
    ensures SumOver(keys, Baseline(roster, expenses))
      == SumPaid(keys, expenses) - Times(|keys|, Share(roster, expenses))
  {
    if keys != [] {
      BaselineSum(roster, keys[..|keys| - 1], expenses);
    }
  }

  /** Adding one expense to the list raises the total paid by a list of names by its count there. */
  lemma {:induction false} SumPaidStep(keys: seq<string>, expenses: seq<Expense>, e: Expense)
    ensures SumPaid(keys, expenses + [e])
      == SumPaid(keys, expenses) + Times(Occurrences(keys, e.payer), e.amount)
  {
    if keys != [] {
      SumPaidStep(keys[..|keys| - 1], expenses, e);
      assert (expenses + [e])[..|expenses|] == expenses;
    }
  }

  /** A name occurs once in a duplicate-free list that holds it. */
  lemma {:induction false} OccursOnce(keys: seq<string>, p: string)
    requires NoDuplicates(keys) && p in keys
    ensures Occurrences(keys, p) == 1
  {
    var prefix := keys[..|keys| - 1];
    assert NoDuplicates(prefix);
    if keys[|keys| - 1] == p {
      assert p !in prefix;
      OccursNever(prefix, p);
    } else {
      assert p in prefix;
      OccursOnce(prefix, p);
    }
  }

  /** A name absent from a list occurs there zero times. */
  lemma {:induction false} OccursNever(keys: seq<string>, p: string)
    requires p !in keys
    ensures Occurrences(keys, p) == 0
  {
    if keys != [] {
      OccursNever(keys[..|keys| - 1], p);
    }
  }

  /** When every payer is on a duplicate-free roster, the friends together paid the total. */
  lemma {:induction false} RosterPaidTotal(roster: seq<string>, expenses: seq<Expense>)
    requires NoDuplicates(roster)
    requires forall i :: 0 <= i < |expenses| ==> expenses[i].payer in roster
    ensures SumPaid(roster, expenses) == Total(expenses)
  {
    if expenses == [] {
      ZeroPaid(roster);
    } else {
      var prefix := expenses[..|expenses| - 1];
      var e := expenses[|expenses| - 1];
      RosterPaidTotal(roster, prefix);
      SumPaidStep(roster, prefix, e);
      assert prefix + [e] == expenses;
      OccursOnce(roster, e.payer);
    }
  }

  /** Nobody paid anything when there are no expenses. */
  lemma {:induction false} ZeroPaid(keys: seq<string>)
    ensures SumPaid(keys, []) == 0.0
  {
    if keys != [] {
      ZeroPaid(keys[..|keys| - 1]);
    }
  }

  /** When every payer is on a duplicate-free roster, the baseline balances sum to zero. */
  lemma BaselineSumsToZero(roster: seq<string>, expenses: seq<Expense>)
    requires NoDuplicates(roster)
    requires forall i :: 0 <= i < |expenses| ==> expenses[i].payer in roster
    ensures SumOver(roster, Baseline(roster, expenses)) == 0.0
  {
    BaselineSum(roster, roster, expenses);
    if roster != [] {
      RosterPaidTotal(roster, expenses);
      SharesAddUp(SumPaid(roster, expenses), Total(expenses), |roster|, Share(roster, expenses));
    }
  }

  /**
   * When every payer and every listed name is on a duplicate-free roster,
   * the balances sum to zero. This holds with or without `sharedBy`: the
   * overlay's double accounting credits and debits the same amount.
   */
  lemma BalancesSumToZero(roster: seq<string>, expenses: seq<Expense>)
    requires NoDuplicates(roster)
    requires OnRoster(roster, expenses)
    ensures SumOver(roster, Balances(roster, expenses)) == 0.0
  {
    BaselineSumsToZero(roster, expenses);
    OverlayKeepsSum(roster, expenses, Baseline(roster, expenses));
  }
}
