/**
 * The `BalanceSheet` component: it computes the balances of the roster from
 * the expense list, turns them into the entries of a JavaScript object
 * (`Object.entries`), runs the greedy settlement planner on them and keeps
 * the resulting list of settlements as state that the user can dismiss entry
 * by entry. Rendering and the two-decimal formatting of amounts are not part
 * of this model.
 */
module BalanceSheet {
  import opened Lists
  import opened Expenses
  import opened BalanceCalculator
  import opened SettlementPlanner

  /** One entry per key, in the order of `keys`, carrying the balance of that key. */
  function EntriesOf(keys: seq<string>, balances: BalanceMap): (entries: seq<Entry>)
    requires RosterSet(keys) <= balances.Keys
    ensures |entries| == |keys|
    ensures forall i :: 0 <= i < |keys| ==> entries[i].name == keys[i] && entries[i].amount == balances[keys[i]]
  {
    if keys == [] then []
    else
      var last := keys[|keys| - 1];
      EntriesOf(keys[..|keys| - 1], balances) + [Entry(last, balances[last])]
  }

  /**
   * `Object.entries(balances)` for the object the calculator fills by walking
   * the roster: a name assigned twice keeps the place of its first assignment.
   */
  function ObjectEntries(roster: seq<string>, balances: BalanceMap): (entries: seq<Entry>)
    requires RosterSet(roster) <= balances.Keys
    ensures DistinctNames(entries)
    ensures forall i :: 0 <= i < |entries| ==> entries[i].name in roster && entries[i].amount == balances[entries[i].name]
    ensures forall p :: p in roster ==> exists i :: 0 <= i < |entries| && entries[i].name == p
  {
    var keys := Dedup(roster);
    assert RosterSet(keys) <= RosterSet(roster) by {
      forall p | p in keys ensures p in roster {
        var i :| 0 <= i < |keys| && keys[i] == p;
      }
    }
    var entries := EntriesOf(keys, balances);
    forall p | p in roster ensures exists i :: 0 <= i < |entries| && entries[i].name == p {
      var j :| 0 <= j < |roster| && roster[j] == p;
      assert roster[j] in keys;
      var i :| 0 <= i < |keys| && keys[i] == p;
      assert entries[i].name == p;
    }
    entries
  }

  /** On a roster without duplicates, the entries follow the roster one to one. */
  lemma ObjectEntriesOfDistinct(roster: seq<string>, balances: BalanceMap)
    requires RosterSet(roster) <= balances.Keys
    requires NoDuplicates(roster)
    ensures ObjectEntries(roster, balances) == EntriesOf(roster, balances)
  {
    DedupOfDistinct(roster);
  }

  /** Each entry carries the balance of its own key. */
  lemma {:induction false} EntriesOfAmountFor(keys: seq<string>, balances: BalanceMap, p: string)
    requires RosterSet(keys) <= balances.Keys
    requires NoDuplicates(keys)
    ensures AmountFor(EntriesOf(keys, balances), p) == if p in keys then balances[p] else 0.0
  {
    if keys != [] {
      var prefix := keys[..|keys| - 1];
      assert RosterSet(prefix) <= RosterSet(keys);
      assert NoDuplicates(prefix);
      EntriesOfAmountFor(prefix, balances, p);
      assert keys == prefix + [keys[|keys| - 1]];
      assert keys[|keys| - 1] !in prefix;
    }
  }

  /** The entries add up to the sum of the balances over the keys. */
  lemma {:induction false} EntriesOfAmounts(keys: seq<string>, balances: BalanceMap)
    requires RosterSet(keys) <= balances.Keys
    ensures Amounts(EntriesOf(keys, balances)) == SumOver(keys, balances)
  {
    if keys != [] {
      var prefix := keys[..|keys| - 1];
      assert RosterSet(prefix) <= RosterSet(keys);
      EntriesOfAmounts(prefix, balances);
    }
  }

  /**
   * On a roster without duplicates the entries are the balances: each name
   * of the roster carries its own balance, other names none, and the
   * entries add up to the sum of the balances.
   */
  lemma ObjectEntriesAreBalances(roster: seq<string>, balances: BalanceMap)
    requires RosterSet(roster) <= balances.Keys
    requires NoDuplicates(roster)
    ensures forall p :: AmountFor(ObjectEntries(roster, balances), p) == if p in roster then balances[p] else 0.0
    ensures Amounts(ObjectEntries(roster, balances)) == SumOver(roster, balances)
  {
    DedupOfDistinct(roster);
    forall p ensures AmountFor(ObjectEntries(roster, balances), p) == if p in roster then balances[p] else 0.0 {
      EntriesOfAmountFor(roster, balances, p);
    }
    EntriesOfAmounts(roster, balances);
  }

  /** The settlements `getSettlements` produces for a roster and an expense list. */
  function PlannedSettlements(roster: seq<string>, expenses: seq<Expense>): seq<Settlement> {
    Settlements(ObjectEntries(roster, Balances(roster, expenses)))
  }

  /**
   * Every planned settlement goes from a roster member who owes money to a
   * different roster member who is owed money, for a positive amount that
   * neither exceeds what the payer owes nor what the receiver is owed; there
   * are fewer settlements than roster members.
   */
  lemma PlannedSettlementsValid(roster: seq<string>, expenses: seq<Expense>)
    ensures var b := Balances(roster, expenses);
      forall s :: s in PlannedSettlements(roster, expenses) ==>
        s.from in roster && s.to in roster && s.from != s.to &&
        0.0 < s.amount <= b[s.to] && s.amount <= -b[s.from]
    ensures |PlannedSettlements(roster, expenses)| < |roster| || roster == []
  {
    var b := Balances(roster, expenses);
    var entries := ObjectEntries(roster, b);
    PlanValid(entries);
    forall s | s in Settlements(entries)
      ensures s.from in roster && s.to in roster && 0.0 < s.amount <= b[s.to] && s.amount <= -b[s.from]
    {
      var to := AmountForNamed(entries, s.to);
      var from := AmountForNamed(entries, s.from);
    }
    PlanLength(entries);
    EntriesCount(roster, b);
  }

  /**
   * A name with a non-zero sum occurs in the entries; with distinct names that
   * sum is the entry's amount.
   */
  lemma AmountForNamed(entries: seq<Entry>, p: string) returns (i: nat)
    requires DistinctNames(entries)
    requires AmountFor(entries, p) != 0.0
    ensures i < |entries| && entries[i].name == p && entries[i].amount == AmountFor(entries, p)
  {
    if forall e :: e in entries ==> e.name != p {
      AmountForAbsent(entries, p);
    }
    var e :| e in entries && e.name == p;
    i :| 0 <= i < |entries| && entries[i] == e;
    AmountForDistinct(entries, e);
  }

  /** There are at most as many non-zero entries as roster members, and none for an empty roster. */
  lemma EntriesCount(roster: seq<string>, balances: BalanceMap)
    requires RosterSet(roster) <= balances.Keys
    ensures NonZero(ObjectEntries(roster, balances)) <= |roster|
  {
    var entries := ObjectEntries(roster, balances);
    NonZeroAtMostLength(entries);
    DedupNoLonger(roster);
  }

  /** Counting the non-zero entries never exceeds the length. */
  lemma {:induction false} NonZeroAtMostLength(s: seq<Entry>)
    ensures NonZero(s) <= |s|
  {
    if s != [] {
      NonZeroAtMostLength(s[..|s| - 1]);
    }
  }

  /** De-duplication never makes a sequence longer. */
  lemma {:induction false} DedupNoLonger(s: seq<string>)
    ensures |Dedup(s)| <= |s|
  {
    if s != [] {
      DedupNoLonger(s[..|s| - 1]);
    }
  }

  /**
   * The settlements reproduce the balances: on a roster without duplicates,
   * and with every payer and every listed sharer on the roster, each member
   * receives minus pays exactly its balance, and nobody else takes part.
   */
  lemma SettlementsReproduceBalances(roster: seq<string>, expenses: seq<Expense>)
    requires NoDuplicates(roster)
    requires OnRoster(roster, expenses)
    ensures forall p :: p in roster ==> Net(PlannedSettlements(roster, expenses), p) == Balances(roster, expenses)[p]
    ensures forall p :: p !in roster ==> Net(PlannedSettlements(roster, expenses), p) == 0.0
  {
    var b := Balances(roster, expenses);
    var entries := ObjectEntries(roster, b);
    ObjectEntriesAreBalances(roster, b);
    BalancesSumToZero(roster, expenses);
    PlanReproducesBalances(entries);
  }

  /**
   * The settlement list of the component. `Recompute` is `getSettlements`,
   * run whenever the expense list changes; `ClearSettlement` dismisses one
   * entry without touching the balances.
   */
  class SettlementLedger {
    var settlements: seq<Settlement>

    /** Every listed settlement is one the planner produced for these inputs. */
    predicate Planned(roster: seq<string>, expenses: seq<Expense>)
      reads this
    {
      forall i :: 0 <= i < |settlements| ==> settlements[i] in PlannedSettlements(roster, expenses)
    }

    /** The component starts with no settlements. */
    constructor ()
      ensures settlements == []
    {
      settlements := [];
    }

    /** `getSettlements`: the list is replaced by the plan for the current balances. */
    method Recompute(roster: seq<string>, expenses: seq<Expense>)
      modifies this
      ensures settlements == PlannedSettlements(roster, expenses)
      ensures Planned(roster, expenses)
    {
      var balances := ComputeBalances(roster, expenses);
      settlements := PlanSettlements(ObjectEntries(roster, balances));
    }

    /**
     * `clearSettlement`: the entry at `index` is dismissed and the others keep
     * their order; an index outside the list changes nothing. Dismissing
     * never adds an entry the planner did not produce.
     */
    method ClearSettlement(index: int, ghost roster: seq<string>, ghost expenses: seq<Expense>)
      modifies this
      ensures 0 <= index < |old(settlements)| ==>
        settlements == old(settlements)[..index] + old(settlements)[index + 1..]
      ensures !(0 <= index < |old(settlements)|) ==> settlements == old(settlements)
      ensures old(Planned(roster, expenses)) ==> Planned(roster, expenses)
    {
      RemoveAtKeepsNoDuplicates(settlements, index);
      settlements := RemoveAt(settlements, index);
    }
  }
}
