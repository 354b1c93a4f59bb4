/**
 * Worked scenarios of the balance sheet, computed through the model: an
 * equal split of one expense, two expenses that partly cancel, an expense
 * whose explicit `sharedBy` list is counted on top of the equal split, and an
 * empty roster.
 */
module Scenarios {
  import opened Lists
  import opened Expenses
  import opened BalanceCalculator
  import opened SettlementPlanner
  import opened BalanceSheet

  /** One hotel bill of 300 paid by A, split over A, B and C: A is owed 200, B and C owe 100 each. */
  lemma ExampleAEntries()
    ensures ObjectEntries(["A", "B", "C"], Balances(["A", "B", "C"], [Expense("Hotel", 300.0, "A", Unsplit)]))
      == [Entry("A", 200.0), Entry("B", -100.0), Entry("C", -100.0)]
  {
    var roster := ["A", "B", "C"];
    var b := map["A" := 200.0, "B" := -100.0, "C" := -100.0];
    ExampleABalances();
    assert NoDuplicates(roster);
    assert RosterSet(roster) <= b.Keys;
    ObjectEntriesOfDistinct(roster, b);
    ExampleAEntryList();
  }

  /** The entries of the hotel balances, in roster order. */
  lemma ExampleAEntryList()
    ensures EntriesOf(["A", "B", "C"], map["A" := 200.0, "B" := -100.0, "C" := -100.0])
      == [Entry("A", 200.0), Entry("B", -100.0), Entry("C", -100.0)]
  {
    var roster := ["A", "B", "C"];
    var b := map["A" := 200.0, "B" := -100.0, "C" := -100.0];
    assert RosterSet(roster) <= b.Keys;
    var entries := EntriesOf(roster, b);
    assert entries[0] == Entry("A", 200.0);
    assert entries[1] == Entry("B", -100.0);
    assert entries[2] == Entry("C", -100.0);
  }

  /** The balances of the hotel scenario: the share is 100. */
  lemma ExampleABalances()
    ensures Balances(["A", "B", "C"], [Expense("Hotel", 300.0, "A", Unsplit)])
      == map["A" := 200.0, "B" := -100.0, "C" := -100.0]
  {
    var expenses := [Expense("Hotel", 300.0, "A", Unsplit)];
    FormExpensesUseBaseline(["A", "B", "C"], expenses);
    assert Total(expenses) == 300.0;
    assert PaidBy(expenses, "A") == 300.0;
    assert PaidBy(expenses, "B") == 0.0;
    assert PaidBy(expenses, "C") == 0.0;
    assert Share(["A", "B", "C"], expenses) == 100.0;
  }

  /** A is the only creditor; B and C, in roster order, are the debtors. */
  lemma ExampleAFilters()
    ensures Positive([Entry("A", 200.0), Entry("B", -100.0), Entry("C", -100.0)]) == [Entry("A", 200.0)]
    ensures Negative([Entry("A", 200.0), Entry("B", -100.0), Entry("C", -100.0)]) == [Entry("B", -100.0), Entry("C", -100.0)]
  {
    var entries := [Entry("A", 200.0), Entry("B", -100.0), Entry("C", -100.0)];
    var e1, e2 := [Entry("A", 200.0)], [Entry("A", 200.0), Entry("B", -100.0)];
    assert e1[..0] == [] && e2[..1] == e1 && entries[..2] == e2;
    assert Positive(e1) == e1 && Negative(e1) == [];
    assert Positive(e2) == e1 && Negative(e2) == [Entry("B", -100.0)];
  }

  /** Sorting keeps the tied debtors B and C in their order. */
  lemma ExampleASorted()
    ensures SortBy([Entry("A", 200.0)], Descending) == [Entry("A", 200.0)]
    ensures SortBy([Entry("B", -100.0), Entry("C", -100.0)], Ascending) == [Entry("B", -100.0), Entry("C", -100.0)]
  {
    var d := [Entry("B", -100.0), Entry("C", -100.0)];
    assert d[..1] == [Entry("B", -100.0)];
    assert SortBy([Entry("B", -100.0)], Ascending) == [Entry("B", -100.0)];
  }

  /** The last debtor is popped first, so C pays A before B does. */
  lemma ExampleARounds()
    ensures Greedy([Entry("A", 200.0)], [Entry("B", -100.0), Entry("C", -100.0)]).settlements
      == [Settlement("C", "A", 100.0), Settlement("B", "A", 100.0)]
  {
    var r1 := Match([Entry("A", 200.0)], [Entry("B", -100.0), Entry("C", -100.0)]);
    assert SortBy([Entry("A", 100.0)], Descending) == [Entry("A", 100.0)];
    assert r1 == Round(Settlement("C", "A", 100.0), [Entry("A", 100.0)], [Entry("B", -100.0)]);
    var r2 := Match([Entry("A", 100.0)], [Entry("B", -100.0)]);
    assert r2 == Round(Settlement("B", "A", 100.0), [], []);
  }

  /** The hotel scenario end to end: C pays A 100, then B pays A 100. */
  lemma ExampleA()
    ensures PlannedSettlements(["A", "B", "C"], [Expense("Hotel", 300.0, "A", Unsplit)])
      == [Settlement("C", "A", 100.0), Settlement("B", "A", 100.0)]
  {
    ExampleAEntries();
    ExampleAFilters();
    ExampleASorted();
    ExampleARounds();
  }

  /** A paid 50 for a taxi and B paid 30 for lunch: the share is 40, so A is owed 10 and B owes 10. */
  lemma ExampleBBalances()
    ensures Balances(["A", "B"], [Expense("Taxi", 50.0, "A", Unsplit), Expense("Lunch", 30.0, "B", Unsplit)])
      == map["A" := 10.0, "B" := -10.0]
  {
    var expenses := [Expense("Taxi", 50.0, "A", Unsplit), Expense("Lunch", 30.0, "B", Unsplit)];
    FormExpensesUseBaseline(["A", "B"], expenses);
    assert expenses[..1] == [Expense("Taxi", 50.0, "A", Unsplit)];
    assert Total(expenses) == 80.0;
    assert PaidBy(expenses, "A") == 50.0;
    assert PaidBy(expenses, "B") == 30.0;
    assert Share(["A", "B"], expenses) == 40.0;
  }

  /** The taxi and lunch scenario end to end: one settlement, B pays A 10. */
  lemma ExampleB()
    ensures PlannedSettlements(["A", "B"], [Expense("Taxi", 50.0, "A", Unsplit), Expense("Lunch", 30.0, "B", Unsplit)])
      == [Settlement("B", "A", 10.0)]
  {
    ExampleBEntries();
    ExampleBPlan();
  }

  /** The balance entries of the taxi and lunch scenario, in roster order. */
  lemma ExampleBEntries()
    ensures ObjectEntries(["A", "B"], Balances(["A", "B"], [Expense("Taxi", 50.0, "A", Unsplit), Expense("Lunch", 30.0, "B", Unsplit)]))
      == [Entry("A", 10.0), Entry("B", -10.0)]
  {
    var roster := ["A", "B"];
    var b := map["A" := 10.0, "B" := -10.0];
    ExampleBBalances();
    assert NoDuplicates(roster);
    assert RosterSet(roster) <= b.Keys;
    ObjectEntriesOfDistinct(roster, b);
    ExampleBEntryList();
  }

  /** The entries of the taxi and lunch balances, in roster order. */
  lemma ExampleBEntryList()
    ensures EntriesOf(["A", "B"], map["A" := 10.0, "B" := -10.0]) == [Entry("A", 10.0), Entry("B", -10.0)]
  {
    var roster := ["A", "B"];
    var b := map["A" := 10.0, "B" := -10.0];
    assert RosterSet(roster) <= b.Keys;
    var entries := EntriesOf(roster, b);
    assert entries[0] == Entry("A", 10.0);
    assert entries[1] == Entry("B", -10.0);
  }

  /** The planner matches the single debtor with the single creditor. */
  lemma ExampleBPlan()
    ensures Settlements([Entry("A", 10.0), Entry("B", -10.0)]) == [Settlement("B", "A", 10.0)]
  {
    var entries := [Entry("A", 10.0), Entry("B", -10.0)];
    assert entries[..1] == [Entry("A", 10.0)];
    assert Positive(entries) == [Entry("A", 10.0)];
    assert Negative(entries) == [Entry("B", -10.0)];
    assert Match([Entry("A", 10.0)], [Entry("B", -10.0)]) == Round(Settlement("B", "A", 10.0), [], []);
  }

  /**
   * A dinner of 100 paid by A with `sharedBy` [A, B] is split twice: once
   * equally over the roster and once over the list, so A is owed 100 and B
   * owes 100 where either split alone gives 50.
   */
  lemma DoubleCountBalances()
    ensures Balances(["A", "B"], [Expense("Dinner", 100.0, "A", SplitAmong(["A", "B"]))])
      == map["A" := 100.0, "B" := -100.0]
  {
    var roster := ["A", "B"];
    var e := Expense("Dinner", 100.0, "A", SplitAmong(["A", "B"]));
    var expenses := [e];
    assert expenses[..0] == [];
    assert Total(expenses) == 100.0;
    assert PaidBy(expenses, "A") == 100.0;
    assert PaidBy(expenses, "B") == 0.0;
    assert SplitAmount(e) == 50.0;
    assert ["A", "B"][..1] == ["A"];
    assert Occurrences(["A", "B"], "A") == 1;
    assert Occurrences(["A", "B"], "B") == 1;
    assert ExpenseDelta(roster, e, "A") == 50.0;
    assert ExpenseDelta(roster, e, "B") == -50.0;
    assert OverlayDelta(roster, expenses, "A") == 50.0;
    assert OverlayDelta(roster, expenses, "B") == -50.0;
    BalanceAt(roster, expenses, "A");
    BalanceAt(roster, expenses, "B");
  }

  /** With an empty roster there are no balances and no settlements, whatever the expenses. */
  lemma EmptyRoster(expenses: seq<Expense>)
    ensures Balances([], expenses) == map[]
    ensures PlannedSettlements([], expenses) == []
  {
    assert ObjectEntries([], map[]) == [];
  }
}
