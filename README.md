# Expense-Splitter balance sheet, modelled in Dafny

Expense-Splitter is a small React application for a group trip. It keeps three pieces of state:

- a roster of friends;
- a list of expenses, each with a title, an amount, a payer and an optional `sharedBy` list;
- the settlement list of the balance sheet.

This project models the logic behind that state:

- **Roster edits** (`friends.dfy`, module `Friends`). Adding a friend appends a non-empty name that is not yet on the roster. Deleting a friend removes one position.
- **Expense-list edits** (`expenses.dfy`, module `Expenses`). Adding an expense appends a validated entry without `sharedBy`. Deleting an expense removes one position.
- **Balance calculator** (`balances.dfy`, module `BalanceCalculator`). It works in two passes:
  - The baseline: each roster member's balance is what they paid minus the total divided by the roster size.
  - The overlay: every expense that passes its guards debits `amount / |sharedBy|` from each listed roster member and credits the payer the full amount. Nothing stops one expense from going through both passes. The model keeps that double accounting as the code has it, and `Scenarios.DoubleCountBalances` shows it.
- **Settlement planner** (`settlements.dfy`, module `SettlementPlanner`):
  1. Creditors are sorted by balance, descending. Debtors are sorted by balance, ascending.
  2. Each round pops the last element of each list, settles the smaller of the credit and the debt, and pushes back and re-sorts the side that still has a remainder.
- **Balance-sheet component** (`balancesheet.dfy`, module `BalanceSheet`). It turns the balance map into object entries, keeps the planned settlements in a `SettlementLedger` object and dismisses them one index at a time.
- **Worked scenarios** (`scenarios.dfy`, module `Scenarios`).

Generic sequence helpers are in `lists.dfy` (module `Lists`).

Amounts are exact reals. JavaScript's floating-point arithmetic and the two-decimal display are not modelled.

The roster and both lists are modelled as values. The component's state-setter calls become functions from the old list to the new one. The settlement list is the one piece of component state that the model keeps as a mutable field.

When the planner pops from a list, it takes the last element:

- from the creditors, that is the smallest credit;
- from the debtors, that is the smallest debt;
- among debtors with equal balances, it is the one listed last in the roster, because the sort is stable (`SettlementPlanner.SortByStable`) and keeps roster order among equal balances.

So for a 300 hotel bill paid by A and split over A, B and C, C pays first and then B (`Scenarios.ExampleA`). B does not pay first, although B comes first in the roster.

## Model

| member | source | states |
|---|---|---|
| Lists.RemoveAt | src/App.jsx:54 | `filter((_, i) => i !== index)`: for an index inside the list, the result is the list without that position and the rest stays in order; for any other index, the list is unchanged |
| Lists.RemoveAtKeepsNoDuplicates | src/App.jsx:53-57 | removing a position never introduces a duplicate or a value that was not in the list |
| Lists.Dedup | src/components/BalanceSheet.jsx:20-23 | the keys of an object filled by walking a list: no duplicates, and exactly the values of the list |
| Lists.DedupOfDistinct | src/components/BalanceSheet.jsx:20-23 | on a list without duplicates, the object keys are the list itself, in order |
| Friends.AddFriend | src/App.jsx:43-50 | the roster grows by one exactly when the name is non-empty and not yet present; the new name then goes last and the old roster is kept as a prefix; otherwise the roster is unchanged; a duplicate-free roster stays duplicate-free |
| Friends.DeleteFriend | src/App.jsx:53-57 | removes the friend at the index and keeps the rest in order; an out-of-range index changes nothing; no new name appears and no duplicate is introduced |
| Friends.EditsKeepRosterDistinct | src/App.jsx:43-57 | any sequence of additions and deletions keeps a duplicate-free roster duplicate-free |
| Expenses.AddExpense | src/components/AddExpence.jsx:31-46 | an entry with a title, a parsed amount above 0 and a payer is appended with those fields and no `sharedBy`, after all earlier expenses; any other entry leaves the list unchanged; lists made only by the form stay so |
| Expenses.DeleteExpense | src/components/AddExpence.jsx:48-51 | removes the expense at the index and keeps the rest in order; an out-of-range index changes nothing |
| BalanceCalculator.Total | src/components/BalanceSheet.jsx:8 | computes `totalExpenses`, the sum of all amounts (no contract; `RosterPaidTotal` relates it to what the roster paid) |
| BalanceCalculator.Share | src/components/BalanceSheet.jsx:9 | computes `perPersonShare`, the total divided by the roster size, with 0 for an empty roster (no contract; see "Left out") |
| BalanceCalculator.PaidBy | src/components/BalanceSheet.jsx:12-17 | computes `totalPaid[friend]`, the sum of the amounts of the expenses that friend paid (no contract; used by `BalanceAt`) |
| BalanceCalculator.Baseline | src/components/BalanceSheet.jsx:20-23 | computes the first `balances` pass: for each roster name, paid minus share (no contract; `UnsplitBalances` and `BaselineSumsToZero` state its properties) |
| BalanceCalculator.Fires | src/components/BalanceSheet.jsx:28-36 | the overlay's guards: a payer, a non-zero amount, a non-empty `sharedBy` array and a payer on the roster (a predicate; `ApplyExpenseAt` states what failing it means) |
| BalanceCalculator.SplitAmount | src/components/BalanceSheet.jsx:38 | computes `splitAmount`, the amount divided by the length of `sharedBy` (no contract; `SplitsAddUp` shows the splits add back up to the amount) |
| BalanceCalculator.DebitAll | src/components/BalanceSheet.jsx:40-46 | the inner debit loop updates existing balances only and adds no key |
| BalanceCalculator.ApplyExpense | src/components/BalanceSheet.jsx:25-49 | one overlay step updates existing balances only and adds no key |
| BalanceCalculator.Overlay | src/components/BalanceSheet.jsx:25-49 | the overlay pass adds no key to the balance map |
| BalanceCalculator.Balances | src/components/BalanceSheet.jsx:8-49 | there is one balance per roster name and no other; an empty roster gives an empty map |
| BalanceCalculator.ComputeBalances | src/components/BalanceSheet.jsx:8-49 | starting from the `Baseline` map, the nested overlay loops compute exactly `Balances` |
| BalanceCalculator.DebitListed | src/components/BalanceSheet.jsx:40-46 | the inner `sharedBy.forEach` loop computes exactly `DebitAll`: each listed roster name loses one split, other names are skipped |
| BalanceCalculator.TimesIsProduct | src/components/BalanceSheet.jsx:38-45 | arithmetic support for `SplitsAddUp` and `DebitAllSum`: the split subtracted once per listing (line 45), repeated `k` times, takes away `k` times the split |
| BalanceCalculator.DebitAllAt | src/components/BalanceSheet.jsx:38-46 | a listed roster member loses one split per listing; names not on the roster are skipped |
| BalanceCalculator.ApplyExpenseAt | src/components/BalanceSheet.jsx:26-48 | an expense that fails the guards (no payer, zero amount, no non-empty `sharedBy` array, payer not on the roster) changes nothing; otherwise every balance changes by the payer credit minus the member's debits |
| BalanceCalculator.OverlayAt | src/components/BalanceSheet.jsx:25-49 | the overlay adds to each balance the sum of the per-expense changes |
| BalanceCalculator.BalanceAt | src/components/BalanceSheet.jsx:8-49 | closed form of a balance: paid minus total divided by roster size, plus the overlay changes |
| BalanceCalculator.NoOverlayDelta | src/components/BalanceSheet.jsx:28-31 | when no expense passes the guards, the overlay contributes nothing |
| BalanceCalculator.UnsplitBalances | src/components/BalanceSheet.jsx:8-23 | without `sharedBy` lists, each balance is paid minus the equal share |
| BalanceCalculator.FormExpensesUseBaseline | src/components/BalanceSheet.jsx:8-49 | for expenses created by the form, the balances are exactly the baseline |
| BalanceCalculator.SplitsAddUp | src/components/BalanceSheet.jsx:38-45 | the `|sharedBy|` splits of line 38, subtracted once each, add up to exactly the amount |
| BalanceCalculator.DebitAllSum | src/components/BalanceSheet.jsx:40-46 | the debits lower the roster's sum by one split per listed roster name |
| BalanceCalculator.OverlayKeepsSum | src/components/BalanceSheet.jsx:25-49 | when the listed names of every expense the overlay takes are on the roster, the overlay leaves the roster's sum unchanged; expenses with a payer off the roster (for instance after that friend was deleted) are skipped and need no hypothesis |
| BalanceCalculator.BaselineSumsToZero | src/components/BalanceSheet.jsx:8-23 | when every payer is on a duplicate-free roster, the baseline balances sum to zero |
| BalanceCalculator.BalancesSumToZero | src/components/BalanceSheet.jsx:8-49 | when payers and listed names are on a duplicate-free roster, all balances sum to zero |
| SettlementPlanner.Insert | src/components/BalanceSheet.jsx:55 | inserting grows the list by exactly one |
| SettlementPlanner.InsertPermutes | src/components/BalanceSheet.jsx:55 | inserting adds exactly the new element and loses none (multiset) |
| SettlementPlanner.InsertAbove | src/components/BalanceSheet.jsx:55 | a lower bound on every key survives inserting a key above it |
| SettlementPlanner.InsertSorted | src/components/BalanceSheet.jsx:55 | inserting into a sorted list keeps it sorted |
| SettlementPlanner.SortBy | src/components/BalanceSheet.jsx:53-58 | the sort keeps the length of its input |
| SettlementPlanner.SortByPermutes | src/components/BalanceSheet.jsx:53-58 | the sort is a permutation of its input (multiset) |
| SettlementPlanner.SortBySorted | src/components/BalanceSheet.jsx:53-58 | the sort's result is sorted in the requested order |
| SettlementPlanner.SortByStable | src/components/BalanceSheet.jsx:55-58 | the sort is stable: for every balance, the entries with that balance come out in the order they went in |
| SettlementPlanner.InsertStable | src/components/BalanceSheet.jsx:55-58 | inserting into a sorted list places the new entry after every entry of equal key, and keeps the order of the others |
| SettlementPlanner.Positive | src/components/BalanceSheet.jsx:54 | computes the `balance > 0` filter in entry order (no contract; `FiltersSigns` and `FiltersSplitAmountFor` state its properties) |
| SettlementPlanner.Negative | src/components/BalanceSheet.jsx:57 | computes the `balance < 0` filter in entry order (no contract; `FiltersSigns` and `FiltersSplitAmountFor` state its properties) |
| SettlementPlanner.Creditors | src/components/BalanceSheet.jsx:53-55 | computes `creditors`: the positive entries sorted by balance descending (no contract; `InitiallyBounded`, `SortBySorted` and `SortByStable` state its properties) |
| SettlementPlanner.Debtors | src/components/BalanceSheet.jsx:56-58 | computes `debtors`: the negative entries sorted by balance ascending (no contract; `InitiallyBounded`, `SortBySorted` and `SortByStable` state its properties) |
| SettlementPlanner.Min | src/components/BalanceSheet.jsx:66 | `Math.min`: the result is one of the two arguments and not above either |
| SettlementPlanner.Restore | src/components/BalanceSheet.jsx:74-82 | the push-back grows the list by one exactly when a remainder is kept |
| SettlementPlanner.RestoreMembers | src/components/BalanceSheet.jsx:74-82 | after the push-back, the list holds the old entries plus the remainder entry when it is kept, and nothing else |
| SettlementPlanner.Settle | src/components/BalanceSheet.jsx:63-82 | after settling the two popped entries, the lists together hold at most one entry more than what was left after the pops |
| SettlementPlanner.Match | src/components/BalanceSheet.jsx:62-83 | each round shrinks the two lists together, so the loop terminates |
| SettlementPlanner.Greedy | src/components/BalanceSheet.jsx:62-83 | the `while` loop as a function: rounds of `Match` until one list is empty, collecting the settlements and the leftovers (no contract; `GreedyEnds`, `GreedyConserves`, `GreedyBounded` and `GreedyStep` state its properties, and `PlanSettlements` ties the loop to it) |
| SettlementPlanner.Plan | src/components/BalanceSheet.jsx:52-86 | computes the whole of `getSettlements` on the entries: `Greedy` on `Creditors` and `Debtors` (no contract; the `Plan*` lemmas state its properties) |
| SettlementPlanner.Settlements | src/components/BalanceSheet.jsx:52-86 | computes `newSettlements`, the settlements of `Plan` (no contract; `PlanValid`, `PlanLength` and `PlanReproducesBalances` state its properties) |
| SettlementPlanner.GreedyStep | src/components/BalanceSheet.jsx:62-83 | the loop's settlements are the first round's settlement followed by those of the loop on the round's lists |
| SettlementPlanner.PlanSettlements | src/components/BalanceSheet.jsx:52-86 | the imperative loop returns exactly the settlements of the functional greedy plan |
| SettlementPlanner.MatchRound | src/components/BalanceSheet.jsx:63-82 | one loop iteration (pop, pop, min, push-back and re-sort) yields the round's settlement and its two new lists |
| SettlementPlanner.SortBySums | src/components/BalanceSheet.jsx:53-58 | sorting changes neither any name's sum nor the total |
| SettlementPlanner.RestoreSums | src/components/BalanceSheet.jsx:74-82 | the push-back adds exactly the remainder to the sums |
| SettlementPlanner.SettleConserves | src/components/BalanceSheet.jsx:63-82 | for every name, what the round's settlement gives it plus what is left in both lists equals the popped entries plus the rest of the lists |
| SettlementPlanner.CreditorSide | src/components/BalanceSheet.jsx:66-77 | the creditor receives the settled amount, and that plus its pushed-back remainder is its popped credit |
| SettlementPlanner.DebtorSide | src/components/BalanceSheet.jsx:66-82 | the debtor pays the settled amount, and its pushed-back remainder minus that amount is its popped (negative) balance |
| SettlementPlanner.SettleTotals | src/components/BalanceSheet.jsx:63-82 | the two lists after a round sum to the popped entries plus the rest |
| SettlementPlanner.MatchConserves | src/components/BalanceSheet.jsx:62-83 | in one round, for every name, received minus paid plus what is left in both lists equals what was there before |
| SettlementPlanner.SettleBounded | src/components/BalanceSheet.jsx:63-82 | settling a creditor and a debtor within their balances emits a valid settlement and keeps both lists within the balances |
| SettlementPlanner.MatchBounded | src/components/BalanceSheet.jsx:62-83 | a round emits a settlement of positive amount, at most the receiver's balance and at most the payer's debt, and the remainders keep their sign and stay within the original balances |
| SettlementPlanner.RestoreSorted | src/components/BalanceSheet.jsx:74-82 | the push-back with re-sort keeps a list sorted |
| SettlementPlanner.SettleSortedCreditors | src/components/BalanceSheet.jsx:74-77 | the creditor list left by a round stays sorted descending |
| SettlementPlanner.SettleSortedDebtors | src/components/BalanceSheet.jsx:79-82 | the debtor list left by a round stays sorted ascending |
| SettlementPlanner.MatchSorted | src/components/BalanceSheet.jsx:62-83 | a round keeps creditors sorted descending and debtors ascending, so each pop takes the smallest credit and the smallest debt |
| SettlementPlanner.GreedyEnds | src/components/BalanceSheet.jsx:62 | the loop stops with one list empty, after at most one settlement fewer than the two lists hold together |
| SettlementPlanner.GreedyConserves | src/components/BalanceSheet.jsx:62-83 | across the whole loop, each name's net settlement plus its leftovers equals its starting balance |
| SettlementPlanner.GreedyBounded | src/components/BalanceSheet.jsx:62-83 | every settlement the loop emits is valid against the starting balances |
| SettlementPlanner.FiltersSplitAmountFor | src/components/BalanceSheet.jsx:53-58 | the positive and negative filters together keep each name's balance |
| SettlementPlanner.FiltersSplitTotals | src/components/BalanceSheet.jsx:53-58 | the two filters together keep the total, and their sizes add up to the number of non-zero balances |
| SettlementPlanner.FiltersSigns | src/components/BalanceSheet.jsx:53-58 | the creditor filter keeps positive balances only, the debtor filter negative ones only |
| SettlementPlanner.AmountForDistinct | src/components/BalanceSheet.jsx:53 | with distinct names, an entry's name carries exactly that entry's balance |
| SettlementPlanner.InitiallyBounded | src/components/BalanceSheet.jsx:53-58 | with distinct names, every entry of the sorted creditor list carries exactly its name's balance and that balance is positive; every entry of the sorted debtor list carries exactly its name's balance and that balance is negative |
| SettlementPlanner.PlanLength | src/components/BalanceSheet.jsx:52-86 | there are at most n-1 settlements for n non-zero balances, and none when all balances are zero |
| SettlementPlanner.PlanValid | src/components/BalanceSheet.jsx:52-86 | every settlement goes from a debtor to a different creditor, for a positive amount not above either balance |
| SettlementPlanner.PlanConserves | src/components/BalanceSheet.jsx:52-86 | for every name, the plan's net settlement plus its leftovers is its balance |
| SettlementPlanner.PlanBounded | src/components/BalanceSheet.jsx:52-86 | with distinct names, the leftovers keep their signs within the balances, one list ends empty, and every settlement is valid |
| SettlementPlanner.PlanSettlesOneSide | src/components/BalanceSheet.jsx:52-86 | at the end, either every creditor is paid exactly or every debtor has paid exactly; zero balances never take part |
| SettlementPlanner.AmountsAfterPlan | src/components/BalanceSheet.jsx:52-86 | the leftovers of the plan sum to the total of the balances |
| SettlementPlanner.PlanReproducesBalances | src/components/BalanceSheet.jsx:52-86 | when the balances sum to zero, both lists end empty and every name receives minus pays exactly its balance |
| BalanceSheet.EntriesOf | src/components/BalanceSheet.jsx:53 | one entry per key, in key order, carrying that key's balance |
| BalanceSheet.ObjectEntries | src/components/BalanceSheet.jsx:53 | `Object.entries(balances)`: distinct names, each a roster name carrying its balance, and every roster name present |
| BalanceSheet.ObjectEntriesOfDistinct | src/components/BalanceSheet.jsx:53 | on a duplicate-free roster, the object entries follow the roster one to one |
| BalanceSheet.ObjectEntriesAreBalances | src/components/BalanceSheet.jsx:53 | on a duplicate-free roster, each name's entry sum is its balance, or 0 off the roster, and the entries sum to the roster's sum |
| BalanceSheet.PlannedSettlements | src/components/BalanceSheet.jsx:8-86 | computes the settlements for a roster and an expense list: the planner on the object entries of `Balances` (no contract; `PlannedSettlementsValid` and `SettlementsReproduceBalances` state its properties) |
| BalanceSheet.PlannedSettlementsValid | src/components/BalanceSheet.jsx:52-86 | every settlement goes from a roster member with a debt to a different roster member with a credit, for an amount not above either; there are fewer settlements than friends |
| BalanceSheet.SettlementsReproduceBalances | src/components/BalanceSheet.jsx:8-86 | when payers and listed names are on a duplicate-free roster, each friend receives minus pays exactly their balance and nobody else takes part |
| BalanceSheet.SettlementLedger.constructor | src/components/BalanceSheet.jsx:5 | the settlement list starts empty |
| BalanceSheet.SettlementLedger.Recompute | src/components/BalanceSheet.jsx:52-86 | `getSettlements` replaces the list with the plan for the current balances |
| BalanceSheet.SettlementLedger.ClearSettlement | src/components/BalanceSheet.jsx:89-92 | dismissing removes the entry at the index and keeps the rest in order, or changes nothing for an out-of-range index; the list still holds only planned settlements |
| Scenarios.ExampleABalances | src/components/BalanceSheet.jsx:8-49 | 300 paid by A for A, B and C gives balances A 200, B -100 and C -100 |
| Scenarios.ExampleARounds | src/components/BalanceSheet.jsx:62-83 | with A owed 200 and B and C owing 100 each, C pays A first and then B pays A |
| Scenarios.ExampleA | src/components/BalanceSheet.jsx:8-86 | 300 paid by A for A, B and C gives C→A 100, then B→A 100 |
| Scenarios.ExampleBBalances | src/components/BalanceSheet.jsx:8-49 | 50 paid by A and 30 by B gives balances A 10 and B -10 |
| Scenarios.ExampleBPlan | src/components/BalanceSheet.jsx:52-86 | balances A 10 and B -10 give the single settlement B→A 10 |
| Scenarios.ExampleB | src/components/BalanceSheet.jsx:8-86 | 50 paid by A and 30 by B gives the single settlement B→A 10 |
| Scenarios.DoubleCountBalances | src/components/BalanceSheet.jsx:20-48 | an expense of 100 paid by A with `sharedBy` [A, B] gives balances A 100 and B -100, because it is split twice |
| Scenarios.EmptyRoster | src/components/BalanceSheet.jsx:8-86 | an empty roster has no balances and no settlements |

## Left out

- Persistence to `localStorage`, the trip name, and loading the state at start-up are left out. They are I/O around the modelled lists.
- Rendering, the `alert` on a rejected expense and the `console.warn` messages are left out. They produce output only.
- Parsing of the amount field: `Expenses.AddExpense` takes the result of `parseFloat` as a `Parsed` value, either a number or not a number. How a string parses is not modelled.
- The `sharedBy` field is modelled as either absent or a list of strings. Non-array values and non-string payer or amount values are treated as absent or falsy. JavaScript's type coercions are not modelled.
- Floating-point arithmetic is left out. Amounts are exact reals, so the sum-to-zero and exact-settlement results hold for the model. Under IEEE doubles, rounding can leave tiny leftover balances.
- The `toFixed(2)` rounding of settlement amounts is left out. Settlement amounts are kept exact.
- With an empty roster, the source divides by zero (`perPersonShare` is `NaN` or `Infinity`). That value is never stored, because there are no roster keys. The model uses 0 there instead, and the balances are the same empty map.
- `Object.entries` ordering is modelled as the order of first insertion. JavaScript lists integer-like keys (such as a friend named "1") first, in numeric order. That reordering is not modelled, and it only affects tie order.
- The planner's sort is modelled as a stable sort, which `Array.prototype.sort` is since ES2019. `SettlementPlanner.SortByStable` proves the model's sort stable. Together with the pop from the end, this gives the tie order described above.
- BalanceCalculator.Balances: a friend named `__proto__` is not modelled as JavaScript treats it. In the source, `acc[friend] = …` with that name calls the inherited `__proto__` setter, which ignores non-object values. So `totalPaid` and `balances` never get that key, and the updates at lines 45 and 48 write nothing. The model gives that friend a balance like any other name, and `b.Keys == RosterSet(roster)` is stated for every roster. For the roster `["__proto__", "B"]` with 10 paid by B, the source has balances `{B: 5}` and plans nothing. The model has `__proto__` at -5 and plans `__proto__`→B 5.
- BalanceSheet.ObjectEntries: for the same reason, `Object.entries` in the source leaves out a friend named `__proto__`. The model lists every roster name, so its "every roster name present" clause does not hold of the source for that name.
- Running `getSettlements` on each change of the expense list (the `useEffect` hook) is modelled as an explicit call of `SettlementLedger.Recompute`. React's rendering schedule is not modelled.
