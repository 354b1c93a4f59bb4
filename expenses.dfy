/**
 * Recorded expenses and the expense-list edits of the `AddExpense` form:
 * a validated append and a delete by position. Reading the form fields and
 * persisting the list are not part of this model; the amount field reaches
 * the model already parsed.
 */
module Expenses {
  import opened Lists

  /**
   * The optional `sharedBy` field of an expense. A missing field and a field
   * that is not an array are treated alike by the balance calculator, so
   * both are `Unsplit`.
   */
  datatype SharedBy = Unsplit | SplitAmong(names: seq<string>)

  /** One recorded expense; an empty `payer` string is the "no payer" value. */
  datatype Expense = Expense(title: string, amount: real, payer: string, sharedBy: SharedBy)

  /** The result of parsing the amount field as a decimal number. */
  datatype Parsed = NotANumber | Number(value: real)

  /** The validation of `handleAddExpense`: title, a positive amount and a payer. */
  predicate Accepted(title: string, amount: Parsed, payer: string) {
    title != "" && amount.Number? && amount.value > 0.0 && payer != ""
  }

  /** What an expense created through the form looks like. */
  predicate FromForm(e: Expense) {
    e.title != "" && e.amount > 0.0 && e.payer != "" && e.sharedBy == Unsplit
  }

  /** Every expense of the list came from the form. */
  predicate AllFromForm(expenses: seq<Expense>) {
    forall i :: 0 <= i < |expenses| ==> FromForm(expenses[i])
  }

  /**
   * `handleAddExpense`: an accepted entry is appended after all earlier
   * expenses, with the parsed amount and without a `sharedBy` field; a
   * rejected one leaves the list unchanged.
   */
  function AddExpense(expenses: seq<Expense>, title: string, amount: Parsed, payer: string): (r: seq<Expense>)
    ensures Accepted(title, amount, payer) ==>
      |r| == |expenses| + 1 && r[..|expenses|] == expenses &&
      r[|expenses|].title == title && r[|expenses|].payer == payer &&
      r[|expenses|].amount == amount.value && r[|expenses|].sharedBy == Unsplit
    ensures !Accepted(title, amount, payer) ==> r == expenses
    ensures AllFromForm(expenses) ==> AllFromForm(r)
  {
    if Accepted(title, amount, payer) then
      expenses + [Expense(title, amount.value, payer, Unsplit)]
    else
      expenses
  }

  /**
   * `handleDeleteExpense`: the expense at position `index` is removed and the
   * others keep their order; an index outside the list changes nothing.
   */
  function DeleteExpense(expenses: seq<Expense>, index: int): (r: seq<Expense>)
    ensures 0 <= index < |expenses| ==> r == expenses[..index] + expenses[index + 1..]
    ensures !(0 <= index < |expenses|) ==> r == expenses
    ensures AllFromForm(expenses) ==> AllFromForm(r)
  {
    RemoveAtKeepsNoDuplicates(expenses, index);
    RemoveAt(expenses, index)
  }
}
