/**
 * The settlement planner of the balance sheet (`getSettlements`): from the
 * `[name, balance]` entries of the balance map to a list of payments
 * "`from` pays `to` `amount`".
 *
 * Creditors (positive balances) are sorted by balance descending and debtors
 * (negative balances) ascending. Each round takes the LAST element of each
 * list, which is the smallest creditor and the debtor of smallest debt,
 * settles the smaller of the two amounts, pushes back whichever side keeps
 * a remainder and re-sorts that list. Sorting is stable, so entries of equal
 * balance keep their relative order.
 *
 * Amounts are exact; the rounding to two decimals for display is not part
 * of this model.
 */
module SettlementPlanner {

  /** One `[name, balance]` pair of the balance map. */
  datatype Entry = Entry(name: string, amount: real)

  /** `from` owes `to` the given amount. */
  datatype Settlement = Settlement(from: string, to: string, amount: real)

  datatype Order = Descending | Ascending

  // ---------------------------------------------------------------------
  // Stable sorting by balance

  /** The sort key: sorting by it ascending sorts balances in the given order. */
  function Key(e: Entry, order: Order): real {
    if order == Descending then -e.amount else e.amount
  }

  predicate Sorted(s: seq<Entry>, order: Order) {
    forall i, j {:trigger Key(s[i], order), Key(s[j], order)} :: 0 <= i < j < |s| ==> Key(s[i], order) <= Key(s[j], order)
  }

  /** Inserts `x` after every element whose key is not larger (which keeps the sort stable). */
  function Insert(x: Entry, s: seq<Entry>, order: Order): (r: seq<Entry>)
    ensures |r| == |s| + 1
  {
    if s == [] then [x]
    else if Key(x, order) < Key(s[0], order) then [x] + s
    else [s[0]] + Insert(x, s[1..], order)
  }

  /** Inserting adds exactly `x` and loses nothing. */
  lemma {:induction false} InsertPermutes(x: Entry, s: seq<Entry>, order: Order)
    ensures multiset(Insert(x, s, order)) == multiset(s) + multiset{x}
  {
    if s != [] && Key(s[0], order) <= Key(x, order) {
      InsertPermutes(x, s[1..], order);
      assert s == [s[0]] + s[1..];
    }
  }

  /** Inserting into a sorted list keeps it sorted. */
  lemma {:induction false} InsertSorted(x: Entry, s: seq<Entry>, order: Order)
    requires Sorted(s, order)
    ensures Sorted(Insert(x, s, order), order)
  {
    if s != [] && Key(s[0], order) <= Key(x, order) {
      var tail := s[1..];
      assert Sorted(tail, order) by {
        forall i, j | 0 <= i < j < |tail| ensures Key(tail[i], order) <= Key(tail[j], order) {
          assert tail[i] == s[i + 1] && tail[j] == s[j + 1];
        }
      }
      assert forall i :: 0 <= i < |tail| ==> Key(s[0], order) <= Key(tail[i], order) by {
        forall i | 0 <= i < |tail| ensures Key(s[0], order) <= Key(tail[i], order) {
          assert tail[i] == s[i + 1];
        }
      }
      var rest := Insert(x, tail, order);
      InsertSorted(x, tail, order);
      InsertAbove(x, tail, order, Key(s[0], order));
      var r := [s[0]] + rest;
      assert Insert(x, s, order) == r;
      forall i, j | 0 <= i < j < |r| ensures Key(r[i], order) <= Key(r[j], order) {
        assert r[j] == rest[j - 1];
        if i > 0 {
          assert r[i] == rest[i - 1];
        }
      }
    }
  }

  /** Inserting a key not below `bound` into a list whose keys are not below it keeps them all so. */
  lemma {:induction false} InsertAbove(x: Entry, s: seq<Entry>, order: Order, bound: real)
    requires bound <= Key(x, order)
    requires forall i :: 0 <= i < |s| ==> bound <= Key(s[i], order)
    ensures forall i :: 0 <= i < |Insert(x, s, order)| ==> bound <= Key(Insert(x, s, order)[i], order)
  {
    var r := Insert(x, s, order);
    if s == [] {
      assert r == [x];
    } else if Key(x, order) < Key(s[0], order) {
      assert r == [x] + s;
      forall i | 0 <= i < |r| ensures bound <= Key(r[i], order) {
        if i > 0 {
          assert r[i] == s[i - 1];
        }
      }
    } else {
      var tail := s[1..];
      assert forall i :: 0 <= i < |tail| ==> bound <= Key(tail[i], order) by {
        forall i | 0 <= i < |tail| ensures bound <= Key(tail[i], order) {
          assert tail[i] == s[i + 1];
        }
      }
      InsertAbove(x, tail, order, bound);
      var rest := Insert(x, tail, order);
      assert r == [s[0]] + rest;
      forall i | 0 <= i < |r| ensures bound <= Key(r[i], order) {
        if i > 0 {
          assert r[i] == rest[i - 1];
        }
      }
    }
  }

  /** A stable sort (`Array.prototype.sort` with a numeric comparator). */
  function SortBy(s: seq<Entry>, order: Order): (r: seq<Entry>)
    ensures |r| == |s|
  {
    if s == [] then [] else Insert(s[|s| - 1], SortBy(s[..|s| - 1], order), order)
  }

  /** The sort is a permutation of its input. */
  lemma {:induction false} SortByPermutes(s: seq<Entry>, order: Order)
    ensures multiset(SortBy(s, order)) == multiset(s)
  {
    if s != [] {
      var prefix, last := s[..|s| - 1], s[|s| - 1];
      var sorted := SortBy(prefix, order);
      assert SortBy(s, order) == Insert(last, sorted, order);
      SortByPermutes(prefix, order);
      InsertPermutes(last, sorted, order);
      LastSplits(s);
    }
  }

  /** A non-empty sequence is its prefix and its last element, as multisets. */
  lemma LastSplits(s: seq<Entry>)
    requires s != []
    ensures multiset(s) == multiset(s[..|s| - 1]) + multiset{s[|s| - 1]}
  {
    assert s == s[..|s| - 1] + [s[|s| - 1]];
  }

  /** The sort's result is sorted. */
  lemma {:induction false} SortBySorted(s: seq<Entry>, order: Order)
    ensures Sorted(SortBy(s, order), order)
  {
    if s != [] {
      SortBySorted(s[..|s| - 1], order);
      InsertSorted(s[|s| - 1], SortBy(s[..|s| - 1], order), order);
    }
  }

  /** The entries of `s` whose key is `k`, in their order in `s`. */
  function WithKey(s: seq<Entry>, k: real, order: Order): seq<Entry> {
    if s == [] then []
    else if Key(s[0], order) == k then [s[0]] + WithKey(s[1..], k, order)
    else WithKey(s[1..], k, order)
  }

  /** Picking the entries of one key from a list that starts with `e`. */
  lemma WithKeyCons(e: Entry, s: seq<Entry>, k: real, order: Order)
    ensures WithKey([e] + s, k, order) == (if Key(e, order) == k then [e] else []) + WithKey(s, k, order)
  {
    var t := [e] + s;
    assert t[0] == e;
    assert t[1..] == s;
  }

  /** Picking the entries of one key distributes over concatenation. */
  lemma {:induction false} WithKeyConcat(a: seq<Entry>, b: seq<Entry>, k: real, order: Order)
    ensures WithKey(a + b, k, order) == WithKey(a, k, order) + WithKey(b, k, order)
  {
    if a == [] {
      assert a + b == b;
    } else {
      var tail := a[1..];
      WithKeyConcat(tail, b, k, order);
      assert a == [a[0]] + tail;
      assert a + b == [a[0]] + (tail + b);
      WithKeyCons(a[0], tail + b, k, order);
      WithKeyCons(a[0], tail, k, order);
    }
  }

  /** A list whose keys all exceed `k` has no entry of key `k`. */
  lemma {:induction false} WithKeyNone(s: seq<Entry>, k: real, order: Order)
    requires forall i :: 0 <= i < |s| ==> k < Key(s[i], order)
    ensures WithKey(s, k, order) == []
  {
    if s != [] {
      var tail := s[1..];
      assert forall i :: 0 <= i < |tail| ==> tail[i] == s[i + 1];
      WithKeyNone(tail, k, order);
    }
  }

  /** The tail of a sorted list is sorted. */
  lemma TailSorted(s: seq<Entry>, order: Order)
    requires s != [] && Sorted(s, order)
    ensures Sorted(s[1..], order)
  {
    var tail := s[1..];
    forall i, j | 0 <= i < j < |tail| ensures Key(tail[i], order) <= Key(tail[j], order) {
      assert tail[i] == s[i + 1] && tail[j] == s[j + 1];
    }
  }

  /**
   * Inserting into a sorted list puts `x` after every entry of the same key:
   * the entries of each key keep their order, with `x` last among its own.
   */
  lemma {:induction false} InsertStable(x: Entry, s: seq<Entry>, order: Order, k: real)
    requires Sorted(s, order)
    ensures WithKey(Insert(x, s, order), k, order) == WithKey(s, k, order) + (if Key(x, order) == k then [x] else [])
    decreases |s|, 1
  {
    if s == [] {
      assert Insert(x, s, order) == [x] + [];
      WithKeyCons(x, [], k, order);
    } else if Key(x, order) < Key(s[0], order) {
      assert Insert(x, s, order) == [x] + s;
      WithKeyCons(x, s, k, order);
      if Key(x, order) == k {
        forall i | 0 <= i < |s| ensures k < Key(s[i], order) {
          if i > 0 {
            assert Key(s[0], order) <= Key(s[i], order);
          }
        }
        WithKeyNone(s, k, order);
      }
    } else {
      InsertStableTail(x, s, order, k);
    }
  }

  /** The case of `InsertStable` where `x` goes after the head. */
  lemma {:induction false} InsertStableTail(x: Entry, s: seq<Entry>, order: Order, k: real)
    requires Sorted(s, order)
    requires s != [] && Key(s[0], order) <= Key(x, order)
    ensures WithKey(Insert(x, s, order), k, order) == WithKey(s, k, order) + (if Key(x, order) == k then [x] else [])
    decreases |s|, 0
  {
    var tail := s[1..];
    TailSorted(s, order);
    InsertStable(x, tail, order, k);
    var rest := Insert(x, tail, order);
    assert Insert(x, s, order) == [s[0]] + rest;
    WithKeyCons(s[0], rest, k, order);
    assert s == [s[0]] + tail;
    WithKeyCons(s[0], tail, k, order);
  }

  /**
   * The sort is stable: for every key, the entries of that key come out in
   * the order they went in.
   */
  lemma {:induction false} SortByStable(s: seq<Entry>, order: Order, k: real)
    ensures WithKey(SortBy(s, order), k, order) == WithKey(s, k, order)
  {
    if s != [] {
      var prefix, last := s[..|s| - 1], s[|s| - 1];
      SortByStable(prefix, order, k);
      SortBySorted(prefix, order);
      InsertStable(last, SortBy(prefix, order), order, k);
      assert s == prefix + [last];
      WithKeyConcat(prefix, [last], k, order);
      assert [last] == [last] + [];
      WithKeyCons(last, [], k, order);
    }
  }

  // ---------------------------------------------------------------------
  // The greedy matching

  /** The entries with a positive balance, in entry order. */
  function Positive(entries: seq<Entry>): seq<Entry> {
    if entries == [] then []
    else
      var last := entries[|entries| - 1];
      Positive(entries[..|entries| - 1]) + (if last.amount > 0.0 then [last] else [])
  }

  /** The entries with a negative balance, in entry order. */
  function Negative(entries: seq<Entry>): seq<Entry> {
    if entries == [] then []
    else
      var last := entries[|entries| - 1];
      Negative(entries[..|entries| - 1]) + (if last.amount < 0.0 then [last] else [])
  }

  /** `creditors`: positive balances, largest first. */
  function Creditors(entries: seq<Entry>): seq<Entry> {
    SortBy(Positive(entries), Descending)
  }

  /** `debtors`: negative balances, most negative first. */
  function Debtors(entries: seq<Entry>): seq<Entry> {
    SortBy(Negative(entries), Ascending)
  }

  /** `Math.min`: the smaller of the two. */
  function Min(a: real, b: real): (r: real)
    ensures r <= a && r <= b
    ensures r == a || r == b
  {
    if a < b then a else b
  }

  /** The outcome of one round of the loop. */
  datatype Round = Round(settlement: Settlement, creditors: seq<Entry>, debtors: seq<Entry>)

  /**
   * Pushing an entry back onto a list (when `keep`) and re-sorting it;
   * the list is left as it is otherwise.
   */
  function Restore(rest: seq<Entry>, keep: bool, e: Entry, order: Order): (r: seq<Entry>)
    ensures |r| == |rest| + (if keep then 1 else 0)
  {
    if keep then SortBy(rest + [e], order) else rest
  }

  /** The push-back adds the remainder entry when it is kept, and no other entry. */
  lemma RestoreMembers(rest: seq<Entry>, keep: bool, e: Entry, order: Order)
    ensures forall y :: y in Restore(rest, keep, e, order) <==> y in rest || (keep && y == e)
  {
    if keep {
      SortByPermutes(rest + [e], order);
      assert forall y :: y in SortBy(rest + [e], order) <==> y in multiset(rest + [e]);
    }
  }

  /**
   * The round for a popped creditor `c` and a popped debtor `d`: settle the
   * smaller amount, and push back (then re-sort) the side that keeps a
   * remainder onto what is left of its list. At most one side has a
   * remainder.
   */
  function Settle(c: Entry, d: Entry, restC: seq<Entry>, restD: seq<Entry>): (r: Round)
    ensures |r.creditors| + |r.debtors| <= |restC| + |restD| + 1
  {
    var amount := Min(c.amount, -d.amount);
    Round(
      Settlement(d.name, c.name, amount),
      Restore(restC, c.amount > amount, Entry(c.name, c.amount - amount), Descending),
      Restore(restD, -d.amount > amount, Entry(d.name, d.amount + amount), Ascending))
  }

  /**
   * One round: pop the last creditor and the last debtor and settle them.
   * The two lists together lose at least one entry.
   */
  function Match(creditors: seq<Entry>, debtors: seq<Entry>): (r: Round)
    requires creditors != [] && debtors != []
    ensures |r.creditors| + |r.debtors| < |creditors| + |debtors|
  {
    Settle(creditors[|creditors| - 1], debtors[|debtors| - 1],
      creditors[..|creditors| - 1], debtors[..|debtors| - 1])
  }

  /** The emitted settlements and what is left of both lists when the loop stops. */
  datatype Run = Run(settlements: seq<Settlement>, creditors: seq<Entry>, debtors: seq<Entry>)

  /** The loop: rounds until one of the two lists is empty. */
  function Greedy(creditors: seq<Entry>, debtors: seq<Entry>): Run
    decreases |creditors| + |debtors|
  {
    if creditors == [] || debtors == [] then Run([], creditors, debtors)
    else
      var round := Match(creditors, debtors);
      var rest := Greedy(round.creditors, round.debtors);
      Run([round.settlement] + rest.settlements, rest.creditors, rest.debtors)
  }

  /** The whole planner on the entries of a balance map. */
  function Plan(entries: seq<Entry>): Run {
    Greedy(Creditors(entries), Debtors(entries))
  }

  function Settlements(entries: seq<Entry>): seq<Settlement> {
    Plan(entries).settlements
  }

  /**
   * `getSettlements` as the component runs it: a loop that pops from and
   * pushes to the two lists and appends to the settlement list.
   */
  method PlanSettlements(entries: seq<Entry>) returns (settlements: seq<Settlement>)
    ensures settlements == Settlements(entries)
  {
    var creditors := SortBy(Positive(entries), Descending);
    var debtors := SortBy(Negative(entries), Ascending);
    settlements := [];
    while creditors != [] && debtors != []
      invariant settlements + Greedy(creditors, debtors).settlements == Settlements(entries)
      decreases |creditors| + |debtors|
    {
      var settlement;
      ghost var before := settlements;
      GreedyStep(creditors, debtors);
      settlement, creditors, debtors := MatchRound(creditors, debtors);
      settlements := settlements + [settlement];
      ghost var rest := Greedy(creditors, debtors).settlements;
      assert settlements + rest == before + ([settlement] + rest);
    }
  }

  /** The loop's first round followed by the rest of the loop. */
  lemma GreedyStep(creditors: seq<Entry>, debtors: seq<Entry>)
    requires creditors != [] && debtors != []
    ensures var round := Match(creditors, debtors);
      Greedy(creditors, debtors).settlements
      == [round.settlement] + Greedy(round.creditors, round.debtors).settlements
  {
  }

  /**
   * The body of the loop: pop the last creditor and the last debtor, record
   * the settlement, and push back and re-sort whichever keeps a remainder.
   */
  method MatchRound(creditors0: seq<Entry>, debtors0: seq<Entry>)
    returns (settlement: Settlement, creditors: seq<Entry>, debtors: seq<Entry>)
    requires creditors0 != [] && debtors0 != []
    ensures settlement == Match(creditors0, debtors0).settlement
    ensures creditors == Match(creditors0, debtors0).creditors
    ensures debtors == Match(creditors0, debtors0).debtors
  {
    var c := creditors0[|creditors0| - 1];
    creditors := creditors0[..|creditors0| - 1];
    var d := debtors0[|debtors0| - 1];
    debtors := debtors0[..|debtors0| - 1];
    var amount := Min(c.amount, -d.amount);
    settlement := Settlement(d.name, c.name, amount);
    if c.amount > amount {
      creditors := SortBy(creditors + [Entry(c.name, c.amount - amount)], Descending);
    }
    if -d.amount > amount {
      debtors := SortBy(debtors + [Entry(d.name, d.amount + amount)], Ascending);
    }
  }

  // ---------------------------------------------------------------------
  // Sums of balances and of payments

  /** The sum of the entries named `p`: the balance of `p` when names are distinct. */
  function AmountFor(s: seq<Entry>, p: string): real {
    if s == [] then 0.0
    else AmountFor(s[..|s| - 1], p) + (if s[|s| - 1].name == p then s[|s| - 1].amount else 0.0)
  }

  /** The sum of all entries. */
  function Amounts(s: seq<Entry>): real {
    if s == [] then 0.0 else Amounts(s[..|s| - 1]) + s[|s| - 1].amount
  }

  /** The number of entries with a non-zero balance. */
  function NonZero(s: seq<Entry>): nat {
    if s == [] then 0 else NonZero(s[..|s| - 1]) + (if s[|s| - 1].amount != 0.0 then 1 else 0)
  }

  /** What `p` receives minus what `p` pays over the settlements. */
  function Net(settlements: seq<Settlement>, p: string): real {
    if settlements == [] then 0.0
    else
      var s := settlements[0];
      (if s.to == p then s.amount else 0.0) - (if s.from == p then s.amount else 0.0)
      + Net(settlements[1..], p)
  }

  predicate DistinctNames(entries: seq<Entry>) {
    forall i, j :: 0 <= i < j < |entries| ==> entries[i].name != entries[j].name
  }

  lemma {:induction false} AmountForConcat(a: seq<Entry>, b: seq<Entry>, p: string)
    ensures AmountFor(a + b, p) == AmountFor(a, p) + AmountFor(b, p)
  {
    if b != [] {
      AmountForConcat(a, b[..|b| - 1], p);
      assert (a + b)[..|a + b| - 1] == a + b[..|b| - 1];
    } else {
      assert a + b == a;
    }
  }

  lemma {:induction false} AmountsConcat(a: seq<Entry>, b: seq<Entry>)
    ensures Amounts(a + b) == Amounts(a) + Amounts(b)
  {
    if b != [] {
      AmountsConcat(a, b[..|b| - 1]);
      assert (a + b)[..|a + b| - 1] == a + b[..|b| - 1];
    } else {
      assert a + b == a;
    }
  }

  /** Inserting an entry adds its amount to the sums, wherever it lands. */
  lemma {:induction false} InsertSums(x: Entry, s: seq<Entry>, order: Order, p: string)
    ensures AmountFor(Insert(x, s, order), p) == AmountFor(s, p) + AmountFor([x], p)
    ensures Amounts(Insert(x, s, order)) == Amounts(s) + x.amount
  {
    if s == [] {
    } else if Key(x, order) < Key(s[0], order) {
      AmountForConcat([x], s, p);
      AmountsConcat([x], s);
    } else {
      InsertSums(x, s[1..], order, p);
      AmountForConcat([s[0]], Insert(x, s[1..], order), p);
      AmountsConcat([s[0]], Insert(x, s[1..], order));
      AmountForConcat([s[0]], s[1..], p);
      AmountsConcat([s[0]], s[1..]);
      assert [s[0]] + s[1..] == s;
    }
  }

  /** Sorting does not change the sums. */
  lemma {:induction false} SortBySums(s: seq<Entry>, order: Order, p: string)
    ensures AmountFor(SortBy(s, order), p) == AmountFor(s, p)
    ensures Amounts(SortBy(s, order)) == Amounts(s)
  {
    if s != [] {
      var prefix := s[..|s| - 1];
      SortBySums(prefix, order, p);
      InsertSums(s[|s| - 1], SortBy(prefix, order), order, p);
    }
  }

  /** Pushing back an entry adds it to the sums. */
  lemma RestoreSums(rest: seq<Entry>, keep: bool, e: Entry, order: Order, p: string)
    ensures AmountFor(Restore(rest, keep, e, order), p)
      == AmountFor(rest, p) + (if keep && e.name == p then e.amount else 0.0)
    ensures Amounts(Restore(rest, keep, e, order)) == Amounts(rest) + (if keep then e.amount else 0.0)
  {
    if keep {
      SortBySums(rest + [e], order, p);
      assert (rest + [e])[..|rest|] == rest;
    }
  }

  // ---------------------------------------------------------------------
  // One round

  /**
   * A round moves `amount` from the creditor's remaining credit and the
   * debtor's remaining debt into the settlement: for every name, payments
   * received minus payments made plus what is left in both lists is what
   * was in both lists before.
   */
  lemma SettleConserves(c: Entry, d: Entry, restC: seq<Entry>, restD: seq<Entry>, p: string)
    ensures var r := Settle(c, d, restC, restD);
      Net([r.settlement], p) + AmountFor(r.creditors, p) + AmountFor(r.debtors, p)
      == AmountFor(restC, p) + (if c.name == p then c.amount else 0.0)
       + AmountFor(restD, p) + (if d.name == p then d.amount else 0.0)
  {
    var r := Settle(c, d, restC, restD);
    NetSingle(r.settlement, p);
    CreditorSide(c, d, restC, restD, p);
    DebtorSide(c, d, restC, restD, p);
  }

  /** What the creditor receives plus what it keeps is what it was owed. */
  lemma CreditorSide(c: Entry, d: Entry, restC: seq<Entry>, restD: seq<Entry>, p: string)
    ensures var r := Settle(c, d, restC, restD);
      r.settlement.to == c.name &&
      (if c.name == p then r.settlement.amount else 0.0) + AmountFor(r.creditors, p)
      == AmountFor(restC, p) + (if c.name == p then c.amount else 0.0)
  {
    var amount := Min(c.amount, -d.amount);
    RestoreSums(restC, c.amount > amount, Entry(c.name, c.amount - amount), Descending, p);
    SideConserves(c.amount, amount, c.name == p, c.amount > amount);
  }

  /** What the debtor pays plus what it still owes is what it owed. */
  lemma DebtorSide(c: Entry, d: Entry, restC: seq<Entry>, restD: seq<Entry>, p: string)
    ensures var r := Settle(c, d, restC, restD);
      r.settlement.from == d.name &&
      AmountFor(r.debtors, p) - (if d.name == p then r.settlement.amount else 0.0)
      == AmountFor(restD, p) + (if d.name == p then d.amount else 0.0)
  {
    var amount := Min(c.amount, -d.amount);
    RestoreSums(restD, -d.amount > amount, Entry(d.name, d.amount + amount), Ascending, p);
    SideConserves(-d.amount, amount, d.name == p, -d.amount > amount);
  }

  /**
   * On one side of a round: the settled amount plus the pushed-back
   * remainder (if any) is the popped balance.
   */
  lemma SideConserves(balance: real, amount: real, named: bool, keep: bool)
    requires amount <= balance && keep == (balance > amount)
    ensures (if named then amount else 0.0) + (if keep && named then balance - amount else 0.0)
      == (if named then balance else 0.0)
  {
  }

  /** A round keeps the total of both lists. */
  lemma SettleTotals(c: Entry, d: Entry, restC: seq<Entry>, restD: seq<Entry>)
    ensures var r := Settle(c, d, restC, restD);
      Amounts(r.creditors) + Amounts(r.debtors) == Amounts(restC) + c.amount + Amounts(restD) + d.amount
  {
    var amount := Min(c.amount, -d.amount);
    var keepC, keepD := c.amount > amount, -d.amount > amount;
    RestoreSums(restC, keepC, Entry(c.name, c.amount - amount), Descending, "");
    RestoreSums(restD, keepD, Entry(d.name, d.amount + amount), Ascending, "");
  }

  /** `Match` conserves every name's sum and the total, as `Settle` does. */
  lemma MatchConserves(creditors: seq<Entry>, debtors: seq<Entry>, p: string)
    requires creditors != [] && debtors != []
    ensures var r := Match(creditors, debtors);
      Net([r.settlement], p) + AmountFor(r.creditors, p) + AmountFor(r.debtors, p)
      == AmountFor(creditors, p) + AmountFor(debtors, p)
    ensures var r := Match(creditors, debtors);
      Amounts(r.creditors) + Amounts(r.debtors) == Amounts(creditors) + Amounts(debtors)
  {
    var c, d := creditors[|creditors| - 1], debtors[|debtors| - 1];
    var restC, restD := creditors[..|creditors| - 1], debtors[..|debtors| - 1];
    SettleConserves(c, d, restC, restD, p);
    SettleTotals(c, d, restC, restD);
  }

  /** One settlement credits its receiver and debits its payer. */
  lemma NetSingle(s: Settlement, p: string)
    ensures Net([s], p) == (if s.to == p then s.amount else 0.0) - (if s.from == p then s.amount else 0.0)
  {
    assert [s][1..] == [];
  }

  /** Every creditor holds a positive remainder not above its balance in `entries`. */
  predicate CreditorsBounded(creditors: seq<Entry>, entries: seq<Entry>) {
    forall e :: e in creditors ==> 0.0 < e.amount <= AmountFor(entries, e.name)
  }

  /** Every debtor holds a negative remainder not below its balance in `entries`. */
  predicate DebtorsBounded(debtors: seq<Entry>, entries: seq<Entry>) {
    forall e :: e in debtors ==> AmountFor(entries, e.name) <= e.amount < 0.0
  }

  /**
   * A settlement of a positive amount from a participant owing money to a
   * participant owed money, not above what either of them owes or is owed.
   */
  predicate Valid(s: Settlement, entries: seq<Entry>) {
    0.0 < s.amount && s.amount <= AmountFor(entries, s.to) && s.amount <= -AmountFor(entries, s.from)
  }

  /** A round keeps both lists bounded and emits a valid settlement. */
  lemma SettleBounded(c: Entry, d: Entry, restC: seq<Entry>, restD: seq<Entry>, entries: seq<Entry>)
    requires 0.0 < c.amount <= AmountFor(entries, c.name) && CreditorsBounded(restC, entries)
    requires AmountFor(entries, d.name) <= d.amount < 0.0 && DebtorsBounded(restD, entries)
    ensures var r := Settle(c, d, restC, restD);
      Valid(r.settlement, entries) && CreditorsBounded(r.creditors, entries) && DebtorsBounded(r.debtors, entries)
  {
    var amount := Min(c.amount, -d.amount);
    var r := Settle(c, d, restC, restD);
    assert r.settlement == Settlement(d.name, c.name, amount);
    assert r.creditors == Restore(restC, c.amount > amount, Entry(c.name, c.amount - amount), Descending);
    assert r.debtors == Restore(restD, -d.amount > amount, Entry(d.name, d.amount + amount), Ascending);
    RestoreMembers(restC, c.amount > amount, Entry(c.name, c.amount - amount), Descending);
    RestoreMembers(restD, -d.amount > amount, Entry(d.name, d.amount + amount), Ascending);
  }

  /** `Match` keeps both lists bounded and emits a valid settlement. */
  lemma MatchBounded(creditors: seq<Entry>, debtors: seq<Entry>, entries: seq<Entry>)
    requires creditors != [] && debtors != []
    requires CreditorsBounded(creditors, entries) && DebtorsBounded(debtors, entries)
    ensures var r := Match(creditors, debtors);
      Valid(r.settlement, entries) && CreditorsBounded(r.creditors, entries) && DebtorsBounded(r.debtors, entries)
  {
    var c := creditors[|creditors| - 1];
    var d := debtors[|debtors| - 1];
    assert c in creditors && d in debtors;
    assert forall e :: e in creditors[..|creditors| - 1] ==> e in creditors;
    assert forall e :: e in debtors[..|debtors| - 1] ==> e in debtors;
    SettleBounded(c, d, creditors[..|creditors| - 1], debtors[..|debtors| - 1], entries);
  }

  /** The remainder of a sorted list after a round, with or without the pushed-back entry, is sorted. */
  lemma RestoreSorted(rest: seq<Entry>, keep: bool, e: Entry, order: Order)
    requires Sorted(rest, order)
    ensures Sorted(Restore(rest, keep, e, order), order)
  {
    if keep {
      SortBySorted(rest + [e], order);
    }
  }

  /** Settling keeps the sorted creditor remainder sorted. */
  lemma SettleSortedCreditors(c: Entry, d: Entry, restC: seq<Entry>, restD: seq<Entry>)
    requires Sorted(restC, Descending)
    ensures Sorted(Settle(c, d, restC, restD).creditors, Descending)
  {
    var amount := Min(c.amount, -d.amount);
    RestoreSorted(restC, c.amount > amount, Entry(c.name, c.amount - amount), Descending);
  }

  /** Settling keeps the sorted debtor remainder sorted. */
  lemma SettleSortedDebtors(c: Entry, d: Entry, restC: seq<Entry>, restD: seq<Entry>)
    requires Sorted(restD, Ascending)
    ensures Sorted(Settle(c, d, restC, restD).debtors, Ascending)
  {
    var amount := Min(c.amount, -d.amount);
    RestoreSorted(restD, -d.amount > amount, Entry(d.name, d.amount + amount), Ascending);
  }

  /**
   * A round keeps the creditors sorted descending and the debtors ascending,
   * so the next round again pops the smallest credit and the smallest debt.
   */
  lemma MatchSorted(creditors: seq<Entry>, debtors: seq<Entry>)
    requires creditors != [] && debtors != []
    requires Sorted(creditors, Descending) && Sorted(debtors, Ascending)
    ensures var r := Match(creditors, debtors);
      Sorted(r.creditors, Descending) && Sorted(r.debtors, Ascending)
  {
    PrefixSorted(creditors, Descending);
    PrefixSorted(debtors, Ascending);
    var c, d := creditors[|creditors| - 1], debtors[|debtors| - 1];
    SettleSortedCreditors(c, d, creditors[..|creditors| - 1], debtors[..|debtors| - 1]);
    SettleSortedDebtors(c, d, creditors[..|creditors| - 1], debtors[..|debtors| - 1]);
  }

  /** Dropping the last element of a sorted list leaves it sorted. */
  lemma PrefixSorted(s: seq<Entry>, order: Order)
    requires s != [] && Sorted(s, order)
    ensures Sorted(s[..|s| - 1], order)
  {
  }

  // ---------------------------------------------------------------------
  // The loop

  /**
   * The loop ends with one of the two lists empty, and emits at most one
   * settlement fewer than the two lists hold together (none if either is
   * empty).
   */
  lemma {:induction false} GreedyEnds(creditors: seq<Entry>, debtors: seq<Entry>)
    ensures var r := Greedy(creditors, debtors);
      r.creditors == [] || r.debtors == []
    ensures |Greedy(creditors, debtors).settlements|
      <= if creditors == [] || debtors == [] then 0 else |creditors| + |debtors| - 1
    decreases |creditors| + |debtors|
  {
    if creditors != [] && debtors != [] {
      var round := Match(creditors, debtors);
      GreedyEnds(round.creditors, round.debtors);
    }
  }

  /** Over the whole loop, every name's received-minus-paid plus its leftovers is what it started with. */
  lemma {:induction false} GreedyConserves(creditors: seq<Entry>, debtors: seq<Entry>, p: string)
    ensures var r := Greedy(creditors, debtors);
      Net(r.settlements, p) + AmountFor(r.creditors, p) + AmountFor(r.debtors, p)
      == AmountFor(creditors, p) + AmountFor(debtors, p)
    ensures var r := Greedy(creditors, debtors);
      Amounts(r.creditors) + Amounts(r.debtors) == Amounts(creditors) + Amounts(debtors)
    decreases |creditors| + |debtors|
  {
    if creditors != [] && debtors != [] {
      var round := Match(creditors, debtors);
      GreedyConserves(round.creditors, round.debtors, p);
      MatchConserves(creditors, debtors, p);
      var rest := Greedy(round.creditors, round.debtors);
      assert ([round.settlement] + rest.settlements)[1..] == rest.settlements;
    }
  }

  /** Every settlement of the loop is valid, and the leftovers stay bounded. */
  lemma {:induction false} GreedyBounded(creditors: seq<Entry>, debtors: seq<Entry>, entries: seq<Entry>)
    requires CreditorsBounded(creditors, entries) && DebtorsBounded(debtors, entries)
    ensures var r := Greedy(creditors, debtors);
      CreditorsBounded(r.creditors, entries) && DebtorsBounded(r.debtors, entries)
    ensures forall s :: s in Greedy(creditors, debtors).settlements ==> Valid(s, entries)
    decreases |creditors| + |debtors|
  {
    if creditors != [] && debtors != [] {
      var round := Match(creditors, debtors);
      MatchBounded(creditors, debtors, entries);
      GreedyBounded(round.creditors, round.debtors, entries);
    }
  }

  // ---------------------------------------------------------------------
  // From the entries to the two sorted lists

  /** The two filters together keep each participant's sum. */
  lemma {:induction false} FiltersSplitAmountFor(entries: seq<Entry>, p: string)
    ensures AmountFor(Positive(entries), p) + AmountFor(Negative(entries), p) == AmountFor(entries, p)
  {
    if entries != [] {
      var prefix := entries[..|entries| - 1];
      var last := entries[|entries| - 1];
      FiltersSplitAmountFor(prefix, p);
      if last.amount > 0.0 {
        AmountForConcat(Positive(prefix), [last], p);
        assert Negative(entries) == Negative(prefix);
      } else if last.amount < 0.0 {
        AmountForConcat(Negative(prefix), [last], p);
        assert Positive(entries) == Positive(prefix);
      } else {
        assert Positive(entries) == Positive(prefix);
        assert Negative(entries) == Negative(prefix);
        assert Amounts(entries) == Amounts(prefix) + last.amount;
      }
    }
  }

  /** The two filters together keep the total and the non-zero entries. */
  lemma {:induction false} FiltersSplitTotals(entries: seq<Entry>)
    ensures Amounts(Positive(entries)) + Amounts(Negative(entries)) == Amounts(entries)
    ensures |Positive(entries)| + |Negative(entries)| == NonZero(entries)
  {
    if entries != [] {
      var prefix := entries[..|entries| - 1];
      var last := entries[|entries| - 1];
      FiltersSplitTotals(prefix);
      if last.amount > 0.0 {
        AmountsConcat(Positive(prefix), [last]);
        assert Negative(entries) == Negative(prefix);
      } else if last.amount < 0.0 {
        AmountsConcat(Negative(prefix), [last]);
        assert Positive(entries) == Positive(prefix);
      } else {
        assert Positive(entries) == Positive(prefix);
        assert Negative(entries) == Negative(prefix);
        assert Amounts(entries) == Amounts(prefix) + last.amount;
      }
    }
  }

  /** The positive filter keeps entries of the list with a positive amount, the negative one the others. */
  lemma {:induction false} FiltersSigns(entries: seq<Entry>)
    ensures forall e :: e in Positive(entries) ==> e in entries && e.amount > 0.0
    ensures forall e :: e in Negative(entries) ==> e in entries && e.amount < 0.0
  {
    if entries != [] {
      var prefix := entries[..|entries| - 1];
      FiltersSigns(prefix);
      assert forall e :: e in prefix ==> e in entries;
    }
  }

  /** Entries not named `p` contribute nothing to the balance of `p`. */
  lemma {:induction false} AmountForAbsent(s: seq<Entry>, p: string)
    requires forall e :: e in s ==> e.name != p
    ensures AmountFor(s, p) == 0.0
  {
    if s != [] {
      assert forall e :: e in s[..|s| - 1] ==> e in s;
      AmountForAbsent(s[..|s| - 1], p);
    }
  }

  /** With distinct names, the balance of an entry's name is that entry's amount. */
  lemma {:induction false} AmountForDistinct(entries: seq<Entry>, e: Entry)
    requires DistinctNames(entries)
    requires e in entries
    ensures AmountFor(entries, e.name) == e.amount
  {
    var prefix := entries[..|entries| - 1];
    assert DistinctNames(prefix);
    if entries[|entries| - 1] == e {
      forall x | x in prefix ensures x.name != e.name {
        var i :| 0 <= i < |prefix| && prefix[i] == x;
      }
      AmountForAbsent(prefix, e.name);
    } else {
      var i :| 0 <= i < |entries| && entries[i] == e;
      assert i < |entries| - 1;
      assert e in prefix;
      AmountForDistinct(prefix, e);
    }
  }

  /**
   * The starting lists are bounded by the balances they come from: every
   * entry of the sorted lists carries exactly its name's balance, with the
   * list's sign.
   */
  lemma InitiallyBounded(entries: seq<Entry>)
    requires DistinctNames(entries)
    ensures CreditorsBounded(Creditors(entries), entries)
    ensures DebtorsBounded(Debtors(entries), entries)
    ensures forall e :: e in Creditors(entries) ==> e.amount == AmountFor(entries, e.name)
    ensures forall e :: e in Debtors(entries) ==> e.amount == AmountFor(entries, e.name)
  {
    FiltersSigns(entries);
    SortByPermutes(Positive(entries), Descending);
    SortByPermutes(Negative(entries), Ascending);
    forall e | e in Creditors(entries) ensures 0.0 < e.amount == AmountFor(entries, e.name) {
      assert e in multiset(Positive(entries));
      AmountForDistinct(entries, e);
    }
    forall e | e in Debtors(entries) ensures e.amount == AmountFor(entries, e.name) && e.amount < 0.0 {
      assert e in multiset(Negative(entries));
      AmountForDistinct(entries, e);
    }
  }

  /** A non-empty list of positive amounts has a positive sum. */
  lemma {:induction false} PositiveSum(s: seq<Entry>)
    requires forall e :: e in s ==> e.amount > 0.0
    ensures s != [] ==> Amounts(s) > 0.0
    ensures s == [] ==> Amounts(s) == 0.0
  {
    if s != [] {
      assert forall e :: e in s[..|s| - 1] ==> e in s;
      PositiveSum(s[..|s| - 1]);
    }
  }

  /** A non-empty list of negative amounts has a negative sum. */
  lemma {:induction false} NegativeSum(s: seq<Entry>)
    requires forall e :: e in s ==> e.amount < 0.0
    ensures s != [] ==> Amounts(s) < 0.0
    ensures s == [] ==> Amounts(s) == 0.0
  {
    if s != [] {
      assert forall e :: e in s[..|s| - 1] ==> e in s;
      NegativeSum(s[..|s| - 1]);
    }
  }

  /** A participant named in no settlement neither receives nor pays. */
  lemma {:induction false} NetAbsent(settlements: seq<Settlement>, p: string)
    requires forall s :: s in settlements ==> s.from != p && s.to != p
    ensures Net(settlements, p) == 0.0
  {
    if settlements != [] {
      assert forall s :: s in settlements[1..] ==> s in settlements;
      NetAbsent(settlements[1..], p);
    }
  }

  // ---------------------------------------------------------------------
  // What the planner guarantees

  /**
   * The loop terminates after at most one settlement fewer than there are
   * non-zero balances (none when there are fewer than two).
   */
  lemma PlanLength(entries: seq<Entry>)
    ensures |Settlements(entries)| <= if NonZero(entries) == 0 then 0 else NonZero(entries) - 1
  {
    FiltersSplitTotals(entries);
    GreedyEnds(Creditors(entries), Debtors(entries));
  }

  /**
   * Every settlement goes from a participant with a negative balance to a
   * different participant with a positive balance, and its amount is
   * positive and at most both the creditor's balance and the debtor's debt.
   */
  lemma PlanValid(entries: seq<Entry>)
    requires DistinctNames(entries)
    ensures forall s :: s in Settlements(entries) ==>
      Valid(s, entries) && AmountFor(entries, s.from) < 0.0 < AmountFor(entries, s.to) && s.from != s.to
  {
    InitiallyBounded(entries);
    GreedyBounded(Creditors(entries), Debtors(entries), entries);
  }

  /** For every name, what the plan settles plus what is left over is its balance. */
  lemma PlanConserves(entries: seq<Entry>, p: string)
    ensures var run := Plan(entries);
      Net(run.settlements, p) + AmountFor(run.creditors, p) + AmountFor(run.debtors, p) == AmountFor(entries, p)
  {
    GreedyConserves(Creditors(entries), Debtors(entries), p);
    FiltersSplitAmountFor(entries, p);
    SortBySums(Positive(entries), Descending, p);
    SortBySums(Negative(entries), Ascending, p);
  }

  /**
   * With distinct names, the plan's settlements are valid, its leftovers
   * keep their signs within the balances, and one side is used up.
   */
  lemma PlanBounded(entries: seq<Entry>)
    requires DistinctNames(entries)
    ensures var run := Plan(entries);
      CreditorsBounded(run.creditors, entries) && DebtorsBounded(run.debtors, entries) &&
      (run.creditors == [] || run.debtors == [])
    ensures forall s :: s in Settlements(entries) ==> Valid(s, entries)
  {
    InitiallyBounded(entries);
    GreedyBounded(Creditors(entries), Debtors(entries), entries);
    GreedyEnds(Creditors(entries), Debtors(entries));
  }

  /**
   * When the loop stops, either every creditor has received its whole
   * balance or every debtor has paid its whole debt; participants with a zero
   * balance take part in no settlement.
   */
  lemma PlanSettlesOneSide(entries: seq<Entry>)
    requires DistinctNames(entries)
    ensures var settlements := Settlements(entries);
      (forall p :: AmountFor(entries, p) > 0.0 ==> Net(settlements, p) == AmountFor(entries, p)) ||
      (forall p :: AmountFor(entries, p) < 0.0 ==> Net(settlements, p) == AmountFor(entries, p))
    ensures forall p :: AmountFor(entries, p) == 0.0 ==> Net(Settlements(entries), p) == 0.0
  {
    var run := Plan(entries);
    PlanBounded(entries);
    assert CreditorsBounded(run.creditors, entries) && DebtorsBounded(run.debtors, entries);
    if run.debtors == [] {
      forall p | AmountFor(entries, p) < 0.0 ensures Net(run.settlements, p) == AmountFor(entries, p) {
        PlanConserves(entries, p);
        assert forall e :: e in run.creditors ==> e.name != p;
        AmountForAbsent(run.creditors, p);
      }
    } else {
      assert run.creditors == [];
      forall p | AmountFor(entries, p) > 0.0 ensures Net(run.settlements, p) == AmountFor(entries, p) {
        PlanConserves(entries, p);
        assert forall e :: e in run.debtors ==> e.name != p;
        AmountForAbsent(run.debtors, p);
      }
    }
    assert run.settlements == Settlements(entries);
    forall p | AmountFor(entries, p) == 0.0 ensures Net(run.settlements, p) == 0.0 {
      forall s | s in run.settlements ensures s.from != p && s.to != p {
        assert Valid(s, entries);
      }
      NetAbsent(run.settlements, p);
    }
  }

  /** The settlements move money between participants, so the leftovers keep the total. */
  lemma AmountsAfterPlan(entries: seq<Entry>)
    ensures Amounts(Plan(entries).creditors) + Amounts(Plan(entries).debtors) == Amounts(entries)
  {
    GreedyConserves(Creditors(entries), Debtors(entries), "");
    FiltersSplitTotals(entries);
    SortBySums(Positive(entries), Descending, "");
    SortBySums(Negative(entries), Ascending, "");
  }

  /**
   * When the balances sum to zero, both lists end empty and every
   * participant receives minus pays exactly its balance.
   */
  lemma PlanReproducesBalances(entries: seq<Entry>)
    requires DistinctNames(entries)
    requires Amounts(entries) == 0.0
    ensures Plan(entries).creditors == [] && Plan(entries).debtors == []
    ensures forall p :: Net(Settlements(entries), p) == AmountFor(entries, p)
  {
    var run := Plan(entries);
    PlanBounded(entries);
    AmountsAfterPlan(entries);
    PositiveSum(run.creditors);
    NegativeSum(run.debtors);
    forall p ensures Net(run.settlements, p) == AmountFor(entries, p) {
      PlanConserves(entries, p);
    }
  }
}
