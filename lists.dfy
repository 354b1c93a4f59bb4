/**
 * Sequence operations shared by the roster, the expense list and the
 * settlement list: duplicate-freedom, removal of one index (the
 * `filter((_, i) => i !== index)` idiom the application uses three times)
 * and first-occurrence de-duplication (the key order of a JavaScript object
 * filled from a list).
 */
module Lists {

  /** No value occurs twice. */
  predicate NoDuplicates<T(==)>(s: seq<T>) {
    forall i, j :: 0 <= i < j < |s| ==> s[i] != s[j]
  }

  /** Every element of `s` whose index differs from `i`, in their original order. */
  function RemoveAt<T>(s: seq<T>, i: int): (r: seq<T>)
    ensures 0 <= i < |s| ==> r == s[..i] + s[i + 1..]
    ensures !(0 <= i < |s|) ==> r == s
  {
    if s == [] then []
    else RemoveAt(s[..|s| - 1], i) + (if i == |s| - 1 then [] else [s[|s| - 1]])
  }

  /** Removing one element never introduces a duplicate nor a new value. */
  lemma RemoveAtKeepsNoDuplicates<T>(s: seq<T>, i: int)
    ensures NoDuplicates(s) ==> NoDuplicates(RemoveAt(s, i))
    ensures forall k :: 0 <= k < |RemoveAt(s, i)| ==> RemoveAt(s, i)[k] in s
  {
    var r := RemoveAt(s, i);
    if 0 <= i < |s| {
      assert forall k :: 0 <= k < |r| ==> r[k] == s[if k < i then k else k + 1];
      if NoDuplicates(s) {
        forall a, b | 0 <= a < b < |r| ensures r[a] != r[b] {
          assert r[a] == s[if a < i then a else a + 1];
          assert r[b] == s[if b < i then b else b + 1];
        }
      }
    }
  }

  /** The values of `s` in order of first occurrence. */
  function Dedup<T(==)>(s: seq<T>): (r: seq<T>)
    ensures NoDuplicates(r)
    ensures forall i :: 0 <= i < |r| ==> r[i] in s
    ensures forall i :: 0 <= i < |s| ==> s[i] in r
  {
    if s == [] then []
    else
      var d := Dedup(s[..|s| - 1]);
      if s[|s| - 1] in d then d else d + [s[|s| - 1]]
  }

  /** A sequence without duplicates is its own de-duplication. */
  lemma {:induction false} DedupOfDistinct<T>(s: seq<T>)
    requires NoDuplicates(s)
    ensures Dedup(s) == s
  {
    if s != [] {
      var p := s[..|s| - 1];
      assert NoDuplicates(p);
      DedupOfDistinct(p);
      assert s[|s| - 1] !in p;
      assert p + [s[|s| - 1]] == s;
    }
  }
}
