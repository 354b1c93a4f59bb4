/**
 * The roster edits of the application shell (`App`): adding a friend by name
 * and deleting a friend by position. The roster is the ordered list of
 * participant names that the balance calculator splits expenses over.
 * Persisting the roster to browser storage is not part of this model.
 */
module Friends {
  import opened Lists

  /**
   * `handleAddFriend`: the typed name is appended when it is non-empty and
   * not yet on the roster; otherwise the roster stays as it was.
   */
  function AddFriend(friends: seq<string>, name: string): (r: seq<string>)
    ensures |friends| <= |r| <= |friends| + 1
    ensures r[..|friends|] == friends
    ensures |r| == |friends| + 1 <==> name != "" && name !in friends
    ensures |r| == |friends| + 1 ==> r[|friends|] == name
    ensures name != "" ==> name in r
    ensures NoDuplicates(friends) ==> NoDuplicates(r)
  {
    if name != "" && name !in friends then friends + [name] else friends
  }

  /**
   * `handleDeleteFriend`: the friend at position `index` is removed and the
   * others keep their order; an index outside the roster changes nothing.
   * No name is added, so a duplicate-free roster stays duplicate-free.
   */
  function DeleteFriend(friends: seq<string>, index: int): (r: seq<string>)
    ensures 0 <= index < |friends| ==> r == friends[..index] + friends[index + 1..]
    ensures !(0 <= index < |friends|) ==> r == friends
    ensures forall k :: 0 <= k < |r| ==> r[k] in friends
    ensures NoDuplicates(friends) ==> NoDuplicates(r)
  {
    RemoveAtKeepsNoDuplicates(friends, index);
    RemoveAt(friends, index)
  }

  /** One click on "Add Friend" (with the typed name) or on a friend's delete button. */
  datatype RosterEdit = Add(name: string) | Delete(index: int)

  /** The roster after the given edits, applied in order. */
  function ApplyEdits(friends: seq<string>, edits: seq<RosterEdit>): seq<string>
  {
    if edits == [] then friends
    else
      var before := ApplyEdits(friends, edits[..|edits| - 1]);
      match edits[|edits| - 1]
      case Add(name) => AddFriend(before, name)
      case Delete(index) => DeleteFriend(before, index)
  }

  /** Any sequence of roster edits started from a duplicate-free roster keeps it duplicate-free. */
  lemma {:induction false} EditsKeepRosterDistinct(friends: seq<string>, edits: seq<RosterEdit>)
    requires NoDuplicates(friends)
    ensures NoDuplicates(ApplyEdits(friends, edits))
  {
    if edits != [] {
      EditsKeepRosterDistinct(friends, edits[..|edits| - 1]);
    }
  }
}
