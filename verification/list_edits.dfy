/** The two edits every blacklist makes to its loaded array before writing it back:
    `push` of an id that `includes` does not find, and `splice(indexOf(id), 1)`. */
module ListEdits {
  import opened Util

  /** `list.indexOf(x)`: the first position holding `x`, or -1. */
  function IndexOf<T(==)>(s: seq<T>, x: T): (i: int)
    ensures -1 <= i < |s|
    ensures i == -1 <==> x !in s
    ensures i >= 0 ==> s[i] == x && x !in s[..i]
  {
    if s == [] then -1
    else if s[0] == x then 0
    else
      var j := IndexOf(s[1..], x);
      if j == -1 then -1 else j + 1
  }

  /** The list `add` writes: `x` pushed at the end unless it is already listed. */
  function WithAdded<T(==)>(s: seq<T>, x: T): seq<T>
  {
    if x in s then s else s + [x]
  }

  /** The list `remove` writes: the first `x` spliced out, or the list itself. */
  function WithRemoved<T(==)>(s: seq<T>, x: T): seq<T>
  {
    var i := IndexOf(s, x);
    if i == -1 then s else s[..i] + s[i + 1..]
  }

  /** After an add the item is listed; an absent item is added once and nothing else
      changes, a present one leaves the list as it was, and a list without repeats stays
      without repeats. */
  lemma AddedContents<T>(s: seq<T>, x: T)
    ensures x in WithAdded(s, x)
    ensures x !in s ==> multiset(WithAdded(s, x)) == multiset(s) + multiset{x}
    ensures x in s ==> WithAdded(s, x) == s
    ensures Distinct(s) ==> Distinct(WithAdded(s, x))
  {
  }

  /** A remove takes out one occurrence, the first: the list is what stood before it
      followed by what stood after it, and the item's count drops by one. */
  lemma RemovedFirstOnly<T>(s: seq<T>, x: T)
    requires x in s
    ensures var r := WithRemoved(s, x);
            |r| == |s| - 1
            && multiset(r) == multiset(s) - multiset{x}
            && exists i :: 0 <= i < |s| && s == r[..i] + [x] + r[i..] && x !in r[..i]
  {
    var i := IndexOf(s, x);
    var r := WithRemoved(s, x);
    assert r[..i] == s[..i];
    assert r[i..] == s[i + 1..];
    assert s == s[..i] + [x] + s[i + 1..];
    assert multiset(s) == multiset(s[..i]) + multiset{x} + multiset(s[i + 1..]);
  }

  /** A list without repeats no longer holds the item after a remove. */
  lemma RemovedFromDistinct<T>(s: seq<T>, x: T)
    requires Distinct(s)
    ensures x !in WithRemoved(s, x)
  {
    if x in s {
      var i := IndexOf(s, x);
      assert s == s[..i] + [x] + s[i + 1..];
      forall k | i + 1 <= k < |s|
        ensures s[k] != x
      {
        assert s[i] == x;
      }
      assert x !in s[i + 1..];
    }
  }

  /** Removing an item just added puts the list back as it was. */
  lemma RemoveUndoesAdd<T>(s: seq<T>, x: T)
    requires x !in s
    ensures WithRemoved(WithAdded(s, x), x) == s
  {
    var t := s + [x];
    assert IndexOf(t, x) == |s| by {
      assert t[|s|] == x && t[..|s|] == s;
    }
    assert t[..|s|] == s;
  }

  /** Adding back an item just removed restores the same items, now with it last. */
  lemma AddUndoesRemove<T>(s: seq<T>, x: T)
    requires x in s
    requires Distinct(s)
    ensures multiset(WithAdded(WithRemoved(s, x), x)) == multiset(s)
  {
    RemovedFromDistinct(s, x);
    RemovedFirstOnly(s, x);
  }
}
