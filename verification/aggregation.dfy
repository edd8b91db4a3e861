/** Per-author aggregation shared by the repository fold, the cross-repository merge and
    the merge of renamed authors: a group-by on the author key that sums additions,
    deletions and total in a Map (keys in first-insertion order), and the stable
    `Array.prototype.sort` the results go through. */
module Aggregation {
  import opened Util

  datatype AuthorAggregate = AuthorAggregate(authorKey: string, additions: int, deletions: int, total: int)

  datatype Field = Additions | Deletions | Total

  function FieldOf(r: AuthorAggregate, f: Field): int
  {
    match f
    case Additions => r.additions
    case Deletions => r.deletions
    case Total => r.total
  }

  /** The sum of one field over all rows. */
  function SumField(rows: seq<AuthorAggregate>, f: Field): int
  {
    if rows == [] then 0 else SumField(rows[..|rows| - 1], f) + FieldOf(rows[|rows| - 1], f)
  }

  /** The sum of one field over the rows of author `k`. */
  function SumKey(rows: seq<AuthorAggregate>, k: string, f: Field): int
  {
    if rows == [] then 0
    else
      var last := rows[|rows| - 1];
      SumKey(rows[..|rows| - 1], k, f) + (if last.authorKey == k then FieldOf(last, f) else 0)
  }

  /** Author keys in order of first appearance: the iteration order of the Map. */
  function KeysInOrder(rows: seq<AuthorAggregate>): seq<string>
  {
    if rows == [] then []
    else
      var init := KeysInOrder(rows[..|rows| - 1]);
      var k := rows[|rows| - 1].authorKey;
      if k in init then init else init + [k]
  }

  /** The aggregate row of author `k`. */
  function Totals(rows: seq<AuthorAggregate>, k: string): AuthorAggregate
  {
    AuthorAggregate(k, SumKey(rows, k, Additions), SumKey(rows, k, Deletions), SumKey(rows, k, Total))
  }

  /** Each field of an author's totals is that author's sum of the field. */
  lemma TotalsField(rows: seq<AuthorAggregate>, k: string, f: Field)
    ensures FieldOf(Totals(rows, k), f) == SumKey(rows, k, f)
  {
    match f {
      case Additions =>
      case Deletions =>
      case Total =>
    }
  }

  /** One row per author, in first-appearance order, each holding that author's sums. */
  function GroupSum(rows: seq<AuthorAggregate>): seq<AuthorAggregate>
  {
    var keys := KeysInOrder(rows);
    seq(|keys|, i requires 0 <= i < |keys| => Totals(rows, keys[i]))
  }

  /** The fold into a Map keyed by author followed by `Array.from(map)`. */
  method GroupByAuthor(rows: seq<AuthorAggregate>) returns (out: seq<AuthorAggregate>)
    ensures out == GroupSum(rows)
  {
    var keys: seq<string> := [];
    var acc: map<string, AuthorAggregate> := map[];
    for i := 0 to |rows|
      invariant keys == KeysInOrder(rows[..i])
      invariant forall k :: k in acc <==> k in keys
      invariant forall k :: k in acc ==> acc[k] == Totals(rows[..i], k)
    {
      var r := rows[i];
      assert rows[..i + 1][..i] == rows[..i];
      var prev := if r.authorKey in acc then acc[r.authorKey] else AuthorAggregate(r.authorKey, 0, 0, 0);
      if r.authorKey !in acc {
        KeyAbsentSumsZero(rows[..i], r.authorKey);
        keys := keys + [r.authorKey];
      }
      acc := acc[r.authorKey := AuthorAggregate(r.authorKey, prev.additions + r.additions,
                                                prev.deletions + r.deletions, prev.total + r.total)];
    }
    assert rows[..|rows|] == rows;
    out := [];
    for j := 0 to |keys|
      invariant |out| == j
      invariant forall i :: 0 <= i < j ==> out[i] == Totals(rows, keys[i])
    {
      out := out + [acc[keys[j]]];
    }
  }

  lemma {:induction false} KeysInOrderMembers(rows: seq<AuthorAggregate>, k: string)
    ensures k in KeysInOrder(rows) <==> exists i :: 0 <= i < |rows| && rows[i].authorKey == k
  {
    if rows != [] {
      var init := rows[..|rows| - 1];
      KeysInOrderMembers(init, k);
      if exists i :: 0 <= i < |rows| && rows[i].authorKey == k {
        var i :| 0 <= i < |rows| && rows[i].authorKey == k;
        if i < |init| {
          assert init[i].authorKey == k;
        }
      }
      if exists i :: 0 <= i < |init| && init[i].authorKey == k {
        var i :| 0 <= i < |init| && init[i].authorKey == k;
        assert rows[i].authorKey == k;
      }
    }
  }

  lemma {:induction false} KeysInOrderDistinct(rows: seq<AuthorAggregate>)
    ensures Distinct(KeysInOrder(rows))
  {
    if rows != [] {
      KeysInOrderDistinct(rows[..|rows| - 1]);
    }
  }

  lemma {:induction false} KeyAbsentSumsZero(rows: seq<AuthorAggregate>, k: string)
    requires k !in KeysInOrder(rows)
    ensures SumKey(rows, k, Additions) == 0 && SumKey(rows, k, Deletions) == 0 && SumKey(rows, k, Total) == 0
  {
    if rows != [] {
      var init := rows[..|rows| - 1];
      if k in KeysInOrder(init) {
        assert false;
      }
      KeyAbsentSumsZero(init, k);
    }
  }

  predicate HasKey(rows: seq<AuthorAggregate>, k: string)
  {
    exists i :: 0 <= i < |rows| && rows[i].authorKey == k
  }

  /** The grouped rows have pairwise distinct keys: exactly the keys of the input. */
  lemma GroupSumKeys(rows: seq<AuthorAggregate>)
    ensures var g := GroupSum(rows);
            (forall i, j :: 0 <= i < j < |g| ==> g[i].authorKey != g[j].authorKey)
            && (forall k :: HasKey(g, k) <==> HasKey(rows, k))
  {
    var g := GroupSum(rows);
    var keys := KeysInOrder(rows);
    KeysInOrderDistinct(rows);
    forall k
      ensures HasKey(g, k) <==> HasKey(rows, k)
    {
      KeysInOrderMembers(rows, k);
      if HasKey(g, k) {
        var i :| 0 <= i < |g| && g[i].authorKey == k;
        assert keys[i] == k;
      }
      if k in keys {
        var i :| 0 <= i < |keys| && keys[i] == k;
        assert g[i].authorKey == k;
      }
    }
  }

  /** The row of author `k` in the grouped output holds that author's sums. */
  lemma GroupSumRow(rows: seq<AuthorAggregate>, i: int)
    requires 0 <= i < |GroupSum(rows)|
    ensures var r := GroupSum(rows)[i];
            r.additions == SumKey(rows, r.authorKey, Additions)
            && r.deletions == SumKey(rows, r.authorKey, Deletions)
            && r.total == SumKey(rows, r.authorKey, Total)
  {
  }

  /** Sum over a list of distinct keys of each key's sum. */
  function SumOverKeys(rows: seq<AuthorAggregate>, keys: seq<string>, f: Field): int
  {
    if keys == [] then 0 else SumOverKeys(rows, keys[..|keys| - 1], f) + SumKey(rows, keys[|keys| - 1], f)
  }

  lemma {:induction false} SumOverKeysStep(init: seq<AuthorAggregate>, r: AuthorAggregate, keys: seq<string>, f: Field)
    requires Distinct(keys)
    ensures SumOverKeys(init + [r], keys, f)
            == SumOverKeys(init, keys, f) + (if r.authorKey in keys then FieldOf(r, f) else 0)
  {
    var rows := init + [r];
    assert rows[..|rows| - 1] == init;
    if keys != [] {
      var ks := keys[..|keys| - 1];
      assert Distinct(ks);
      SumOverKeysStep(init, r, ks, f);
      assert r.authorKey in keys <==> r.authorKey in ks || r.authorKey == keys[|keys| - 1];
      if r.authorKey == keys[|keys| - 1] {
        assert r.authorKey !in ks;
      }
    }
  }

  lemma {:induction false} SumOverKeysOfRows(rows: seq<AuthorAggregate>, f: Field)
    ensures SumOverKeys(rows, KeysInOrder(rows), f) == SumField(rows, f)
  {
    if rows != [] {
      var init := rows[..|rows| - 1];
      var r := rows[|rows| - 1];
      assert rows == init + [r];
      var ks := KeysInOrder(init);
      SumOverKeysOfRows(init, f);
      KeysInOrderDistinct(init);
      SumOverKeysStep(init, r, ks, f);
      if r.authorKey !in ks {
        var ks' := ks + [r.authorKey];
        assert ks'[..|ks'| - 1] == ks;
        KeyAbsentSumsZero(init, r.authorKey);
        match f {
          case Additions =>
          case Deletions =>
          case Total =>
        }
      }
    }
  }

  lemma {:induction false} SumFieldOfTotals(rows: seq<AuthorAggregate>, keys: seq<string>, f: Field)
    ensures SumField(seq(|keys|, i requires 0 <= i < |keys| => Totals(rows, keys[i])), f) == SumOverKeys(rows, keys, f)
  {
    var g := seq(|keys|, i requires 0 <= i < |keys| => Totals(rows, keys[i]));
    if keys != [] {
      var ks := keys[..|keys| - 1];
      SumFieldOfTotals(rows, ks, f);
      assert g[..|g| - 1] == seq(|ks|, i requires 0 <= i < |ks| => Totals(rows, ks[i]));
      match f {
        case Additions =>
        case Deletions =>
        case Total =>
      }
    }
  }

  /** Conservation: grouping neither loses nor invents additions, deletions or total. */
  lemma GroupSumConserves(rows: seq<AuthorAggregate>, f: Field)
    ensures SumField(GroupSum(rows), f) == SumField(rows, f)
  {
    SumFieldOfTotals(rows, KeysInOrder(rows), f);
    SumOverKeysOfRows(rows, f);
  }

  lemma {:induction false} SumKeyAppend(a: seq<AuthorAggregate>, b: seq<AuthorAggregate>, k: string, f: Field)
    ensures SumKey(a + b, k, f) == SumKey(a, k, f) + SumKey(b, k, f)
  {
    if b != [] {
      var b' := b[..|b| - 1];
      assert (a + b)[..|a + b| - 1] == a + b';
      SumKeyAppend(a, b', k, f);
    } else {
      assert a + b == a;
    }
  }

  lemma {:induction false} SumFieldAppend(a: seq<AuthorAggregate>, b: seq<AuthorAggregate>, f: Field)
    ensures SumField(a + b, f) == SumField(a, f) + SumField(b, f)
  {
    if b != [] {
      var b' := b[..|b| - 1];
      assert (a + b)[..|a + b| - 1] == a + b';
      SumFieldAppend(a, b', f);
    } else {
      assert a + b == a;
    }
  }

  /** An author's sums depend only on which rows there are, not on their order. */
  lemma {:induction false} SumKeyPermutation(a: seq<AuthorAggregate>, b: seq<AuthorAggregate>, k: string, f: Field)
    requires multiset(a) == multiset(b)
    ensures SumKey(a, k, f) == SumKey(b, k, f)
    decreases |a|
  {
    if a == [] {
      assert |b| == |multiset(b)| == 0;
    } else {
      var n := |a| - 1;
      var x := a[n];
      assert x in multiset(b);
      var j :| 0 <= j < |b| && b[j] == x;
      var rest := b[..j] + b[j + 1..];
      assert a[..n] + a[n + 1..] == a[..n];
      assert multiset(a[..n]) == multiset(rest) by {
        SpliceMultiset(a, n);
        SpliceMultiset(b, j);
      }
      SumKeyPermutation(a[..n], rest, k, f);
      SumKeySplice(a, n, k, f);
      SumKeySplice(b, j, k, f);
    }
  }

  /** One row leaves the sum when it leaves the list. */
  lemma SumKeySplice(s: seq<AuthorAggregate>, i: int, k: string, f: Field)
    requires 0 <= i < |s|
    ensures SumKey(s, k, f) == SumKey(s[..i] + s[i + 1..], k, f) + SumKey([s[i]], k, f)
  {
    assert s == s[..i] + [s[i]] + s[i + 1..];
    SumKeyAppend(s[..i] + [s[i]], s[i + 1..], k, f);
    SumKeyAppend(s[..i], [s[i]], k, f);
    SumKeyAppend(s[..i], s[i + 1..], k, f);
  }

  /** Grouping the concatenation of two lists gives each author the sum of both. */
  lemma GroupSumOfConcat(a: seq<AuthorAggregate>, b: seq<AuthorAggregate>, k: string, f: Field)
    ensures SumKey(a + b, k, f) == SumKey(a, k, f) + SumKey(b, k, f)
    ensures SumKey(a + b, k, f) == SumKey(b + a, k, f)
  {
    SumKeyAppend(a, b, k, f);
    SumKeyAppend(b, a, k, f);
  }

  // ---------------------------------------------------------------------
  // Array.prototype.sort with a numeric comparator (stable)

  /** What the comparator orders by; `Unordered` is a comparator-less `sort()` on objects,
      which compares the strings "[object Object]" and so sees every pair as equal. */
  datatype SortKey = ByAdditions | ByTotal | Unordered

  function KeyOf(r: AuthorAggregate, order: SortKey): int
  {
    match order
    case ByAdditions => r.additions
    case ByTotal => r.total
    case Unordered => 0
  }

  predicate SortedDesc(rows: seq<AuthorAggregate>, order: SortKey)
  {
    forall i, j :: 0 <= i < j < |rows| ==> KeyOf(rows[i], order) >= KeyOf(rows[j], order)
  }

  /** Insert `r` after every element whose key is at least its own. */
  function Insert(r: AuthorAggregate, sorted: seq<AuthorAggregate>, order: SortKey): (out: seq<AuthorAggregate>)
    requires SortedDesc(sorted, order)
    ensures SortedDesc(out, order) && multiset(out) == multiset(sorted) + multiset{r}
    ensures forall i :: 0 <= i < |out| ==> out[i] == r || out[i] in sorted
  {
    if sorted == [] then [r]
    else if KeyOf(sorted[0], order) < KeyOf(r, order) then [r] + sorted
    else
      TailSorted(sorted, order);
      var rest := Insert(r, sorted[1..], order);
      InsertHead(sorted, rest, r, order);
      [sorted[0]] + rest
  }

  lemma TailSorted(sorted: seq<AuthorAggregate>, order: SortKey)
    requires sorted != [] && SortedDesc(sorted, order)
    ensures SortedDesc(sorted[1..], order)
  {
  }

  /** Keeping the head in front of the insertion into the tail keeps the list sorted,
      adds `r` once and brings in nothing else. */
  lemma InsertHead(sorted: seq<AuthorAggregate>, rest: seq<AuthorAggregate>, r: AuthorAggregate, order: SortKey)
    requires sorted != [] && SortedDesc(sorted, order)
    requires KeyOf(sorted[0], order) >= KeyOf(r, order)
    requires SortedDesc(rest, order) && multiset(rest) == multiset(sorted[1..]) + multiset{r}
    requires forall i :: 0 <= i < |rest| ==> rest[i] == r || rest[i] in sorted[1..]
    ensures SortedDesc([sorted[0]] + rest, order)
    ensures multiset([sorted[0]] + rest) == multiset(sorted) + multiset{r}
    ensures forall i :: 0 <= i < |rest| + 1 ==> ([sorted[0]] + rest)[i] == r || ([sorted[0]] + rest)[i] in sorted
  {
    var h := sorted[0];
    var tail := sorted[1..];
    assert sorted == [h] + tail;
    forall i | 0 <= i < |rest|
      ensures KeyOf(rest[i], order) <= KeyOf(h, order)
    {
      if rest[i] != r {
        var j :| 0 <= j < |tail| && tail[j] == rest[i];
        assert sorted[j + 1] == rest[i];
      }
    }
  }

  /** The stable sort, descending by `by`: each row in turn is inserted after the rows
      already placed whose key is at least its own. */
  function SortDesc(rows: seq<AuthorAggregate>, order: SortKey): (out: seq<AuthorAggregate>)
    ensures SortedDesc(out, order)
    ensures multiset(out) == multiset(rows) && |out| == |rows|
  {
    if rows == [] then []
    else
      var init := rows[..|rows| - 1];
      assert rows == init + [rows[|rows| - 1]];
      assert multiset(rows) == multiset(init) + multiset{rows[|rows| - 1]};
      Insert(rows[|rows| - 1], SortDesc(init, order), order)
  }

  /** A comparator-less `sort()` leaves an array of objects in its order. */
  lemma {:induction false} UnorderedSortIsIdentity(rows: seq<AuthorAggregate>)
    ensures SortDesc(rows, Unordered) == rows
  {
    if rows != [] {
      var init := rows[..|rows| - 1];
      SortDescStep(rows, Unordered);
      UnorderedSortIsIdentity(init);
      InsertUnorderedAppends(rows[|rows| - 1], init);
      assert init + [rows[|rows| - 1]] == rows;
    }
  }

  /** Sorting a list inserts its last row into the sorted rest. */
  lemma SortDescStep(rows: seq<AuthorAggregate>, order: SortKey)
    requires rows != []
    ensures SortDesc(rows, order) == Insert(rows[|rows| - 1], SortDesc(rows[..|rows| - 1], order), order)
  {
  }

  lemma {:induction false} InsertUnorderedAppends(r: AuthorAggregate, sorted: seq<AuthorAggregate>)
    ensures Insert(r, sorted, Unordered) == sorted + [r]
  {
    if sorted != [] {
      var rest := sorted[1..];
      InsertUnorderedStep(r, sorted);
      InsertUnorderedAppends(r, rest);
      ConsAppend(sorted, r);
    }
  }

  lemma ConsAppend<T>(s: seq<T>, x: T)
    requires s != []
    ensures [s[0]] + (s[1..] + [x]) == s + [x]
  {
    assert s == [s[0]] + s[1..];
  }

  /** With every key equal, the inserted row passes the head of the list. */
  lemma InsertUnorderedStep(r: AuthorAggregate, sorted: seq<AuthorAggregate>)
    requires sorted != []
    ensures Insert(r, sorted, Unordered) == [sorted[0]] + Insert(r, sorted[1..], Unordered)
  {
    UnorderedAlwaysSorted(sorted);
    UnorderedAlwaysSorted(sorted[1..]);
  }

  /** Every list is in order when every key is the same. */
  lemma UnorderedAlwaysSorted(rows: seq<AuthorAggregate>)
    ensures SortedDesc(rows, Unordered)
  {
  }

  /** Sorting changes neither an author's sums nor the field totals. */
  lemma SortKeepsSums(rows: seq<AuthorAggregate>, order: SortKey, k: string, f: Field)
    ensures SumKey(SortDesc(rows, order), k, f) == SumKey(rows, k, f)
  {
    SumKeyPermutation(SortDesc(rows, order), rows, k, f);
  }

  /** Grouping then sorting: sorted rows with pairwise distinct keys, exactly the keys of
      the input, each row holding its author's sums. */
  lemma SortedGroupSum(rows: seq<AuthorAggregate>, order: SortKey)
    ensures var r := SortDesc(GroupSum(rows), order);
            SortedDesc(r, order)
            && (forall i, j :: 0 <= i < j < |r| ==> r[i].authorKey != r[j].authorKey)
            && (forall k :: HasKey(r, k) <==> HasKey(rows, k))
            && (forall i :: 0 <= i < |r| ==> r[i] == Totals(rows, r[i].authorKey))
  {
    var g := GroupSum(rows);
    var r := SortDesc(g, order);
    GroupSumKeys(rows);
    SortedRowsMatch(g, r);
    GroupSumRowsAreTotals(rows, r);
  }

  lemma GroupSumRowsAreTotals(rows: seq<AuthorAggregate>, r: seq<AuthorAggregate>)
    requires forall x :: x in r ==> x in GroupSum(rows)
    ensures forall i :: 0 <= i < |r| ==> r[i] == Totals(rows, r[i].authorKey)
  {
    var g := GroupSum(rows);
    forall i | 0 <= i < |r|
      ensures r[i] == Totals(rows, r[i].authorKey)
    {
      assert r[i] in g;
      var a :| 0 <= a < |g| && g[a] == r[i];
    }
  }

  /** Sorting keeps the set of rows: distinct keys stay distinct and every row is one of
      the grouped rows. */
  lemma SortedRowsMatch(g: seq<AuthorAggregate>, r: seq<AuthorAggregate>)
    requires multiset(r) == multiset(g)
    requires forall i, j :: 0 <= i < j < |g| ==> g[i].authorKey != g[j].authorKey
    ensures forall i, j :: 0 <= i < j < |r| ==> r[i].authorKey != r[j].authorKey
    ensures forall k :: HasKey(r, k) <==> HasKey(g, k)
    ensures forall x :: x in r <==> x in g
  {
    forall x
      ensures x in r <==> x in g
    {
      assert x in r <==> x in multiset(r);
      assert x in g <==> x in multiset(g);
    }
    forall i, j | 0 <= i < j < |r|
      ensures r[i].authorKey != r[j].authorKey
    {
      if r[i].authorKey == r[j].authorKey {
        assert r[i] in g && r[j] in g;
        var a :| 0 <= a < |g| && g[a] == r[i];
        var b :| 0 <= b < |g| && g[b] == r[j];
        assert a == b;
        // the same grouped row would occur twice in r, but it occurs once in g
        MultisetCountOne(g, a);
        TwoOccurrences(r, i, j);
        assert false;
      }
    }
    forall k
      ensures HasKey(r, k) <==> HasKey(g, k)
    {
      if HasKey(r, k) {
        var i :| 0 <= i < |r| && r[i].authorKey == k;
        assert r[i] in g;
        var a :| 0 <= a < |g| && g[a] == r[i];
      }
      if HasKey(g, k) {
        var i :| 0 <= i < |g| && g[i].authorKey == k;
        assert g[i] in r;
        var a :| 0 <= a < |r| && r[a] == g[i];
      }
    }
  }

  lemma MultisetCountOne(g: seq<AuthorAggregate>, a: int)
    requires 0 <= a < |g|
    requires forall i, j :: 0 <= i < j < |g| ==> g[i].authorKey != g[j].authorKey
    ensures multiset(g)[g[a]] == 1
  {
    assert g == g[..a] + [g[a]] + g[a + 1..];
    assert multiset(g) == multiset(g[..a]) + multiset{g[a]} + multiset(g[a + 1..]);
  }

  lemma TwoOccurrences(r: seq<AuthorAggregate>, i: int, j: int)
    requires 0 <= i < j < |r| && r[i] == r[j]
    ensures multiset(r)[r[i]] >= 2
  {
    assert r == r[..j] + [r[j]] + r[j + 1..];
    assert r[i] in r[..j];
    assert multiset(r) == multiset(r[..j]) + multiset{r[j]} + multiset(r[j + 1..]);
  }

  lemma {:induction false} SumFieldPermutation(a: seq<AuthorAggregate>, b: seq<AuthorAggregate>, f: Field)
    requires multiset(a) == multiset(b)
    ensures SumField(a, f) == SumField(b, f)
    decreases |a|
  {
    if a == [] {
      assert |b| == |multiset(b)| == 0;
    } else {
      var n := |a| - 1;
      var x := a[n];
      assert x in multiset(b);
      var j :| 0 <= j < |b| && b[j] == x;
      var rest := b[..j] + b[j + 1..];
      assert a[..n] + a[n + 1..] == a[..n];
      assert multiset(a[..n]) == multiset(rest) by {
        SpliceMultiset(a, n);
        SpliceMultiset(b, j);
      }
      SumFieldPermutation(a[..n], rest, f);
      SumFieldSplice(a, n, f);
      SumFieldSplice(b, j, f);
    }
  }

  /** One row leaves the sum when it leaves the list. */
  lemma SumFieldSplice(s: seq<AuthorAggregate>, i: int, f: Field)
    requires 0 <= i < |s|
    ensures SumField(s, f) == SumField(s[..i] + s[i + 1..], f) + SumField([s[i]], f)
  {
    assert s == s[..i] + [s[i]] + s[i + 1..];
    SumFieldAppend(s[..i] + [s[i]], s[i + 1..], f);
    SumFieldAppend(s[..i], [s[i]], f);
    SumFieldAppend(s[..i], s[i + 1..], f);
  }
}
