/** Identity resolution: author keys are mapped to display names, blacklisted authors are
    dropped and rows that end up under the same name are merged. Three variants share
    the merge and the filters: the guild-scoped `ConvertAuth` class (map lookup followed
    by a Discord name lookup), the legacy global map (raw mapped ids) and a stub that
    changes nothing. The stores are read beforehand: `authMap` and `blacklist` are their
    loaded contents. */
module Identity {
  import opened Util
  import opened Aggregation

  /** What the Discord client can find: guild members by id (their display name) and
      global users by id (their username). A missing id is a fetch that throws. */
  datatype Directory = Directory(members: map<string, string>, users: map<string, string>)

  /** `getUserName`: the guild display name, else the global username, else the id.
      The contract is the fallback order over the `Directory` abstraction of the two
      Discord fetches, case by case; what follows from it is proved in
      `UnmappedKeyUnchanged`, `MappedKeyResolved` and `ConvertAuthNonEmpty`. */
  function GetUserName(dir: Directory, userId: string): (name: string)
    ensures userId in dir.members ==> name == dir.members[userId]
    ensures userId !in dir.members && userId in dir.users ==> name == dir.users[userId]
    ensures userId !in dir.members && userId !in dir.users ==> name == userId
  {
    if userId in dir.members then dir.members[userId]
    else if userId in dir.users then dir.users[userId]
    else userId
  }

  /** `ConvertAuth.convertAuth`: a mapped key becomes its looked-up name, or the mapped id
      when that name is empty; an unmapped key is returned as it is. */
  function ConvertAuth(authMap: map<string, string>, dir: Directory, auth: string): (name: string)
    ensures auth !in authMap ==> name == auth
    ensures auth in authMap ==>
              name == authMap[auth] || name in dir.members.Values || name in dir.users.Values
  {
    if auth in authMap then
      var mapped := authMap[auth];
      var username := GetUserName(dir, mapped);
      if username != "" then username else mapped
    else auth
  }

  /** The legacy `convertAuth` over the global map: mapped ids are returned raw. */
  function LegacyConvertAuth(peopleMap: map<string, string>, auth: string): (name: string)
    ensures auth !in peopleMap ==> name == auth
    ensures auth in peopleMap ==> name in peopleMap.Values
  {
    if auth in peopleMap then peopleMap[auth] else auth
  }

  /** The stub `convertAuth`. */
  function StubConvertAuth(auth: string): (name: string)
    ensures name == LegacyConvertAuth(map[], auth)
  {
    auth
  }

  /** An unmapped key is returned unchanged by both mapping variants. */
  lemma UnmappedKeyUnchanged(authMap: map<string, string>, dir: Directory, auth: string)
    requires auth !in authMap
    ensures ConvertAuth(authMap, dir, auth) == auth
    ensures LegacyConvertAuth(authMap, auth) == auth
    ensures StubConvertAuth(auth) == auth
  {
  }

  /** A mapped key resolves to the looked-up name when there is one, and to the mapped id
      otherwise; it is never left as the raw key unless that is what the lookups give. */
  lemma MappedKeyResolved(authMap: map<string, string>, dir: Directory, auth: string)
    requires auth in authMap
    ensures var mapped := authMap[auth];
            var r := ConvertAuth(authMap, dir, auth);
            (mapped in dir.members && dir.members[mapped] != "" ==> r == dir.members[mapped])
            && (mapped !in dir.members && mapped in dir.users && dir.users[mapped] != "" ==> r == dir.users[mapped])
            && (mapped !in dir.members && mapped !in dir.users ==> r == mapped)
            && (GetUserName(dir, mapped) == "" ==> r == mapped)
  {
  }

  /** The guild variant differs from the legacy one only through the name lookup: when
      the directory knows nothing about the mapped id, both return the raw mapped id. */
  lemma ConvertAuthWithoutDirectory(authMap: map<string, string>, dir: Directory, auth: string)
    requires auth in authMap ==> authMap[auth] !in dir.members && authMap[auth] !in dir.users
    ensures ConvertAuth(authMap, dir, auth) == LegacyConvertAuth(authMap, auth)
  {
  }

  /** With an empty map all three variants are the identity. */
  lemma EmptyMapIsIdentity(dir: Directory, auth: string)
    ensures ConvertAuth(map[], dir, auth) == auth == LegacyConvertAuth(map[], auth) == StubConvertAuth(auth)
  {
  }

  /** The resolved name is never empty when the key and every stored id are non-empty. */
  lemma ConvertAuthNonEmpty(authMap: map<string, string>, dir: Directory, auth: string)
    requires auth != "" && forall k :: k in authMap ==> authMap[k] != ""
    ensures ConvertAuth(authMap, dir, auth) != ""
  {
  }

  // ---------------------------------------------------------------------
  // Blacklist filters

  /** `removeAuthAggByBlackList`: the rows whose key is not blacklisted, in order. */
  function WithoutBlacklisted(arr: seq<AuthorAggregate>, blacklist: seq<string>): (r: seq<AuthorAggregate>)
    ensures Subsequence(r, arr)
    ensures forall x :: x in r <==> x in arr && x.authorKey !in blacklist
  {
    if arr == [] then []
    else
      var init := WithoutBlacklisted(arr[..|arr| - 1], blacklist);
      var x := arr[|arr| - 1];
      assert arr == arr[..|arr| - 1] + [x];
      if x.authorKey in blacklist then
        SubsequenceOfInit(init, arr);
        init
      else
        assert (init + [x])[..|init|] == init;
        init + [x]
  }

  /** `removeArrayByBlackList`: the strings not blacklisted, in order. */
  function WithoutBlacklistedNames(arr: seq<string>, blacklist: seq<string>): (r: seq<string>)
    ensures Subsequence(r, arr)
    ensures forall x :: x in r <==> x in arr && x !in blacklist
  {
    if arr == [] then []
    else
      var init := WithoutBlacklistedNames(arr[..|arr| - 1], blacklist);
      var x := arr[|arr| - 1];
      assert arr == arr[..|arr| - 1] + [x];
      if x in blacklist then
        SubsequenceOfInit(init, arr);
        init
      else
        assert (init + [x])[..|init|] == init;
        init + [x]
  }

  /** The stub filters return their input: they agree with the real filters on an empty
      blacklist. */
  lemma StubFiltersAreEmptyBlacklist(rows: seq<AuthorAggregate>, names: seq<string>)
    ensures WithoutBlacklisted(rows, []) == rows
    ensures WithoutBlacklistedNames(names, []) == names
  {
    NothingFiltered(rows);
    NothingFilteredNames(names);
  }

  lemma {:induction false} NothingFiltered(rows: seq<AuthorAggregate>)
    ensures WithoutBlacklisted(rows, []) == rows
  {
    if rows != [] {
      NothingFiltered(rows[..|rows| - 1]);
    }
  }

  lemma {:induction false} NothingFilteredNames(names: seq<string>)
    ensures WithoutBlacklistedNames(names, []) == names
  {
    if names != [] {
      NothingFilteredNames(names[..|names| - 1]);
    }
  }

  // ---------------------------------------------------------------------
  // mergeSameNamesInAuthAgg

  /** The merge: `Array.from(map.values()).sort()` after folding rows by key. */
  function MergeSameNames(arr: seq<AuthorAggregate>): (out: seq<AuthorAggregate>)
    ensures out == GroupSum(arr)
  {
    UnorderedSortIsIdentity(GroupSum(arr));
    SortDesc(GroupSum(arr), Unordered)
  }

  method MergeSameNamesInAuthAgg(arr: seq<AuthorAggregate>) returns (out: seq<AuthorAggregate>)
    ensures out == MergeSameNames(arr)
  {
    var grouped := GroupByAuthor(arr);
    out := SortDesc(grouped, Unordered);
  }

  /** The merge yields one row per distinct key, each summing its group, with keys in
      order of first occurrence: a comparator-less sort leaves the rows as they are. */
  lemma MergeRows(arr: seq<AuthorAggregate>)
    ensures var r := MergeSameNames(arr);
            r == GroupSum(arr)
            && (forall i, j :: 0 <= i < j < |r| ==> r[i].authorKey != r[j].authorKey)
            && (forall k :: HasKey(r, k) <==> HasKey(arr, k))
            && (forall i :: 0 <= i < |r| ==> r[i] == Totals(arr, r[i].authorKey))
            && (forall f :: SumField(r, f) == SumField(arr, f))
  {
    UnorderedSortIsIdentity(GroupSum(arr));
    GroupSumKeys(arr);
    forall f
      ensures SumField(GroupSum(arr), f) == SumField(arr, f)
    {
      GroupSumConserves(arr, f);
    }
  }

  /** First-occurrence order: of two merged rows, the earlier one's key occurs in the
      input before any occurrence of the later one's key. */
  lemma MergeKeepsFirstOccurrenceOrder(arr: seq<AuthorAggregate>, i: int, j: int)
    requires 0 <= i < j < |MergeSameNames(arr)|
    ensures var r := MergeSameNames(arr);
            exists a :: 0 <= a < |arr| && arr[a].authorKey == r[i].authorKey
                        && forall b :: 0 <= b <= a ==> arr[b].authorKey != r[j].authorKey
  {
    UnorderedSortIsIdentity(GroupSum(arr));
    KeysFirstSeen(arr, i, j);
  }

  lemma {:induction false} KeysFirstSeen(rows: seq<AuthorAggregate>, i: int, j: int)
    requires 0 <= i < j < |KeysInOrder(rows)|
    ensures var keys := KeysInOrder(rows);
            exists a :: 0 <= a < |rows| && rows[a].authorKey == keys[i]
                        && forall b :: 0 <= b <= a ==> rows[b].authorKey != keys[j]
  {
    var n := |rows| - 1;
    var init := rows[..n];
    var keys := KeysInOrder(rows);
    var initKeys := KeysInOrder(init);
    if j < |initKeys| {
      KeysFirstSeen(init, i, j);
      var a :| 0 <= a < |init| && init[a].authorKey == initKeys[i]
               && forall b :: 0 <= b <= a ==> init[b].authorKey != initKeys[j];
      assert rows[a] == init[a];
      assert forall b :: 0 <= b <= a ==> rows[b] == init[b];
    } else {
      // keys[j] is the key of the last row, seen for the first time
      assert keys == initKeys + [rows[n].authorKey];
      KeysInOrderMembers(init, keys[i]);
      KeysInOrderMembers(init, keys[j]);
      var a :| 0 <= a < |init| && init[a].authorKey == keys[i];
      assert forall b :: 0 <= b <= a ==> rows[b] == init[b];
    }
  }

  // ---------------------------------------------------------------------
  // convertAuthAgg

  /** Every row re-keyed by `convertAuth`, the numbers kept. */
  function Rekeyed(arr: seq<AuthorAggregate>, authMap: map<string, string>, dir: Directory): (r: seq<AuthorAggregate>)
    ensures |r| == |arr|
    ensures forall i :: 0 <= i < |arr| ==>
              r[i] == arr[i].(authorKey := ConvertAuth(authMap, dir, arr[i].authorKey))
  {
    seq(|arr|, i requires 0 <= i < |arr| => arr[i].(authorKey := ConvertAuth(authMap, dir, arr[i].authorKey)))
  }

  /** `convertAuthAgg`: filter on the raw keys, map every key, then merge. */
  function ConvertAuthAgg(arr: seq<AuthorAggregate>, blacklist: seq<string>, authMap: map<string, string>,
                          dir: Directory): (out: seq<AuthorAggregate>)
    ensures forall i, j :: 0 <= i < j < |out| ==> out[i].authorKey != out[j].authorKey
  {
    GroupSumKeys(Rekeyed(WithoutBlacklisted(arr, blacklist), authMap, dir));
    MergeSameNames(Rekeyed(WithoutBlacklisted(arr, blacklist), authMap, dir))
  }

  lemma {:induction false} RekeyedSums(arr: seq<AuthorAggregate>, authMap: map<string, string>, dir: Directory, f: Field)
    ensures SumField(Rekeyed(arr, authMap, dir), f) == SumField(arr, f)
  {
    if arr != [] {
      var n := |arr| - 1;
      RekeyedSums(arr[..n], authMap, dir, f);
      assert Rekeyed(arr, authMap, dir)[..n] == Rekeyed(arr[..n], authMap, dir);
    }
  }

  /** Conservation: the merged rows carry exactly the additions, deletions and totals of
      the rows that survive the blacklist. */
  lemma ConvertAuthAggConserves(arr: seq<AuthorAggregate>, blacklist: seq<string>, authMap: map<string, string>,
                                dir: Directory, f: Field)
    ensures SumField(ConvertAuthAgg(arr, blacklist, authMap, dir), f) == SumField(WithoutBlacklisted(arr, blacklist), f)
  {
    var kept := WithoutBlacklisted(arr, blacklist);
    MergeRows(Rekeyed(kept, authMap, dir));
    RekeyedSums(kept, authMap, dir, f);
  }

  /** The output keys are distinct, and each is the converted key of a row whose raw key
      is not blacklisted. */
  lemma ConvertAuthAggKeys(arr: seq<AuthorAggregate>, blacklist: seq<string>, authMap: map<string, string>,
                           dir: Directory)
    ensures var r := ConvertAuthAgg(arr, blacklist, authMap, dir);
            (forall i, j :: 0 <= i < j < |r| ==> r[i].authorKey != r[j].authorKey)
            && forall i :: 0 <= i < |r| ==>
                 exists x :: x in arr && x.authorKey !in blacklist && r[i].authorKey == ConvertAuth(authMap, dir, x.authorKey)
  {
    var kept := WithoutBlacklisted(arr, blacklist);
    var rk := Rekeyed(kept, authMap, dir);
    var r := ConvertAuthAgg(arr, blacklist, authMap, dir);
    MergeRows(rk);
    forall i | 0 <= i < |r|
      ensures exists x :: x in arr && x.authorKey !in blacklist && r[i].authorKey == ConvertAuth(authMap, dir, x.authorKey)
    {
      assert HasKey(r, r[i].authorKey);
      var a :| 0 <= a < |rk| && rk[a].authorKey == r[i].authorKey;
      assert kept[a] in kept;
    }
  }

  /** The blacklist is checked before mapping: a row whose raw key is not blacklisted
      survives even when the name it resolves to is blacklisted. */
  lemma ResolvedNameNotFiltered(arr: seq<AuthorAggregate>, blacklist: seq<string>, authMap: map<string, string>,
                                dir: Directory, x: AuthorAggregate)
    requires x in arr && x.authorKey !in blacklist
    ensures HasKey(ConvertAuthAgg(arr, blacklist, authMap, dir), ConvertAuth(authMap, dir, x.authorKey))
  {
    var kept := WithoutBlacklisted(arr, blacklist);
    var rk := Rekeyed(kept, authMap, dir);
    MergeRows(rk);
    var a :| 0 <= a < |kept| && kept[a] == x;
    assert rk[a].authorKey == ConvertAuth(authMap, dir, x.authorKey);
  }

  /** Concretely: "alice" maps to a member displayed as "bob"; with "bob" blacklisted,
      alice's row is still reported, under "bob". */
  lemma BlacklistedDisplayNameSurvives()
    ensures var row := AuthorAggregate("alice", 5, 1, 6);
            var dir := Directory(map["42" := "bob"], map[]);
            ConvertAuthAgg([row], ["bob"], map["alice" := "42"], dir) == [AuthorAggregate("bob", 5, 1, 6)]
  {
    var row := AuthorAggregate("alice", 5, 1, 6);
    var dir := Directory(map["42" := "bob"], map[]);
    var kept := WithoutBlacklisted([row], ["bob"]);
    assert kept == [row] by {
      assert [row][..0] == [];
    }
    var rk := Rekeyed(kept, map["alice" := "42"], dir);
    assert rk == [AuthorAggregate("bob", 5, 1, 6)];
    MergeRows(rk);
    assert KeysInOrder(rk) == ["bob"] by {
      assert rk[..0] == [];
    }
    assert SumKey(rk, "bob", Additions) == 5 by { assert rk[..0] == []; }
    assert SumKey(rk, "bob", Deletions) == 1 by { assert rk[..0] == []; }
    assert SumKey(rk, "bob", Total) == 6 by { assert rk[..0] == []; }
  }
}
