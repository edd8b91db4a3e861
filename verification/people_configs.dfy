/** The first release's global people files: one blacklist of author names and one map from
    author key to display name, shared by every guild. */
module PeopleConfigs {
  import opened Util
  import opened ListEdits

  datatype ConfigError = ReadFailed | ParseFailed | InvalidFormat

  // ---------------------------------------------------------------------------------------
  // The blacklist file

  /** What the blacklist file holds: nothing (no file), an empty file, text that does not
      parse, a JSON value that is not an array, or an array of names. */
  datatype ListFile = NoFile | Blank | Corrupt | NotArray | Names(names: seq<string>)

  /** `getBlacklist`: only an array is a blacklist. A missing file's read error goes to the
      caller, and an empty file is read as `"{}"`, an object, so it is rejected. */
  function BlacklistOf(f: ListFile): Result<seq<string>, ConfigError>
  {
    match f
    case NoFile => Err(ReadFailed)
    case Blank => Err(InvalidFormat)
    case Corrupt => Err(ParseFailed)
    case NotArray => Err(InvalidFormat)
    case Names(names) => Ok(names)
  }

  /** The file after `appendBlacklist`: rewritten only when the name was not listed. */
  function AfterAppend(f: ListFile, name: string): ListFile
  {
    if f.Names? && name !in f.names then Names(WithAdded(f.names, name)) else f
  }

  /** The file after `removeFromBlacklist`: rewritten only when the name was listed. */
  function AfterRemoveName(f: ListFile, name: string): ListFile
  {
    if f.Names? && name in f.names then Names(WithRemoved(f.names, name)) else f
  }

  class GlobalBlacklist {
    var file: ListFile

    constructor(file: ListFile)
      ensures this.file == file
    {
      this.file := file;
    }

    method GetBlacklist() returns (r: Result<seq<string>, ConfigError>)
      ensures r == BlacklistOf(file)
    {
      match file
      case NoFile => r := Err(ReadFailed);
      case Blank => r := Err(InvalidFormat);
      case Corrupt => r := Err(ParseFailed);
      case NotArray => r := Err(InvalidFormat);
      case Names(names) => r := Ok(names);
    }

    /** `appendBlacklist`: pushes an unlisted name and writes the array back; a blacklist
        that cannot be read is an error and nothing is written. */
    method AppendBlacklist(name: string) returns (r: Result<bool, ConfigError>)
      modifies this
      ensures r.Err? <==> BlacklistOf(old(file)).Err?
      ensures r.Ok? ==> (r.value <==> name !in BlacklistOf(old(file)).value)
      ensures file == AfterAppend(old(file), name)
    {
      var loaded := GetBlacklist();
      if loaded.Err? {
        return Err(loaded.error);
      }
      var blacklist := loaded.value;
      if name !in blacklist {
        blacklist := blacklist + [name];
        file := Names(blacklist);
        return Ok(true);
      }
      return Ok(false);
    }

    /** `removeFromBlacklist`: splices out the first occurrence of a listed name and writes
        the array back. */
    method RemoveFromBlacklist(name: string) returns (r: Result<bool, ConfigError>)
      modifies this
      ensures r.Err? <==> BlacklistOf(old(file)).Err?
      ensures r.Ok? ==> (r.value <==> name in BlacklistOf(old(file)).value)
      ensures file == AfterRemoveName(old(file), name)
    {
      var loaded := GetBlacklist();
      if loaded.Err? {
        return Err(loaded.error);
      }
      var blacklist := loaded.value;
      var index := IndexOf(blacklist, name);
      assert file.Names? && blacklist == file.names;
      if index != -1 {
        blacklist := blacklist[..index] + blacklist[index + 1..];
        file := Names(blacklist);
        return Ok(true);
      }
      return Ok(false);
    }
  }

  /** Only an array reads as a blacklist; an empty file does not. */
  lemma BlacklistNeedsArray(f: ListFile)
    ensures BlacklistOf(f).Ok? <==> f.Names?
    ensures BlacklistOf(Blank) == Err(InvalidFormat)
  {
  }

  /** An append of an unlisted name puts it last; a listed name or an unreadable file
      leaves the file as it was. */
  lemma AppendPutsNameLast(f: ListFile, name: string)
    ensures BlacklistOf(f).Ok? && name !in BlacklistOf(f).value
            ==> BlacklistOf(AfterAppend(f, name)) == Ok(BlacklistOf(f).value + [name])
    ensures BlacklistOf(f).Err? || name in BlacklistOf(f).value ==> AfterAppend(f, name) == f
  {
  }

  /** A remove drops the first occurrence of a listed name and nothing else. */
  lemma RemoveDropsFirstName(f: ListFile, name: string)
    requires f.Names? && name in f.names
    ensures var after := AfterRemoveName(f, name).names;
            multiset(after) == multiset(f.names) - multiset{name}
            && exists i :: 0 <= i < |f.names| && f.names == after[..i] + [name] + after[i..] && name !in after[..i]
  {
    RemovedFirstOnly(f.names, name);
  }

  /** Removing a name just appended gives back the file as it was. */
  lemma AppendThenRemoveRestores(f: ListFile, name: string)
    requires BlacklistOf(f).Ok? && name !in BlacklistOf(f).value
    ensures AfterRemoveName(AfterAppend(f, name), name) == f
  {
    RemoveUndoesAdd(f.names, name);
  }

  // ---------------------------------------------------------------------------------------
  // The map file

  /** A JSON value in the map document: a string, or anything else. */
  datatype JsonValue = Str(text: string) | NonString

  /** What the map file holds: nothing (no file), a file that cannot be read for another
      reason, text that does not parse, a JSON value that is not a plain object (an array,
      null, a number, a string or a boolean), or an object's entries in key order. */
  datatype MapFile = NoFile | Unreadable | Corrupt | NotObject | Object(entries: seq<(string, JsonValue)>)

  /** A JavaScript `Map<string, string>`: its keys in insertion order and its values. */
  datatype StrMap = StrMap(keys: seq<string>, values: map<string, string>)

  const EmptyMap: StrMap := StrMap([], map[])

  ghost predicate WellFormed(m: StrMap)
  {
    Distinct(m.keys) && forall k :: k in m.values <==> k in m.keys
  }

  /** The keys of a JSON object are distinct. */
  ghost predicate DistinctKeys(entries: seq<(string, JsonValue)>)
  {
    forall i, j :: 0 <= i < j < |entries| ==> entries[i].0 != entries[j].0
  }

  /** `map.set(k, v)`: a new key goes last, an existing key keeps its place. */
  function Put(m: StrMap, k: string, v: string): StrMap
  {
    StrMap(if k in m.values then m.keys else m.keys + [k], m.values[k := v])
  }

  /** The map `getMap`'s loop collects: the string-valued entries, in order. */
  function Collected(entries: seq<(string, JsonValue)>): StrMap
  {
    if entries == [] then EmptyMap
    else
      var m := Collected(entries[..|entries| - 1]);
      var (k, v) := entries[|entries| - 1];
      if v.Str? then Put(m, k, v.text) else m
  }

  /** `getMap`: a missing file, text that does not parse and a value that is not a plain
      object all read as the empty map; any other read error goes to the caller. */
  function MapOf(f: MapFile): Result<StrMap, ConfigError>
  {
    match f
    case NoFile => Ok(EmptyMap)
    case Unreadable => Err(ReadFailed)
    case Corrupt => Ok(EmptyMap)
    case NotObject => Ok(EmptyMap)
    case Object(entries) => Ok(Collected(entries))
  }

  /** `Object.fromEntries(map)`: the object the map is written as, keys in order. */
  function ToEntries(keys: seq<string>, values: map<string, string>): (entries: seq<(string, JsonValue)>)
    requires forall k :: k in keys ==> k in values
    ensures |entries| == |keys|
  {
    if keys == [] then []
    else
      var k := keys[|keys| - 1];
      ToEntries(keys[..|keys| - 1], values) + [(k, Str(values[k]))]
  }

  /** The values restricted to the keys listed. */
  function Restrict(values: map<string, string>, keys: seq<string>): map<string, string>
  {
    map k | k in values && k in keys :: values[k]
  }

  /** The file after `appendMap`: the string entries with the new pair last, written only
      when the key was not mapped. */
  function AfterAppendMap(f: MapFile, key: string, value: string): MapFile
  {
    match MapOf(f)
    case Err(_) => f
    case Ok(m) =>
      if key in m.values then f
      else
        var m' := Put(m, key, value);
        CollectedWellFormed(if f.Object? then f.entries else []);
        Object(ToEntries(m'.keys, m'.values))
  }

  class GlobalMap {
    var file: MapFile

    constructor(file: MapFile)
      ensures this.file == file
    {
      this.file := file;
    }

    method GetMap() returns (r: Result<StrMap, ConfigError>)
      ensures r == MapOf(file)
    {
      match file {
        case NoFile => return Ok(EmptyMap);
        case Unreadable => return Err(ReadFailed);
        case Corrupt => return Ok(EmptyMap);
        case NotObject => return Ok(EmptyMap);
        case Object(entries) =>
          var result := EmptyMap;
          var i := 0;
          while i < |entries|
            invariant 0 <= i <= |entries|
            invariant result == Collected(entries[..i])
          {
            var (key, value) := entries[i];
            if value.Str? {
              result := Put(result, key, value.text);
            }
            assert entries[..i + 1][..i] == entries[..i];
            i := i + 1;
          }
          assert entries[..|entries|] == entries;
          return Ok(result);
      }
    }

    /** `appendMap`: maps an unmapped key and writes the whole map back. */
    method AppendMap(key: string, value: string) returns (r: Result<bool, ConfigError>)
      modifies this
      ensures r.Err? <==> MapOf(old(file)).Err?
      ensures r.Ok? ==> (r.value <==> key !in MapOf(old(file)).value.values)
      ensures file == AfterAppendMap(old(file), key, value)
    {
      var loaded := GetMap();
      if loaded.Err? {
        return Err(loaded.error);
      }
      var m := loaded.value;
      if key !in m.values {
        CollectedWellFormed(if file.Object? then file.entries else []);
        m := Put(m, key, value);
        file := Object(ToEntries(m.keys, m.values));
        return Ok(true);
      }
      return Ok(false);
    }

    /** `removeFromMap`: reports whether the key is mapped; it deletes from the loaded copy
        only, so the file is never rewritten. */
    method RemoveFromMap(key: string) returns (r: Result<bool, ConfigError>)
      ensures r.Err? <==> MapOf(file).Err?
      ensures r.Ok? ==> (r.value <==> key in MapOf(file).value.values)
    {
      var loaded := GetMap();
      if loaded.Err? {
        return Err(loaded.error);
      }
      r := Ok(key in loaded.value.values);
    }
  }

  /** The collected map lists each of its keys once. */
  lemma {:induction false} CollectedWellFormed(entries: seq<(string, JsonValue)>)
    ensures WellFormed(Collected(entries))
  {
    if entries != [] {
      CollectedWellFormed(entries[..|entries| - 1]);
    }
  }

  /** `getMap` keeps exactly the string-valued entries of an object, with their values. */
  lemma {:induction false} CollectedKeepsStrings(entries: seq<(string, JsonValue)>)
    requires DistinctKeys(entries)
    ensures var m := Collected(entries);
            forall i :: 0 <= i < |entries| ==>
              (entries[i].0 in m.values <==> entries[i].1.Str?)
              && (entries[i].1.Str? ==> m.values[entries[i].0] == entries[i].1.text)
    ensures forall k :: k in Collected(entries).values ==> exists i :: 0 <= i < |entries| && entries[i].0 == k
  {
    if entries != [] {
      var init := entries[..|entries| - 1];
      assert DistinctKeys(init) by {
        forall i, j | 0 <= i < j < |init|
          ensures init[i].0 != init[j].0
        {
          assert init[i] == entries[i] && init[j] == entries[j];
        }
      }
      CollectedKeepsStrings(init);
      var m := Collected(entries);
      forall i | 0 <= i < |entries|
        ensures (entries[i].0 in m.values <==> entries[i].1.Str?)
                && (entries[i].1.Str? ==> m.values[entries[i].0] == entries[i].1.text)
      {
        if i < |init| {
          assert init[i] == entries[i];
          assert entries[i].0 != entries[|entries| - 1].0;
        } else if entries[i].0 in Collected(init).values {
          assert false;
        }
      }
      forall k | k in m.values
        ensures exists i :: 0 <= i < |entries| && entries[i].0 == k
      {
        if k != entries[|entries| - 1].0 {
          assert k in Collected(init).values;
          var i :| 0 <= i < |init| && init[i].0 == k;
          assert entries[i] == init[i];
        }
      }
    }
  }

  /** Reading back what `Object.fromEntries` wrote gives the keys in order with their
      values. */
  lemma {:induction false} ToEntriesReadsBack(keys: seq<string>, values: map<string, string>)
    requires Distinct(keys)
    requires forall k :: k in keys ==> k in values
    ensures Collected(ToEntries(keys, values)) == StrMap(keys, Restrict(values, keys))
  {
    if keys != [] {
      var init := keys[..|keys| - 1];
      var k := keys[|keys| - 1];
      assert Distinct(init) && k !in init by {
        assert keys == init + [k];
      }
      ToEntriesReadsBack(init, values);
      var e := ToEntries(keys, values);
      assert e[..|keys| - 1] == ToEntries(init, values);
      assert e[|keys| - 1] == (k, Str(values[k]));
      assert Collected(e) == Put(StrMap(init, Restrict(values, init)), k, values[k]);
      RestrictSnoc(values, init, k);
      assert init + [k] == keys;
    }
  }

  lemma RestrictSnoc(values: map<string, string>, init: seq<string>, k: string)
    requires k in values && k !in init
    ensures k !in Restrict(values, init)
    ensures Restrict(values, init)[k := values[k]] == Restrict(values, init + [k])
  {
  }

  /** After `appendMap` of an unmapped key, `getMap` returns the map it had with the new
      pair added last. */
  lemma AppendThenGet(f: MapFile, key: string, value: string)
    requires MapOf(f).Ok? && key !in MapOf(f).value.values
    ensures MapOf(AfterAppendMap(f, key, value)) == Ok(Put(MapOf(f).value, key, value))
  {
    var m' := AppendWrites(f, key, value);
    ToEntriesReadsBack(m'.keys, m'.values);
  }

  /** Every value `appendMap` writes is a string: other values in the file are dropped. */
  lemma AppendWritesStrings(f: MapFile, key: string, value: string)
    requires MapOf(f).Ok? && key !in MapOf(f).value.values
    ensures forall i :: 0 <= i < |AfterAppendMap(f, key, value).entries| ==>
              AfterAppendMap(f, key, value).entries[i].1.Str?
  {
    var m' := AppendWrites(f, key, value);
    ToEntriesStrings(m'.keys, m'.values);
  }

  /** What `appendMap` writes: the entries of the extended map, which lists its keys once. */
  lemma AppendWrites(f: MapFile, key: string, value: string) returns (m': StrMap)
    requires MapOf(f).Ok? && key !in MapOf(f).value.values
    ensures m' == Put(MapOf(f).value, key, value)
    ensures Distinct(m'.keys) && (forall k :: k in m'.keys ==> k in m'.values)
    ensures Restrict(m'.values, m'.keys) == m'.values
    ensures AfterAppendMap(f, key, value) == Object(ToEntries(m'.keys, m'.values))
  {
    var m := MapOf(f).value;
    MapOfWellFormed(f);
    m' := Put(m, key, value);
    PutWellFormed(m, key, value);
  }

  lemma MapOfWellFormed(f: MapFile)
    requires MapOf(f).Ok?
    ensures WellFormed(MapOf(f).value)
  {
    if f.Object? {
      CollectedWellFormed(f.entries);
    }
  }

  /** A `set` keeps the keys listed once, and every listed key keeps its value. */
  lemma PutWellFormed(m: StrMap, k: string, v: string)
    requires WellFormed(m)
    ensures WellFormed(Put(m, k, v))
    ensures Restrict(Put(m, k, v).values, Put(m, k, v).keys) == Put(m, k, v).values
  {
  }

  lemma {:induction false} ToEntriesStrings(keys: seq<string>, values: map<string, string>)
    requires forall k :: k in keys ==> k in values
    ensures forall i :: 0 <= i < |ToEntries(keys, values)| ==> ToEntries(keys, values)[i].1.Str?
  {
    if keys != [] {
      ToEntriesStrings(keys[..|keys| - 1], values);
    }
  }

  /** `appendMap` of a mapped key, or over a file it cannot read, writes nothing. */
  lemma AppendNeverOverwrites(f: MapFile, key: string, value: string)
    requires MapOf(f).Err? || key in MapOf(f).value.values
    ensures AfterAppendMap(f, key, value) == f
  {
  }

  // ---------------------------------------------------------------------
  // `removeFromMap` with the deletion written back

  /** `map.delete(k)` on a loaded map: the key leaves the key order and the values. */
  function Delete(m: StrMap, k: string): StrMap
  {
    StrMap(WithRemoved(m.keys, k), m.values - {k})
  }

  /** A delete keeps the keys listed once, and each listed key keeps its value. */
  lemma DeleteWellFormed(m: StrMap, k: string)
    requires WellFormed(m)
    ensures WellFormed(Delete(m, k))
    ensures Restrict(Delete(m, k).values, Delete(m, k).keys) == Delete(m, k).values
  {
    WithRemovedOfDistinct(m.keys, k);
  }

  /** Splicing an item out of a repeat-free list leaves exactly the other items, each once. */
  lemma WithRemovedOfDistinct(s: seq<string>, x: string)
    requires Distinct(s)
    ensures Distinct(WithRemoved(s, x))
    ensures forall y :: y in WithRemoved(s, x) <==> y in s && y != x
  {
    if x in s {
      var i := IndexOf(s, x);
      SpliceOfDistinct(s, i);
    }
  }

  lemma SpliceOfDistinct(s: seq<string>, i: int)
    requires Distinct(s) && 0 <= i < |s|
    ensures Distinct(s[..i] + s[i + 1..])
    ensures forall y :: y in s[..i] + s[i + 1..] <==> y in s && y != s[i]
  {
    var r := s[..i] + s[i + 1..];
    forall a | 0 <= a < |r|
      ensures r[a] == s[if a < i then a else a + 1]
    {
    }
    forall a, b | 0 <= a < b < |r|
      ensures r[a] != r[b]
    {
    }
    forall y
      ensures y in r <==> y in s && y != s[i]
    {
      if y in r {
        var a :| 0 <= a < |r| && r[a] == y;
        assert s[if a < i then a else a + 1] == y;
      }
      if y in s && y != s[i] {
        var a :| 0 <= a < |s| && s[a] == y;
        assert r[if a < i then a else a - 1] == y;
      }
    }
  }

  /** The file `removeFromMap` would leave if it wrote the map back, as `appendMap`
      does: the string entries without the key, written only when the key was mapped. */
  function AfterRemoveFromMap(f: MapFile, key: string): MapFile
  {
    match MapOf(f)
    case Err(_) => f
    case Ok(m) =>
      if key !in m.values then f
      else
        CollectedWellFormed(if f.Object? then f.entries else []);
        DeleteWellFormed(m, key);
        var m' := Delete(m, key);
        Object(ToEntries(m'.keys, m'.values))
  }

  /** After the written-back remove, `getMap` returns the map it had with the key deleted,
      so the key is no longer mapped. */
  lemma RemoveThenGet(f: MapFile, key: string)
    requires MapOf(f).Ok?
    ensures MapOf(AfterRemoveFromMap(f, key)) == Ok(Delete(MapOf(f).value, key))
    ensures key !in MapOf(AfterRemoveFromMap(f, key)).value.values
  {
    var m := MapOf(f).value;
    MapOfWellFormed(f);
    DeleteWellFormed(m, key);
    var m' := Delete(m, key);
    if key in m.values {
      ToEntriesReadsBack(m'.keys, m'.values);
    } else {
      assert key !in m.keys;
      assert WithRemoved(m.keys, key) == m.keys;
      assert m.values - {key} == m.values;
    }
  }

  /** Removing a key just appended gives back the map read before the append. */
  lemma AppendThenRemoveMapRestores(f: MapFile, key: string, value: string)
    requires MapOf(f).Ok? && key !in MapOf(f).value.values
    ensures MapOf(AfterRemoveFromMap(AfterAppendMap(f, key, value), key)) == MapOf(f)
  {
    var m := MapOf(f).value;
    MapOfWellFormed(f);
    AppendThenGet(f, key, value);
    RemoveThenGet(AfterAppendMap(f, key, value), key);
    DeleteUndoesPut(m, key, value);
  }

  /** Deleting a key just set on a map that lacked it gives back that map. */
  lemma DeleteUndoesPut(m: StrMap, k: string, v: string)
    requires WellFormed(m) && k !in m.values
    ensures Delete(Put(m, k, v), k) == m
  {
    assert k !in m.keys;
    RemoveUndoesAdd(m.keys, k);
    assert Put(m, k, v).keys == WithAdded(m.keys, k);
    assert m.values[k := v] - {k} == m.values;
  }

  /** As written: a store that maps `alice` reports her removed, and `getMap` still
      finds her afterwards, because the deletion is never written. */
  method RemoveReportsButKeeps() returns (removed: Result<bool, ConfigError>, after: Result<StrMap, ConfigError>)
    ensures removed == Ok(true)
    ensures after.Ok? && "alice" in after.value.values
  {
    var store := new GlobalMap(Object([("alice", Str("bob"))]));
    removed := store.RemoveFromMap("alice");
    after := store.GetMap();
  }
}
