/** The per-guild auth maps: `<guild id>.json` holding a JSON object from an author key
    (a commit author's login or e-mail) to the Discord user it belongs to. */
module AuthMapStore {
  /** An auth map file: one that cannot be read or parsed, or the entries it holds. */
  datatype MapFile = Unreadable | Entries(pairs: map<string, string>)

  /** The map `set` and `remove` start from: the stored one, or the empty map for a guild
      whose file is missing or cannot be read. */
  function Loaded(files: map<string, MapFile>, g: string): map<string, string>
  {
    if g in files && files[g].Entries? then files[g].pairs else map[]
  }

  predicate Readable(files: map<string, MapFile>, g: string)
  {
    g in files && files[g].Entries?
  }

  /** The files after `get`: a missing or unreadable file is replaced by `{}`. */
  function AfterGet(files: map<string, MapFile>, g: string): map<string, MapFile>
  {
    if Readable(files, g) then files else files[g := Entries(map[])]
  }

  /** The files after `set`: written only when the key was not mapped. */
  function AfterSet(files: map<string, MapFile>, g: string, k: string, v: string): map<string, MapFile>
  {
    var m := Loaded(files, g);
    if k in m then files else files[g := Entries(m[k := v])]
  }

  /** The files after `remove`: written only when the key was mapped. */
  function AfterRemove(files: map<string, MapFile>, g: string, k: string): map<string, MapFile>
  {
    var m := Loaded(files, g);
    if k in m then files[g := Entries(m - {k})] else files
  }

  class AuthMap {
    /** The auth map directory: guild id to that guild's file. */
    var files: map<string, MapFile>

    constructor(files: map<string, MapFile>)
      ensures this.files == files
    {
      this.files := files;
    }

    /** `AuthMap.get`: the stored entries; any read or parse failure writes `{}` over the
        file and returns the empty map. */
    method Get(g: string) returns (m: map<string, string>)
      modifies this
      ensures m == Loaded(old(files), g)
      ensures files == AfterGet(old(files), g)
    {
      if g in files && files[g].Entries? {
        return files[g].pairs;
      }
      files := files[g := Entries(map[])];
      m := map[];
    }

    /** `AuthMap.set`: maps an unmapped key and writes the map back. */
    method Set(g: string, k: string, v: string) returns (added: bool)
      modifies this
      ensures added <==> k !in Loaded(old(files), g)
      ensures files == AfterSet(old(files), g, k, v)
    {
      var authMap: map<string, string>;
      if g in files && files[g].Entries? {
        authMap := files[g].pairs;
      } else {
        authMap := map[];
      }
      if k !in authMap {
        authMap := authMap[k := v];
        files := files[g := Entries(authMap)];
        return true;
      }
      return false;
    }

    /** `AuthMap.remove`: deletes a mapped key and writes the map back. */
    method Remove(g: string, k: string) returns (removed: bool)
      modifies this
      ensures removed <==> k in Loaded(old(files), g)
      ensures files == AfterRemove(old(files), g, k)
    {
      var authMap: map<string, string>;
      if g in files && files[g].Entries? {
        authMap := files[g].pairs;
      } else {
        authMap := map[];
      }
      if k in authMap {
        authMap := authMap - {k};
        files := files[g := Entries(authMap)];
        return true;
      }
      return false;
    }
  }

  /** A read failure in `get` loses the document: the file then holds `{}`. */
  lemma GetWipesUnreadable(files: map<string, MapFile>, g: string)
    requires g in files && files[g].Unreadable?
    ensures AfterGet(files, g)[g] == Entries(map[])
  {
  }

  /** `set` never overwrites: a mapped key keeps its value and nothing is written; an
      unmapped key gets the value; every other key keeps its mapping. */
  lemma SetNeverOverwrites(files: map<string, MapFile>, g: string, k: string, v: string)
    ensures var before := Loaded(files, g);
            var after := Loaded(AfterSet(files, g, k, v), g);
            k in after
            && after[k] == (if k in before then before[k] else v)
            && (k in before ==> AfterSet(files, g, k, v) == files)
            && forall j :: j != k ==> (j in after <==> j in before) && (j in before ==> after[j] == before[j])
  {
  }

  /** `remove` unmaps the key, writes nothing when it was unmapped, and keeps every other
      key's mapping. */
  lemma RemoveOnlyThatKey(files: map<string, MapFile>, g: string, k: string)
    ensures var before := Loaded(files, g);
            var after := Loaded(AfterRemove(files, g, k), g);
            k !in after
            && (k !in before ==> AfterRemove(files, g, k) == files)
            && forall j :: j != k ==> (j in after <==> j in before) && (j in before ==> after[j] == before[j])
  {
  }

  /** Removing a key just set gives back the map the guild had. */
  lemma SetThenRemoveRestores(files: map<string, MapFile>, g: string, k: string, v: string)
    requires k !in Loaded(files, g)
    ensures Loaded(AfterRemove(AfterSet(files, g, k, v), g, k), g) == Loaded(files, g)
    ensures Readable(files, g) ==> AfterRemove(AfterSet(files, g, k, v), g, k) == files
  {
    var m := Loaded(files, g);
    assert m[k := v] - {k} == m;
  }

  /** `set` over a file that cannot be read replaces the whole document by one entry. */
  lemma SetOverUnreadable(files: map<string, MapFile>, g: string, k: string, v: string)
    requires g in files && files[g].Unreadable?
    ensures AfterSet(files, g, k, v)[g] == Entries(map[k := v])
  {
  }

  /** Every operation on one guild leaves every other guild's file as it was. */
  lemma OtherGuildsUntouched(files: map<string, MapFile>, g: string, h: string, k: string, v: string)
    requires g != h
    ensures h in AfterGet(files, g) <==> h in files
    ensures h in AfterSet(files, g, k, v) <==> h in files
    ensures h in AfterRemove(files, g, k) <==> h in files
    ensures h in files ==> AfterGet(files, g)[h] == files[h]
                           && AfterSet(files, g, k, v)[h] == files[h]
                           && AfterRemove(files, g, k)[h] == files[h]
  {
  }
}
