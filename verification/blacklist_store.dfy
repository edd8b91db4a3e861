/** The per-guild blacklist files: `<guild id>.json` holding a JSON array of user ids. */
module BlacklistStore {
  import opened ListEdits

  /** A blacklist file: one that cannot be read or parsed, or the array it holds. */
  datatype ListFile = Unreadable | Items(ids: seq<string>)

  /** The array `add` and `remove` start from: the stored one, or `[]` for a guild whose
      file is missing or cannot be read. */
  function Loaded(files: map<string, ListFile>, g: string): seq<string>
  {
    if g in files && files[g].Items? then files[g].ids else []
  }

  /** Whether the guild's file holds an array `get` can return as it is. */
  predicate Readable(files: map<string, ListFile>, g: string)
  {
    g in files && files[g].Items?
  }

  /** The files after `get`: a missing or unreadable file is replaced by `[]`. */
  function AfterGet(files: map<string, ListFile>, g: string): map<string, ListFile>
  {
    if Readable(files, g) then files else files[g := Items([])]
  }

  /** The files after `add`: written only when the id was not listed. */
  function AfterAdd(files: map<string, ListFile>, g: string, u: string): map<string, ListFile>
  {
    var ids := Loaded(files, g);
    if u in ids then files else files[g := Items(WithAdded(ids, u))]
  }

  /** The files after `remove`: written only when the id was listed. */
  function AfterRemove(files: map<string, ListFile>, g: string, u: string): map<string, ListFile>
  {
    var ids := Loaded(files, g);
    if u in ids then files[g := Items(WithRemoved(ids, u))] else files
  }

  class Blacklist {
    /** The blacklist directory: guild id to that guild's file. */
    var files: map<string, ListFile>

    constructor(files: map<string, ListFile>)
      ensures this.files == files
    {
      this.files := files;
    }

    /** `Blacklist.get`: the stored array; any read or parse failure writes `[]` over the
        file and returns `[]`. */
    method Get(g: string) returns (ids: seq<string>)
      modifies this
      ensures ids == Loaded(old(files), g)
      ensures files == AfterGet(old(files), g)
    {
      if g in files && files[g].Items? {
        return files[g].ids;
      }
      files := files[g := Items([])];
      ids := [];
    }

    /** `Blacklist.add`: pushes an unlisted id and writes the array back. */
    method Add(g: string, u: string) returns (added: bool)
      modifies this
      ensures added <==> u !in Loaded(old(files), g)
      ensures files == AfterAdd(old(files), g, u)
    {
      var blacklist: seq<string>;
      if g in files && files[g].Items? {
        blacklist := files[g].ids;
      } else {
        blacklist := [];
      }
      if u !in blacklist {
        blacklist := blacklist + [u];
        files := files[g := Items(blacklist)];
        return true;
      }
      return false;
    }

    /** `Blacklist.remove`: splices out the first occurrence of a listed id and writes the
        array back. */
    method Remove(g: string, u: string) returns (removed: bool)
      modifies this
      ensures removed <==> u in Loaded(old(files), g)
      ensures files == AfterRemove(old(files), g, u)
    {
      var blacklist: seq<string>;
      if g in files && files[g].Items? {
        blacklist := files[g].ids;
      } else {
        blacklist := [];
      }
      var index := IndexOf(blacklist, u);
      if index != -1 {
        blacklist := blacklist[..index] + blacklist[index + 1..];
        files := files[g := Items(blacklist)];
        removed := true;
      } else {
        removed := false;
      }
    }
  }

  /** `get` returns the array a later call sees, and after it every file of the guild is
      readable: a corrupt document is lost. */
  lemma GetResetsFile(files: map<string, ListFile>, g: string)
    ensures Readable(AfterGet(files, g), g)
    ensures Loaded(AfterGet(files, g), g) == Loaded(files, g)
    ensures !Readable(files, g) ==> AfterGet(files, g)[g] == Items([])
  {
  }

  /** `add` of a listed id writes nothing; of an unlisted one it appends the id once, at
      the end, even over a file that could not be read. */
  lemma AddAppendsOnce(files: map<string, ListFile>, g: string, u: string)
    ensures u in Loaded(files, g) ==> AfterAdd(files, g, u) == files
    ensures u !in Loaded(files, g) ==>
              Loaded(AfterAdd(files, g, u), g) == Loaded(files, g) + [u]
              && multiset(Loaded(AfterAdd(files, g, u), g))[u] == 1
  {
  }

  /** `remove` of an unlisted id writes nothing; of a listed one it drops the first
      occurrence only. */
  lemma RemoveDropsFirst(files: map<string, ListFile>, g: string, u: string)
    ensures u !in Loaded(files, g) ==> AfterRemove(files, g, u) == files
    ensures u in Loaded(files, g) ==>
              var before := Loaded(files, g);
              var after := Loaded(AfterRemove(files, g, u), g);
              multiset(after) == multiset(before) - multiset{u}
              && exists i :: 0 <= i < |before| && before == after[..i] + [u] + after[i..] && u !in after[..i]
  {
    if u in Loaded(files, g) {
      RemovedFirstOnly(Loaded(files, g), u);
    }
  }

  /** Removing an id just added gives back the array the guild had. */
  lemma AddThenRemoveRestores(files: map<string, ListFile>, g: string, u: string)
    requires u !in Loaded(files, g)
    ensures Loaded(AfterRemove(AfterAdd(files, g, u), g, u), g) == Loaded(files, g)
    ensures Readable(files, g) ==> AfterRemove(AfterAdd(files, g, u), g, u) == files
  {
    RemoveUndoesAdd(Loaded(files, g), u);
  }

  /** Every operation on one guild leaves every other guild's file as it was. */
  lemma OtherGuildsUntouched(files: map<string, ListFile>, g: string, h: string, u: string)
    requires g != h
    ensures h in AfterGet(files, g) <==> h in files
    ensures h in AfterAdd(files, g, u) <==> h in files
    ensures h in AfterRemove(files, g, u) <==> h in files
    ensures h in files ==> AfterGet(files, g)[h] == files[h]
                           && AfterAdd(files, g, u)[h] == files[h]
                           && AfterRemove(files, g, u)[h] == files[h]
  {
  }
}
