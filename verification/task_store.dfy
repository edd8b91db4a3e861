/** The per-guild task files of the live scheduler: `<guild id>.json` in one directory, each
    holding a partial schedule config. */
module TaskStore {
  import opened Util
  import opened ScheduleTypes

  /** A task file: text that cannot be read or parsed, or a config document. */
  datatype TaskFile = Unreadable | Doc(config: PartialConfig)

  datatype TaskError = ReadFailed

  const Suffix: string := ".json"

  function FileName(g: string): string
  {
    g + Suffix
  }

  predicate IsJsonName(f: string)
  {
    |f| >= |Suffix| && f[|f| - |Suffix|..] == Suffix
  }

  /** `path.basename(f, ".json")` for a directory entry ending in `.json`. */
  function BaseName(f: string): string
    requires IsJsonName(f)
  {
    f[..|f| - |Suffix|]
  }

  /** The directory listing names every file once. */
  ghost predicate Listed(files: map<string, TaskFile>, names: seq<string>)
  {
    Distinct(names) && forall n :: n in files <==> n in names
  }

  /** `Tasks.get`: a guild without a file has the empty config; a file that cannot be read
      or parsed is an error. */
  function TaskOf(files: map<string, TaskFile>, g: string): (r: Result<PartialConfig, TaskError>)
    ensures FileName(g) !in files ==> r == Ok(EmptyPartial)
    ensures r.Err? <==> FileName(g) in files && files[FileName(g)].Unreadable?
  {
    if FileName(g) !in files then Ok(EmptyPartial)
    else match files[FileName(g)]
      case Unreadable => Err(ReadFailed)
      case Doc(c) => Ok(c)
  }

  /** `Tasks.listGuilds`: the `.json` entries of the listing, suffix removed, in order. */
  function GuildsOf(names: seq<string>): (ids: seq<string>)
    ensures |ids| <= |names|
  {
    if names == [] then []
    else
      var last := names[|names| - 1];
      GuildsOf(names[..|names| - 1]) + (if IsJsonName(last) then [BaseName(last)] else [])
  }

  class Tasks {
    /** The task directory: file name to content. */
    var files: map<string, TaskFile>
    /** The order in which the directory lists its files. */
    var names: seq<string>

    ghost predicate Valid()
      reads this
    {
      Listed(files, names)
    }

    constructor(files: map<string, TaskFile>, names: seq<string>)
      requires Listed(files, names)
      ensures this.files == files && this.names == names && Valid()
    {
      this.files := files;
      this.names := names;
    }

    method Get(g: string) returns (r: Result<PartialConfig, TaskError>)
      ensures r == TaskOf(files, g)
    {
      var name := g + Suffix;
      if name !in files {
        return Ok(EmptyPartial);
      }
      match files[name]
      case Unreadable => r := Err(ReadFailed);
      case Doc(c) => r := Ok(c);
    }

    /** `Tasks.set`: the stored config with the patch laid over it; nothing is written when
        the stored config cannot be read. */
    method Set(g: string, patch: PartialConfig) returns (r: Result<(), TaskError>)
      requires Valid()
      modifies this
      ensures Valid()
      ensures r.Ok? <==> TaskOf(old(files), g).Ok?
      ensures r.Ok? ==> files == old(files)[FileName(g) := Doc(PatchOver(TaskOf(old(files), g).value, patch))]
      ensures r.Ok? ==> names == if FileName(g) in old(files) then old(names) else old(names) + [FileName(g)]
      ensures r.Err? ==> files == old(files) && names == old(names)
    {
      var original := Get(g);
      if original.Err? {
        return Err(original.error);
      }
      var name := g + Suffix;
      if name !in files {
        names := names + [name];
      }
      files := files[name := Doc(PatchOver(original.value, patch))];
      r := Ok(());
    }

    method ListGuilds() returns (ids: seq<string>)
      ensures ids == GuildsOf(names)
    {
      ids := GuildsOf(names);
    }
  }

  lemma FileNameBase(g: string)
    ensures IsJsonName(FileName(g)) && BaseName(FileName(g)) == g
  {
  }

  lemma FileNameInjective(g: string, h: string)
    requires FileName(g) == FileName(h)
    ensures g == h
  {
    FileNameBase(g);
    FileNameBase(h);
  }

  /** A listed `.json` entry is the file of the guild it names. */
  lemma BaseNameFile(f: string)
    requires IsJsonName(f)
    ensures FileName(BaseName(f)) == f
  {
  }

  /** The listed guilds are exactly the guilds with a task file. */
  lemma {:induction false} GuildsOfMembers(names: seq<string>, g: string)
    ensures g in GuildsOf(names) <==> FileName(g) in names
  {
    if names != [] {
      var init := names[..|names| - 1];
      var last := names[|names| - 1];
      GuildsOfMembers(init, g);
      assert names == init + [last];
      if IsJsonName(last) {
        BaseNameFile(last);
        FileNameBase(g);
        if BaseName(last) == g {
          assert FileName(g) == last;
        }
        if FileName(g) == last {
          assert BaseName(last) == g;
        }
      } else {
        FileNameBase(g);
      }
    }
  }

  /** Every guild is listed at most once. */
  lemma {:induction false} GuildsOfDistinct(names: seq<string>)
    requires Distinct(names)
    ensures Distinct(GuildsOf(names))
  {
    if names != [] {
      var init := names[..|names| - 1];
      var last := names[|names| - 1];
      GuildsOfDistinct(init);
      if IsJsonName(last) {
        var g := BaseName(last);
        GuildsOfMembers(init, g);
        BaseNameFile(last);
        assert last !in init;
      }
    }
  }

  /** After `set` the guild reads back its previous config with the patch laid over it; a
      guild without a file stores exactly the patch. */
  lemma SetThenGet(files: map<string, TaskFile>, g: string, patch: PartialConfig)
    requires TaskOf(files, g).Ok?
    ensures var after := files[FileName(g) := Doc(PatchOver(TaskOf(files, g).value, patch))];
            TaskOf(after, g) == Ok(PatchOver(TaskOf(files, g).value, patch))
            && (FileName(g) !in files ==> TaskOf(after, g) == Ok(patch))
  {
    PatchOverEmpty(patch);
  }

  /** `set` on one guild leaves every other guild's config as it was. */
  lemma SetKeepsOtherGuilds(files: map<string, TaskFile>, g: string, h: string, doc: TaskFile)
    requires g != h
    ensures TaskOf(files[FileName(g) := doc], h) == TaskOf(files, h)
  {
    if FileName(g) == FileName(h) {
      FileNameInjective(g, h);
    }
  }

  /** Setting the same patch twice stores what setting it once stores. */
  lemma SetIdempotent(files: map<string, TaskFile>, g: string, patch: PartialConfig)
    requires TaskOf(files, g).Ok?
    ensures var once := files[FileName(g) := Doc(PatchOver(TaskOf(files, g).value, patch))];
            TaskOf(once, g).Ok?
            && once[FileName(g) := Doc(PatchOver(TaskOf(once, g).value, patch))] == once
  {
    PatchOverIdempotent(TaskOf(files, g).value, patch);
  }
}
