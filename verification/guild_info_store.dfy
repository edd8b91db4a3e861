/** The per-guild info files: `<guild id>.json` holding named sections of string settings;
    the `git` section says how the bot reaches the guild's organisation. */
module GuildInfoStore {
  import opened Util

  type Section = map<string, string>
  type Info = map<string, Section>

  /** An info file: text that does not parse, or the sections it holds. A guild without a
      file has no entry. */
  datatype InfoFile = Corrupt | Schema(info: Info)

  datatype InfoError = ParseFailed | GitMissing

  const DefaultGit: Section := map["platform" := "GitHub", "authMethod" := "app", "key" := "", "org" := ""]

  /** The document `get` writes for a guild without a file. */
  const DefaultInfo: Info := map["git" := DefaultGit]

  /** The settings `infoComplete` demands. */
  const RequiredFields: seq<string> := ["platform", "authMethod", "key", "org"]

  /** `GuildInfo.get`: the stored sections, the default document for a guild without a
      file, an error for a file that does not parse. */
  function InfoOf(files: map<string, InfoFile>, g: string): Result<Info, InfoError>
  {
    if g !in files then Ok(DefaultInfo)
    else match files[g]
      case Corrupt => Err(ParseFailed)
      case Schema(info) => Ok(info)
  }

  /** The files after `get`: the default document is written for a guild without one. */
  function AfterGet(files: map<string, InfoFile>, g: string): map<string, InfoFile>
  {
    if g in files then files else files[g := Schema(DefaultInfo)]
  }

  /** `getGitInfo`: the `git` section, an error when it is missing. */
  function GitInfoOf(files: map<string, InfoFile>, g: string): Result<Section, InfoError>
  {
    match InfoOf(files, g)
    case Err(e) => Err(e)
    case Ok(info) => if "git" in info then Ok(info["git"]) else Err(GitMissing)
  }

  /** The section with the given pairs set on it, in order. */
  function Overlaid(section: Section, pairs: seq<(string, string)>): Section
  {
    if pairs == [] then section
    else
      var (k, v) := pairs[|pairs| - 1];
      Overlaid(section, pairs[..|pairs| - 1])[k := v]
  }

  /** The keys the pairs set. */
  function KeysOf(pairs: seq<(string, string)>): set<string>
  {
    if pairs == [] then {} else KeysOf(pairs[..|pairs| - 1]) + {pairs[|pairs| - 1].0}
  }

  ghost predicate DistinctKeys(pairs: seq<(string, string)>)
  {
    forall i, j :: 0 <= i < j < |pairs| ==> pairs[i].0 != pairs[j].0
  }

  /** The files after `setGitInfo`: the `git` section with the pairs set on it, every other
      section as it was; nothing is written when the `git` section cannot be read. */
  function AfterSetGit(files: map<string, InfoFile>, g: string, pairs: seq<(string, string)>): map<string, InfoFile>
  {
    match GitInfoOf(files, g)
    case Err(_) => files
    case Ok(git) => files[g := Schema(InfoOf(files, g).value["git" := Overlaid(git, pairs)])]
  }

  /** A missing setting reads as `undefined`, which like `""` is falsy. */
  function Field(section: Section, name: string): string
  {
    if name in section then section[name] else ""
  }

  /** `infoComplete`: the git section can be read and none of the four settings is empty. */
  predicate Complete(files: map<string, InfoFile>, g: string)
  {
    match GitInfoOf(files, g)
    case Err(_) => false
    case Ok(git) =>
      Field(git, "platform") != "" && Field(git, "authMethod") != ""
      && Field(git, "key") != "" && Field(git, "org") != ""
  }

  class GuildInfo {
    /** The guild info directory: guild id to that guild's file. */
    var files: map<string, InfoFile>

    constructor(files: map<string, InfoFile>)
      ensures this.files == files
    {
      this.files := files;
    }

    method Get(g: string) returns (r: Result<Info, InfoError>)
      modifies this
      ensures r == InfoOf(old(files), g)
      ensures files == AfterGet(old(files), g)
    {
      if g !in files {
        files := files[g := Schema(DefaultInfo)];
        return Ok(DefaultInfo);
      }
      match files[g]
      case Corrupt => r := Err(ParseFailed);
      case Schema(info) => r := Ok(info);
    }

    /** `GuildInfo.set`: replaces the guild's document. */
    method Set(g: string, info: Info)
      modifies this
      ensures files == old(files)[g := Schema(info)]
    {
      files := files[g := Schema(info)];
    }

    method GetGitInfo(g: string) returns (r: Result<Section, InfoError>)
      modifies this
      ensures r == GitInfoOf(old(files), g)
      ensures files == AfterGet(old(files), g)
    {
      var info := Get(g);
      if info.Err? {
        return Err(info.error);
      }
      if "git" !in info.value {
        return Err(GitMissing);
      }
      r := Ok(info.value["git"]);
    }

    /** `setGitInfo`: sets each given pair on the `git` section and writes the document
        back. Without a `git` section the update fails before anything is written. */
    method SetGitInfo(g: string, gitInfo: seq<(string, string)>) returns (r: Result<(), InfoError>)
      modifies this
      ensures r.Ok? <==> GitInfoOf(old(files), g).Ok?
      ensures files == AfterSetGit(old(files), g, gitInfo)
    {
      var info := Get(g);
      if info.Err? {
        return Err(info.error);
      }
      if "git" !in info.value {
        return Err(GitMissing);
      }
      var resultGitInfo := info.value["git"];
      var i := 0;
      while i < |gitInfo|
        invariant 0 <= i <= |gitInfo|
        invariant resultGitInfo == Overlaid(info.value["git"], gitInfo[..i])
      {
        var (key, value) := gitInfo[i];
        resultGitInfo := resultGitInfo[key := value];
        assert gitInfo[..i + 1][..i] == gitInfo[..i];
        i := i + 1;
      }
      assert gitInfo[..|gitInfo|] == gitInfo;
      Set(g, info.value["git" := resultGitInfo]);
      r := Ok(());
    }

    method InfoComplete(g: string) returns (complete: bool)
      modifies this
      ensures complete == Complete(old(files), g)
      ensures files == AfterGet(old(files), g)
    {
      var gitInfo := GetGitInfo(g);
      if gitInfo.Err? {
        return false;
      }
      var git := gitInfo.value;
      if Field(git, "platform") == "" || Field(git, "authMethod") == "" || Field(git, "key") == "" || Field(git, "org") == "" {
        return false;
      }
      return true;
    }
  }

  /** Setting pairs with distinct keys gives each key its value, and leaves every key not
      among them as it was. */
  lemma {:induction false} OverlaidLookup(section: Section, pairs: seq<(string, string)>)
    requires DistinctKeys(pairs)
    ensures var r := Overlaid(section, pairs);
            forall i :: 0 <= i < |pairs| ==> pairs[i].0 in r && r[pairs[i].0] == pairs[i].1
    ensures var r := Overlaid(section, pairs);
            forall k :: k !in KeysOf(pairs) ==> (k in r <==> k in section) && (k in section ==> r[k] == section[k])
  {
    if pairs != [] {
      var init := pairs[..|pairs| - 1];
      assert DistinctKeys(init) by {
        forall i, j | 0 <= i < j < |init|
          ensures init[i].0 != init[j].0
        {
          assert init[i] == pairs[i] && init[j] == pairs[j];
        }
      }
      OverlaidLookup(section, init);
      forall i | 0 <= i < |init|
        ensures pairs[i].0 != pairs[|pairs| - 1].0
      {
      }
    }
  }

  /** `get` on a guild without a file writes the default document, whose git section is
      GitHub through the app with no key and no organisation; it is not complete. */
  lemma DefaultIncomplete(files: map<string, InfoFile>, g: string)
    requires g !in files
    ensures AfterGet(files, g)[g] == Schema(DefaultInfo)
    ensures GitInfoOf(files, g) == Ok(DefaultGit)
    ensures Field(DefaultGit, "platform") == "GitHub" && Field(DefaultGit, "authMethod") == "app"
    ensures !Complete(files, g)
  {
    assert Field(DefaultGit, "key") == "";
  }

  /** The info is complete exactly when the git section can be read and each required
      setting is present and non-empty. */
  lemma CompleteIff(files: map<string, InfoFile>, g: string)
    ensures Complete(files, g) <==>
              GitInfoOf(files, g).Ok?
              && forall f :: f in RequiredFields ==> f in GitInfoOf(files, g).value && GitInfoOf(files, g).value[f] != ""
  {
    if GitInfoOf(files, g).Ok? {
      var git := GitInfoOf(files, g).value;
      assert RequiredFields[0] == "platform" && RequiredFields[1] == "authMethod";
      assert RequiredFields[2] == "key" && RequiredFields[3] == "org";
    }
  }

  /** `getGitInfo` fails exactly for a file that does not parse or has no git section. */
  lemma GitInfoErrors(files: map<string, InfoFile>, g: string)
    ensures GitInfoOf(files, g).Err? <==>
              g in files && (files[g].Corrupt? || "git" !in files[g].info)
  {
  }

  /** `setGitInfo` changes only the git section of the guild's document: the given keys
      take their values, every other setting and section stays; other guilds are untouched. */
  lemma SetGitKeepsTheRest(files: map<string, InfoFile>, g: string, pairs: seq<(string, string)>, h: string)
    requires GitInfoOf(files, g).Ok? && DistinctKeys(pairs)
    ensures var before := InfoOf(files, g).value;
            var after := InfoOf(AfterSetGit(files, g, pairs), g).value;
            (forall s :: s != "git" ==> (s in after <==> s in before) && (s in before ==> after[s] == before[s]))
            && GitInfoOf(AfterSetGit(files, g, pairs), g).Ok?
    ensures var git := GitInfoOf(files, g).value;
            var git' := GitInfoOf(AfterSetGit(files, g, pairs), g).value;
            (forall i :: 0 <= i < |pairs| ==> pairs[i].0 in git' && git'[pairs[i].0] == pairs[i].1)
            && forall k :: k !in KeysOf(pairs) ==> (k in git' <==> k in git) && (k in git ==> git'[k] == git[k])
    ensures h != g ==> (h in AfterSetGit(files, g, pairs) <==> h in files)
    ensures h != g && h in files ==> AfterSetGit(files, g, pairs)[h] == files[h]
  {
    OverlaidLookup(GitInfoOf(files, g).value, pairs);
  }

  /** A guild without a file that is given a key and an organisation is then complete. */
  lemma SettingKeyAndOrgCompletes(files: map<string, InfoFile>, g: string, key: string, org: string)
    requires g !in files && key != "" && org != ""
    ensures Complete(AfterSetGit(files, g, [("key", key), ("org", org)]), g)
  {
    var pairs := [("key", key), ("org", org)];
    OverlaidLookup(DefaultGit, pairs);
    assert pairs[0].0 == "key" && pairs[1].0 == "org";
    assert pairs[..1] == [("key", key)];
    assert KeysOf(pairs[..1]) == {"key"} by {
      assert pairs[..1][..0] == [];
    }
    assert KeysOf(pairs) == {"key", "org"};
  }
}
