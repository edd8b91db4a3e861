/** The JSON state file of the first scheduler: one document mapping guild ids to their
    schedule configs. */
module ScheduleStore {
  import opened Util
  import opened ScheduleTypes

  /** The config a guild gets for every field its first patch leaves out. */
  const Defaults: GuildScheduleConfig := GuildScheduleConfig(false, "08:00", "America/Toronto", "")

  /** The document: guild id to config, and the ids in the order `Object.keys` lists them
      (insertion order; a later assignment to an existing id keeps its place). */
  datatype State = State(configs: map<string, GuildScheduleConfig>, ids: seq<string>)

  const EmptyState: State := State(map[], [])

  /** The ids are exactly the keys, each listed once: what any JSON object gives. */
  ghost predicate WellFormed(s: State)
  {
    Distinct(s.ids) && forall g :: g in s.configs <==> g in s.ids
  }

  /** What is on disk: no file, an empty file, text that does not parse, a JSON value that
      is not an object (a number, string, boolean or null), or an object of configs. */
  datatype StateFile = Missing | Blank | Corrupt | NotObject | Records(state: State)

  datatype StoreError = Unparsable

  /** `load`: a missing or empty file, or a value that is not an object, reads as the empty
      document; text that does not parse is an error. */
  function Load(f: StateFile): (r: Result<State, StoreError>)
    ensures r.Err? <==> f.Corrupt?
    ensures f.Records? ==> r == Ok(f.state)
    ensures !f.Records? && !f.Corrupt? ==> r == Ok(EmptyState)
  {
    match f
    case Missing => Ok(EmptyState)
    case Blank => Ok(EmptyState)
    case NotObject => Ok(EmptyState)
    case Corrupt => Err(Unparsable)
    case Records(s) => Ok(s)
  }

  /** `state[id] = cfg`: a new id goes to the end of the key order. */
  function Put(s: State, g: string, cfg: GuildScheduleConfig): State
  {
    State(s.configs[g := cfg], if g in s.configs then s.ids else s.ids + [g])
  }

  /** `ids` without `g`. */
  function Without(ids: seq<string>, g: string): (r: seq<string>)
    ensures forall h :: h in r <==> h in ids && h != g
  {
    if ids == [] then []
    else
      var rest := Without(ids[..|ids| - 1], g);
      if ids[|ids| - 1] == g then rest else rest + [ids[|ids| - 1]]
  }

  /** `delete state[id]`. */
  function Remove(s: State, g: string): State
  {
    State(s.configs - {g}, Without(s.ids, g))
  }

  /** `getConfig`: the stored config, or None for a guild without one. */
  function ConfigOf(f: StateFile, g: string): (r: Result<Option<GuildScheduleConfig>, StoreError>)
    ensures r.Err? <==> f.Corrupt?
    ensures r.Ok? ==> (r.value.Some? <==> g in Load(f).value.configs)
  {
    match Load(f)
    case Err(e) => Err(e)
    case Ok(s) => Ok(if g in s.configs then Some(s.configs[g]) else None)
  }

  /** The config a patch is laid over: the stored one, else the defaults. */
  function Current(s: State, g: string): GuildScheduleConfig
  {
    if g in s.configs then s.configs[g] else Defaults
  }

  /** The document `saveConfig` writes. */
  function Saved(f: StateFile, g: string, patch: PartialConfig): Result<State, StoreError>
  {
    match Load(f)
    case Err(e) => Err(e)
    case Ok(s) => Ok(Put(s, g, Overlay(Current(s, g), patch)))
  }

  /** The document `upsertConfig` writes. */
  function Upserted(f: StateFile, g: string, cfg: GuildScheduleConfig): Result<State, StoreError>
  {
    match Load(f)
    case Err(e) => Err(e)
    case Ok(s) => Ok(Put(s, g, cfg))
  }

  /** The document `deleteConfig` writes, or None when it writes nothing. */
  function Deleted(f: StateFile, g: string): Result<Option<State>, StoreError>
  {
    match Load(f)
    case Err(e) => Err(e)
    case Ok(s) => Ok(if g in s.configs then Some(Remove(s, g)) else None)
  }

  /** `listGuildIds`. */
  function GuildIdsOf(f: StateFile): Result<seq<string>, StoreError>
  {
    match Load(f)
    case Err(e) => Err(e)
    case Ok(s) => Ok(s.ids)
  }

  class StateStore {
    /** The state file. */
    var file: StateFile

    ghost predicate Valid()
      reads this
    {
      file.Records? ==> WellFormed(file.state)
    }

    constructor(initial: StateFile)
      requires initial.Records? ==> WellFormed(initial.state)
      ensures file == initial && Valid()
    {
      file := initial;
    }

    method GetConfig(g: string) returns (r: Result<Option<GuildScheduleConfig>, StoreError>)
      ensures r == ConfigOf(file, g)
    {
      var st := Load(file);
      if st.Err? {
        return Err(st.error);
      }
      if g in st.value.configs {
        r := Ok(Some(st.value.configs[g]));
      } else {
        r := Ok(None);
      }
    }

    /** `saveConfig`: the stored config (or the defaults) with the patch laid over it; a
        file that does not parse is left as it is. */
    method SaveConfig(g: string, patch: PartialConfig) returns (r: Result<(), StoreError>)
      requires Valid()
      modifies this
      ensures Valid()
      ensures r.Ok? <==> Saved(old(file), g, patch).Ok?
      ensures r.Ok? ==> file == Records(Saved(old(file), g, patch).value)
      ensures r.Err? ==> file == old(file)
    {
      var st := Load(file);
      if st.Err? {
        return Err(st.error);
      }
      var state := st.value;
      var current := if g in state.configs then state.configs[g] else Defaults;
      var next := Overlay(current, patch);
      state := Put(state, g, next);
      PutWellFormed(st.value, g, next);
      file := Records(state);
      r := Ok(());
    }

    method UpsertConfig(g: string, cfg: GuildScheduleConfig) returns (r: Result<(), StoreError>)
      requires Valid()
      modifies this
      ensures Valid()
      ensures r.Ok? <==> Upserted(old(file), g, cfg).Ok?
      ensures r.Ok? ==> file == Records(Upserted(old(file), g, cfg).value)
      ensures r.Err? ==> file == old(file)
    {
      var st := Load(file);
      if st.Err? {
        return Err(st.error);
      }
      PutWellFormed(st.value, g, cfg);
      file := Records(Put(st.value, g, cfg));
      r := Ok(());
    }

    /** `deleteConfig`: writes only when the guild has a config. */
    method DeleteConfig(g: string) returns (r: Result<(), StoreError>)
      requires Valid()
      modifies this
      ensures Valid()
      ensures r.Ok? <==> Deleted(old(file), g).Ok?
      ensures r.Ok? && Deleted(old(file), g).value.Some? ==> file == Records(Deleted(old(file), g).value.value)
      ensures r.Err? || Deleted(old(file), g).value.None? ==> file == old(file)
    {
      var st := Load(file);
      if st.Err? {
        return Err(st.error);
      }
      if g in st.value.configs {
        RemoveWellFormed(st.value, g);
        file := Records(Remove(st.value, g));
      }
      r := Ok(());
    }

    method ListGuildIds() returns (r: Result<seq<string>, StoreError>)
      ensures r == GuildIdsOf(file)
    {
      var st := Load(file);
      if st.Err? {
        return Err(st.error);
      }
      r := Ok(st.value.ids);
    }
  }

  lemma PutWellFormed(s: State, g: string, cfg: GuildScheduleConfig)
    requires WellFormed(s)
    ensures WellFormed(Put(s, g, cfg))
  {
  }

  lemma RemoveWellFormed(s: State, g: string)
    requires WellFormed(s)
    ensures WellFormed(Remove(s, g))
  {
    WithoutDistinct(s.ids, g);
  }

  lemma {:induction false} WithoutDistinct(ids: seq<string>, g: string)
    requires Distinct(ids)
    ensures Distinct(Without(ids, g))
  {
    if ids != [] {
      var init := ids[..|ids| - 1];
      WithoutDistinct(init, g);
      assert ids[|ids| - 1] !in init;
    }
  }

  /** Loading never yields a malformed document from a well-formed file. */
  lemma LoadWellFormed(f: StateFile)
    requires f.Records? ==> WellFormed(f.state)
    ensures Load(f).Ok? ==> WellFormed(Load(f).value)
  {
  }

  /** After a save the guild reads back its previous config (the defaults for a guild
      without one) with the patch laid over it. */
  lemma SaveThenGet(f: StateFile, g: string, patch: PartialConfig)
    requires Saved(f, g, patch).Ok?
    ensures ConfigOf(f, g).Ok?
    ensures var prev := ConfigOf(f, g).value;
            var base := if prev.Some? then prev.value else Defaults;
            ConfigOf(Records(Saved(f, g, patch).value), g) == Ok(Some(Overlay(base, patch)))
  {
  }

  /** A first save fills every field the patch leaves out from the defaults. */
  lemma FirstSaveUsesDefaults(f: StateFile, g: string, patch: PartialConfig)
    requires ConfigOf(f, g) == Ok(None)
    ensures var c := Overlay(Defaults, patch);
            Saved(f, g, patch).Ok?
            && Saved(f, g, patch).value.configs[g] == c
            && (patch.enabled.None? ==> !c.enabled)
            && (patch.time.None? ==> c.time == "08:00")
            && (patch.timeZone.None? ==> c.timeZone == "America/Toronto")
            && (patch.channelId.None? ==> c.channelId == "")
  {
  }

  /** Saving, upserting or deleting one guild leaves every other guild's config as it was. */
  lemma WritesKeepOtherGuilds(f: StateFile, g: string, h: string, patch: PartialConfig, cfg: GuildScheduleConfig)
    requires h != g && !f.Corrupt?
    ensures ConfigOf(Records(Saved(f, g, patch).value), h) == ConfigOf(f, h)
    ensures ConfigOf(Records(Upserted(f, g, cfg).value), h) == ConfigOf(f, h)
    ensures Deleted(f, g).value.Some? ==> ConfigOf(Records(Deleted(f, g).value.value), h) == ConfigOf(f, h)
  {
  }

  /** A second save of the same patch writes the same document again. */
  lemma SaveIdempotent(f: StateFile, g: string, patch: PartialConfig)
    requires Saved(f, g, patch).Ok?
    ensures Saved(Records(Saved(f, g, patch).value), g, patch) == Saved(f, g, patch)
  {
    var s := Load(f).value;
    var c := Overlay(Current(s, g), patch);
    OverlayIdempotent(Current(s, g), patch);
    var s' := Put(s, g, c);
    assert Current(s', g) == c;
    assert Put(s', g, c) == s';
  }

  /** An upsert replaces the whole config. */
  lemma UpsertThenGet(f: StateFile, g: string, cfg: GuildScheduleConfig)
    requires !f.Corrupt?
    ensures ConfigOf(Records(Upserted(f, g, cfg).value), g) == Ok(Some(cfg))
  {
  }

  /** A delete leaves the guild without a config, and writes only when it had one. */
  lemma DeleteThenGet(f: StateFile, g: string)
    requires !f.Corrupt?
    ensures Deleted(f, g).value.None? <==> ConfigOf(f, g) == Ok(None)
    ensures Deleted(f, g).value.Some? ==> ConfigOf(Records(Deleted(f, g).value.value), g) == Ok(None)
  {
  }

  /** The listed ids are the guilds with a config, each once, in the order they were first
      saved; a save appends a new guild and keeps the order otherwise. */
  lemma GuildIdsListConfigs(f: StateFile, g: string, patch: PartialConfig)
    requires f.Records? ==> WellFormed(f.state)
    requires !f.Corrupt?
    ensures var ids := GuildIdsOf(f).value;
            Distinct(ids) && forall h :: h in ids <==> ConfigOf(f, h).value.Some?
    ensures var ids := GuildIdsOf(f).value;
            GuildIdsOf(Records(Saved(f, g, patch).value)).value
              == if g in ids then ids else ids + [g]
  {
  }
}
