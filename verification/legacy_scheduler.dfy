/** The first per-guild scheduler, over the JSON state file: each guild's cron job is kept
    with a `running` flag meant to record whether it was started. */
module LegacyScheduler {
  import opened Util
  import opened ScheduleTypes
  import opened ScheduleStore
  import opened CronExpr

  /** A job entry: the cron job (its expression, its timezone, whether it is started) and
      the `running` flag stored beside it. */
  datatype JobInfo = JobInfo(expr: string, timeZone: string, started: bool, running: bool)

  /** Why `ensureJob` throws: the state file does not parse, or the cron library rejects
      the expression or zone. */
  datatype SchedError = StateUnreadable | CronRejected

  /** The flag is never set: every entry says `running: false`. */
  predicate FlagsClear(jobs: map<string, JobInfo>)
  {
    forall g :: g in jobs ==> !jobs[g].running
  }

  /** `ensureJob` once the guild's config has been read. */
  function Reconciled(jobs: map<string, JobInfo>, g: string, cfg: Result<Option<GuildScheduleConfig>, StoreError>,
                      accepts: CronCheck): Result<map<string, JobInfo>, SchedError>
  {
    match cfg
    case Err(_) => Err(StateUnreadable)
    case Ok(found) =>
      if found.None? || found.value.channelId == "" then Ok(jobs - {g})
      else
        var c := found.value;
        var expr := BuildCronExpr(c.time);
        if !accepts(expr, Some(c.timeZone)) then Err(CronRejected)
        else if g in jobs then
          var e := jobs[g];
          var started :=
            if c.enabled && !e.running then true
            else if !c.enabled && e.running then false
            else e.started;
          Ok(jobs[g := JobInfo(expr, c.timeZone, started, e.running)])
        else
          Ok(jobs[g := JobInfo(expr, c.timeZone, c.enabled, false)])
  }

  datatype Step = Step(result: Result<(), SchedError>, jobs: map<string, JobInfo>)

  /** `ensureJob(g)` against the state file: a failed call changes nothing. */
  function EnsureStep(jobs: map<string, JobInfo>, file: StateFile, g: string, accepts: CronCheck): Step
  {
    match Reconciled(jobs, g, ConfigOf(file, g), accepts)
    case Ok(j) => Step(Ok(()), j)
    case Err(e) => Step(Err(e), jobs)
  }

  datatype Outcome = Outcome(result: Result<(), SchedError>, file: StateFile, jobs: map<string, JobInfo>)

  /** A setter: `saveConfig` with a one-field patch, then `ensureJob`. */
  function SetField(file: StateFile, jobs: map<string, JobInfo>, g: string, patch: PartialConfig,
                    accepts: CronCheck): Outcome
  {
    match Saved(file, g, patch)
    case Err(_) => Outcome(Err(StateUnreadable), file, jobs)
    case Ok(s) =>
      var st := EnsureStep(jobs, Records(s), g, accepts);
      Outcome(st.result, Records(s), st.jobs)
  }

  /** `reloadAll(ids)`: `ensureJob` for each id in order; the first failure ends the loop. */
  function Reload(jobs: map<string, JobInfo>, file: StateFile, ids: seq<string>, accepts: CronCheck): Step
  {
    if ids == [] then Step(Ok(()), jobs)
    else
      var prev := Reload(jobs, file, ids[..|ids| - 1], accepts);
      if prev.result.Err? then prev else EnsureStep(prev.jobs, file, ids[|ids| - 1], accepts)
  }

  /** The channel a tick hands to `onTickSend`: the latest config's, when it is enabled and
      names one. */
  function TickTarget(file: StateFile, g: string): Option<string>
  {
    match ConfigOf(file, g)
    case Err(_) => None
    case Ok(found) =>
      if found.Some? && found.value.channelId != "" && found.value.enabled then Some(found.value.channelId) else None
  }

  class Scheduler {
    var jobs: map<string, JobInfo>
    const store: StateStore
    const accepts: CronCheck

    ghost predicate Valid()
      reads this, store
    {
      store.Valid() && FlagsClear(jobs)
    }

    constructor(store: StateStore, accepts: CronCheck)
      requires store.Valid()
      ensures Valid() && jobs == map[] && this.store == store && this.accepts == accepts
    {
      jobs := map[];
      this.store := store;
      this.accepts := accepts;
    }

    /** `removeJob`: stops and forgets the guild's job, if it has one. */
    method RemoveJob(g: string)
      modifies this
      ensures jobs == old(jobs) - {g}
    {
      if g in jobs {
        jobs := jobs[g := jobs[g].(started := false)];
        jobs := jobs - {g};
      }
    }

    method EnsureJob(g: string) returns (r: Result<(), SchedError>)
      requires Valid()
      modifies this
      ensures Valid()
      ensures Step(r, jobs) == EnsureStep(old(jobs), store.file, g, accepts)
    {
      var cfg := store.GetConfig(g);
      if cfg.Err? {
        return Err(StateUnreadable);
      }
      if cfg.value.None? || cfg.value.value.channelId == "" {
        RemoveJob(g);
        return Ok(());
      }
      var c := cfg.value.value;
      var expr := BuildCronExpr(c.time);
      if !accepts(expr, Some(c.timeZone)) {
        return Err(CronRejected);
      }
      if g in jobs {
        // re-time the job (it keeps its started state); the flag decides start and stop
        var existing := jobs[g].(expr := expr, timeZone := c.timeZone);
        if c.enabled && !existing.running {
          existing := existing.(started := true);
        }
        if !c.enabled && existing.running {
          existing := existing.(started := false);
        }
        jobs := jobs[g := existing];
      } else {
        var job := JobInfo(expr, c.timeZone, false, false);
        if c.enabled {
          job := job.(started := true);
        }
        jobs := jobs[g := job];
      }
      r := Ok(());
    }

    method Update(g: string, patch: PartialConfig) returns (r: Result<(), SchedError>)
      requires Valid()
      modifies this, store
      ensures Valid()
      ensures Outcome(r, store.file, jobs) == SetField(old(store.file), old(jobs), g, patch, accepts)
    {
      var saved := store.SaveConfig(g, patch);
      if saved.Err? {
        return Err(StateUnreadable);
      }
      r := EnsureJob(g);
    }

    method SetChannelID(g: string, channelId: string) returns (r: Result<(), SchedError>)
      requires Valid()
      modifies this, store
      ensures Valid()
      ensures Outcome(r, store.file, jobs)
              == SetField(old(store.file), old(jobs), g, PartialConfig(None, None, None, Some(channelId)), accepts)
    {
      r := Update(g, PartialConfig(None, None, None, Some(channelId)));
    }

    method SetEnabled(g: string, enabled: bool) returns (r: Result<(), SchedError>)
      requires Valid()
      modifies this, store
      ensures Valid()
      ensures Outcome(r, store.file, jobs)
              == SetField(old(store.file), old(jobs), g, PartialConfig(Some(enabled), None, None, None), accepts)
    {
      r := Update(g, PartialConfig(Some(enabled), None, None, None));
    }

    method SetTime(g: string, time: string) returns (r: Result<(), SchedError>)
      requires Valid()
      modifies this, store
      ensures Valid()
      ensures Outcome(r, store.file, jobs)
              == SetField(old(store.file), old(jobs), g, PartialConfig(None, Some(time), None, None), accepts)
    {
      r := Update(g, PartialConfig(None, Some(time), None, None));
    }

    method SetTimeZone(g: string, timeZone: string) returns (r: Result<(), SchedError>)
      requires Valid()
      modifies this, store
      ensures Valid()
      ensures Outcome(r, store.file, jobs)
              == SetField(old(store.file), old(jobs), g, PartialConfig(None, None, Some(timeZone), None), accepts)
    {
      r := Update(g, PartialConfig(None, None, Some(timeZone), None));
    }

    /** `reloadAll(ids)`. */
    method ReloadAll(ids: seq<string>) returns (r: Result<(), SchedError>)
      requires Valid()
      modifies this
      ensures Valid()
      ensures Step(r, jobs) == Reload(old(jobs), store.file, ids, accepts)
    {
      var i := 0;
      while i < |ids|
        invariant 0 <= i <= |ids|
        invariant Valid()
        invariant Reload(old(jobs), store.file, ids[..i], accepts) == Step(Ok(()), jobs)
      {
        assert ids[..i + 1][..i] == ids[..i];
        r := EnsureJob(ids[i]);
        if r.Err? {
          ReloadStopsAtFirstError(old(jobs), store.file, ids[..i + 1], ids[i + 1..], accepts);
          assert ids[..i + 1] + ids[i + 1..] == ids;
          return;
        }
        i := i + 1;
      }
      assert ids[..|ids|] == ids;
      r := Ok(());
    }

    /** `init`: reloads every guild the state file lists; a file that does not parse
        changes nothing. */
    method Init() returns (r: Result<(), SchedError>)
      requires Valid()
      modifies this
      ensures Valid()
      ensures GuildIdsOf(store.file).Err? ==> r == Err(StateUnreadable) && jobs == old(jobs)
      ensures GuildIdsOf(store.file).Ok? ==>
                Step(r, jobs) == Reload(old(jobs), store.file, GuildIdsOf(store.file).value, accepts)
    {
      var ids := store.ListGuildIds();
      if ids.Err? {
        return Err(StateUnreadable);
      }
      r := ReloadAll(ids.value);
    }

    /** The tick callback's guard. */
    method OnTick(g: string) returns (target: Option<string>)
      ensures target == TickTarget(store.file, g)
    {
      var latest := store.GetConfig(g);
      if latest.Err? || latest.value.None? {
        return None;
      }
      var cid := latest.value.value.channelId;
      if cid == "" || !latest.value.value.enabled {
        return None;
      }
      target := Some(cid);
    }
  }

  /** The flag stays clear: `ensureJob` never sets it. */
  lemma FlagsStayClear(jobs: map<string, JobInfo>, file: StateFile, g: string, accepts: CronCheck)
    requires FlagsClear(jobs)
    ensures FlagsClear(EnsureStep(jobs, file, g, accepts).jobs)
  {
  }

  /** With the flag clear, a job that was started stays started when its config is
      disabled: `!enabled && running` never holds, so nothing stops it. */
  lemma DisabledJobKeepsRunning(jobs: map<string, JobInfo>, file: StateFile, g: string, accepts: CronCheck)
    requires FlagsClear(jobs) && g in jobs && jobs[g].started
    requires ConfigOf(file, g).Ok? && ConfigOf(file, g).value.Some?
    requires var c := ConfigOf(file, g).value.value;
             c.channelId != "" && !c.enabled && accepts(BuildCronExpr(c.time), Some(c.timeZone))
    ensures var st := EnsureStep(jobs, file, g, accepts);
            st.result.Ok? && g in st.jobs && st.jobs[g].started
  {
  }

  /** Disabling through the setter, on a guild whose job was started, leaves the job
      started although the stored config now says disabled. */
  lemma SetEnabledFalseCannotStop(file: StateFile, jobs: map<string, JobInfo>, g: string, accepts: CronCheck)
    requires FlagsClear(jobs) && g in jobs && jobs[g].started
    requires ConfigOf(file, g).Ok? && ConfigOf(file, g).value.Some?
    requires var c := ConfigOf(file, g).value.value;
             c.channelId != "" && accepts(BuildCronExpr(c.time), Some(c.timeZone))
    ensures var out := SetField(file, jobs, g, PartialConfig(Some(false), None, None, None), accepts);
            out.result.Ok? && ConfigOf(out.file, g) == Ok(Some(ConfigOf(file, g).value.value.(enabled := false)))
            && g in out.jobs && out.jobs[g].started
  {
    var c := ConfigOf(file, g).value.value;
    var patch := PartialConfig(Some(false), None, None, None);
    SaveThenGet(file, g, patch);
    assert Overlay(c, patch) == c.(enabled := false);
    DisabledJobKeepsRunning(jobs, Records(Saved(file, g, patch).value), g, accepts);
  }

  /** `ensureJob` fails exactly when the file does not parse or the expression is rejected;
      a failure changes nothing. On success the guild has a job exactly when its config
      names a channel, re-timed to the config's time and zone, and started whenever the
      config is enabled; a new job is started exactly when it is enabled. */
  lemma EnsureFollowsConfig(jobs: map<string, JobInfo>, file: StateFile, g: string, accepts: CronCheck)
    requires FlagsClear(jobs)
    ensures var st := EnsureStep(jobs, file, g, accepts);
            var cfg := ConfigOf(file, g);
            (st.result.Err? <==>
               cfg.Err? || (cfg.value.Some? && cfg.value.value.channelId != ""
                            && !accepts(BuildCronExpr(cfg.value.value.time), Some(cfg.value.value.timeZone))))
            && (st.result.Err? ==> st.jobs == jobs)
            && (st.result.Ok? ==>
                  var has := cfg.value.Some? && cfg.value.value.channelId != "";
                  (g in st.jobs <==> has)
                  && (has ==> var c := cfg.value.value;
                              st.jobs[g].expr == BuildCronExpr(c.time) && st.jobs[g].timeZone == c.timeZone
                              && (c.enabled ==> st.jobs[g].started)
                              && (g !in jobs ==> st.jobs[g].started == c.enabled)))
  {
  }

  /** `ensureJob` and `removeJob` touch only the guild's own entry. */
  lemma EnsureKeepsOtherGuilds(jobs: map<string, JobInfo>, file: StateFile, g: string, h: string, accepts: CronCheck)
    requires h != g
    ensures var after := EnsureStep(jobs, file, g, accepts).jobs;
            (h in after <==> h in jobs) && (h in after ==> after[h] == jobs[h])
  {
  }

  /** Once a reload fails, the ids after the failing one are not visited. */
  lemma {:induction false} ReloadStopsAtFirstError(jobs: map<string, JobInfo>, file: StateFile, a: seq<string>,
                                                   b: seq<string>, accepts: CronCheck)
    requires Reload(jobs, file, a, accepts).result.Err?
    ensures Reload(jobs, file, a + b, accepts) == Reload(jobs, file, a, accepts)
    decreases |b|
  {
    if b != [] {
      ReloadStopsAtFirstError(jobs, file, a, b[..|b| - 1], accepts);
      assert (a + b)[..|a + b| - 1] == a + b[..|b| - 1];
    } else {
      assert a + b == a;
    }
  }

  /** The guild's stored config names a channel. */
  predicate NamesChannel(file: StateFile, g: string)
  {
    ConfigOf(file, g).Ok? && ConfigOf(file, g).value.Some? && ConfigOf(file, g).value.value.channelId != ""
  }

  /** A reload that succeeds leaves a job for exactly the listed guilds that have a channel,
      each re-timed to its config, and every other guild's entry as it was. */
  lemma {:induction false} ReloadFollowsConfigs(jobs: map<string, JobInfo>, file: StateFile, ids: seq<string>,
                                                accepts: CronCheck)
    requires FlagsClear(jobs)
    requires Reload(jobs, file, ids, accepts).result.Ok?
    ensures var after := Reload(jobs, file, ids, accepts).jobs;
            FlagsClear(after)
            && (forall g :: g in ids ==> ConfigOf(file, g).Ok? && (g in after <==> NamesChannel(file, g)))
            && (forall h :: h !in ids ==> (h in after <==> h in jobs) && (h in after ==> after[h] == jobs[h]))
  {
    if ids != [] {
      var init := ids[..|ids| - 1];
      var last := ids[|ids| - 1];
      var prev := Reload(jobs, file, init, accepts);
      ReloadFollowsConfigs(jobs, file, init, accepts);
      var after := EnsureStep(prev.jobs, file, last, accepts).jobs;
      EnsureFollowsConfig(prev.jobs, file, last, accepts);
      FlagsStayClear(prev.jobs, file, last, accepts);
      forall g | g in ids
        ensures ConfigOf(file, g).Ok? && (g in after <==> NamesChannel(file, g))
      {
        if g != last {
          assert g in init;
          EnsureKeepsOtherGuilds(prev.jobs, file, last, g, accepts);
        }
      }
      forall h | h !in ids
        ensures (h in after <==> h in jobs) && (h in after ==> after[h] == jobs[h])
      {
        assert h !in init && h != last;
        EnsureKeepsOtherGuilds(prev.jobs, file, last, h, accepts);
      }
    }
  }

  /** A tick sends to the latest config's channel, and only when that config is enabled
      and names a channel. */
  lemma TickGuard(file: StateFile, g: string)
    ensures TickTarget(file, g).Some? <==>
              ConfigOf(file, g).Ok? && ConfigOf(file, g).value.Some?
              && ConfigOf(file, g).value.value.channelId != "" && ConfigOf(file, g).value.value.enabled
    ensures TickTarget(file, g).Some? ==> TickTarget(file, g).value == ConfigOf(file, g).value.value.channelId
  {
  }
}
