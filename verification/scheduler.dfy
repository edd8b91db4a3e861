/** The live per-guild scheduler: a table of cron jobs, one per guild, kept in step with
    the guild's task file. */
module GuildScheduler {
  import opened Util
  import opened ScheduleTypes
  import opened TaskStore
  import opened CronExpr

  /** A cron job: its expression, its timezone (None: the host's), whether it is started,
      and the number it was created under, which tells one job object from another. */
  datatype Job = Job(expr: string, timeZone: Option<string>, running: bool, serial: nat)

  /** The job table and how many jobs have been created. */
  datatype Registry = Registry(jobs: map<string, Job>, created: nat)

  /** Why `ensureJob` throws: the task file cannot be read, the config has a channel but no
      time (`split` of `undefined`), or the cron library rejects the expression or zone. */
  datatype SchedError = ConfigUnreadable | TimeMissing | CronRejected

  /** `cfg.channelId` is truthy. */
  predicate HasChannel(c: PartialConfig)
  {
    c.channelId.Some? && c.channelId.value != ""
  }

  /** `cfg.enabled` is truthy. */
  predicate IsEnabled(c: PartialConfig)
  {
    c.enabled == Some(true)
  }

  /** Every job was created before the current count. */
  predicate SerialsBelow(reg: Registry)
  {
    forall g :: g in reg.jobs ==> reg.jobs[g].serial < reg.created
  }

  /** `removeJob`. */
  function Removed(reg: Registry, g: string): Registry
  {
    Registry(reg.jobs - {g}, reg.created)
  }

  /** `ensureJob` once the guild's config has been read. */
  function Reconciled(reg: Registry, g: string, cfg: Result<PartialConfig, TaskError>, accepts: CronCheck)
    : Result<Registry, SchedError>
  {
    match cfg
    case Err(_) => Err(ConfigUnreadable)
    case Ok(c) =>
      if !HasChannel(c) then Ok(Removed(reg, g))
      else if c.time.None? then Err(TimeMissing)
      else
        var expr := BuildCronExpr(c.time.value);
        if !accepts(expr, c.timeZone) then Err(CronRejected)
        else if g in reg.jobs then
          Ok(Registry(reg.jobs[g := Job(expr, c.timeZone, IsEnabled(c), reg.jobs[g].serial)], reg.created))
        else
          Ok(Registry(reg.jobs[g := Job(expr, c.timeZone, IsEnabled(c), reg.created)], reg.created + 1))
  }

  /** What a call leaves behind: its result and the job table. */
  datatype Step = Step(result: Result<(), SchedError>, reg: Registry)

  /** `ensureJob(g)` against the task files: a failed call changes nothing. */
  function EnsureStep(reg: Registry, files: map<string, TaskFile>, g: string, accepts: CronCheck): Step
  {
    match Reconciled(reg, g, TaskOf(files, g), accepts)
    case Ok(r) => Step(Ok(()), r)
    case Err(e) => Step(Err(e), reg)
  }

  /** The task directory and the job table together. */
  datatype World = World(files: map<string, TaskFile>, names: seq<string>, reg: Registry)

  datatype Outcome = Outcome(result: Result<(), SchedError>, world: World)

  /** A setter: `Tasks.set` with a one-field patch, then `ensureJob`. */
  function SetField(w: World, g: string, patch: PartialConfig, accepts: CronCheck): Outcome
  {
    match TaskOf(w.files, g)
    case Err(_) => Outcome(Err(ConfigUnreadable), w)
    case Ok(original) =>
      var name := FileName(g);
      var files := w.files[name := Doc(PatchOver(original, patch))];
      var names := if name in w.files then w.names else w.names + [name];
      var st := EnsureStep(w.reg, files, g, accepts);
      Outcome(st.result, World(files, names, st.reg))
  }

  /** `reloadAll`: `ensureJob` for each listed guild in order; the first failure ends the
      loop. */
  function Reload(reg: Registry, files: map<string, TaskFile>, ids: seq<string>, accepts: CronCheck): Step
  {
    if ids == [] then Step(Ok(()), reg)
    else
      var prev := Reload(reg, files, ids[..|ids| - 1], accepts);
      if prev.result.Err? then prev else EnsureStep(prev.reg, files, ids[|ids| - 1], accepts)
  }

  /** The channel a tick sends to: the latest config must be readable, have a channel and
      be enabled. */
  function TickTarget(files: map<string, TaskFile>, g: string): Option<string>
  {
    match TaskOf(files, g)
    case Err(_) => None
    case Ok(c) => if HasChannel(c) && IsEnabled(c) then Some(c.channelId.value) else None
  }

  class Scheduler {
    var jobs: map<string, Job>
    var created: nat
    const tasks: Tasks
    const accepts: CronCheck

    function Current(): Registry
      reads this
    {
      Registry(jobs, created)
    }

    function WorldOf(): World
      reads this, tasks
    {
      World(tasks.files, tasks.names, Current())
    }

    ghost predicate Valid()
      reads this, tasks
    {
      tasks.Valid() && SerialsBelow(Current())
    }

    constructor(tasks: Tasks, accepts: CronCheck)
      requires tasks.Valid()
      ensures Valid() && jobs == map[] && created == 0
      ensures this.tasks == tasks && this.accepts == accepts
    {
      jobs := map[];
      created := 0;
      this.tasks := tasks;
      this.accepts := accepts;
    }

    /** `removeJob`: stops and forgets the guild's job, if it has one. */
    method RemoveJob(g: string)
      modifies this
      ensures Current() == Removed(old(Current()), g)
    {
      if g in jobs {
        jobs := jobs[g := jobs[g].(running := false)];
        jobs := jobs - {g};
      }
    }

    /** `ensureJob`: brings the guild's job in line with its task file. */
    method EnsureJob(g: string) returns (r: Result<(), SchedError>)
      requires Valid()
      modifies this
      ensures Valid()
      ensures Step(r, Current()) == EnsureStep(old(Current()), tasks.files, g, accepts)
    {
      var cfg := tasks.Get(g);
      if cfg.Err? {
        return Err(ConfigUnreadable);
      }
      var c := cfg.value;
      if !HasChannel(c) {
        RemoveJob(g);
        return Ok(());
      }
      if c.time.None? {
        return Err(TimeMissing);
      }
      var expr := BuildCronExpr(c.time.value);
      if !accepts(expr, c.timeZone) {
        return Err(CronRejected);
      }
      if g in jobs {
        // re-time the existing job (it keeps its started state), then start or stop it
        var job := jobs[g].(expr := expr, timeZone := c.timeZone);
        if IsEnabled(c) {
          job := job.(running := true);
        } else {
          job := job.(running := false);
        }
        jobs := jobs[g := job];
      } else {
        var job := Job(expr, c.timeZone, false, created);
        if IsEnabled(c) {
          job := job.(running := true);
        }
        jobs := jobs[g := job];
        created := created + 1;
      }
      r := Ok(());
    }

    method Update(g: string, patch: PartialConfig) returns (r: Result<(), SchedError>)
      requires Valid()
      modifies this, tasks
      ensures Valid()
      ensures Outcome(r, WorldOf()) == SetField(old(WorldOf()), g, patch, accepts)
    {
      var saved := tasks.Set(g, patch);
      if saved.Err? {
        return Err(ConfigUnreadable);
      }
      r := EnsureJob(g);
    }

    method SetChannelID(g: string, channelId: string) returns (r: Result<(), SchedError>)
      requires Valid()
      modifies this, tasks
      ensures Valid()
      ensures Outcome(r, WorldOf()) == SetField(old(WorldOf()), g, PartialConfig(None, None, None, Some(channelId)), accepts)
    {
      r := Update(g, PartialConfig(None, None, None, Some(channelId)));
    }

    method SetEnabled(g: string, enabled: bool) returns (r: Result<(), SchedError>)
      requires Valid()
      modifies this, tasks
      ensures Valid()
      ensures Outcome(r, WorldOf()) == SetField(old(WorldOf()), g, PartialConfig(Some(enabled), None, None, None), accepts)
    {
      r := Update(g, PartialConfig(Some(enabled), None, None, None));
    }

    method SetTime(g: string, time: string) returns (r: Result<(), SchedError>)
      requires Valid()
      modifies this, tasks
      ensures Valid()
      ensures Outcome(r, WorldOf()) == SetField(old(WorldOf()), g, PartialConfig(None, Some(time), None, None), accepts)
    {
      r := Update(g, PartialConfig(None, Some(time), None, None));
    }

    method SetTimeZone(g: string, timeZone: string) returns (r: Result<(), SchedError>)
      requires Valid()
      modifies this, tasks
      ensures Valid()
      ensures Outcome(r, WorldOf()) == SetField(old(WorldOf()), g, PartialConfig(None, None, Some(timeZone), None), accepts)
    {
      r := Update(g, PartialConfig(None, None, Some(timeZone), None));
    }

    /** `reloadAll`: reconciles every guild that has a task file, in listing order. */
    method ReloadAll() returns (r: Result<(), SchedError>)
      requires Valid()
      modifies this
      ensures Valid()
      ensures Step(r, Current()) == Reload(old(Current()), tasks.files, GuildsOf(tasks.names), accepts)
    {
      var ids := tasks.ListGuilds();
      var i := 0;
      while i < |ids|
        invariant 0 <= i <= |ids|
        invariant Valid()
        invariant Reload(old(Current()), tasks.files, ids[..i], accepts) == Step(Ok(()), Current())
      {
        assert ids[..i + 1][..i] == ids[..i];
        r := EnsureJob(ids[i]);
        if r.Err? {
          assert ids[..i + 1] == ids[..i] + [ids[i]];
          ReloadStopsAtFirstError(old(Current()), tasks.files, ids[..i + 1], ids[i + 1..], accepts);
          assert ids[..i + 1] + ids[i + 1..] == ids;
          return;
        }
        i := i + 1;
      }
      assert ids[..|ids|] == ids;
      r := Ok(());
    }

    /** The tick callback's guard: it re-reads the task file and sends only to a channel of
        an enabled config. */
    method OnTick(g: string) returns (target: Option<string>)
      ensures target == TickTarget(tasks.files, g)
    {
      var latest := tasks.Get(g);
      if latest.Err? {
        return None;
      }
      var c := latest.value;
      if !HasChannel(c) || !IsEnabled(c) {
        return None;
      }
      target := Some(c.channelId.value);
    }
  }

  /** The guild's job agrees with a readable config: present exactly when the config has a
      channel, with the expression built from its time, its timezone, and started exactly
      when it is enabled. */
  ghost predicate JobMatches(reg: Registry, files: map<string, TaskFile>, g: string)
  {
    TaskOf(files, g).Ok?
    && var c := TaskOf(files, g).value;
       (g in reg.jobs <==> HasChannel(c))
       && (g in reg.jobs ==>
             c.time.Some? && reg.jobs[g].expr == BuildCronExpr(c.time.value)
             && reg.jobs[g].timeZone == c.timeZone && reg.jobs[g].running == IsEnabled(c))
  }

  /** `ensureJob` fails exactly when the file cannot be read, or the config has a channel
      but no time or a rejected expression; a failure changes nothing, and a success leaves
      the guild's job matching the config. */
  lemma EnsureMatchesConfig(reg: Registry, files: map<string, TaskFile>, g: string, accepts: CronCheck)
    ensures var st := EnsureStep(reg, files, g, accepts);
            var cfg := TaskOf(files, g);
            (st.result.Err? <==>
               cfg.Err? || (HasChannel(cfg.value)
                            && (cfg.value.time.None? || !accepts(BuildCronExpr(cfg.value.time.value), cfg.value.timeZone))))
            && (st.result.Err? ==> st.reg == reg)
            && (st.result.Ok? ==> JobMatches(st.reg, files, g))
  {
  }

  /** `ensureJob` and `removeJob` touch only the guild's own entry. */
  lemma EnsureKeepsOtherGuilds(reg: Registry, files: map<string, TaskFile>, g: string, h: string, accepts: CronCheck)
    requires h != g
    ensures var jobs := EnsureStep(reg, files, g, accepts).reg.jobs;
            (h in jobs <==> h in reg.jobs) && (h in jobs ==> jobs[h] == reg.jobs[h])
    ensures var jobs := Removed(reg, g).jobs;
            (h in jobs <==> h in reg.jobs) && (h in jobs ==> jobs[h] == reg.jobs[h])
  {
  }

  /** `removeJob` on a guild without a job changes nothing. */
  lemma RemoveWithoutJob(reg: Registry, g: string)
    requires g !in reg.jobs
    ensures Removed(reg, g) == reg
  {
  }

  /** An existing job is re-timed in place: the same job object stays registered and no
      job is created. Otherwise exactly one new job is created, distinct from every job
      before it. */
  lemma ExistingJobKept(reg: Registry, files: map<string, TaskFile>, g: string, accepts: CronCheck)
    requires SerialsBelow(reg)
    ensures var after := EnsureStep(reg, files, g, accepts).reg;
            SerialsBelow(after)
            && (g in reg.jobs && g in after.jobs ==>
                  after.jobs[g].serial == reg.jobs[g].serial && after.created == reg.created)
            && (g !in reg.jobs && g in after.jobs ==>
                  after.jobs[g].serial == reg.created && after.created == reg.created + 1
                  && forall h :: h in reg.jobs ==> reg.jobs[h].serial != after.jobs[g].serial)
            && (g !in after.jobs ==> after.created == reg.created)
  {
  }

  /** Reconciling twice against the same files is reconciling once. */
  lemma EnsureIdempotent(reg: Registry, files: map<string, TaskFile>, g: string, accepts: CronCheck)
    ensures var once := EnsureStep(reg, files, g, accepts);
            EnsureStep(once.reg, files, g, accepts) == once
  {
  }

  /** Each setter, applied twice, gives the result and state of applying it once. */
  lemma SetFieldIdempotent(w: World, g: string, patch: PartialConfig, accepts: CronCheck)
    ensures var once := SetField(w, g, patch, accepts);
            SetField(once.world, g, patch, accepts) == once
  {
    var once := SetField(w, g, patch, accepts);
    if TaskOf(w.files, g).Ok? {
      var original := TaskOf(w.files, g).value;
      PatchOverIdempotent(original, patch);
      var files := once.world.files;
      assert TaskOf(files, g) == Ok(PatchOver(original, patch));
      assert files[FileName(g) := Doc(PatchOver(PatchOver(original, patch), patch))] == files;
      EnsureIdempotent(w.reg, files, g, accepts);
    }
  }

  /** A guild without a task file that is first given a channel fails in `split`: the
      channel is saved but no job is registered. */
  lemma ChannelBeforeTimeFails(w: World, g: string, channelId: string, accepts: CronCheck)
    requires FileName(g) !in w.files && channelId != ""
    ensures var out := SetField(w, g, PartialConfig(None, None, None, Some(channelId)), accepts);
            out.result == Err(TimeMissing)
            && TaskOf(out.world.files, g) == Ok(PartialConfig(None, None, None, Some(channelId)))
            && out.world.reg == w.reg
  {
  }

  /** Once a reload fails, the guilds after the failing one are not visited. */
  lemma {:induction false} ReloadStopsAtFirstError(reg: Registry, files: map<string, TaskFile>, a: seq<string>,
                                                   b: seq<string>, accepts: CronCheck)
    requires Reload(reg, files, a, accepts).result.Err?
    ensures Reload(reg, files, a + b, accepts) == Reload(reg, files, a, accepts)
    decreases |b|
  {
    if b != [] {
      ReloadStopsAtFirstError(reg, files, a, b[..|b| - 1], accepts);
      assert (a + b)[..|a + b| - 1] == a + b[..|b| - 1];
    } else {
      assert a + b == a;
    }
  }

  /** A reload that succeeds leaves every listed guild's job matching its config, and every
      guild that is not listed with the job it had. */
  lemma {:induction false} ReloadMatchesConfigs(reg: Registry, files: map<string, TaskFile>, ids: seq<string>,
                                                accepts: CronCheck)
    requires Distinct(ids)
    requires Reload(reg, files, ids, accepts).result.Ok?
    ensures var after := Reload(reg, files, ids, accepts).reg;
            (forall g :: g in ids ==> JobMatches(after, files, g))
            && (forall h :: h !in ids ==> (h in after.jobs <==> h in reg.jobs)
                                          && (h in after.jobs ==> after.jobs[h] == reg.jobs[h]))
  {
    if ids != [] {
      var init := ids[..|ids| - 1];
      var last := ids[|ids| - 1];
      var prev := Reload(reg, files, init, accepts);
      ReloadMatchesConfigs(reg, files, init, accepts);
      var after := EnsureStep(prev.reg, files, last, accepts).reg;
      EnsureMatchesConfig(prev.reg, files, last, accepts);
      forall g | g in ids
        ensures JobMatches(after, files, g)
      {
        if g != last {
          assert g in init;
          EnsureKeepsOtherGuilds(prev.reg, files, last, g, accepts);
        }
      }
      forall h | h !in ids
        ensures (h in after.jobs <==> h in reg.jobs) && (h in after.jobs ==> after.jobs[h] == reg.jobs[h])
      {
        assert h !in init && h != last;
        EnsureKeepsOtherGuilds(prev.reg, files, last, h, accepts);
      }
    }
  }

  /** After a successful `ensureJob` the guild's job is started exactly when its ticks
      would send, and a tick sends to the config's channel. */
  lemma RunningIffTickSends(reg: Registry, files: map<string, TaskFile>, g: string, accepts: CronCheck)
    requires EnsureStep(reg, files, g, accepts).result.Ok?
    ensures var jobs := EnsureStep(reg, files, g, accepts).reg.jobs;
            (g in jobs && jobs[g].running) <==> TickTarget(files, g).Some?
    ensures TickTarget(files, g).Some? ==> TaskOf(files, g).value.channelId == TickTarget(files, g)
  {
  }

  /** A tick sends nothing when the latest config has no channel or is not enabled, even
      when the job was started under an earlier config. */
  lemma TickGuard(files: map<string, TaskFile>, g: string)
    ensures TickTarget(files, g).Some? <==>
              TaskOf(files, g).Ok? && HasChannel(TaskOf(files, g).value) && IsEnabled(TaskOf(files, g).value)
  {
  }
}
