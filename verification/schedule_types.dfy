/** `GuildScheduleConfig` and the partial configs the stores merge into it. */
module ScheduleTypes {
  import opened Util

  datatype GuildScheduleConfig = GuildScheduleConfig(enabled: bool, time: string, timeZone: string, channelId: string)

  /** `Partial<GuildScheduleConfig>`: a field left out is None. */
  datatype PartialConfig = PartialConfig(enabled: Option<bool>, time: Option<string>, timeZone: Option<string>,
                                         channelId: Option<string>)

  const EmptyPartial: PartialConfig := PartialConfig(None, None, None, None)

  function Pick<T>(patch: Option<T>, base: T): T
  {
    match patch
    case Some(v) => v
    case None => base
  }

  function PickOpt<T>(patch: Option<T>, base: Option<T>): Option<T>
  {
    if patch.Some? then patch else base
  }

  /** `{ ...current, ...patch }` over a full config: the patch wins where it has a field. */
  function Overlay(current: GuildScheduleConfig, patch: PartialConfig): GuildScheduleConfig
  {
    GuildScheduleConfig(Pick(patch.enabled, current.enabled), Pick(patch.time, current.time),
                        Pick(patch.timeZone, current.timeZone), Pick(patch.channelId, current.channelId))
  }

  /** `{ ...original, ...patch }` over a partial config. */
  function PatchOver(original: PartialConfig, patch: PartialConfig): PartialConfig
  {
    PartialConfig(PickOpt(patch.enabled, original.enabled), PickOpt(patch.time, original.time),
                  PickOpt(patch.timeZone, original.timeZone), PickOpt(patch.channelId, original.channelId))
  }

  /** Patched fields take the patch's values; every other field keeps its value. */
  lemma OverlayFields(current: GuildScheduleConfig, patch: PartialConfig)
    ensures var r := Overlay(current, patch);
            (patch.enabled.Some? ==> r.enabled == patch.enabled.value)
            && (patch.enabled.None? ==> r.enabled == current.enabled)
            && (patch.time.Some? ==> r.time == patch.time.value)
            && (patch.time.None? ==> r.time == current.time)
            && (patch.timeZone.Some? ==> r.timeZone == patch.timeZone.value)
            && (patch.timeZone.None? ==> r.timeZone == current.timeZone)
            && (patch.channelId.Some? ==> r.channelId == patch.channelId.value)
            && (patch.channelId.None? ==> r.channelId == current.channelId)
  {
  }

  /** Patching twice with the same patch is patching once. */
  lemma OverlayIdempotent(current: GuildScheduleConfig, patch: PartialConfig)
    ensures Overlay(Overlay(current, patch), patch) == Overlay(current, patch)
  {
  }

  lemma PatchOverIdempotent(original: PartialConfig, patch: PartialConfig)
    ensures PatchOver(PatchOver(original, patch), patch) == PatchOver(original, patch)
  {
  }

  /** Over the empty config a patch stores exactly its own fields. */
  lemma PatchOverEmpty(patch: PartialConfig)
    ensures PatchOver(EmptyPartial, patch) == patch
  {
  }
}
