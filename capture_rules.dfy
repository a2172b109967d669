/**
 * Pure rules of the capture component: the primitive render modes, the
 * show-flag merge, the upgrade decisions made when an archive is
 * serialized, and which visibility properties the editor lets one change.
 */
module CaptureRules {
  import opened Common

  /** `ESceneCapturePrimitiveRenderMode`. */
  datatype PrimitiveRenderMode = LegacySceneCapture | RenderScenePrimitives | UseShowOnlyList

  /** `FEngineShowFlags`, by flag name. A name resolves (`FindIndexByName`
      finds it) exactly when it is a key. */
  type ShowFlags = map<string, bool>

  /** `FEngineShowFlagsSetting`: a flag name and the value to give it. */
  datatype ShowFlagSetting = ShowFlagSetting(name: string, enabled: bool)

  /** The settings applied in order; a setting whose name does not resolve is skipped. */
  function ApplyShowFlagSettings(flags: ShowFlags, settings: seq<ShowFlagSetting>): (r: ShowFlags)
    ensures r.Keys == flags.Keys
    ensures forall n :: n in flags && (forall k :: 0 <= k < |settings| ==> settings[k].name != n) ==> r[n] == flags[n]
    decreases |settings|
  {
    if settings == [] then flags
    else
      var before := ApplyShowFlagSettings(flags, settings[..|settings| - 1]);
      var last := settings[|settings| - 1];
      if last.name in before then before[last.name := last.enabled] else before
  }

  /** The last setting naming a resolvable flag decides that flag. */
  lemma {:induction false} LastSettingWins(flags: ShowFlags, settings: seq<ShowFlagSetting>, k: nat)
    requires k < |settings| && settings[k].name in flags
    requires forall j :: k < j < |settings| ==> settings[j].name != settings[k].name
    ensures ApplyShowFlagSettings(flags, settings)[settings[k].name] == settings[k].enabled
    decreases |settings|
  {
    if k < |settings| - 1 {
      var init := settings[..|settings| - 1];
      assert init[k] == settings[k];
      LastSettingWins(flags, init, k);
    }
  }

  /** The engine version numbers at which `Serialize` upgrades old data
      (`FRenderingObjectVersion::AddedbUseShowOnlyList` and
      `FRenderingObjectVersion::MotionBlurAndTAASupportInSceneCapture2d`). */
  datatype RenderingVersions = RenderingVersions(addedUseShowOnlyList: int, motionBlurAndTaaSupport: int)

  /** The render mode after serializing with an archive of `archiveVersion`:
      an archive older than the show-only-list mode switches to that mode
      when either show-only list is non-empty; otherwise the mode is kept. */
  function UpgradedRenderMode(archiveVersion: int, versions: RenderingVersions,
                              showOnlyActorCount: nat, showOnlyComponentCount: nat,
                              mode: PrimitiveRenderMode): (r: PrimitiveRenderMode)
    ensures r != mode ==> r == UseShowOnlyList
    ensures r == UseShowOnlyList <==>
            mode == UseShowOnlyList ||
            (archiveVersion < versions.addedUseShowOnlyList && showOnlyActorCount + showOnlyComponentCount > 0)
  {
    if archiveVersion < versions.addedUseShowOnlyList && (showOnlyActorCount > 0 || showOnlyComponentCount > 0)
    then UseShowOnlyList
    else mode
  }

  /** The show flags after loading: an archive older than scene-capture
      support for motion blur and temporal AA has both flags switched off;
      nothing else changes, and saving changes nothing. */
  function LoadedShowFlags(flags: ShowFlags, archiveVersion: int, versions: RenderingVersions, isLoading: bool): (r: ShowFlags)
    ensures (!isLoading || archiveVersion >= versions.motionBlurAndTaaSupport) ==> r == flags
    ensures isLoading && archiveVersion < versions.motionBlurAndTaaSupport ==>
              "TemporalAA" in r && !r["TemporalAA"] && "MotionBlur" in r && !r["MotionBlur"]
    ensures forall n :: n != "TemporalAA" && n != "MotionBlur" ==> (n in r <==> n in flags)
    ensures forall n :: n in flags && n != "TemporalAA" && n != "MotionBlur" ==> r[n] == flags[n]
  {
    if isLoading && archiveVersion < versions.motionBlurAndTaaSupport
    then flags["TemporalAA" := false]["MotionBlur" := false]
    else flags
  }

  /** `CanEditChange`: the hidden-actor list is editable exactly when the
      show-only list is not in use, the show-only-actor list exactly when it
      is; every other property is always editable. */
  function CanEditChange(propertyName: Option<string>, mode: PrimitiveRenderMode): (r: bool)
    ensures propertyName == Some("HiddenActors") ==> (r <==> mode != UseShowOnlyList)
    ensures propertyName == Some("ShowOnlyActors") ==> (r <==> mode == UseShowOnlyList)
    ensures propertyName != Some("HiddenActors") && propertyName != Some("ShowOnlyActors") ==> r
  {
    match propertyName
    case None => true
    case Some(name) =>
      if name == "HiddenActors" then mode == LegacySceneCapture || mode == RenderScenePrimitives
      else if name == "ShowOnlyActors" then mode == UseShowOnlyList
      else true
  }

  /** In every mode exactly one of the two actor lists can be edited. */
  lemma ExactlyOneActorListEditable(mode: PrimitiveRenderMode)
    ensures CanEditChange(Some("HiddenActors"), mode) != CanEditChange(Some("ShowOnlyActors"), mode)
  {
  }
}
