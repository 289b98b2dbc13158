/** Which lifecycle callback of the behaviour does the upload or the
    deletion, as chosen by `storageCallback` and `storageDeleteCallback`. */
module Dispatch {
  import opened PhpValues
  import Settings

  datatype Phase = BeforeSave | AfterSave | BeforeDelete | AfterDelete

  /** The callback's own name, the value the setting is compared with. */
  function Name(p: Phase): (w: string)
    ensures IsWord(w)
  {
    match p
    case BeforeSave => "beforeSave"
    case AfterSave => "afterSave"
    case BeforeDelete => "beforeDelete"
    case AfterDelete => "afterDelete"
  }

  predicate IsSavePhase(p: Phase)
  {
    p == BeforeSave || p == AfterSave
  }

  /** Whether callback `p` does the work, given the setting that names the
      phase: strict `===` on the save side, loose `==` on the delete side. */
  predicate Runs(setting: Value, p: Phase)
  {
    if IsSavePhase(p) then setting == Str(Name(p)) else LooseEqualsWord(setting, Name(p))
  }

  /** Whatever `storageCallback` holds, at most one save phase uploads. */
  lemma AtMostOneSavePhaseUploads(setting: Value)
    ensures !(Runs(setting, BeforeSave) && Runs(setting, AfterSave))
  {
  }

  /** Both delete phases delete exactly when `storageDeleteCallback` is
      `true` or `0`, which loosely equal every word; a string setting
      selects at most one of them. */
  lemma BothDeletePhasesRunIff(setting: Value)
    ensures Runs(setting, BeforeDelete) && Runs(setting, AfterDelete) <==> setting == Bool(true) || setting == Int(0)
  {
    if setting.Str? {
      assert Name(BeforeDelete)[0] != Name(AfterDelete)[0];
    }
  }

  /** With the default settings the upload happens after save and the
      deletion after delete, and nowhere else. */
  lemma DefaultPhases()
    ensures Runs(Settings.Defaults()[Settings.StorageCallback], AfterSave)
    ensures !Runs(Settings.Defaults()[Settings.StorageCallback], BeforeSave)
    ensures Runs(Settings.Defaults()[Settings.StorageDeleteCallback], AfterDelete)
    ensures !Runs(Settings.Defaults()[Settings.StorageDeleteCallback], BeforeDelete)
  {
  }
}
