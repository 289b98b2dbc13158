/** How `FileUploadBehavior::setup` turns the settings a model supplies into
    the settings it keeps for the model, and which association it binds. */
module Settings {
  import opened Wrappers
  import opened PhpValues

  const FileField := "fileField"
  const PathField := "pathField"
  const AdapterConfig := "adapterConfig"
  const StorageCallback := "storageCallback"
  const StorageDeleteCallback := "storageDeleteCallback"
  const StorageModelAssociation := "storageModelAssociation"
  const StorageModelAssocName := "storageModelAssocName"
  const StorageKeyCallback := "storageKeyCallback"

  const NotAnArrayMessage := "Settings must be passed as array!"

  /** `$_defaults` */
  function Defaults(): map<string, Value>
  {
    map[FileField := Str("file"),
        PathField := Str("path"),
        AdapterConfig := Str("Local"),
        StorageCallback := Str("afterSave"),
        StorageDeleteCallback := Str("afterDelete"),
        StorageModelAssociation := Bool(true),
        StorageModelAssocName := Str(""),
        StorageKeyCallback := Str("computeStorageKey")]
  }

  /** `array_merge($defaults, $supplied)` for string keys: every supplied
      entry overrides the default of the same key. */
  function Merge(defaults: map<string, Value>, supplied: map<string, Value>): (merged: map<string, Value>)
    ensures merged.Keys == defaults.Keys + supplied.Keys
    ensures forall k :: k in supplied ==> merged[k] == supplied[k]
    ensures forall k :: k in defaults && k !in supplied ==> merged[k] == defaults[k]
  {
    defaults + supplied
  }

  /** The `hasMany` association named `File` that setup binds when
      `storageModelAssociation` is `true`. */
  function AutoBinding(modelName: string): map<string, Value>
  {
    map["hasMany" := Arr(map["File" := Arr(map[
      "className" := Str("FileStorage.FileStorage"),
      "foreignKey" := Str("foreign_key"),
      "conditions" := Arr(map["File.model" := Str(modelName)]),
      "depends" := Bool(false)])])]
  }

  /** What setup stores for the model, and what it passes to `bindModel`. */
  datatype Configured = Configured(settings: map<string, Value>, binding: Option<map<string, Value>>)

  datatype SetupError = InvalidArgumentException(message: string)

  /** The outcome of setup for a model named `modelName` given `supplied`:
      an exception for anything but an array. */
  function Resolve(modelName: string, supplied: Value): (r: Result<Configured, SetupError>)
    ensures r.Failure? <==> !supplied.Arr?
    ensures r.Failure? ==> r.error == InvalidArgumentException(NotAnArrayMessage)
  {
    if !supplied.Arr? then
      Failure(InvalidArgumentException(NotAnArrayMessage))
    else
      var merged := Merge(Defaults(), supplied.entries);
      var association := merged[StorageModelAssociation];
      if association == Bool(true) then
        Success(Configured(merged[StorageModelAssocName := Str("File")], Some(AutoBinding(modelName))))
      else if association.Arr? then
        // The guard at the end of this branch tests a variable that is never
        // set, so the association name keeps its merged value.
        Success(Configured(merged, Some(association.entries)))
      else if association.Str? then
        Success(Configured(merged[StorageModelAssocName := association], None))
      else
        Success(Configured(merged, None))
  }

  /** The stored settings are the defaults overridden key by key by the
      supplied ones; only the association name may be set by setup itself. */
  lemma SetupMergesOverDefaults(modelName: string, supplied: map<string, Value>)
    ensures Resolve(modelName, Arr(supplied)).Success?
    ensures Resolve(modelName, Arr(supplied)).value.settings.Keys == Defaults().Keys + supplied.Keys
    ensures forall k :: k in supplied && k != StorageModelAssocName ==>
              Resolve(modelName, Arr(supplied)).value.settings[k] == supplied[k]
    ensures forall k :: k in Defaults() && k !in supplied && k != StorageModelAssocName ==>
              Resolve(modelName, Arr(supplied)).value.settings[k] == Defaults()[k]
  {
  }

  /** The entry holds every setting the behaviour reads. */
  predicate HasEverySetting(entry: map<string, Value>)
  {
    && FileField in entry && PathField in entry && AdapterConfig in entry && StorageCallback in entry
    && StorageDeleteCallback in entry && StorageModelAssociation in entry && StorageModelAssocName in entry
    && StorageKeyCallback in entry
  }

  /** Whatever is supplied, the stored settings hold every setting. */
  lemma SetupKeepsEverySetting(modelName: string, supplied: map<string, Value>)
    ensures HasEverySetting(Resolve(modelName, Arr(supplied)).value.settings)
  {
  }

  /** The association name right after the merge: the supplied one, else
      the default empty string. */
  function MergedAssocName(supplied: map<string, Value>): Value
  {
    if StorageModelAssocName in supplied then supplied[StorageModelAssocName] else Str("")
  }

  /** `storageModelAssociation === true` (also the default): a `hasMany`
      named `File`, scoped to the model, is bound and the name is `File`. */
  lemma AutoAssociation(modelName: string, supplied: map<string, Value>)
    requires StorageModelAssociation !in supplied || supplied[StorageModelAssociation] == Bool(true)
    ensures Resolve(modelName, Arr(supplied)).Success?
    ensures Resolve(modelName, Arr(supplied)).value.binding == Some(AutoBinding(modelName))
    ensures Resolve(modelName, Arr(supplied)).value.settings[StorageModelAssocName] == Str("File")
  {
  }

  /** A string `storageModelAssociation` is the association name; nothing
      is bound. */
  lemma NamedAssociation(modelName: string, supplied: map<string, Value>, name: string)
    requires StorageModelAssociation in supplied && supplied[StorageModelAssociation] == Str(name)
    ensures Resolve(modelName, Arr(supplied)).Success?
    ensures Resolve(modelName, Arr(supplied)).value.binding == None
    ensures Resolve(modelName, Arr(supplied)).value.settings[StorageModelAssocName] == Str(name)
  {
  }

  /** An array `storageModelAssociation` is bound as given, and the name
      keeps its merged value (the supplied name, else ""). */
  lemma ExplicitAssociation(modelName: string, supplied: map<string, Value>, bound: map<string, Value>)
    requires StorageModelAssociation in supplied && supplied[StorageModelAssociation] == Arr(bound)
    ensures Resolve(modelName, Arr(supplied)).Success?
    ensures Resolve(modelName, Arr(supplied)).value.binding == Some(bound)
    ensures Resolve(modelName, Arr(supplied)).value.settings[StorageModelAssocName] == MergedAssocName(supplied)
  {
  }

  /** Any other `storageModelAssociation` (false, null, an integer) binds
      nothing and keeps the merged name. */
  lemma OtherAssociation(modelName: string, supplied: map<string, Value>)
    requires StorageModelAssociation in supplied
    requires var a := supplied[StorageModelAssociation]; a != Bool(true) && !a.Arr? && !a.Str?
    ensures Resolve(modelName, Arr(supplied)).Success?
    ensures Resolve(modelName, Arr(supplied)).value.binding == None
    ensures Resolve(modelName, Arr(supplied)).value.settings[StorageModelAssocName] == MergedAssocName(supplied)
  {
  }
}
