/** What `saveUploadedFile` computes: the storage key, and the fields it
    fills in the association's slot of the model's pending data once the
    adapter has stored the file. */
module Upload {
  import opened Wrappers
  import opened PhpValues
  import opened FileStorage

  /** The key: what the model's own method named by `storageKeyCallback`
      returns when the model has that method, else `computeKey()`, whose
      fresh UUID is `uuid`. `keyMethods` maps each such method of the model
      to the key it returns. */
  function ChooseKey(keyMethods: map<string, string>, keyCallback: Value, uuid: string): (key: string)
    ensures key == uuid || key in keyMethods.Values
    ensures keyCallback.Str? && keyCallback.s in keyMethods ==> key == keyMethods[keyCallback.s]
    ensures !(keyCallback.Str? && keyCallback.s in keyMethods) ==> key == uuid
  {
    if keyCallback.Str? && keyCallback.s in keyMethods then keyMethods[keyCallback.s] else uuid
  }

  /** The association's slot of the pending data, as an array; a missing,
      null or `false` slot reads as an empty array, as PHP's
      auto-vivification does. */
  function SlotOf(data: map<string, Value>, assoc: string): map<string, Value>
  {
    if assoc in data && data[assoc].Arr? then data[assoc].entries else map[]
  }

  /** PHP 5/7 can add fields to the slot: it is missing, null or `false`
      (all silently turned into an empty array), or an array. */
  predicate SlotWritable(data: map<string, Value>, assoc: string)
  {
    assoc !in data || data[assoc] == Null || data[assoc] == Bool(false) || data[assoc].Arr?
  }

  /** The slot after a successful write: `model`, `foreign_key` and the path
      field are set, in that order, and nothing else changes. */
  function RecordUpload(slot: map<string, Value>, className: string, insertId: Value, pathField: string, key: string)
    : (filled: map<string, Value>)
    ensures filled.Keys == slot.Keys + {"model", "foreign_key", pathField}
    ensures filled[pathField] == Str(key)
    ensures pathField != "model" ==> filled["model"] == Str(className)
    ensures pathField != "foreign_key" ==> filled["foreign_key"] == insertId
    ensures forall k :: k in slot && k != "model" && k != "foreign_key" && k != pathField ==> filled[k] == slot[k]
  {
    slot["model" := Str(className)]["foreign_key" := insertId][pathField := Str(key)]
  }

  /** The pending data after a successful write: only the slot changes. */
  function UploadedData(data: map<string, Value>, assoc: string, className: string, insertId: Value,
                        pathField: string, key: string): (after: map<string, Value>)
    ensures after.Keys == data.Keys + {assoc}
    ensures forall a :: a in data && a != assoc ==> after[a] == data[a]
  {
    data[assoc := Arr(RecordUpload(SlotOf(data, assoc), className, insertId, pathField, key))]
  }

  /** The FileStorage row the host saves from a filled slot, with the
      adapter column it carries; none while a field is missing. */
  function RecordOf(slot: map<string, Value>, pathField: string, adapter: string): Option<FileRecord>
  {
    if "model" in slot && slot["model"].Str? && "foreign_key" in slot && pathField in slot && slot[pathField].Str?
    then Some(FileRecord(slot["model"].s, slot["foreign_key"], slot[pathField].s, adapter))
    else None
  }

  /** A slot filled after a successful write describes exactly one row: the
      model's class, its insert id, and the key as the path. */
  lemma FilledSlotDescribesUpload(slot: map<string, Value>, className: string, insertId: Value,
                                  pathField: string, key: string, adapter: string)
    requires pathField != "model" && pathField != "foreign_key"
    ensures RecordOf(RecordUpload(slot, className, insertId, pathField, key), pathField, adapter)
            == Some(FileRecord(className, insertId, key, adapter))
  {
  }
}
