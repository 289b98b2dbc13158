/** The FileUpload behaviour itself: the settings it keeps per model alias,
    its setup, and the lifecycle callbacks that upload and delete files. */
module FileUpload {
  import opened Wrappers
  import opened PhpValues
  import opened FileStorage
  import opened Settings
  import opened Upload
  import opened Deletion
  import Dispatch

  /** The host model as far as the behaviour sees it. The ORM, dynamic
      method dispatch and `getLastInsertId` are outside the model: they
      appear here as plain fields. */
  class HostModel {
    const alias: string
    const name: string
    /** `get_class($Model)` */
    const className: string
    /** The key-computing methods the model defines, with the key each returns. */
    const keyMethods: map<string, string>
    /** `$Model->id` */
    const id: Value
    /** `$Model->getLastInsertId()` */
    const lastInsertId: Value
    /** `$Model->data` */
    var data: map<string, Value>
    /** The arguments of every `bindModel` call made on the model, in order. */
    var bindings: seq<map<string, Value>>

    constructor (alias: string, name: string, className: string, keyMethods: map<string, string>,
                 id: Value, lastInsertId: Value, data: map<string, Value>)
      ensures this.alias == alias && this.name == name && this.className == className
      ensures this.keyMethods == keyMethods && this.id == id && this.lastInsertId == lastInsertId
      ensures this.data == data && bindings == []
    {
      this.alias := alias;
      this.name := name;
      this.className := className;
      this.keyMethods := keyMethods;
      this.id := id;
      this.lastInsertId := lastInsertId;
      this.data := data;
      bindings := [];
    }

    method BindModel(params: map<string, Value>)
      modifies this`bindings
      ensures bindings == old(bindings) + [params]
    {
      bindings := bindings + [params];
    }
  }

  /** The settings an upload reads are strings, so they can serve as array
      keys and as an adapter name. */
  predicate ReadyToUpload(cfg: map<string, Value>)
  {
    && StorageModelAssocName in cfg && cfg[StorageModelAssocName].Str?
    && PathField in cfg && cfg[PathField].Str?
    && AdapterConfig in cfg && cfg[AdapterConfig].Str?
    && StorageKeyCallback in cfg
  }

  /** What `saveUploadedFile` did between the old state and now: one write of
      `content` under the chosen key to the configured adapter, `ok` is its
      outcome, and only on success the slot is filled in. */
  twostate predicate Uploaded(cfg: map<string, Value>, model: HostModel, storage: StorageManager,
                              uuid: string, content: Bytes, ok: bool)
    reads model, storage
  {
    && ReadyToUpload(cfg)
    && var key := ChooseKey(model.keyMethods, cfg[StorageKeyCallback], uuid);
       var at := Location(cfg[AdapterConfig].s, key);
       && storage.log == old(storage.log) + [WriteCall(at, content)]
       && ok == storage.succeeds(|old(storage.log)|)
       && storage.objects == (if ok then old(storage.objects)[at := content] else old(storage.objects))
       && model.data == if ok
                        then UploadedData(old(model.data), cfg[StorageModelAssocName].s, model.className,
                                          model.lastInsertId, cfg[PathField].s, key)
                        else old(model.data)
  }

  /** What `deleteFiles` did between the old state and now: one delete per
      target row, in order, and `ok` holds exactly when all of them succeeded. */
  twostate predicate FilesDeleted(storage: StorageManager, rows: seq<FileRecord>, className: string, id: Value,
                                  inHasMany: bool, inHasOne: bool, ok: bool)
    reads storage
  {
    Deleted(old(storage.log), old(storage.objects), Targets(Find(rows, className, id), inHasMany, inHasOne),
            storage.succeeds, storage.log, storage.objects, ok)
  }

  class FileUploadBehavior {
    /** `$this->settings`, keyed by model alias. */
    var settings: map<string, map<string, Value>>

    /** Every stored entry holds at least the default keys. */
    ghost predicate Valid()
      reads this
    {
      forall alias :: alias in settings ==> HasEverySetting(settings[alias])
    }

    constructor ()
      ensures Valid() && settings == map[]
    {
      settings := map[];
    }

    /** `setup($Model, $settings)` */
    method Setup(model: HostModel, supplied: Value) returns (thrown: Option<SetupError>)
      requires Valid()
      modifies this, model`bindings
      ensures Valid()
      ensures match Resolve(model.name, supplied)
        case Failure(e) =>
          thrown == Some(e) && settings == old(settings) && model.bindings == old(model.bindings)
        case Success(c) =>
          && thrown == None
          && settings == old(settings)[model.alias := c.settings]
          && model.bindings == old(model.bindings) + (if c.binding.Some? then [c.binding.value] else [])
    {
      if !supplied.Arr? {
        return Some(InvalidArgumentException(NotAnArrayMessage));
      }
      var merged := Merge(Defaults(), supplied.entries);
      settings := settings[model.alias := merged];
      var association := merged[StorageModelAssociation];
      if association == Bool(true) {
        model.BindModel(AutoBinding(model.name));
        settings := settings[model.alias := merged[StorageModelAssocName := Str("File")]];
        assert Resolve(model.name, supplied)
               == Success(Configured(merged[StorageModelAssocName := Str("File")], Some(AutoBinding(model.name))));
      } else if association.Arr? {
        model.BindModel(association.entries);
        assert Resolve(model.name, supplied) == Success(Configured(merged, Some(association.entries)));
        // The name is never taken from the bound association: the guard that
        // would do so tests a variable this branch never sets.
      } else if association.Str? {
        settings := settings[model.alias := merged[StorageModelAssocName := association]];
        assert Resolve(model.name, supplied) == Success(Configured(merged[StorageModelAssocName := association], None));
      } else {
        assert Resolve(model.name, supplied) == Success(Configured(merged, None));
      }
      SetupKeepsEverySetting(model.name, supplied.entries);
      thrown := None;
    }

    /** `saveUploadedFile($Model)`; `uuid` is what `computeKey()` would return
        and `content` the bytes read from the upload's temporary file. */
    method SaveUploadedFile(model: HostModel, storage: StorageManager, uuid: string, content: Bytes)
      returns (ok: bool)
      requires model.alias in settings && ReadyToUpload(settings[model.alias])
      requires SlotWritable(model.data, settings[model.alias][StorageModelAssocName].s)
      modifies model`data, storage
      ensures Uploaded(settings[model.alias], model, storage, uuid, content, ok)
    {
      var cfg := settings[model.alias];
      var key := ChooseKey(model.keyMethods, cfg[StorageKeyCallback], uuid);
      ok := storage.Write(Location(cfg[AdapterConfig].s, key), content);
      if ok {
        var assoc := cfg[StorageModelAssocName].s;
        var slot := SlotOf(model.data, assoc);
        slot := slot["model" := Str(model.className)];
        slot := slot["foreign_key" := model.lastInsertId];
        slot := slot[cfg[PathField].s := Str(key)];
        model.data := model.data[assoc := Arr(slot)];
      }
    }

    /** `beforeSave($Model)`: uploads only when `storageCallback` is
        'beforeSave', otherwise succeeds without doing anything. */
    method BeforeSave(model: HostModel, storage: StorageManager, uuid: string, content: Bytes)
      returns (ok: bool)
      requires Valid() && model.alias in settings
      requires Dispatch.Runs(settings[model.alias][StorageCallback], Dispatch.BeforeSave) ==>
                 ReadyToUpload(settings[model.alias])
                 && SlotWritable(model.data, settings[model.alias][StorageModelAssocName].s)
      modifies model`data, storage
      ensures if Dispatch.Runs(settings[model.alias][StorageCallback], Dispatch.BeforeSave)
              then Uploaded(settings[model.alias], model, storage, uuid, content, ok)
              else ok && unchanged(model, storage)
    {
      if settings[model.alias][StorageCallback] == Str("beforeSave") {
        ok := SaveUploadedFile(model, storage, uuid, content);
        return;
      }
      ok := true;
    }

    /** `afterSave($Model, $created)`: uploads only when `storageCallback` is
        'afterSave'; `$created` is not used. */
    method AfterSave(model: HostModel, storage: StorageManager, uuid: string, content: Bytes, created: bool)
      returns (ok: bool)
      requires Valid() && model.alias in settings
      requires Dispatch.Runs(settings[model.alias][StorageCallback], Dispatch.AfterSave) ==>
                 ReadyToUpload(settings[model.alias])
                 && SlotWritable(model.data, settings[model.alias][StorageModelAssocName].s)
      modifies model`data, storage
      ensures if Dispatch.Runs(settings[model.alias][StorageCallback], Dispatch.AfterSave)
              then Uploaded(settings[model.alias], model, storage, uuid, content, ok)
              else ok && unchanged(model, storage)
    {
      if settings[model.alias][StorageCallback] == Str("afterSave") {
        ok := SaveUploadedFile(model, storage, uuid, content);
        return;
      }
      ok := true;
    }

    /** `beforeDelete($Model)`: returns the result of deleting the files when
        `storageDeleteCallback` loosely equals 'beforeDelete', and no value
        otherwise. `tables` maps each association name to its table's rows;
        `inHasMany` and `inHasOne` say whether the name is listed among the
        model's `hasMany` and `hasOne` associations. */
    method BeforeDelete(model: HostModel, storage: StorageManager, tables: map<string, seq<FileRecord>>,
                        inHasMany: bool, inHasOne: bool)
      returns (result: Option<bool>)
      requires Valid() && model.alias in settings
      requires Dispatch.Runs(settings[model.alias][StorageDeleteCallback], Dispatch.BeforeDelete) ==>
                 settings[model.alias][StorageModelAssocName].Str?
                 && settings[model.alias][StorageModelAssocName].s in tables
      modifies storage
      ensures if Dispatch.Runs(settings[model.alias][StorageDeleteCallback], Dispatch.BeforeDelete)
              then result.Some?
                   && FilesDeleted(storage, tables[settings[model.alias][StorageModelAssocName].s],
                                   model.className, model.id, inHasMany, inHasOne, result.value)
              else result == None && unchanged(storage)
    {
      var cfg := settings[model.alias];
      if LooseEqualsWord(cfg[StorageDeleteCallback], "beforeDelete") {
        var ok := DeleteFiles(model, storage, cfg[StorageModelAssocName].s, tables, inHasMany, inHasOne);
        return Some(ok);
      }
      result := None;
    }

    /** `afterDelete($Model, $cascade)`: deletes the files when
        `storageDeleteCallback` loosely equals 'afterDelete' and drops the
        result; `$cascade` is not used. */
    method AfterDelete(model: HostModel, storage: StorageManager, tables: map<string, seq<FileRecord>>,
                       inHasMany: bool, inHasOne: bool, cascade: bool)
      requires Valid() && model.alias in settings
      requires Dispatch.Runs(settings[model.alias][StorageDeleteCallback], Dispatch.AfterDelete) ==>
                 settings[model.alias][StorageModelAssocName].Str?
                 && settings[model.alias][StorageModelAssocName].s in tables
      modifies storage
      ensures if Dispatch.Runs(settings[model.alias][StorageDeleteCallback], Dispatch.AfterDelete)
              then exists ok :: FilesDeleted(storage, tables[settings[model.alias][StorageModelAssocName].s],
                                             model.className, model.id, inHasMany, inHasOne, ok)
              else unchanged(storage)
    {
      var cfg := settings[model.alias];
      if LooseEqualsWord(cfg[StorageDeleteCallback], "afterDelete") {
        var ignored := DeleteFiles(model, storage, cfg[StorageModelAssocName].s, tables, inHasMany, inHasOne);
      }
    }

    /** `deleteFiles($Model)`: finds the rows the record owns and deletes
        every one for a `hasMany` association, then the first one for a
        `hasOne` association; true exactly when every delete succeeded. */
    method DeleteFiles(model: HostModel, storage: StorageManager, assocName: string,
                       tables: map<string, seq<FileRecord>>, inHasMany: bool, inHasOne: bool)
      returns (ok: bool)
      requires assocName in tables
      modifies storage
      ensures FilesDeleted(storage, tables[assocName], model.className, model.id, inHasMany, inHasOne, ok)
    {
      var files := Find(tables[assocName], model.className, model.id);
      ok := true;
      DeletedNone(storage.log, storage.objects, storage.succeeds);
      if files != [] {
        ghost var done: seq<FileRecord> := [];
        if inHasMany {
          ok := DeleteEach(files, storage);
          done := files;
        }
        if inHasOne {
          ghost var log, objects := storage.log, storage.objects;
          var deleted := DeleteFile(files[0], storage);
          DeletedOneMore(old(storage.log), old(storage.objects), done, files[0], storage.succeeds, log, objects, ok);
          ok := ok && deleted;
          done := done + [files[0]];
        }
        assert done == Targets(files, inHasMany, inHasOne);
      }
    }

    /** The `foreach` of `deleteFiles`: one `deleteFile` per row, none skipped. */
    method DeleteEach(files: seq<FileRecord>, storage: StorageManager) returns (ok: bool)
      modifies storage
      ensures Deleted(old(storage.log), old(storage.objects), files, storage.succeeds, storage.log, storage.objects, ok)
    {
      ok := true;
      DeletedNone(storage.log, storage.objects, storage.succeeds);
      var i := 0;
      while i < |files|
        invariant 0 <= i <= |files|
        invariant Deleted(old(storage.log), old(storage.objects), files[..i], storage.succeeds,
                          storage.log, storage.objects, ok)
      {
        ghost var log, objects := storage.log, storage.objects;
        var deleted := DeleteFile(files[i], storage);
        DeletedOneMore(old(storage.log), old(storage.objects), files[..i], files[i], storage.succeeds, log, objects, ok);
        if !deleted {
          ok := false;
        }
        assert files[..i + 1] == files[..i] + [files[i]];
        i := i + 1;
      }
      assert files[..|files|] == files;
    }

    /** `deleteFile($data)`: exactly the adapter's delete result. */
    method DeleteFile(record: FileRecord, storage: StorageManager) returns (ok: bool)
      modifies storage
      ensures ok == storage.succeeds(|old(storage.log)|)
      ensures storage.log == old(storage.log) + [DeleteCall(LocationOf(record))]
      ensures storage.objects == if ok then old(storage.objects) - {LocationOf(record)} else old(storage.objects)
    {
      ok := storage.Delete(LocationOf(record));
    }
  }

  /** A model `Item` with id 7 and no key method, with the behaviour set up
      on it with the default settings. */
  method SetUpItem() returns (behavior: FileUploadBehavior, model: HostModel)
    ensures fresh(behavior) && fresh(model)
    ensures behavior.Valid() && behavior.settings == map["Item" := Defaults()[StorageModelAssocName := Str("File")]]
    ensures model.alias == "Item" && model.className == "Item" && model.id == Int(7)
    ensures model.lastInsertId == Int(7) && model.keyMethods == map[] && model.data == map[]
  {
    behavior := new FileUploadBehavior();
    model := new HostModel("Item", "Item", "Item", map[], Int(7), Int(7), map[]);
    var thrown := behavior.Setup(model, Arr(map[]));
    assert behavior.settings["Item"] == Defaults()[StorageModelAssocName := Str("File")];
  }

  /** The upload half of `UploadThenDelete`: `afterSave` stores `content`
      under the fresh key, and the filled slot describes the row of the
      stored file. */
  method UploadItem(uuid: string, content: Bytes)
    returns (behavior: FileUploadBehavior, model: HostModel, storage: StorageManager, row: FileRecord)
    ensures fresh(behavior) && fresh(model) && fresh(storage)
    ensures behavior.Valid() && behavior.settings == map["Item" := Defaults()[StorageModelAssocName := Str("File")]]
    ensures model.alias == "Item" && model.className == "Item" && model.id == Int(7)
    ensures forall n :: storage.succeeds(n)
    ensures row == FileRecord("Item", Int(7), uuid, "Local")
    ensures RecordOf(SlotOf(model.data, "File"), "path", "Local") == Some(row)
    ensures storage.log == [WriteCall(LocationOf(row), content)]
    ensures storage.objects == map[LocationOf(row) := content]
  {
    behavior, model := SetUpItem();
    storage := new StorageManager(map[], _ => true);
    var saved := behavior.AfterSave(model, storage, uuid, content, true);
    FilledSlotDescribesUpload(map[], "Item", Int(7), "path", uuid, "Local");
    row := FileRecord("Item", Int(7), uuid, "Local");
  }

  /** The intended round trip through the callbacks: the file `UploadItem`
      stores is deleted again by `afterDelete` once the host has saved its
      row in the `File` table. This needs `File` listed as a value of the
      model's `hasMany` associations, which the automatic binding never
      does (it makes `File` a key), and every adapter call to succeed. */
  method UploadThenDelete(uuid: string, content: Bytes) returns (storage: StorageManager, row: FileRecord)
    ensures row == FileRecord("Item", Int(7), uuid, "Local")
    ensures storage.log == [WriteCall(LocationOf(row), content), DeleteCall(LocationOf(row))]
    ensures storage.objects == map[]
  {
    var behavior, model;
    behavior, model, storage, row := UploadItem(uuid, content);
    var rows := [row];
    ghost var log, objects := storage.log, storage.objects;
    assert Find(rows, model.className, model.id) == [row];
    assert Targets([row], true, false) == [row];
    behavior.AfterDelete(model, storage, map["File" := rows], true, false, true);
    DeletedSingle(log, objects, row, storage.succeeds, storage.log, storage.objects);
  }

  /** The round trip as the code runs it after the automatic binding, once
      the association name is supplied: `File` is a key of `hasMany`, not a
      value, and `hasOne` is empty, so both cardinality tests of
      `deleteFiles` fail. `afterDelete` makes no adapter call and the
      uploaded file stays in storage. As written, `afterDelete` dies at the
      query on the undefined association name before any adapter call, with
      the same storage outcome. */
  method UploadThenDeleteAsBound(uuid: string, content: Bytes) returns (storage: StorageManager, row: FileRecord)
    ensures row == FileRecord("Item", Int(7), uuid, "Local")
    ensures storage.log == [WriteCall(LocationOf(row), content)]
    ensures storage.objects == map[LocationOf(row) := content]
  {
    var behavior, model;
    behavior, model, storage, row := UploadItem(uuid, content);
    var rows := [row];
    assert Find(rows, model.className, model.id) == [row];
    assert Targets([row], false, false) == [];
    behavior.AfterDelete(model, storage, map["File" := rows], false, false, true);
  }
}
