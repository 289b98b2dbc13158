/** The collaborators of the behaviour on the storage side: the storage
    backends reached through `StorageManager::adapter(name)`, and the rows of
    the FileStorage table that describe stored files. */
module FileStorage {
  import opened PhpValues

  type Bytes = seq<bv8>

  /** Where an object lives: the adapter configuration name and the key. */
  datatype Location = Location(adapter: string, key: string)

  /** One call made on an adapter. */
  datatype Call =
    | WriteCall(at: Location, content: Bytes)
    | DeleteCall(at: Location)

  /** A row of the file-metadata table. */
  datatype FileRecord = FileRecord(model: string, foreignKey: Value, path: string, adapter: string)

  function LocationOf(r: FileRecord): Location
  {
    Location(r.adapter, r.path)
  }

  /** All storage backends together: the objects they hold, every call made
      on them in order, and whether the n-th call succeeds. */
  class StorageManager {
    var objects: map<Location, Bytes>
    var log: seq<Call>
    const succeeds: nat -> bool

    constructor (objects0: map<Location, Bytes>, succeeds0: nat -> bool)
      ensures objects == objects0 && log == [] && succeeds == succeeds0
    {
      objects := objects0;
      log := [];
      succeeds := succeeds0;
    }

    /** `StorageManager::adapter(adapter)->write(key, content)` */
    method Write(at: Location, content: Bytes) returns (ok: bool)
      modifies this
      ensures ok == succeeds(|old(log)|)
      ensures log == old(log) + [WriteCall(at, content)]
      ensures objects == if ok then old(objects)[at := content] else old(objects)
    {
      ok := succeeds(|log|);
      log := log + [WriteCall(at, content)];
      if ok {
        objects := objects[at := content];
      }
    }

    /** `StorageManager::adapter(adapter)->delete(key)` */
    method Delete(at: Location) returns (ok: bool)
      modifies this
      ensures ok == succeeds(|old(log)|)
      ensures log == old(log) + [DeleteCall(at)]
      ensures objects == if ok then old(objects) - {at} else old(objects)
    {
      ok := succeeds(|log|);
      log := log + [DeleteCall(at)];
      if ok {
        objects := objects - {at};
      }
    }
  }
}
