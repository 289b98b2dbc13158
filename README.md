# FileUpload behaviour of the CakePHP FileStorage plugin, in Dafny

This project models `FileUploadBehavior`. A CakePHP model attaches this behaviour so that:

- a file uploaded with a record is written to a storage backend (an "adapter");
- the record's association data is filled in with the row describing the stored file;
- the stored files are meant to be deleted again when the record is deleted.

The modules follow the behaviour's parts:

| module | file | what it holds |
|---|---|---|
| `Wrappers` | `wrappers.dfy` | an optional value, and the outcome of an operation that can throw |
| `PhpValues` | `php_values.dfy` | PHP values (null, booleans, integers, strings, string-keyed arrays) and PHP 5/7 loose `==` against a word |
| `FileStorage` | `file_storage.dfy` | the storage backends as one `StorageManager` object, described below; also the rows of the file table |
| `Settings` | `settings.dfy` | `$_defaults` and what `setup` resolves: the merged settings, the association name, the binding |
| `Dispatch` | `dispatch.dfy` | which lifecycle callback does the upload or the deletion |
| `Upload` | `upload.dfy` | the key choice of `saveUploadedFile` and the fields it fills in the association's data slot |
| `Deletion` | `deletion.dfy` | what `deleteFiles` finds and deletes, in which order, and what remains in storage |
| `FileUpload` | `behavior.dfy` | the behaviour as a class with its `settings` field, and the host model as a class with the `data` it updates and the `bindModel` calls made on it |

The `StorageManager` object has three parts:

- the stored objects, keyed by adapter name and key;
- the log of every write and delete call;
- a success oracle telling whether the n-th call succeeds.

The methods of `FileUploadBehavior` change the behaviour's settings, the host model and the storage, as the PHP methods do. Each is proved against one of the specification functions or two-state predicates:

- `Resolve` for `setup`;
- `Uploaded` for `saveUploadedFile`;
- `FilesDeleted`, built on `Deleted`, for `deleteFiles`.

The lemmas beside them state what the code promises:

- the defaults merge;
- the bound association;
- at most one save phase;
- the loose-comparison delete phases;
- a delete attempted for every owned row; success and no call when nothing matches;
- the upload's row.

Beside them, `UploadThenDelete` proves the intended upload/delete round trip. `UploadThenDeleteAsBound` proves what the code does after the automatic binding once the association name is supplied: the file stays. As written, `afterDelete` dies at line 164 before any adapter call, with the same storage outcome.

## Where the code and its documentation differ

The model follows the code in every case but the last.

- **Array association in `setup`.** The array branch binds the association as given. The lines meant to take the association name from its first key never take effect: they assign `$keys` but read `$assocKeys`, and their guard tests `$key`, which nothing in the branch sets. Lines 61 and 65 each read the undefined `$assocKeys`, which raises a notice. Only the `extract` of the settings could set `$key` or `$assocKeys`, when the supplied settings carry keys of those names; that is not modelled (see the `extract` line under "## Left out"). So the name keeps its merged value: the supplied `storageModelAssocName`, or `''`. It does not become the first declared association.
- **Deleting after the automatic binding.** `deleteFiles` deletes only when the association name is a value of `$Model->hasMany` (line 172) or of `$Model->hasOne` (line 179). The automatic binding of lines 49-55 makes `File` a key of `hasMany`, not a value, and binds no `hasOne`. So with the default settings, even with the association name passed in (last case below), both tests fail: `deleteFiles` would return true and delete nothing, and an uploaded file is never removed. As written, `deleteFiles` dies at line 164 before reaching the tests, with the same storage outcome. The model takes the two tests as inputs. `UploadThenDeleteAsBound` proves this outcome: the upload's write is the only adapter call and the file remains. `UploadThenDelete` proves the intended outcome, with the name listed as a `hasMany` value.
- **Delete phases.** `beforeDelete` and `afterDelete` compare the setting with loose `==`, while the save phases use `===`. A setting of `true` or `0` therefore runs the deletion in both delete phases.
- **No association name.** Setup does not insist on a non-empty association name and does not fail without one. With `storageModelAssociation` false, null or an integer, and no `storageModelAssocName` supplied, the name stays `''` (`OtherAssociation` with `MergedAssocName`).
- **Metadata rows stay.** Deleting the owning record deletes the stored files only (lines 163-186 call the adapter's `delete` and nothing else), and the automatic binding sets `depends` to false at line 55. The rows of the file table describing those files are left in place.
- **Foreign key in `beforeSave` mode.** The upload stores `getLastInsertId()` as the foreign key at line 91. When the upload runs in `beforeSave`, the record has not been inserted yet, so that is the id of the previous insert, not the record's own. The model carries it as the plain field `lastInsertId`, whatever phase the upload runs in.
- **`deleteFiles` name.** `deleteFiles` reads `$storageModelAssocName` without extracting the settings. As written, the variable is undefined, so the query at line 164 is made on no model and fails. The model does not follow the code here: it passes the configured association name in explicitly, which is what the callers evidently intend (see the `DeleteFiles:` line under "## Left out").

## Model

| member | source | states |
|---|---|---|
| PhpValues.LooseEqualsWord | Model/Behavior/FileUploadBehavior.php:136 | PHP 5/7 `==` of a value with a non-numeric, non-empty word holds exactly for that string, `true` and the integer 0 |
| Settings.Defaults | Model/Behavior/FileUploadBehavior.php:22-30 | the eight default settings: file, path, Local, afterSave, afterDelete, true, '' and computeStorageKey under their keys |
| Settings.Merge | Model/Behavior/FileUploadBehavior.php:45 | the merged settings hold the keys of both sides; a supplied value wins, otherwise the default is kept |
| Settings.AutoBinding | Model/Behavior/FileUploadBehavior.php:49-55 | the automatic binding: a hasMany `File` of class FileStorage.FileStorage, foreign key foreign_key, condition File.model = the model's name, depends false |
| Settings.Resolve | Model/Behavior/FileUploadBehavior.php:40-73 | setup fails exactly when the settings are not an array, with InvalidArgumentException('Settings must be passed as array!') |
| Settings.SetupMergesOverDefaults | Model/Behavior/FileUploadBehavior.php:22-30 | after setup every key is the supplied value or else the default (file, path, Local, afterSave, afterDelete, true, '', computeStorageKey); only the association name may be set by setup itself |
| Settings.SetupKeepsEverySetting | Model/Behavior/FileUploadBehavior.php:22-30 | whatever is supplied, the stored entry holds all eight settings the callbacks read |
| Settings.AutoAssociation | Model/Behavior/FileUploadBehavior.php:48-56 | with `storageModelAssociation` true or absent, a hasMany `File` (FileStorage.FileStorage, foreign_key, File.model = model name, depends false) is bound and the name becomes `File`, the binding the setup test expects, up to the defaults bindModel adds itself |
| Settings.NamedAssociation | Model/Behavior/FileUploadBehavior.php:70-72 | a string association is the name and nothing is bound |
| Settings.ExplicitAssociation | Model/Behavior/FileUploadBehavior.php:57-69 | an array association is bound as given and the name keeps its merged value |
| Settings.OtherAssociation | Model/Behavior/FileUploadBehavior.php:48-72 | any other association value binds nothing and keeps the merged name |
| Dispatch.Runs | Model/Behavior/FileUploadBehavior.php:105-155 | a save phase runs when the setting is strictly (`===`) its name; a delete phase runs when the setting loosely (`==`) equals its name |
| Dispatch.AtMostOneSavePhaseUploads | Model/Behavior/FileUploadBehavior.php:105-126 | whatever `storageCallback` holds, beforeSave and afterSave never both upload |
| Dispatch.BothDeletePhasesRunIff | Model/Behavior/FileUploadBehavior.php:134-155 | both delete phases delete exactly when `storageDeleteCallback` is true or 0 |
| Dispatch.DefaultPhases | Model/Behavior/FileUploadBehavior.php:26-27 | with the defaults the upload happens in afterSave only and the deletion in afterDelete only |
| Upload.ChooseKey | Model/Behavior/FileUploadBehavior.php:83-87 | the key is the model's own key method's result when the model has that method, otherwise the fresh UUID |
| Upload.SlotOf | Model/Behavior/FileUploadBehavior.php:90 | the association's slot as an array; a missing, null or false slot reads as the empty array PHP creates on the first field written |
| Upload.RecordUpload | Model/Behavior/FileUploadBehavior.php:90-92 | the slot gains model, foreign_key and the path field (the key), and no other field changes |
| Upload.UploadedData | Model/Behavior/FileUploadBehavior.php:89-93 | only the association's slot of the model data changes |
| Upload.FilledSlotDescribesUpload | Model/Behavior/FileUploadBehavior.php:90-92 | a filled slot reads back exactly the class name, insert id and key of the stored file; the slot holds no adapter, so the caller supplies the adapter of the row |
| FileStorage.StorageManager.Write | Model/Behavior/FileUploadBehavior.php:89 | one write call is logged; the object is stored exactly when the call succeeds |
| FileStorage.StorageManager.Delete | Model/Behavior/FileUploadBehavior.php:204 | one delete call is logged; the object is removed exactly when the call succeeds |
| Deletion.Find | Model/Behavior/FileUploadBehavior.php:164-168 | the table's rows whose model is the class name and whose foreign key is the record's id, in table order |
| Deletion.FindSelectsOwned | Model/Behavior/FileUploadBehavior.php:164-168 | the query returns exactly the rows whose model is the class name and whose foreign key is the record id |
| Deletion.Targets | Model/Behavior/FileUploadBehavior.php:171-184 | the rows deleteFile is called on, in order: none when nothing is found, else every found row for hasMany, then the first found row for hasOne |
| Deletion.TargetsInOrder | Model/Behavior/FileUploadBehavior.php:171-184 | nothing is deleted when nothing is found; otherwise every found row in order for hasMany, then the single row for hasOne, as two separate tests |
| Deletion.DeleteCalls | Model/Behavior/FileUploadBehavior.php:173-177 | one adapter call per targeted row |
| Deletion.OneDeletePerTarget | Model/Behavior/FileUploadBehavior.php:173-177 | the i-th call deletes the i-th targeted row |
| Deletion.AfterDeletesOnlyRemovesTargets | Model/Behavior/FileUploadBehavior.php:203-208 | deletion only removes objects, only targeted ones, and leaves every other object's content unchanged |
| Deletion.AllSucceededIff | Model/Behavior/FileUploadBehavior.php:170-185 | the result flag is true exactly when no delete call in the range failed |
| Deletion.Deleted | Model/Behavior/FileUploadBehavior.php:170-185 | the outcome of deleting a list of rows in order: one delete call per row appended to the log, each object removed when its call succeeds, and the flag true exactly when all succeeded |
| Deletion.DeletedOneMore | Model/Behavior/FileUploadBehavior.php:173-177 | one more deleteFile extends the log, the objects and the flag by that row, and a failure keeps the flag false |
| Deletion.DeletedSingle | Model/Behavior/FileUploadBehavior.php:179-183 | deleting a single row makes one call and removes the object exactly when that call succeeds |
| Deletion.AllSucceededRemovesTargets | Model/Behavior/FileUploadBehavior.php:203-208 | when every delete succeeds, no targeted object remains |
| Deletion.NothingOwnedNoCalls | Model/Behavior/FileUploadBehavior.php:170-171 | with no owned row nothing is found and no adapter call is made |
| Deletion.NothingOwnedNothingDeleted | Model/Behavior/FileUploadBehavior.php:170-185 | with no owned row, deleteFiles returns true and changes neither the call log nor the objects |
| Deletion.EveryOwnedRowAttempted | Model/Behavior/FileUploadBehavior.php:172-178 | for hasMany a delete is attempted for every owned row, with no early exit |
| Deletion.UploadedObjectDeleted | Model/Behavior/FileUploadBehavior.php:163-186 | a stored object whose row is in the table is gone after the owner's files are deleted through hasMany, when every delete succeeds |
| FileUpload.Uploaded | Model/Behavior/FileUploadBehavior.php:81-97 | what saveUploadedFile does: one write of the content under the chosen key to the configured adapter; the result is the write's; the slot is filled only on success |
| FileUpload.FilesDeleted | Model/Behavior/FileUploadBehavior.php:163-186 | what deleteFiles does: the Deleted outcome for the targets of the rows the record owns |
| FileUpload.HostModel.BindModel | Model/Behavior/FileUploadBehavior.php:49 | each bindModel call is recorded in order |
| FileUpload.FileUploadBehavior.Setup | Model/Behavior/FileUploadBehavior.php:40-73 | stores exactly the resolved settings under the alias and makes the resolved binding, or throws and changes nothing; keeps every entry complete |
| FileUpload.FileUploadBehavior.SaveUploadedFile | Model/Behavior/FileUploadBehavior.php:81-97 | one write of the content under the chosen key to the configured adapter; the result is the write's; the slot is filled only on success |
| FileUpload.FileUploadBehavior.BeforeSave | Model/Behavior/FileUploadBehavior.php:105-111 | uploads and returns the upload's result when `storageCallback === 'beforeSave'`, otherwise returns true and changes nothing |
| FileUpload.FileUploadBehavior.AfterSave | Model/Behavior/FileUploadBehavior.php:120-126 | the same for 'afterSave' |
| FileUpload.FileUploadBehavior.BeforeDelete | Model/Behavior/FileUploadBehavior.php:134-139 | returns deleteFiles' result when the setting loosely equals 'beforeDelete', otherwise no value and no storage change |
| FileUpload.FileUploadBehavior.AfterDelete | Model/Behavior/FileUploadBehavior.php:149-155 | deletes the files when the setting loosely equals 'afterDelete' and drops the result, otherwise changes nothing |
| FileUpload.FileUploadBehavior.DeleteFiles | Model/Behavior/FileUploadBehavior.php:163-186 | one delete per targeted row in order, objects removed as the calls succeed, true exactly when every delete succeeded |
| FileUpload.FileUploadBehavior.DeleteEach | Model/Behavior/FileUploadBehavior.php:173-177 | the loop deletes every row in order, never stopping early, and its flag is the conjunction of the outcomes |
| FileUpload.UploadThenDelete | Model/Behavior/FileUploadBehavior.php:81-186 | the intended round trip: after setup with default settings, the upload in afterSave stores the content under the fresh key; once the host saves the row the slot describes, afterDelete removes it again (one write, one delete, no object left). This needs the name listed as a hasMany value, which the automatic binding never does, and adapter calls that succeed |
| FileUpload.UploadThenDeleteAsBound | Model/Behavior/FileUploadBehavior.php:49-55 | the round trip as the code runs it once the association name is supplied: with `File` bound as a hasMany key, not a value, afterDelete makes no call; the upload's write is the only call and the file remains. As written, afterDelete dies at line 164 before any adapter call, with the same storage outcome |
| FileUpload.FileUploadBehavior.DeleteFile | Model/Behavior/FileUploadBehavior.php:203-208 | returns exactly the adapter's delete result for the row's adapter and path |

## Left out

- `StorageManager::adapter(...)` and the real backends are foreign code. They are modelled as one object map with a call log and a per-call success oracle.
- `file_get_contents` of the upload's temporary file is file I/O. The content is a parameter of the upload.
- `computeKey`'s `String::uuid()` is randomness. The UUID is a parameter of the upload.
- `method_exists` and the dynamic call of the key method are modelled as a map from the model's key methods to the keys they return. PHP's case-insensitive method names are not modelled.
- `getLastInsertId`, `$Model->id`, `$Model->name` and `get_class($Model)` are plain fields of the host model.
- `bindModel` is recorded, not executed. The defaults CakePHP adds to a bound association (fields, order, limit and the rest that the setup test lists) are not modelled.
- `find('all')` is modelled on flat rows filtered by the two conditions. Real result rows nest each record under the association alias.
- `in_array($storageModelAssocName, $Model->hasMany)` and the `hasOne` test are inputs to the delete callbacks. They test array values, not keys, so with the automatic binding the `hasMany` test is false.
- DeleteFiles: as written, `deleteFiles` reads an undefined `$storageModelAssocName`, so `$Model->{$storageModelAssocName}->find(...)` at line 164 is a fatal error, and every deletion started by `beforeDelete` or `afterDelete` fails there. The model passes in the configured association name instead. It also treats the found rows as flat records. Real rows nest each record under the association alias, so `deleteFile`'s `$data['adapter']` and `$data['path']` at line 204 would read missing keys.
- DeleteFiles: the `hasOne` branch's `$files[$storageModelAssocName]` indexes the result list by the association name. It is modelled as the first found row.
- PHP integer array keys, floats and PHP 8 comparison rules are not modelled; loose `==` follows PHP 5/7.
- `extract` is modelled by reading the settings by name. Its overwriting of local variables is not modelled.
- SaveUploadedFile: requires the association name, path field and adapter to be strings. It also requires the association's data slot to be missing, null, `false` or an array, the shapes PHP 5/7 turns into an array without complaint. A slot holding `''` is also silently turned into an array before PHP 7.1, but the model excludes it. Other strings, `true` and integers give a warning or an error.
- SaveUploadedFile: does not put the adapter name into the slot, as the code does not; `Upload.RecordOf` takes it separately.
- BeforeDelete, AfterDelete: require the association name to be a string naming a known table, as the query on `$Model->{$storageModelAssocName}` needs.
- There is no concurrency; a crash between a write and the save of its row is not modelled.
