/** What `deleteFiles` does to the storage backends: which rows it finds for
    the owner, which of them it deletes, in what order, and what remains. */
module Deletion {
  import opened PhpValues
  import opened FileStorage
  import Upload

  /** The row belongs to the model's record: the query's two conditions. */
  predicate Owned(r: FileRecord, className: string, id: Value)
  {
    r.model == className && r.foreignKey == id
  }

  /** `find('all')` on the association with `model = className` and
      `foreign_key = id`, in table order. */
  function Find(rows: seq<FileRecord>, className: string, id: Value): seq<FileRecord>
  {
    if rows == [] then []
    else (if Owned(rows[0], className, id) then [rows[0]] else []) + Find(rows[1..], className, id)
  }

  /** The query returns exactly the rows the model's record owns, and no
      more rows than the table holds. */
  lemma {:induction false} FindSelectsOwned(rows: seq<FileRecord>, className: string, id: Value)
    ensures forall r :: r in Find(rows, className, id) <==> r in rows && Owned(r, className, id)
    ensures |Find(rows, className, id)| <= |rows|
  {
    if rows != [] {
      FindSelectsOwned(rows[1..], className, id);
      assert rows == [rows[0]] + rows[1..];
    }
  }

  /** The rows `deleteFile` is called on, in order: every row when the
      association is listed among the `hasMany` ones, then the single row
      when it is listed among the `hasOne` ones (two separate tests, so both
      can apply); none when nothing was found. */
  function Targets(found: seq<FileRecord>, inHasMany: bool, inHasOne: bool): seq<FileRecord>
  {
    if found == [] then []
    else (if inHasMany then found else []) + (if inHasOne then [found[0]] else [])
  }

  /** Nothing found, nothing deleted; otherwise every found row for a
      `hasMany` association, in order, then the first one again for a
      `hasOne` association. */
  lemma TargetsInOrder(found: seq<FileRecord>, inHasMany: bool, inHasOne: bool)
    ensures found == [] ==> Targets(found, inHasMany, inHasOne) == []
    ensures found != [] ==> |Targets(found, inHasMany, inHasOne)|
                            == (if inHasMany then |found| else 0) + (if inHasOne then 1 else 0)
    ensures inHasMany ==> forall i :: 0 <= i < |found| ==> Targets(found, inHasMany, inHasOne)[i] == found[i]
    ensures inHasOne && found != [] ==>
              Targets(found, inHasMany, inHasOne)[|Targets(found, inHasMany, inHasOne)| - 1] == found[0]
    ensures forall t :: t in Targets(found, inHasMany, inHasOne) ==> t in found
  {
  }

  /** The adapter calls made for `targets`. */
  function DeleteCalls(targets: seq<FileRecord>): (calls: seq<Call>)
    ensures |calls| == |targets|
  {
    if targets == [] then []
    else DeleteCalls(targets[..|targets| - 1]) + [DeleteCall(LocationOf(targets[|targets| - 1]))]
  }

  /** One delete per target row, in the targets' order. */
  lemma {:induction false} OneDeletePerTarget(targets: seq<FileRecord>)
    ensures forall i :: 0 <= i < |targets| ==> DeleteCalls(targets)[i] == DeleteCall(LocationOf(targets[i]))
  {
    if targets != [] {
      OneDeletePerTarget(targets[..|targets| - 1]);
    }
  }

  /** The objects left after deleting `targets` in order, the i-th delete
      being call number `first + i` and taking effect when that call
      succeeds. */
  function AfterDeletes(objects: map<Location, Bytes>, targets: seq<FileRecord>, succeeds: nat -> bool, first: nat)
    : map<Location, Bytes>
  {
    if targets == [] then objects
    else
      var n := |targets| - 1;
      var before := AfterDeletes(objects, targets[..n], succeeds, first);
      if succeeds(first + n) then before - {LocationOf(targets[n])} else before
  }

  /** Deleting only removes objects, only targeted ones, and leaves the
      content of every other object as it was. */
  lemma {:induction false} AfterDeletesOnlyRemovesTargets(objects: map<Location, Bytes>, targets: seq<FileRecord>,
                                                          succeeds: nat -> bool, first: nat)
    ensures AfterDeletes(objects, targets, succeeds, first).Keys <= objects.Keys
    ensures forall at :: at in AfterDeletes(objects, targets, succeeds, first) ==>
              AfterDeletes(objects, targets, succeeds, first)[at] == objects[at]
    ensures forall at :: at in objects && (forall t :: t in targets ==> LocationOf(t) != at) ==>
              at in AfterDeletes(objects, targets, succeeds, first)
  {
    if targets != [] {
      var n := |targets| - 1;
      AfterDeletesOnlyRemovesTargets(objects, targets[..n], succeeds, first);
      assert forall t :: t in targets[..n] ==> t in targets;
    }
  }

  /** Calls number `first` to `first + count - 1` all succeed. */
  predicate AllSucceeded(succeeds: nat -> bool, first: nat, count: nat)
  {
    count == 0 || (AllSucceeded(succeeds, first, count - 1) && succeeds(first + count - 1))
  }

  /** `AllSucceeded` is the plain statement that no call in the range failed. */
  lemma {:induction false} AllSucceededIff(succeeds: nat -> bool, first: nat, count: nat)
    ensures AllSucceeded(succeeds, first, count) <==> forall i :: first <= i < first + count ==> succeeds(i)
  {
    if count > 0 {
      AllSucceededIff(succeeds, first, count - 1);
    }
  }

  /** Deleting one more row: the calls and the remaining objects of the
      longer list extend those of the shorter by that row's delete. */
  lemma DeleteCallsSnoc(objects: map<Location, Bytes>, targets: seq<FileRecord>, r: FileRecord,
                      succeeds: nat -> bool, first: nat)
    ensures DeleteCalls(targets + [r]) == DeleteCalls(targets) + [DeleteCall(LocationOf(r))]
    ensures AfterDeletes(objects, targets + [r], succeeds, first)
            == if succeeds(first + |targets|) then AfterDeletes(objects, targets, succeeds, first) - {LocationOf(r)}
               else AfterDeletes(objects, targets, succeeds, first)
  {
    assert (targets + [r])[..|targets|] == targets;
  }

  /** The outcome of deleting `targets` in order, starting from the call log
      `log0` and the objects `objects0`: one delete call per target appended
      to the log, the objects those that succeeded left behind, and `ok`
      exactly when every one of them succeeded. */
  predicate Deleted(log0: seq<Call>, objects0: map<Location, Bytes>, targets: seq<FileRecord>,
                    succeeds: nat -> bool, log: seq<Call>, objects: map<Location, Bytes>, ok: bool)
  {
    && log == log0 + DeleteCalls(targets)
    && objects == AfterDeletes(objects0, targets, succeeds, |log0|)
    && ok == AllSucceeded(succeeds, |log0|, |targets|)
  }

  /** Before any delete, nothing has happened and nothing has failed. */
  lemma DeletedNone(log0: seq<Call>, objects0: map<Location, Bytes>, succeeds: nat -> bool)
    ensures Deleted(log0, objects0, [], succeeds, log0, objects0, true)
  {
  }

  /** One more `deleteFile`, made as the next call, extends the outcome by
      that row; a failure turns `ok` false for good. */
  lemma DeletedOneMore(log0: seq<Call>, objects0: map<Location, Bytes>, targets: seq<FileRecord>, r: FileRecord,
                       succeeds: nat -> bool, log: seq<Call>, objects: map<Location, Bytes>, ok: bool)
    requires Deleted(log0, objects0, targets, succeeds, log, objects, ok)
    ensures var next := succeeds(|log|);
            Deleted(log0, objects0, targets + [r], succeeds, log + [DeleteCall(LocationOf(r))],
                    if next then objects - {LocationOf(r)} else objects, ok && next)
  {
    DeleteCallsSnoc(objects0, targets, r, succeeds, |log0|);
    assert |log| == |log0| + |targets|;
  }

  /** Deleting a single row, whatever the outcome flag: one call, and the
      object is gone when that call succeeds. */
  lemma DeletedSingle(log0: seq<Call>, objects0: map<Location, Bytes>, r: FileRecord,
                      succeeds: nat -> bool, log: seq<Call>, objects: map<Location, Bytes>)
    requires exists ok :: Deleted(log0, objects0, [r], succeeds, log, objects, ok)
    ensures log == log0 + [DeleteCall(LocationOf(r))]
    ensures objects == if succeeds(|log0|) then objects0 - {LocationOf(r)} else objects0
  {
    DeleteCallsSnoc(objects0, [], r, succeeds, |log0|);
    assert [] + [r] == [r];
  }

  /** When every delete succeeds, no targeted object is left. */
  lemma {:induction false} AllSucceededRemovesTargets(objects: map<Location, Bytes>, targets: seq<FileRecord>,
                                                      succeeds: nat -> bool, first: nat)
    requires forall i :: first <= i < first + |targets| ==> succeeds(i)
    ensures forall t :: t in targets ==> LocationOf(t) !in AfterDeletes(objects, targets, succeeds, first)
  {
    if targets != [] {
      var n := |targets| - 1;
      AllSucceededRemovesTargets(objects, targets[..n], succeeds, first);
      forall t | t in targets
        ensures LocationOf(t) !in AfterDeletes(objects, targets, succeeds, first)
      {
        var j :| 0 <= j < |targets| && targets[j] == t;
        if j < n {
          assert targets[..n][j] == t;
        }
      }
    }
  }

  /** No matching row: no adapter call is made. */
  lemma {:induction false} NothingOwnedNoCalls(rows: seq<FileRecord>, className: string, id: Value, inHasMany: bool, inHasOne: bool)
    requires forall r :: r in rows ==> !Owned(r, className, id)
    ensures Find(rows, className, id) == []
    ensures DeleteCalls(Targets(Find(rows, className, id), inHasMany, inHasOne)) == []
  {
    if rows != [] {
      NothingOwnedNoCalls(rows[1..], className, id, inHasMany, inHasOne);
    }
  }

  /** No matching row: `deleteFiles` reports success and leaves the call
      log and the objects as they were. */
  lemma NothingOwnedNothingDeleted(rows: seq<FileRecord>, className: string, id: Value,
                                   inHasMany: bool, inHasOne: bool, log0: seq<Call>,
                                   objects0: map<Location, Bytes>, succeeds: nat -> bool,
                                   log: seq<Call>, objects: map<Location, Bytes>, ok: bool)
    requires forall r :: r in rows ==> !Owned(r, className, id)
    requires Deleted(log0, objects0, Targets(Find(rows, className, id), inHasMany, inHasOne),
                     succeeds, log, objects, ok)
    ensures ok && log == log0 && objects == objects0
  {
    NothingOwnedNoCalls(rows, className, id, inHasMany, inHasOne);
  }

  /** For a `hasMany` association, a delete is attempted for every row
      the model's record owns, whatever the outcome of the others. */
  lemma {:induction false} EveryOwnedRowAttempted(rows: seq<FileRecord>, className: string, id: Value,
                                                  inHasOne: bool, r: FileRecord)
    requires r in rows && Owned(r, className, id)
    ensures DeleteCall(LocationOf(r)) in DeleteCalls(Targets(Find(rows, className, id), true, inHasOne))
  {
    var found := Find(rows, className, id);
    var targets := Targets(found, true, inHasOne);
    FindSelectsOwned(rows, className, id);
    TargetsInOrder(found, true, inHasOne);
    var j :| 0 <= j < |found| && found[j] == r;
    assert targets[j] == r;
    OneDeletePerTarget(targets);
    assert DeleteCalls(targets)[j] == DeleteCall(LocationOf(r));
  }

  /** Round trip: an object stored under `key` whose row is in the table is
      gone once the owner's files are deleted through a `hasMany`
      association and every delete succeeds. */
  lemma UploadedObjectDeleted(objects: map<Location, Bytes>, content: Bytes, rows: seq<FileRecord>,
                              className: string, insertId: Value, key: string, adapter: string,
                              inHasOne: bool, succeeds: nat -> bool, first: nat)
    requires FileRecord(className, insertId, key, adapter) in rows
    requires forall i :: first <= i < first + |rows| + 1 ==> succeeds(i)
    ensures Location(adapter, key) !in AfterDeletes(objects[Location(adapter, key) := content],
                                                    Targets(Find(rows, className, insertId), true, inHasOne),
                                                    succeeds, first)
  {
    var record := FileRecord(className, insertId, key, adapter);
    var targets := Targets(Find(rows, className, insertId), true, inHasOne);
    FindSelectsOwned(rows, className, insertId);
    TargetsInOrder(Find(rows, className, insertId), true, inHasOne);
    assert record in Find(rows, className, insertId);
    var j :| 0 <= j < |Find(rows, className, insertId)| && Find(rows, className, insertId)[j] == record;
    assert targets[j] == record && record in targets;
    assert |targets| <= |rows| + 1;
    AllSucceededRemovesTargets(objects[Location(adapter, key) := content], targets, succeeds, first);
  }
}
