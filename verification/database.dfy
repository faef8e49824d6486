/** The `Database` object: the action guard and the classification of a batch into
    create/update operations, with the notifications fired afterwards. */
module DatabaseCore {
  import opened Wrappers

  /** The two flags the guard reads: the constructor's `actionsEnabled` option and
      whether the action queue is running an action right now. */
  datatype Database = Database(actionsEnabled: bool, isRunning: bool)

  datatype DbError =
    | NotInAction            // a write outside of an action while actions are enabled
    | CannotBatch(index: nat) // the record at this position has nothing prepared
    | AdapterFailed          // the storage adapter rejected the batch

  /** The state of a record object that `batch` reads and writes. */
  datatype Record = Record(isCommitted: bool, hasPendingUpdate: bool)

  /** Record objects by identity. `batch` is handed references: the same reference passed
      twice is one object, and a write through the first is seen through the second. */
  type Ref = nat
  type Heap = map<Ref, Record>

  datatype OpKind = Create | Update

  datatype Operation = Operation(kind: OpKind, record: Ref)

  /** `collection._onRecordCreated(record)` / `collection._onRecordUpdated(record)`. */
  datatype Notification = RecordCreated(record: Ref) | RecordUpdated(record: Ref)

  /** What one call of `batch` did: the record objects afterwards, the operations handed
      to the adapter (if it was called), the notifications fired, and the outcome. */
  datatype BatchRun = BatchRun(
    heap: Heap,
    adapterCalledWith: Option<seq<Operation>>,
    notifications: seq<Notification>,
    outcome: Outcome<DbError>)

  /** `_ensureInAction`: writes need a running action, but only when actions are enabled. */
  function EnsureInAction(db: Database): (o: Outcome<DbError>)
    ensures !db.actionsEnabled ==> o == Pass
    ensures o.Fail? <==> db.isRunning == false && db.actionsEnabled
    ensures o.Fail? ==> o.error == NotInAction
  {
    if db.actionsEnabled && !db.isRunning then Fail(NotInAction) else Pass
  }

  /** The action queue as the guard sees it: while an action's work runs, the queue is running. */
  function EnterAction(db: Database): (inside: Database)
    ensures inside.actionsEnabled == db.actionsEnabled
    ensures EnsureInAction(inside) == Pass
  {
    db.(isRunning := true)
  }

  /** Every reference passed to `batch` names an object. */
  predicate Refers(heap: Heap, refs: seq<Ref>)
  {
    forall i :: 0 <= i < |refs| ==> refs[i] in heap
  }

  /** A record object can be batched when it is new (not committed) or has a prepared update. */
  predicate Batchable(r: Record)
  {
    !r.isCommitted || r.hasPendingUpdate
  }

  /** The object after `record._hasPendingUpdate = false`. */
  function Cleared(r: Record): Record
  {
    r.(hasPendingUpdate := false)
  }

  /** When the map reaches entry `i`, its object still has its prepared update: it had one
      before the call, and no earlier entry named the same object (which would have cleared it). */
  predicate PendingAt(heap: Heap, refs: seq<Ref>, i: nat)
    requires Refers(heap, refs) && i < |refs|
  {
    heap[refs[i]].hasPendingUpdate && refs[i] !in refs[..i]
  }

  /** Entry `i` passes the invariant when the map reaches it. */
  predicate BatchableAt(heap: Heap, refs: seq<Ref>, i: nat)
    requires Refers(heap, refs) && i < |refs|
  {
    !heap[refs[i]].isCommitted || PendingAt(heap, refs, i)
  }

  /** Reference for the objects after the first `k` entries were mapped: each object one of
      them names has lost its prepared update, every other object is as it was. */
  function ClearedUpTo(heap: Heap, refs: seq<Ref>, k: nat): (h: Heap)
    requires k <= |refs|
    ensures h.Keys == heap.Keys
  {
    map r | r in heap :: if r in refs[..k] then Cleared(heap[r]) else heap[r]
  }

  /** The map's write for one entry: the pending-update flag is cleared when it is set. */
  function Step(heap: Heap, ref: Ref): (h: Heap)
    requires ref in heap
    ensures h.Keys == heap.Keys && h[ref] == Cleared(heap[ref])
    ensures forall r :: r in heap && r != ref ==> h[r] == heap[r]
  {
    if heap[ref].hasPendingUpdate then heap[ref := Cleared(heap[ref])] else heap
  }

  /** After the first entry's write, the remaining entries see exactly what the whole list
      sees from its second entry on. */
  lemma StepShift(heap: Heap, refs: seq<Ref>)
    requires Refers(heap, refs) && |refs| > 0
    ensures Refers(Step(heap, refs[0]), refs[1..])
    ensures forall i :: 1 <= i < |refs| ==>
      && (PendingAt(Step(heap, refs[0]), refs[1..], i - 1) <==> PendingAt(heap, refs, i))
      && (BatchableAt(Step(heap, refs[0]), refs[1..], i - 1) <==> BatchableAt(heap, refs, i))
    ensures forall k :: 1 <= k <= |refs| ==> ClearedUpTo(Step(heap, refs[0]), refs[1..], k - 1) == ClearedUpTo(heap, refs, k)
  {
    var after := Step(heap, refs[0]);
    var tail := refs[1..];
    forall i | 1 <= i < |refs|
      ensures (PendingAt(after, tail, i - 1) <==> PendingAt(heap, refs, i))
    {
      assert tail[..i - 1] == refs[1..i];
      assert refs[..i] == [refs[0]] + refs[1..i];
    }
    forall k | 1 <= k <= |refs|
      ensures ClearedUpTo(after, tail, k - 1) == ClearedUpTo(heap, refs, k)
    {
      assert tail[..k - 1] == refs[1..k];
      assert refs[..k] == [refs[0]] + refs[1..k];
    }
  }

  /** The `records.map(...)` of `batch`: one operation per entry, in order, clearing the
      pending-update flag of each object as it goes; it stops at the first entry that is not
      batchable at that moment, leaving the objects of the entries before it already cleared.
      Returns the objects afterwards and either the operations or the error. */
  function BuildOperations(heap: Heap, refs: seq<Ref>): (p: (Heap, Result<seq<Operation>, DbError>))
    requires Refers(heap, refs)
    ensures p.1.Success? <==> forall i :: 0 <= i < |refs| ==> BatchableAt(heap, refs, i)
    ensures p.1.Success? ==>
      && p.0 == ClearedUpTo(heap, refs, |refs|)
      && |p.1.value| == |refs|
      && (forall i :: 0 <= i < |refs| ==>
            p.1.value[i] == Operation(if PendingAt(heap, refs, i) then Update else Create, refs[i]))
    ensures p.1.Failure? ==>
      && p.1.error.CannotBatch?
      && p.1.error.index < |refs|
      && !BatchableAt(heap, refs, p.1.error.index)
      && (forall j :: 0 <= j < p.1.error.index ==> BatchableAt(heap, refs, j))
      && p.0 == ClearedUpTo(heap, refs, p.1.error.index)
    decreases |refs|
  {
    if |refs| == 0 then
      assert ClearedUpTo(heap, refs, 0) == heap;
      (heap, Success([]))
    else
      var ref := refs[0];
      var rec := heap[ref];
      assert refs[..0] == [];
      if !Batchable(rec) then
        assert ClearedUpTo(heap, refs, 0) == heap;
        assert !BatchableAt(heap, refs, 0);
        (heap, Failure(CannotBatch(0)))
      else
        var op := Operation(if rec.hasPendingUpdate then Update else Create, ref);
        StepShift(heap, refs);
        var rest := BuildOperations(Step(heap, ref), refs[1..]);
        assert BatchableAt(heap, refs, 0) && (PendingAt(heap, refs, 0) <==> rec.hasPendingUpdate);
        match rest.1
        case Success(ops) =>
          assert forall i :: 1 <= i < |refs| ==> ([op] + ops)[i] == ops[i - 1];
          (rest.0, Success([op] + ops))
        case Failure(e) =>
          assert !BatchableAt(heap, refs, e.index + 1);
          (rest.0, Failure(CannotBatch(if e.CannotBatch? then e.index + 1 else 0)))
  }

  function Notify(op: Operation): Notification
  {
    if op.kind == Create then RecordCreated(op.record) else RecordUpdated(op.record)
  }

  /** `database.batch(...records)`; `adapterSucceeds` is the outcome of `adapter.batch`. */
  function Batch(db: Database, heap: Heap, refs: seq<Ref>, adapterSucceeds: bool): (run: BatchRun)
    requires Refers(heap, refs)
    ensures EnsureInAction(db).Fail? ==> run == BatchRun(heap, None, [], Fail(NotInAction))
    ensures run.adapterCalledWith.Some? <==>
      EnsureInAction(db).Pass? && forall i :: 0 <= i < |refs| ==> BatchableAt(heap, refs, i)
    // once the adapter is called the flags stay cleared, whether or not it succeeds
    ensures run.adapterCalledWith.Some? ==>
      && run.heap == ClearedUpTo(heap, refs, |refs|)
      && |run.adapterCalledWith.value| == |refs|
      && (forall i :: 0 <= i < |refs| ==>
            run.adapterCalledWith.value[i] == Operation(if PendingAt(heap, refs, i) then Update else Create, refs[i]))
    // an entry that is not batchable aborts before the adapter, with the earlier flags cleared
    ensures EnsureInAction(db).Pass? && run.adapterCalledWith.None? ==>
      && run.outcome.Fail? && run.outcome.error.CannotBatch?
      && run.outcome.error.index < |refs|
      && !BatchableAt(heap, refs, run.outcome.error.index)
      && run.heap == ClearedUpTo(heap, refs, run.outcome.error.index)
    ensures run.outcome.Pass? <==> run.adapterCalledWith.Some? && adapterSucceeds
    ensures run.outcome.Pass? ==>
      && |run.notifications| == |refs|
      && (forall i :: 0 <= i < |refs| ==>
            run.notifications[i] == if PendingAt(heap, refs, i) then RecordUpdated(refs[i]) else RecordCreated(refs[i]))
    ensures !run.outcome.Pass? ==> run.notifications == []
  {
    if EnsureInAction(db).Fail? then BatchRun(heap, None, [], Fail(NotInAction))
    else
      var p := BuildOperations(heap, refs);
      match p.1
      case Failure(e) => BatchRun(p.0, None, [], Fail(e))
      case Success(ops) =>
        if !adapterSucceeds then BatchRun(p.0, Some(ops), [], Fail(AdapterFailed))
        else BatchRun(p.0, Some(ops), seq(|ops|, i requires 0 <= i < |ops| => Notify(ops[i])), Pass)
  }

  /** A batch run as the work of `database.action(...)` never trips the guard; the same
      batch outside an action, with actions enabled, is refused before any object changes. */
  lemma WritesAllowedInAction(db: Database, heap: Heap, refs: seq<Ref>, adapterSucceeds: bool)
    requires Refers(heap, refs)
    ensures Batch(EnterAction(db), heap, refs, adapterSucceeds).outcome != Fail(NotInAction)
    ensures Batch(EnterAction(db), heap, refs, adapterSucceeds).outcome.Pass? <==>
      adapterSucceeds && forall i :: 0 <= i < |refs| ==> BatchableAt(heap, refs, i)
    ensures db.actionsEnabled && !db.isRunning ==>
      Batch(db, heap, refs, adapterSucceeds) == BatchRun(heap, None, [], Fail(NotInAction))
  {
  }

  /** With no object named twice, each entry is judged on its object's state before the
      call, and an object is an update exactly when it had a prepared update. */
  lemma DistinctRefsBatchable(heap: Heap, refs: seq<Ref>)
    requires Refers(heap, refs)
    requires forall i, j :: 0 <= i < j < |refs| ==> refs[i] != refs[j]
    ensures forall i :: 0 <= i < |refs| ==>
      && (BatchableAt(heap, refs, i) <==> Batchable(heap[refs[i]]))
      && (PendingAt(heap, refs, i) <==> heap[refs[i]].hasPendingUpdate)
  {
  }

  /** The same committed record with a prepared update passed twice: the first entry
      clears the shared flag, so the second is refused and the adapter is never called. */
  lemma SameRecordTwiceIsRefused(db: Database, heap: Heap, ref: Ref, adapterSucceeds: bool)
    requires ref in heap && heap[ref].isCommitted && heap[ref].hasPendingUpdate
    requires EnsureInAction(db).Pass?
    ensures Batch(db, heap, [ref, ref], adapterSucceeds).adapterCalledWith.None?
    ensures Batch(db, heap, [ref, ref], adapterSucceeds).outcome == Fail(CannotBatch(1))
    ensures Batch(db, heap, [ref, ref], adapterSucceeds).heap[ref] == Cleared(heap[ref])
  {
    var refs := [ref, ref];
    assert refs[..1] == [ref];
    assert !BatchableAt(heap, refs, 1);
    assert BatchableAt(heap, refs, 0) by { assert refs[..0] == []; }
  }
}
