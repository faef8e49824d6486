/** The per-record rules of sync over an in-memory store of one collection: applying a
    pulled change set, fetching local changes for push, and marking them as synced. */
module SyncApply {
  import opened Wrappers
  import opened Values
  import opened SyncHelpers

  /** The local records of one collection, by id. */
  type Store = map<Value, Raw>

  /** What the server sends for one collection: full raws for created and updated
      records, ids for deleted ones. */
  datatype RemoteChanges = RemoteChanges(created: seq<Raw>, updated: seq<Raw>, deleted: seq<Value>)

  /** One entry of a change set. */
  datatype RemoteOp = RemoteCreated(raw: Raw) | RemoteUpdated(raw: Raw) | RemoteDeleted(id: Value)

  function KeyOf(op: RemoteOp): Value
  {
    match op
    case RemoteCreated(raw) => Get(raw, Id)
    case RemoteUpdated(raw) => Get(raw, Id)
    case RemoteDeleted(id) => id
  }

  /** The entries of a change set in the order they are applied: inserts, updates, destroys. */
  function Ops(changes: RemoteChanges): (ops: seq<RemoteOp>)
    ensures |ops| == |changes.created| + |changes.updated| + |changes.deleted|
    ensures forall i :: 0 <= i < |changes.created| ==> ops[i] == RemoteCreated(changes.created[i])
    ensures forall i :: 0 <= i < |changes.updated| ==>
      ops[|changes.created| + i] == RemoteUpdated(changes.updated[i])
    ensures forall i :: 0 <= i < |changes.deleted| ==>
      ops[|changes.created| + |changes.updated| + i] == RemoteDeleted(changes.deleted[i])
  {
    seq(|changes.created|, i requires 0 <= i < |changes.created| => RemoteCreated(changes.created[i]))
    + seq(|changes.updated|, i requires 0 <= i < |changes.updated| => RemoteUpdated(changes.updated[i]))
    + seq(|changes.deleted|, i requires 0 <= i < |changes.deleted| => RemoteDeleted(changes.deleted[i]))
  }

  /** No id occurs twice in the entries. */
  predicate DistinctKeys(ops: seq<RemoteOp>)
  {
    forall i, j :: 0 <= i < j < |ops| ==> KeyOf(ops[i]) != KeyOf(ops[j])
  }

  function Lookup(s: Store, id: Value): Option<Raw>
  {
    if id in s then Some(s[id]) else None
  }

  predicate LocallyDeleted(raw: Raw)
  {
    Get(raw, StatusKey) == Deleted
  }

  /** The rule for one entry against the local record with its id (`None` when absent);
      the result is the record afterwards, `None` when it is gone. */
  function ApplyOne(current: Option<Raw>, op: RemoteOp): (r: Result<Option<Raw>, HelperError>)
    // a destroy never fails, is ignored for a locally deleted record and otherwise removes it
    ensures op.RemoteDeleted? ==>
      && r.Success?
      && (r.value.Some? <==> current.Some? && LocallyDeleted(current.value))
      && (r.value.Some? ==> r.value == current)
    // an insert or update of a record that does not exist creates it as synced
    ensures !op.RemoteDeleted? && current.None? ==> r == Success(Some(PrepareCreateFromRaw(op.raw)))
    // an update of a locally deleted record is ignored
    ensures op.RemoteUpdated? && current.Some? && LocallyDeleted(current.value) ==> r == Success(current)
    // an insert of a locally deleted record un-deletes it: it comes back synced with the server's columns
    ensures op.RemoteCreated? && current.Some? && LocallyDeleted(current.value) ==>
      && r.Success? && r.value.Some?
      && Get(r.value.value, StatusKey) == Synced
      && Get(r.value.value, ChangedKey) == Str("")
      && forall c :: c in op.raw && c !in {Id, StatusKey, ChangedKey, ""} ==> Get(r.value.value, c) == op.raw[c]
    // otherwise an insert or update merges, and fails only when `_changed` is not a string
    ensures !op.RemoteDeleted? && current.Some? && !LocallyDeleted(current.value) ==>
      r == (match ResolveConflict(current.value, op.raw)
            case Success(m) => Success(Some(m))
            case Failure(e) => Failure(e))
    ensures !op.RemoteDeleted? && r.Success? ==> r.value.Some?
  {
    match op
    case RemoteDeleted(_) =>
      if current.Some? && LocallyDeleted(current.value) then Success(current) else Success(None)
    case RemoteCreated(raw) =>
      if current.None? then Success(Some(PrepareCreateFromRaw(raw)))
      else
        var local := if LocallyDeleted(current.value) then PrepareMarkAsSynced(current.value) else current.value;
        UndeleteLemma(current.value, raw);
        (match ResolveConflict(local, raw)
         case Success(m) => Success(Some(m))
         case Failure(e) => Failure(e))
    case RemoteUpdated(raw) =>
      if current.None? then Success(Some(PrepareCreateFromRaw(raw)))
      else if LocallyDeleted(current.value) then Success(current)
      else
        match ResolveConflict(current.value, raw)
        case Success(m) => Success(Some(m))
        case Failure(e) => Failure(e)
  }

  /** Un-deleting (marking synced) and then merging takes every server column. */
  lemma UndeleteLemma(local: Raw, remote: Raw)
    ensures var m := ResolveConflict(PrepareMarkAsSynced(local), remote);
      && m.Success?
      && Get(m.value, StatusKey) == Synced
      && Get(m.value, ChangedKey) == Str("")
      && forall c :: c in remote && c !in {Id, StatusKey, ChangedKey, ""} ==> Get(m.value, c) == remote[c]
  {
  }

  /** A server update of a synced record with no local changes takes every column the
      server sends and stays synced; columns only the local raw holds are kept. */
  lemma SyncedUpdateTakesServer(local: Raw, raw: Raw)
    requires Get(local, StatusKey) == Synced && Get(local, ChangedKey) == Str("")
    ensures var r := ApplyOne(Some(local), RemoteUpdated(raw));
      && r.Success? && r.value.Some?
      && Get(r.value.value, StatusKey) == Synced
      && Get(r.value.value, ChangedKey) == Str("")
      && (forall c :: c in raw && c !in {Id, StatusKey, ChangedKey, ""} ==> Get(r.value.value, c) == raw[c])
      && (forall c :: c in local && c !in raw && c !in {Id, StatusKey, ChangedKey} ==> Get(r.value.value, c) == local[c])
  {
    JsStrings.SplitWithoutSeparator("", ',');
    assert ChangedColumns(local) == [""];
    ResolveConflictColumns(local, raw);
  }

  /** Applies one entry to the store; only the entry's own id can change. */
  function ApplyOp(s: Store, op: RemoteOp): (r: Result<Store, HelperError>)
    ensures r.Success? <==> ApplyOne(Lookup(s, KeyOf(op)), op).Success?
    ensures r.Success? ==> forall k :: Lookup(r.value, k) ==
                                       if k == KeyOf(op) then ApplyOne(Lookup(s, k), op).value else Lookup(s, k)
  {
    var k := KeyOf(op);
    match ApplyOne(Lookup(s, k), op)
    case Failure(e) => Failure(e)
    case Success(None) => Success(s - {k})
    case Success(Some(raw)) => Success(s[k := raw])
  }

  /** Applies the entries in order, stopping at the first failure (the whole batch is
      then abandoned, so the store is left as it was). */
  function ApplyOps(s: Store, ops: seq<RemoteOp>): (r: Result<Store, HelperError>)
    ensures r.Success? ==> forall k :: (forall i :: 0 <= i < |ops| ==> KeyOf(ops[i]) != k) ==> Lookup(r.value, k) == Lookup(s, k)
    ensures r.Failure? ==> r.error == ChangedNotAString
    decreases |ops|
  {
    if |ops| == 0 then Success(s)
    else
      match ApplyOp(s, ops[0])
      case Failure(e) => Failure(e)
      case Success(s1) => ApplyOps(s1, ops[1..])
  }

  /** `applyRemoteChanges` for one collection. */
  function ApplyRemoteChanges(s: Store, changes: RemoteChanges): (r: Result<Store, HelperError>)
    ensures r.Failure? ==> r.error == ChangedNotAString
    ensures r.Success? ==> forall k ::
      (forall i :: 0 <= i < |changes.created| ==> Get(changes.created[i], Id) != k) &&
      (forall i :: 0 <= i < |changes.updated| ==> Get(changes.updated[i], Id) != k) &&
      (forall i :: 0 <= i < |changes.deleted| ==> changes.deleted[i] != k) ==>
        Lookup(r.value, k) == Lookup(s, k)
  {
    ApplyOps(s, Ops(changes))
  }

  /** The first entry about `k`. */
  function OpFor(ops: seq<RemoteOp>, k: Value): (r: Option<RemoteOp>)
    ensures r.Some? ==> KeyOf(r.value) == k && exists i :: 0 <= i < |ops| && ops[i] == r.value
    ensures r.None? ==> forall i :: 0 <= i < |ops| ==> KeyOf(ops[i]) != k
    decreases |ops|
  {
    if |ops| == 0 then None
    else if KeyOf(ops[0]) == k then Some(ops[0])
    else
      var r := OpFor(ops[1..], k);
      if r.Some? then
        var i :| 0 <= i < |ops[1..]| && ops[1..][i] == r.value;
        assert ops[i + 1] == r.value;
        r
      else r
  }

  lemma OpForDistinct(ops: seq<RemoteOp>, i: int)
    requires DistinctKeys(ops) && 0 <= i < |ops|
    ensures OpFor(ops, KeyOf(ops[i])) == Some(ops[i])
    decreases |ops|
  {
  }

  /** What the store holds at `k` after applying entries with distinct ids: the rule for
      the one entry about `k`, or what it held before. */
  function PointwiseResult(s: Store, ops: seq<RemoteOp>, k: Value): Option<Raw>
  {
    match OpFor(ops, k)
    case None => Lookup(s, k)
    case Some(op) =>
      var r := ApplyOne(Lookup(s, k), op);
      if r.Success? then r.value else Lookup(s, k)
  }

  /** With distinct ids, applying the entries one after another is the same as applying
      each entry's rule to its own record independently. */
  lemma {:induction false} ApplyOpsPointwise(s: Store, ops: seq<RemoteOp>)
    requires DistinctKeys(ops)
    ensures ApplyOps(s, ops).Success? <==>
      forall i :: 0 <= i < |ops| ==> ApplyOne(Lookup(s, KeyOf(ops[i])), ops[i]).Success?
    ensures ApplyOps(s, ops).Success? ==>
      forall k :: Lookup(ApplyOps(s, ops).value, k) == PointwiseResult(s, ops, k)
    decreases |ops|
  {
    if |ops| > 0 {
      var o := ops[0];
      var rest := ops[1..];
      assert DistinctKeys(rest);
      if ApplyOp(s, o).Success? {
        var s1 := ApplyOp(s, o).value;
        ApplyOpsPointwise(s1, rest);
        forall i | 0 <= i < |rest|
          ensures Lookup(s1, KeyOf(rest[i])) == Lookup(s, KeyOf(rest[i]))
        {
          assert rest[i] == ops[i + 1];
        }
        assert (forall i :: 0 <= i < |ops| ==> ApplyOne(Lookup(s, KeyOf(ops[i])), ops[i]).Success?) <==>
          (forall i :: 0 <= i < |rest| ==> ApplyOne(Lookup(s1, KeyOf(rest[i])), rest[i]).Success?) by {
          if forall i :: 0 <= i < |rest| ==> ApplyOne(Lookup(s1, KeyOf(rest[i])), rest[i]).Success? {
            forall i | 0 <= i < |ops|
              ensures ApplyOne(Lookup(s, KeyOf(ops[i])), ops[i]).Success?
            {
              if i > 0 {
                assert ops[i] == rest[i - 1];
              }
            }
          }
        }
        if ApplyOps(s1, rest).Success? {
          var t := ApplyOps(s1, rest).value;
          forall k
            ensures Lookup(t, k) == PointwiseResult(s, ops, k)
          {
            if k == KeyOf(o) {
              assert OpFor(rest, k).None? by {
                forall i | 0 <= i < |rest| ensures KeyOf(rest[i]) != k {
                  assert rest[i] == ops[i + 1];
                }
              }
            }
          }
        }
      }
    }
  }

  /** Raws that no property read tells apart, or both absent. */
  ghost predicate OptEquiv(a: Option<Raw>, b: Option<Raw>)
  {
    (a.None? && b.None?) || (a.Some? && b.Some? && RawEquiv(a.value, b.value))
  }

  /** Two stores with the same ids whose records no property read tells apart. */
  ghost predicate StoreEquiv(a: Store, b: Store)
  {
    a.Keys == b.Keys && forall k :: k in a ==> RawEquiv(a[k], b[k])
  }

  /** Merging a freshly created record with the raw it was created from changes no column
      read (it may add `''` and `id` keys holding `undefined`). */
  lemma ResolveCreatedFromSelf(raw: Raw)
    ensures ResolveConflict(PrepareCreateFromRaw(raw), raw).Success?
    ensures RawEquiv(ResolveConflict(PrepareCreateFromRaw(raw), raw).value, PrepareCreateFromRaw(raw))
  {
  }

  /** Applying the same entry to its own result changes nothing a read can see. */
  lemma ApplyOneIdempotent(current: Option<Raw>, op: RemoteOp)
    requires ApplyOne(current, op).Success?
    ensures ApplyOne(ApplyOne(current, op).value, op).Success?
    ensures OptEquiv(ApplyOne(ApplyOne(current, op).value, op).value, ApplyOne(current, op).value)
  {
  }

  /** Applying entries with distinct ids a second time changes nothing a read can see. */
  lemma {:induction false} ApplyOpsIdempotent(s: Store, ops: seq<RemoteOp>)
    requires DistinctKeys(ops)
    requires ApplyOps(s, ops).Success?
    ensures ApplyOps(ApplyOps(s, ops).value, ops).Success?
    ensures StoreEquiv(ApplyOps(ApplyOps(s, ops).value, ops).value, ApplyOps(s, ops).value)
  {
    var t := ApplyOps(s, ops).value;
    ApplyOpsPointwise(s, ops);
    ApplyOpsPointwise(t, ops);
    forall i | 0 <= i < |ops|
      ensures ApplyOne(Lookup(t, KeyOf(ops[i])), ops[i]).Success?
    {
      OpForDistinct(ops, i);
      ApplyOneIdempotent(Lookup(s, KeyOf(ops[i])), ops[i]);
    }
    var t2 := ApplyOps(t, ops).value;
    forall k
      ensures OptEquiv(Lookup(t2, k), Lookup(t, k))
    {
      SecondApplyAt(s, ops, t, t2, k);
    }
    forall k | k in t2
      ensures k in t && RawEquiv(t2[k], t[k])
    {
      assert OptEquiv(Lookup(t2, k), Lookup(t, k));
    }
    forall k | k in t
      ensures k in t2
    {
      assert OptEquiv(Lookup(t2, k), Lookup(t, k));
    }
  }

  lemma SecondApplyAt(s: Store, ops: seq<RemoteOp>, t: Store, t2: Store, k: Value)
    requires forall i :: 0 <= i < |ops| ==> ApplyOne(Lookup(s, KeyOf(ops[i])), ops[i]).Success?
    requires Lookup(t, k) == PointwiseResult(s, ops, k)
    requires Lookup(t2, k) == PointwiseResult(t, ops, k)
    ensures OptEquiv(Lookup(t2, k), Lookup(t, k))
  {
    match OpFor(ops, k)
    case None =>
    case Some(op) =>
      var i :| 0 <= i < |ops| && ops[i] == op;
      assert ApplyOne(Lookup(s, k), op).Success?;
      ApplyOneIdempotent(Lookup(s, k), op);
  }

  /** Applying a change set a second time (as happens when `lastPulledAt` was not saved
      after a successful apply) leaves a store no read can tell from the first result. */
  lemma ApplyRemoteChangesIdempotent(s: Store, changes: RemoteChanges)
    requires DistinctKeys(Ops(changes))
    requires ApplyRemoteChanges(s, changes).Success?
    ensures ApplyRemoteChanges(ApplyRemoteChanges(s, changes).value, changes).Success?
    ensures StoreEquiv(ApplyRemoteChanges(ApplyRemoteChanges(s, changes).value, changes).value,
                       ApplyRemoteChanges(s, changes).value)
  {
    ApplyOpsIdempotent(s, Ops(changes));
  }
}
