/** The push side of sync: the snapshot of local changes and the commit that marks them
    as synced without losing edits made after the snapshot was taken. */
module SyncPush {
  import opened Values
  import opened SyncHelpers
  import opened SyncApply

  const Updated := Str("updated")

  /** Created and updated raws (bookkeeping columns stripped) and deleted ids. */
  datatype LocalChanges = LocalChanges(created: map<Value, Raw>, updated: map<Value, Raw>, deleted: set<Value>)

  /** `fetchLocalChanges` result: the changes to push, plus the full raws of the created
      and updated records as they were read, for the later comparison. */
  datatype LocalSnapshot = LocalSnapshot(changes: LocalChanges, affected: map<Value, Raw>)

  /** A raw without `_status` and `_changed`. */
  function Strip(raw: Raw): (r: Raw)
    ensures StatusKey !in r && ChangedKey !in r
    ensures forall c :: c != StatusKey && c != ChangedKey ==> Get(r, c) == Get(raw, c)
  {
    raw - {StatusKey, ChangedKey}
  }

  predicate HasStatus(s: Store, id: Value, status: Value)
  {
    id in s && Get(s[id], StatusKey) == status
  }

  /** `fetchLocalChanges`: a value snapshot of every created, updated and deleted record. */
  function FetchLocalChanges(s: Store): (snap: LocalSnapshot)
    ensures forall id :: id in snap.changes.created <==> HasStatus(s, id, Created)
    ensures forall id :: id in snap.changes.updated <==> HasStatus(s, id, Updated)
    ensures forall id :: id in snap.changes.deleted <==> HasStatus(s, id, Deleted)
    ensures forall id :: id in snap.changes.created ==> id in s && snap.changes.created[id] == Strip(s[id])
    ensures forall id :: id in snap.changes.updated ==> id in s && snap.changes.updated[id] == Strip(s[id])
    ensures snap.affected.Keys == snap.changes.created.Keys + snap.changes.updated.Keys
    ensures forall id :: id in snap.affected ==> id in s && snap.affected[id] == s[id]
  {
    var created := map id | id in s && Get(s[id], StatusKey) == Created :: Strip(s[id]);
    var updated := map id | id in s && Get(s[id], StatusKey) == Updated :: Strip(s[id]);
    var deleted := set id | id in s && Get(s[id], StatusKey) == Deleted;
    var affected := map id | id in s && (Get(s[id], StatusKey) == Created || Get(s[id], StatusKey) == Updated) :: s[id];
    LocalSnapshot(LocalChanges(created, updated, deleted), affected)
  }

  /** `markLocalChangesAsSynced`: destroys the pushed deletions and marks a pushed record
      synced only if it is exactly as it was when the snapshot was taken. */
  function MarkLocalChangesAsSynced(s: Store, snap: LocalSnapshot): (r: Store)
    ensures r.Keys == s.Keys - snap.changes.deleted
    ensures forall id :: id in r && id in snap.affected && s[id] == snap.affected[id] ==>
      r[id] == PrepareMarkAsSynced(s[id])
    ensures forall id :: id in r && (id !in snap.affected || s[id] != snap.affected[id]) ==> r[id] == s[id]
  {
    map id | id in s && id !in snap.changes.deleted ::
      if id in snap.affected && s[id] == snap.affected[id] then PrepareMarkAsSynced(s[id]) else s[id]
  }

  /** No lost update: a column edited after the snapshot (listed in the live `_changed`
      but not in the pushed one) is still listed as changed after the commit. */
  lemma NoLostUpdate(s: Store, snap: LocalSnapshot, id: Value, column: string)
    requires id in s && id !in snap.changes.deleted
    requires column in ChangedColumns(s[id])
    requires id !in snap.affected || column !in ChangedColumns(snap.affected[id])
    ensures id in MarkLocalChangesAsSynced(s, snap)
    ensures column in ChangedColumns(MarkLocalChangesAsSynced(s, snap)[id])
    ensures Get(MarkLocalChangesAsSynced(s, snap)[id], StatusKey) == Get(s[id], StatusKey)
  {
  }

  /** Nothing left to push: all pending records of the snapshot are absent afterwards. */
  predicate NothingToPush(snap: LocalSnapshot)
  {
    snap.changes.created == map[] && snap.changes.updated == map[] && snap.changes.deleted == {}
  }

  /** With no local edits between fetch and commit, the commit leaves nothing to push. */
  lemma {:induction false} FetchThenMarkLeavesNothingToPush(s: Store)
    ensures NothingToPush(FetchLocalChanges(MarkLocalChangesAsSynced(s, FetchLocalChanges(s))))
  {
    var snap := FetchLocalChanges(s);
    var r := MarkLocalChangesAsSynced(s, snap);
    var again := FetchLocalChanges(r);
    forall id | id in r
      ensures Get(r[id], StatusKey) != Created && Get(r[id], StatusKey) != Updated
      ensures Get(r[id], StatusKey) != Deleted
    {
      if id in snap.affected {
        assert r[id] == PrepareMarkAsSynced(s[id]);
      } else {
        assert r[id] == s[id];
        assert !HasStatus(s, id, Created) && !HasStatus(s, id, Updated);
        assert !HasStatus(s, id, Deleted);
      }
    }
    assert again.changes.created.Keys == {};
    assert again.changes.updated.Keys == {};
  }
}
