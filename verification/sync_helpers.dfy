/** The raw-record helpers of sync: per-column conflict resolution and the rewrites of
    `_status`/`_changed` done when a record is created from, or marked as, synced. */
module SyncHelpers {
  import opened Wrappers
  import opened Values
  import JsStrings
  import DatabaseCore

  const Id := "id"
  const StatusKey := "_status"
  const ChangedKey := "_changed"

  const Synced := Str("synced")
  const Created := Str("created")
  const Deleted := Str("deleted")

  datatype HelperError =
    | ChangedNotAString // `local._changed.split` on a value that is not a string throws
    | ActionsDisabled   // the sync invariant on `database._actionsEnabled`

  /** The column names listed in a raw's `_changed` (nothing when it is not a string). */
  function ChangedColumns(raw: Raw): (columns: seq<string>)
    ensures |columns| == 0 <==> !Get(raw, ChangedKey).Str?
    ensures forall i :: 0 <= i < |columns| ==> ',' !in columns[i]
  {
    if Get(raw, ChangedKey).Str? then JsStrings.Split(Get(raw, ChangedKey).s, ',') else []
  }

  /** `columns.forEach(column => resolved[column] = local[column])`. */
  function Overlay(acc: Raw, local: Raw, columns: seq<string>): (r: Raw)
    ensures r.Keys == acc.Keys + (set c | c in columns)
    ensures forall k :: k in r ==> r[k] == if k in columns then Get(local, k) else acc[k]
    decreases |columns|
  {
    if |columns| == 0 then acc
    else Overlay(acc[columns[0] := Get(local, columns[0])], local, columns[1..])
  }

  /** Reference definition of the merge, one column at a time: bookkeeping columns and
      locally changed columns come from local (with a locally created record forced to
      synced), every other column from remote when remote has it, else from local. */
  function ResolvedColumn(local: Raw, remote: Raw, k: string): (v: Value)
  {
    if k == StatusKey && Get(local, StatusKey) == Created then Synced
    else if k == Id || k == StatusKey || k == ChangedKey || k in ChangedColumns(local) then Get(local, k)
    else if k in remote then remote[k]
    else Get(local, k)
  }

  /** The columns present in a merged raw. */
  function ResolvedKeys(local: Raw, remote: Raw): set<string>
  {
    local.Keys + remote.Keys + {Id, StatusKey, ChangedKey} + (set c | c in ChangedColumns(local))
  }

  /** `{...local, ...remote, id: local.id, _status: local._status, _changed: local._changed}`. */
  function Spread(local: Raw, remote: Raw): (r: Raw)
    ensures r.Keys == local.Keys + remote.Keys + {Id, StatusKey, ChangedKey}
    ensures forall k :: k in r ==> r[k] ==
                                   if k == Id || k == StatusKey || k == ChangedKey then Get(local, k)
                                   else if k in remote then remote[k]
                                   else local[k]
  {
    local + remote + map[Id := Get(local, Id), StatusKey := Get(local, StatusKey), ChangedKey := Get(local, ChangedKey)]
  }

  /** The spread with the locally changed columns written over it. */
  function Merged(local: Raw, remote: Raw): (r: Raw)
    ensures r.Keys == ResolvedKeys(local, remote)
    ensures forall k :: k in r ==> r[k] ==
                                   if k == Id || k == StatusKey || k == ChangedKey || k in ChangedColumns(local) then Get(local, k)
                                   else if k in remote then remote[k]
                                   else local[k]
  {
    Overlay(Spread(local, remote), local, ChangedColumns(local))
  }

  /** `resolveConflict(local, remote)`. */
  function ResolveConflict(local: Raw, remote: Raw): (r: Result<Raw, HelperError>)
    ensures Get(local, StatusKey) == Deleted ==> r == Success(local)
    ensures r.Failure? <==> Get(local, StatusKey) != Deleted && !Get(local, ChangedKey).Str?
    ensures r.Failure? ==> r.error == ChangedNotAString
    ensures r.Success? && Get(local, StatusKey) != Deleted ==>
      && r.value.Keys == ResolvedKeys(local, remote)
      && forall k :: k in r.value ==> r.value[k] == ResolvedColumn(local, remote, k)
  {
    if Get(local, StatusKey) == Deleted then Success(local)
    else if !Get(local, ChangedKey).Str? then Failure(ChangedNotAString)
    else
      var resolved := Merged(local, remote);
      var fixed := if Get(local, StatusKey) == Created then resolved[StatusKey := Synced] else resolved;
      MergedFollowsReference(local, remote, fixed);
      Success(fixed)
  }

  /** The spread-and-overlay, with the created-record edge case applied, agrees with the
      column-by-column reference. */
  lemma MergedFollowsReference(local: Raw, remote: Raw, fixed: Raw)
    requires fixed == if Get(local, StatusKey) == Created then Merged(local, remote)[StatusKey := Synced] else Merged(local, remote)
    ensures fixed.Keys == ResolvedKeys(local, remote)
    ensures forall k :: k in fixed ==> fixed[k] == ResolvedColumn(local, remote, k)
  {
  }

  /** The column-level promises of the merge for a record that is not locally deleted. */
  lemma ResolveConflictColumns(local: Raw, remote: Raw)
    requires Get(local, StatusKey) != Deleted && Get(local, ChangedKey).Str?
    ensures ResolveConflict(local, remote).Success?
    ensures var m := ResolveConflict(local, remote).value;
      && Get(m, Id) == Get(local, Id)
      && Get(m, ChangedKey) == Get(local, ChangedKey)
      && Get(m, StatusKey) == (if Get(local, StatusKey) == Created then Synced else Get(local, StatusKey))
      && (forall c :: c in ChangedColumns(local) && c != StatusKey ==> Get(m, c) == Get(local, c))
      && (forall c :: c !in ChangedColumns(local) && c !in {Id, StatusKey, ChangedKey} ==>
            Get(m, c) == Get(if c in remote then remote else local, c))
      && (forall c :: c !in ResolvedKeys(local, remote) ==> c !in m)
  {
  }

  /** Resolving again against the same remote version changes nothing, so re-applying a
      pulled update is harmless. */
  lemma {:induction false} ResolveConflictIdempotent(local: Raw, remote: Raw)
    requires ResolveConflict(local, remote).Success?
    ensures ResolveConflict(ResolveConflict(local, remote).value, remote) == ResolveConflict(local, remote)
  {
    var m := ResolveConflict(local, remote).value;
    if Get(local, StatusKey) != Deleted {
      ResolveConflictColumns(local, remote);
      assert Get(m, StatusKey) != Deleted;
      var m2 := ResolveConflict(m, remote).value;
      ReferenceIsFixpoint(local, remote, m, m2);
    }
  }

  /** A raw that already follows the reference merge is left alone by a second merge
      against the same remote version. */
  lemma ReferenceIsFixpoint(local: Raw, remote: Raw, m: Raw, m2: Raw)
    requires Get(local, StatusKey) != Deleted && Get(local, ChangedKey).Str?
    requires m.Keys == ResolvedKeys(local, remote)
    requires forall k :: k in m ==> m[k] == ResolvedColumn(local, remote, k)
    requires m2.Keys == ResolvedKeys(m, remote)
    requires forall k :: k in m2 ==> m2[k] == ResolvedColumn(m, remote, k)
    ensures m2 == m
  {
  }

  /** Client wins per column: a locally changed `name` survives, the server's `age` wins. */
  lemma ClientWinsOnChangedColumn(local: Raw, remote: Raw)
    requires Get(local, StatusKey) == Str("updated") && Get(local, ChangedKey) == Str("name")
    requires "name" in remote && "age" in remote
    ensures ResolveConflict(local, remote).Success?
    ensures Get(ResolveConflict(local, remote).value, "name") == Get(local, "name")
    ensures Get(ResolveConflict(local, remote).value, "age") == remote["age"]
    ensures Get(ResolveConflict(local, remote).value, StatusKey) == Str("updated")
  {
    JsStrings.SplitWithoutSeparator("name", ',');
    ResolveConflictColumns(local, remote);
  }

  /** The raw with `_status: 'synced'` and `_changed: ''` spread over it. */
  function WithSyncedStatus(raw: Raw): (r: Raw)
    ensures r.Keys == raw.Keys + {StatusKey, ChangedKey}
  {
    raw[StatusKey := Synced][ChangedKey := Str("")]
  }

  /** `prepareCreateFromRaw`: the dirty raw handed to `sanitizedRaw` for a new record. */
  function PrepareCreateFromRaw(dirtyRaw: Raw): (r: Raw)
    ensures Get(r, StatusKey) == Synced && Get(r, ChangedKey) == Str("")
    ensures ChangedColumns(r) == [""]
    ensures forall c :: c != StatusKey && c != ChangedKey ==> Get(r, c) == Get(dirtyRaw, c)
    ensures r.Keys == dirtyRaw.Keys + {StatusKey, ChangedKey}
  {
    WithSyncedStatus(dirtyRaw)
  }

  /** `prepareUpdateFromRaw`: the record's current raw merged with the server's version. */
  function PrepareUpdateFromRaw(recordRaw: Raw, updatedDirtyRaw: Raw): (r: Result<Raw, HelperError>)
    ensures r.Success? ==>
      && (Get(r.value, StatusKey) == Deleted <==> Get(recordRaw, StatusKey) == Deleted)
      && Get(r.value, StatusKey) != Created
      && Get(r.value, ChangedKey) == Get(recordRaw, ChangedKey)
  {
    ResolveConflict(recordRaw, updatedDirtyRaw)
  }

  /** `prepareMarkAsSynced`: only `_status` and `_changed` change. */
  function PrepareMarkAsSynced(raw: Raw): (r: Raw)
    ensures Get(r, StatusKey) == Synced && Get(r, ChangedKey) == Str("")
    ensures forall c :: c != StatusKey && c != ChangedKey ==> Get(r, c) == Get(raw, c)
    ensures r.Keys == raw.Keys + {StatusKey, ChangedKey}
  {
    WithSyncedStatus(raw)
  }

  /** `ensureActionsEnabled`. */
  function EnsureActionsEnabled(db: DatabaseCore.Database): (o: Outcome<HelperError>)
    ensures o.Fail? <==> !db.actionsEnabled
    ensures o.Fail? ==> o.error == ActionsDisabled
  {
    if db.actionsEnabled then Pass else Fail(ActionsDisabled)
  }
}
