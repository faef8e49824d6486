/** `synchronize`: the two-phase pull/push protocol as a sequence of steps, with the
    server calls and whatever other code runs at each suspension point as parameters. */
module SyncProtocol {
  import opened Wrappers
  import opened Values
  import DatabaseCore
  import opened SyncHelpers
  import opened SyncApply
  import opened SyncPush

  /** The local side: the database flags, the records, and the stored `lastPulledAt`
      (`Null` before the first sync). */
  datatype Replica = Replica(database: DatabaseCore.Database, store: Store, lastPulledAt: Value)

  /** What `pullChanges` resolves to. */
  datatype PullResponse = PullResponse(changes: RemoteChanges, timestamp: Value)

  datatype SyncError =
    | ActionsNotEnabled
    | PullFailed
    | ConcurrentSync
    | WriteRefused          // a write the action guard refused
    | ApplyFailed(cause: HelperError)
    | TimestampNotSaved     // `setLastPulledAt` rejected after the changes were applied
    | FetchFailed           // `fetchLocalChanges` rejected
    | PushFailed
    | MarkFailed            // `markLocalChangesAsSynced` rejected after a successful push

  /** Everything outside the core: the two server calls (`None`/`false` when they reject),
      whether saving a new `lastPulledAt`, reading the local changes and marking them
      synced succeed (on the replica they run against), and the effect of other tasks at
      each suspension point. */
  datatype Env = Env(
    pullChanges: Value -> Option<PullResponse>,
    whilePulling: Replica -> Replica,
    setLastPulledAt: Value -> bool,
    beforeFetch: Replica -> Replica,
    fetchSucceeds: Replica -> bool,
    pushChanges: (LocalChanges, Value) -> bool,
    beforeMark: Replica -> Replica,
    markSucceeds: Replica -> bool)

  /** The record of one run: the replica afterwards, the outcome, and what was passed to
      the two server calls (if they were made). */
  datatype SyncRun = SyncRun(
    replica: Replica,
    outcome: Outcome<SyncError>,
    pulledWith: Option<Value>,
    pushedWith: Option<(LocalChanges, Value)>)

  /** The `sync-synchronize-apply` action: the concurrency check, then the remote changes
      (written as the work of the action, so through the action guard), then the new
      `lastPulledAt`. The action is not a transaction: when saving the timestamp fails,
      the applied changes stay and `lastPulledAt` keeps its old value. */
  function ApplyPhase(r: Replica, lastPulledAt: Value, pulled: PullResponse, saved: bool): (res: (Replica, Outcome<SyncError>))
    ensures r.lastPulledAt != lastPulledAt ==> res == (r, Fail(ConcurrentSync))
    ensures res.1.Pass? <==>
      r.lastPulledAt == lastPulledAt && ApplyRemoteChanges(r.store, pulled.changes).Success? && saved
    ensures r.lastPulledAt == lastPulledAt && ApplyRemoteChanges(r.store, pulled.changes).Failure? ==>
      res == (r, Fail(ApplyFailed(ApplyRemoteChanges(r.store, pulled.changes).error)))
    ensures r.lastPulledAt == lastPulledAt && ApplyRemoteChanges(r.store, pulled.changes).Success? ==>
      && res.0.store == ApplyRemoteChanges(r.store, pulled.changes).value
      && res.0.database == r.database
      && res.0.lastPulledAt == (if saved then pulled.timestamp else lastPulledAt)
      && (!saved ==> res.1 == Fail(TimestampNotSaved))
  {
    if r.lastPulledAt != lastPulledAt then (r, Fail(ConcurrentSync))
    // `EnterAction` always passes the guard, so this branch never fires; it is kept so
    // that the apply's writes visibly go through the same guard as `batch`
    else if DatabaseCore.EnsureInAction(DatabaseCore.EnterAction(r.database)).Fail? then (r, Fail(WriteRefused))
    else
      match ApplyRemoteChanges(r.store, pulled.changes)
      case Failure(e) => (r, Fail(ApplyFailed(e)))
      case Success(t) =>
        if saved then (r.(store := t, lastPulledAt := pulled.timestamp), Pass)
        else (r.(store := t), Fail(TimestampNotSaved))
  }

  /** The apply step of a run, from the replica the pull left behind. */
  function Applied(r0: Replica, env: Env, pulled: PullResponse): (Replica, Outcome<SyncError>)
  {
    ApplyPhase(env.whilePulling(r0), r0.lastPulledAt, pulled, env.setLastPulledAt(pulled.timestamp))
  }

  /** The replica the push phase starts from. */
  function Fetched(r0: Replica, env: Env, pulled: PullResponse): Replica
  {
    env.beforeFetch(Applied(r0, env, pulled).0)
  }

  /** `synchronize({ database, pullChanges, pushChanges })`. */
  function Synchronize(r0: Replica, env: Env): (run: SyncRun)
    // nothing happens, not even the pull, unless actions are enabled
    ensures !r0.database.actionsEnabled ==>
      run == SyncRun(r0, Fail(ActionsNotEnabled), None, None)
    // the pull is asked for the changes since the stored timestamp
    ensures r0.database.actionsEnabled ==> run.pulledWith == Some(r0.lastPulledAt)
    // a rejected pull ends the run with nothing written by it
    ensures run.outcome == Fail(PullFailed) ==> run.pushedWith.None? && run.replica == env.whilePulling(r0)
    // another sync that moved `lastPulledAt` meanwhile aborts this one before anything is applied
    ensures r0.database.actionsEnabled && env.pullChanges(r0.lastPulledAt).Some? &&
            env.whilePulling(r0).lastPulledAt != r0.lastPulledAt ==>
      run == SyncRun(env.whilePulling(r0), Fail(ConcurrentSync), Some(r0.lastPulledAt), None)
    // a rejected apply leaves the replica as the other tasks left it during the pull
    ensures run.outcome.Fail? && run.outcome.error.ApplyFailed? ==>
      && env.pullChanges(r0.lastPulledAt).Some?
      && run.pushedWith.None?
      && run.replica == env.whilePulling(r0)
    // a failed timestamp save ends the run with the changes applied and `lastPulledAt` as it was
    ensures run.outcome == Fail(TimestampNotSaved) ==>
      && env.pullChanges(r0.lastPulledAt).Some?
      && run.pushedWith.None?
      && run.replica.lastPulledAt == r0.lastPulledAt
      && ApplyRemoteChanges(env.whilePulling(r0).store, env.pullChanges(r0.lastPulledAt).value.changes).Success?
      && run.replica.store == ApplyRemoteChanges(env.whilePulling(r0).store, env.pullChanges(r0.lastPulledAt).value.changes).value
    // a rejected read of the local changes ends the run after the apply, with no push
    ensures run.outcome == Fail(FetchFailed) ==>
      && env.pullChanges(r0.lastPulledAt).Some?
      && Applied(r0, env, env.pullChanges(r0.lastPulledAt).value).1.Pass?
      && run.pushedWith.None?
      && run.replica == Fetched(r0, env, env.pullChanges(r0.lastPulledAt).value)
    // push happens only after a successful apply and read, and is given the records the
    // read saw and the new timestamp
    ensures run.pushedWith.Some? ==>
      && env.pullChanges(r0.lastPulledAt).Some?
      && Applied(r0, env, env.pullChanges(r0.lastPulledAt).value).1.Pass?
      && env.fetchSucceeds(Fetched(r0, env, env.pullChanges(r0.lastPulledAt).value))
      && run.pushedWith.value.0 == FetchLocalChanges(Fetched(r0, env, env.pullChanges(r0.lastPulledAt).value).store).changes
      && run.pushedWith.value.1 == env.pullChanges(r0.lastPulledAt).value.timestamp
    // the sync succeeds exactly when the push and then the marking succeed
    ensures run.outcome.Pass? <==>
      && run.pushedWith.Some?
      && env.pushChanges(run.pushedWith.value.0, run.pushedWith.value.1)
      && env.markSucceeds(env.beforeMark(Fetched(r0, env, env.pullChanges(r0.lastPulledAt).value)))
    // a passing run marks synced, in the replica as it is at the marking, the records the
    // read saw, and only those still exactly as the read saw them
    ensures run.outcome.Pass? ==>
      var fetched := Fetched(r0, env, env.pullChanges(r0.lastPulledAt).value);
      var marking := env.beforeMark(fetched);
      run.replica == marking.(store := MarkLocalChangesAsSynced(marking.store, FetchLocalChanges(fetched.store)))
    // a rejected push leaves the records as the fetch saw them: nothing is marked synced
    ensures run.outcome == Fail(PushFailed) ==>
      && run.pushedWith.Some?
      && run.replica == Fetched(r0, env, env.pullChanges(r0.lastPulledAt).value)
    // a rejected marking after a successful push leaves the records unmarked, to be pushed again
    ensures run.outcome == Fail(MarkFailed) ==>
      && run.pushedWith.Some?
      && env.pushChanges(run.pushedWith.value.0, run.pushedWith.value.1)
      && run.replica == env.beforeMark(Fetched(r0, env, env.pullChanges(r0.lastPulledAt).value))
  {
    if EnsureActionsEnabled(r0.database).Fail? then SyncRun(r0, Fail(ActionsNotEnabled), None, None)
    else
      var lastPulledAt := r0.lastPulledAt;
      match env.pullChanges(lastPulledAt)
      case None => SyncRun(env.whilePulling(r0), Fail(PullFailed), Some(lastPulledAt), None)
      case Some(pulled) =>
        var (r2, applied) := Applied(r0, env, pulled);
        if applied.Fail? then SyncRun(r2, applied, Some(lastPulledAt), None)
        else
          var r3 := env.beforeFetch(r2);
          if !env.fetchSucceeds(r3) then SyncRun(r3, Fail(FetchFailed), Some(lastPulledAt), None)
          else
            var snapshot := FetchLocalChanges(r3.store);
            var pushed := (snapshot.changes, pulled.timestamp);
            if !env.pushChanges(snapshot.changes, pulled.timestamp) then
              SyncRun(r3, Fail(PushFailed), Some(lastPulledAt), Some(pushed))
            else
              var r4 := env.beforeMark(r3);
              if !env.markSucceeds(r4) then SyncRun(r4, Fail(MarkFailed), Some(lastPulledAt), Some(pushed))
              else SyncRun(r4.(store := MarkLocalChangesAsSynced(r4.store, snapshot)), Pass, Some(lastPulledAt), Some(pushed))
  }

  /** An environment in which no other task runs between the steps. */
  ghost predicate Quiet(env: Env)
  {
    forall r: Replica :: env.whilePulling(r) == r && env.beforeFetch(r) == r && env.beforeMark(r) == r
  }

  /** A successful sync with no concurrent activity leaves the replica at the server's
      timestamp with nothing left to push. */
  lemma QuietSyncCompletes(r0: Replica, env: Env)
    requires Quiet(env)
    requires Synchronize(r0, env).outcome.Pass?
    ensures Synchronize(r0, env).replica.lastPulledAt == env.pullChanges(r0.lastPulledAt).value.timestamp
    ensures NothingToPush(FetchLocalChanges(Synchronize(r0, env).replica.store))
  {
    var pulled := env.pullChanges(r0.lastPulledAt).value;
    var r2 := Applied(r0, env, pulled).0;
    assert r2.lastPulledAt == pulled.timestamp;
    assert Synchronize(r0, env).replica.store == MarkLocalChangesAsSynced(r2.store, FetchLocalChanges(r2.store));
    FetchThenMarkLeavesNothingToPush(r2.store);
  }

  /** No lost update, for the whole protocol: a column that other code marks as changed
      between the read of local changes and the marking is still listed as changed, with
      the record's status kept, after a passing sync. */
  lemma NoLostUpdateThroughSync(r0: Replica, env: Env, id: Value, column: string)
    requires Synchronize(r0, env).outcome.Pass?
    requires var fetched := Fetched(r0, env, env.pullChanges(r0.lastPulledAt).value);
      && id in env.beforeMark(fetched).store
      && column in ChangedColumns(env.beforeMark(fetched).store[id])
      && (id in fetched.store ==> Get(fetched.store[id], StatusKey) != Deleted && column !in ChangedColumns(fetched.store[id]))
    ensures var fetched := Fetched(r0, env, env.pullChanges(r0.lastPulledAt).value);
      && id in Synchronize(r0, env).replica.store
      && column in ChangedColumns(Synchronize(r0, env).replica.store[id])
      && Get(Synchronize(r0, env).replica.store[id], StatusKey) == Get(env.beforeMark(fetched).store[id], StatusKey)
  {
    var fetched := Fetched(r0, env, env.pullChanges(r0.lastPulledAt).value);
    var marking := env.beforeMark(fetched);
    NoLostUpdate(marking.store, FetchLocalChanges(fetched.store), id, column);
  }

  /** When the marking fails with nothing else running, the next read of local changes
      finds exactly what was pushed, so the next sync pushes it again. */
  lemma MarkFailedPushesAgain(r0: Replica, env: Env)
    requires Quiet(env)
    requires Synchronize(r0, env).outcome == Fail(MarkFailed)
    ensures Synchronize(r0, env).pushedWith.Some?
    ensures FetchLocalChanges(Synchronize(r0, env).replica.store).changes == Synchronize(r0, env).pushedWith.value.0
  {
    var pulled := env.pullChanges(r0.lastPulledAt).value;
    var r3 := Fetched(r0, env, pulled);
    assert env.beforeMark(r3) == r3;
  }

  /** The apply step's writes run as the work of `database.action(...)`, so the action
      guard never refuses them, whatever the replica's queue was doing before. */
  lemma ApplyPhaseIsGuarded(r0: Replica, env: Env)
    ensures Synchronize(r0, env).outcome != Fail(WriteRefused)
  {
    match env.pullChanges(r0.lastPulledAt)
    case None =>
    case Some(pulled) =>
      var r1 := env.whilePulling(r0);
      assert DatabaseCore.EnsureInAction(DatabaseCore.EnterAction(r1.database)) == Pass;
  }

  /** When the timestamp was not saved, the next sync asks for the same changes again, and
      (the server serving the same change set, with each id once) re-applying them succeeds
      and leaves a store no read can tell from the one this run left. */
  lemma RetryAfterTimestampNotSaved(r0: Replica, env: Env)
    requires Synchronize(r0, env).outcome == Fail(TimestampNotSaved)
    requires DistinctKeys(Ops(env.pullChanges(r0.lastPulledAt).value.changes))
    ensures Synchronize(r0, env).replica.lastPulledAt == r0.lastPulledAt
    ensures ApplyRemoteChanges(Synchronize(r0, env).replica.store, env.pullChanges(r0.lastPulledAt).value.changes).Success?
    ensures StoreEquiv(
      ApplyRemoteChanges(Synchronize(r0, env).replica.store, env.pullChanges(r0.lastPulledAt).value.changes).value,
      Synchronize(r0, env).replica.store)
  {
    var changes := env.pullChanges(r0.lastPulledAt).value.changes;
    ApplyRemoteChangesIdempotent(env.whilePulling(r0).store, changes);
  }
}
