/**
 Every document that is pending in the index belongs to a row that waits. So the conditions
 under which a store is left stale are exact, for messages and for crash points.
 */
module WaitingRows {
  import opened Wrappers
  import opened Sequences
  import opened Events
  import opened Tables
  import opened Soundness
  import opened Protocol
  import opened Invariants
  import opened Completeness
  import opened Runs
  import opened Duplicates
  import opened StaleStores

  ghost predicate Awaited(t: Tables, k: Key) {
    exists u :: WaitsFor(t, u, k)
  }

  /** Whatever these documents add to the old ones waits. */
  ghost predicate Backed(t: Tables, base: seq<Doc>, docs: seq<Doc>) {
    forall k :: Count(docs, k) > 0 ==> Count(base, k) > 0 || Awaited(t, k)
  }

  ghost predicate PendingWaits(st: State) {
    Backed(st.disk.tables, [], st.pendingDocs)
  }

  // ----- Writing -----

  lemma SavedWaits(t: Tables, batch: seq<Entry>, k: Key)
    requires Sound(t)
    ensures var s := SaveEvents(t, batch);
            Awaited(t, k) || Count(s.docs, k) > 0 ==> Awaited(s.tables, k)
  {
    var s := SaveEvents(t, batch);
    SaveEventsSound(t, batch);
    if Awaited(t, k) {
      var u :| WaitsFor(t, u, k);
      RowIdentStable(t, s.tables, t.uncommitted[u].eventRow);
      assert WaitsFor(s.tables, u, k);
    } else if Count(s.docs, k) > 0 {
      CountPositive(s.docs, k);
      var d :| d in s.docs && d.ident.key == k;
      NewRowWaits(t, batch, d);
    }
  }

  lemma NewRowWaits(t: Tables, batch: seq<Entry>, d: Doc)
    requires Sound(t) && d in SaveEvents(t, batch).docs
    ensures Awaited(SaveEvents(t, batch).tables, d.ident.key)
  {
    var s := SaveEvents(t, batch);
    SaveEventsSound(t, batch);
    var r :| r in s.tables.events && RowIdent(s.tables, r) == d.ident;
    if r in t.events {
      RowIdentStable(t, s.tables, r);
    }
    var u :| u in s.tables.uncommitted && s.tables.uncommitted[u].eventRow == r;
    assert WaitsFor(s.tables, u, d.ident.key);
  }

  lemma SavedTablesBacked(st: State, batch: seq<Entry>,
    newCheckpoint: Option<CrawlerCheckpoint>, oldCheckpoint: Option<CrawlerCheckpoint>,
    base: seq<Doc>, docs: seq<Doc>)
    requires Sound(st.disk.tables) && Backed(st.disk.tables, base, docs)
    ensures Backed(SavedTables(st, batch, newCheckpoint, oldCheckpoint), base,
                   docs + SaveEvents(st.disk.tables, batch).docs)
  {
    var s, t := SaveEvents(st.disk.tables, batch), SavedTables(st, batch, newCheckpoint, oldCheckpoint);
    forall k | Count(docs + s.docs, k) > 0
      ensures Count(base, k) > 0 || Awaited(t, k)
    {
      CountConcat(docs, s.docs, k);
      SavedWaits(st.disk.tables, batch, k);
      if Awaited(s.tables, k) {
        var u :| WaitsFor(s.tables, u, k);
        SavedTablesWait(st, batch, newCheckpoint, oldCheckpoint);
        assert WaitsFor(t, u, k);
      }
    }
  }

  lemma FewerBacked(t: Tables, base: seq<Doc>, all: seq<Doc>, docs: seq<Doc>, more: seq<Doc>)
    requires Backed(t, base, all) && all == docs + more
    ensures Backed(t, base, docs)
  {
    forall k | Count(docs, k) > 0
      ensures Count(base, k) > 0 || Awaited(t, k)
    {
      CountConcat(docs, more, k);
    }
  }

  lemma WorkingParts(st: State, docs: seq<Doc>)
    ensures Working(st) + docs == st.disk.docs + (st.pendingDocs + docs)
  {
  }

  /** The durable states of a write before its bookkeeping. */
  lemma WriteLogBacked(st: State, batch: seq<Entry>,
    newCheckpoint: Option<CrawlerCheckpoint>, oldCheckpoint: Option<CrawlerCheckpoint>,
    force: bool, elapsed: bool, base: seq<Doc>, d: Durable)
    requires SessionOk(st) && Backed(st.disk.tables, base, Working(st))
    requires var st' := WriteEvents(st, batch, newCheckpoint, oldCheckpoint, force, elapsed).0;
             d in st'.log && d !in st.log && d.tables.uncommitted != st'.disk.tables.uncommitted
    ensures Backed(d.tables, base, d.docs)
  {
    var s := SaveEvents(st.disk.tables, batch);
    var st' := WriteEvents(st, batch, newCheckpoint, oldCheckpoint, force, elapsed).0;
    SaveEventsSound(st.disk.tables, batch);
    WriteEventsOk(st, batch, newCheckpoint, oldCheckpoint, force, elapsed);
    WriteLog(st, batch, newCheckpoint, oldCheckpoint, force, elapsed, d);
    SavedTablesBacked(st, batch, newCheckpoint, oldCheckpoint, base, Working(st));
    var all := Working(st) + s.docs;
    WorkingParts(st, s.docs);
    FewerBacked(d.tables, base, all, st.disk.docs, st.pendingDocs + s.docs);
    FewerBacked(d.tables, base, all, st'.disk.docs, st'.pendingDocs);
  }

  lemma WritePendingWaits(st: State, batch: seq<Entry>,
    newCheckpoint: Option<CrawlerCheckpoint>, oldCheckpoint: Option<CrawlerCheckpoint>,
    force: bool, elapsed: bool)
    requires SessionOk(st) && PendingWaits(st)
    ensures PendingWaits(WriteEvents(st, batch, newCheckpoint, oldCheckpoint, force, elapsed).0)
  {
    var (st', res) := WriteEvents(st, batch, newCheckpoint, oldCheckpoint, force, elapsed);
    SaveEventsSound(st.disk.tables, batch);
    WriteEventsOk(st, batch, newCheckpoint, oldCheckpoint, force, elapsed);
    if !res.value.1 {
      PostponedWrite(st, batch, newCheckpoint, oldCheckpoint, force, elapsed);
      SavedTablesBacked(st, batch, newCheckpoint, oldCheckpoint, [], st.pendingDocs);
      SameDocsPending(st, st', SaveEvents(st.disk.tables, batch).docs);
    }
  }

  lemma SameDocsPending(st: State, st': State, docs: seq<Doc>)
    requires Working(st') == Working(st) + docs && st'.disk.docs == st.disk.docs
    ensures st'.pendingDocs == st.pendingDocs + docs
  {
    var n := |st.disk.docs|;
    assert Working(st')[n..] == st'.pendingDocs && (Working(st) + docs)[n..] == st.pendingDocs + docs;
  }

  lemma SettlePendingWaits(st: State, res: Result<(bool, bool), SqlError>)
    requires PendingWaits(st)
    ensures PendingWaits(Settle(st, res))
  {
    var t := Settle(st, res).disk.tables;
    forall k | Count(st.pendingDocs, k) > 0
      ensures Awaited(t, k)
    {
      var u :| WaitsFor(st.disk.tables, u, k);
      assert WaitsFor(t, u, k);
    }
  }

  lemma WriteQueuedPendingWaits(st: State, force: bool, elapsed: bool)
    requires SessionOk(st) && PendingWaits(st)
    ensures PendingWaits(WriteQueued(st, force, elapsed).0)
  {
    WritePendingWaits(st, st.queue, None, None, force, elapsed);
    var (st1, res) := WriteEvents(st, st.queue, None, None, force, elapsed);
    SettlePendingWaits(st1.(queue := []), res);
  }

  // ----- Replay -----

  /** What a replay adds to the index waits. */
  lemma ReplayPendingWaits(st: State, uids: seq<int>)
    requires SessionOk(st) && IdSet(uids) == JoinedUncommitted(st.disk.tables) && NoRepeat(uids) && PendingWaits(st)
    ensures ReplayUncommitted(st, uids).disk == st.disk && PendingWaits(ReplayUncommitted(st, uids))
  {
    var t, st1 := st.disk.tables, ReplayUncommitted(st, uids);
    ReplayUncommittedOk(st, uids);
    assert forall i | 0 <= i < |uids| :: uids[i] in IdSet(uids) && uids[i] in JoinedUncommitted(t);
    assert st1.pendingDocs == st.pendingDocs + ReplayDocs(t, uids);
    forall k | Count(st1.pendingDocs, k) > 0
      ensures Awaited(t, k)
    {
      CountConcat(st.pendingDocs, ReplayDocs(t, uids), k);
      ReplayCount(t, uids, k);
    }
  }

  lemma {:induction false} IndexDeletesKeep(st: State, ids: seq<EventId>, d: Durable, k: Key)
    requires d in IndexDeletes(st, ids).log && d !in st.log && Count(d.docs, k) > 0
    ensures d.tables == st.disk.tables && Count(Working(st), k) > 0
    decreases |ids|
  {
    if ids == [] {
    } else {
      var st1 := IndexDelete(st, ids[0]);
      CountWithout(Working(st), ids[0], k);
      if d in st1.log {
        assert d == st1.disk;
      } else {
        IndexDeletesKeep(st1, ids[1..], d, k);
        assert Working(st1) == Without(Working(st), ids[0]);
      }
    }
  }

  lemma {:induction false} IndexDeletesPending(st: State, ids: seq<EventId>)
    ensures IndexDeletes(st, ids).disk.tables == st.disk.tables
    ensures ids != [] ==> IndexDeletes(st, ids).pendingDocs == []
    decreases |ids|
  {
    if ids == [] {
    } else {
      IndexDeletesPending(IndexDelete(st, ids[0]), ids[1..]);
    }
  }

  lemma LoadPendingWaits(st: State, uids: seq<int>, dids: seq<EventId>)
    requires SessionOk(st) && Lists(st.disk.tables, uids, dids) && PendingWaits(st)
    ensures PendingWaits(LoadUnprocessed(st, uids, dids))
  {
    ReplayPendingWaits(st, uids);
    IndexDeletesPending(ReplayUncommitted(st, uids), dids);
  }

  /** At the crash points of the replay of a session, and after it. */
  lemma LoadLogBacked(st: State, uids: seq<int>, dids: seq<EventId>, d: Durable)
    requires SessionOk(st) && Lists(st.disk.tables, uids, dids) && PendingWaits(st)
    requires d in LoadUnprocessed(st, uids, dids).log && d !in st.log
    ensures Backed(d.tables, st.disk.docs, d.docs)
  {
    var st1 := ReplayUncommitted(st, uids);
    ReplayPendingWaits(st, uids);
    WorkingBacked(st1);
    forall k | Count(d.docs, k) > 0
      ensures Count(st.disk.docs, k) > 0 || Awaited(d.tables, k)
    {
      IndexDeletesKeep(st1, dids, d, k);
    }
  }

  lemma LoadBacked(st: State, uids: seq<int>, dids: seq<EventId>)
    requires SessionOk(st) && Lists(st.disk.tables, uids, dids) && PendingWaits(st)
    ensures var st' := LoadUnprocessed(st, uids, dids);
            Backed(st'.disk.tables, st.disk.docs, Working(st'))
  {
    var st1, st' := ReplayUncommitted(st, uids), LoadUnprocessed(st, uids, dids);
    LoadUnprocessedOk(st, uids, dids);
    ReplayPendingWaits(st, uids);
    WorkingBacked(st1);
    assert Working(st') == Working(IndexDeletes(st1, dids));
    forall k | Count(Working(st'), k) > 0
      ensures Count(st.disk.docs, k) > 0 || Awaited(st.disk.tables, k)
    {
      IndexDeletesCount(st1, dids, k);
    }
  }

  lemma WorkingBacked(st: State)
    requires PendingWaits(st)
    ensures Backed(st.disk.tables, st.disk.docs, Working(st))
  {
    forall k | Count(Working(st), k) > 0
      ensures Count(st.disk.docs, k) > 0 || Awaited(st.disk.tables, k)
    {
      CountConcat(st.disk.docs, st.pendingDocs, k);
    }
  }

  // ----- Every message, every run -----

  lemma DeletePendingWaits(st: State, eventId: EventId, elapsed: bool)
    requires PendingWaits(st)
    ensures PendingWaits(Protocol.DeleteEvent(st, eventId, elapsed).0)
  {
    match DeleteEventsById(st.disk.tables, eventId)
    case Failure(_) =>
    case Success(_) =>
      assert Protocol.DeleteEvent(st, eventId, elapsed).0.pendingDocs == [];
  }

  lemma HandlePendingWaits(st: State, m: Message, env: Env)
    requires SessionOk(st) && EnvFits(st, m, env) && PendingWaits(st)
    ensures PendingWaits(Handle(st, m, env).0)
  {
    match m
    case Add(_, _) =>
    case Write(force) =>
      if st.loaded {
        WriteQueuedPendingWaits(st, force, env.elapsed);
      } else {
        LoadUnprocessedOk(st, env.uids, env.dids);
        LoadPendingWaits(st, env.uids, env.dids);
        WriteQueuedPendingWaits(LoadUnprocessed(st, env.uids, env.dids), force, env.elapsed);
      }
    case Historic(newCheckpoint, oldCheckpoint, batch) =>
      WritePendingWaits(st, batch, newCheckpoint, oldCheckpoint, true, env.elapsed);
      var (st1, res) := WriteEvents(st, batch, newCheckpoint, oldCheckpoint, true, env.elapsed);
      SettlePendingWaits(st1, res);
    case Delete(eventId) =>
      DeletePendingWaits(st, eventId, env.elapsed);
    case ShutDown =>
  }

  /** In every run, crashes included, what is pending in the index waits in the tables. */
  lemma {:induction false} RunPendingWaits(st: State, acts: seq<Action>)
    requires Safe(st) && Run(st, acts) && PendingWaits(st)
    ensures PendingWaits(Exec(st, acts))
    decreases |acts|
  {
    if acts == [] {
    } else {
      assert Working(Blank(st)) == Working(st);
      HandlePendingWaits(Blank(st), acts[0].message, acts[0].env);
      StepSafe(st, acts[0]);
      RunPendingWaits(Step(st, acts[0]), acts[1..]);
    }
  }

  // ----- Exactly when a crash point is stale -----

  lemma SettleBetween(st: State, res: Result<(bool, bool), SqlError>, d: Durable)
    requires d in Settle(st, res).log && d.tables.uncommitted != Settle(st, res).disk.tables.uncommitted
    ensures d in st.log && d.tables.uncommitted != st.disk.tables.uncommitted
  {
  }

  lemma QueuedLogBacked(st: State, force: bool, elapsed: bool, base: seq<Doc>, d: Durable)
    requires SessionOk(st) && Backed(st.disk.tables, base, Working(st))
    requires var st' := WriteQueued(st, force, elapsed).0;
             d in st'.log && d !in st.log && d.tables.uncommitted != st'.disk.tables.uncommitted
    ensures Backed(d.tables, base, d.docs)
  {
    var (st1, res) := WriteEvents(st, st.queue, None, None, force, elapsed);
    SettleBetween(st1.(queue := []), res, d);
    WriteLogBacked(st, st.queue, None, None, force, elapsed, base, d);
  }

  lemma DeleteNotBetween(st: State, eventId: EventId, elapsed: bool, d: Durable)
    requires SessionOk(st) && st.log == [] && d in Protocol.DeleteEvent(st, eventId, elapsed).0.log
    ensures d.tables.uncommitted == Protocol.DeleteEvent(st, eventId, elapsed).0.disk.tables.uncommitted
  {
    match DeleteEventsById(st.disk.tables, eventId)
    case Failure(_) =>
    case Success(t) =>
      var st1 := DeleteRows(st, t, eventId);
      DeleteRowsLog(st, t, eventId);
      CommitLog(st1, false, elapsed);
      var (st2, committed) := CommitHelper(st1, false, elapsed);
      assert OneWaitingSet(st2, t.uncommitted);
      if committed {
        MarkDeletedLog(st2, t.uncommitted);
      }
  }

  /** All durable states have these waiting rows. */
  ghost predicate OneWaitingSet(st: State, rows: map<int, UncommittedRow>) {
    st.disk.tables.uncommitted == rows && forall d | d in st.log :: d.tables.uncommitted == rows
  }

  lemma DeleteRowsLog(st: State, t: Tables, eventId: EventId)
    requires st.log == []
    ensures OneWaitingSet(DeleteRows(st, t, eventId), t.uncommitted)
  {
  }

  lemma MarkDeletedLog(st: State, rows: map<int, UncommittedRow>)
    requires OneWaitingSet(st, rows)
    ensures OneWaitingSet(MarkDeleted(st), rows)
  {
  }

  /** What the index has gained at a crash point in between waits. */
  lemma BetweenBacked(st: State, m: Message, env: Env, d: Durable)
    requires SessionOk(st) && EnvFits(st, m, env) && st.log == [] && PendingWaits(st)
    requires d in Handle(st, m, env).0.log && Between(st, Handle(st, m, env).0, d)
    ensures Backed(d.tables, st.disk.docs, d.docs)
  {
    match m
    case Add(_, _) =>
    case Write(force) =>
      if st.loaded {
        WorkingBacked(st);
        QueuedLogBacked(st, force, env.elapsed, st.disk.docs, d);
      } else {
        var st1 := LoadUnprocessed(st, env.uids, env.dids);
        LoadUnprocessedOk(st, env.uids, env.dids);
        if d in st1.log {
          LoadLogBacked(st, env.uids, env.dids, d);
        } else {
          LoadBacked(st, env.uids, env.dids);
          QueuedLogBacked(st1, force, env.elapsed, st.disk.docs, d);
        }
      }
    case Historic(newCheckpoint, oldCheckpoint, batch) =>
      WorkingBacked(st);
      var (st1, res) := WriteEvents(st, batch, newCheckpoint, oldCheckpoint, true, env.elapsed);
      SettleBetween(st1, res, d);
      WriteLogBacked(st, batch, newCheckpoint, oldCheckpoint, true, env.elapsed, st.disk.docs, d);
    case Delete(eventId) =>
      DeleteNotBetween(st, eventId, env.elapsed, d);
      assert false;
    case ShutDown =>
  }

  /** A crash point of a tidy message leaves an event waiting although the index has it if
      and only if it lies between an index commit that added something and the bookkeeping
      that belongs to it. */
  lemma StaleIffBetween(st: State, m: Message, env: Env, d: Durable)
    requires SessionOk(st) && EnvFits(st, m, env) && CleanMessage(st, m) && st.log == []
    requires Current(st) && TidyMessage(st, m, env) && PendingWaits(st)
    requires d in Handle(st, m, env).0.log
    ensures Stale(d.tables, d.docs) <==> Between(st, Handle(st, m, env).0, d)
  {
    if Between(st, Handle(st, m, env).0, d) {
      BetweenBacked(st, m, env, d);
      var k :| Count(d.docs, k) > 0 && Count(st.disk.docs, k) == 0;
      assert Awaited(d.tables, k);
    } else {
      StaleOnlyBetween(st, m, env, d);
    }
  }

  // ----- Exactly when a message leaves a stale store -----

  /** A deletion that is not refused commits what is pending: documents that wait. */
  lemma DeleteLeavesStale(st: State, eventId: EventId, elapsed: bool)
    requires SessionOk(st) && PendingWaits(st) && st.pendingDocs != []
    requires DeleteEventsById(st.disk.tables, eventId).Success?
    ensures var st' := Protocol.DeleteEvent(st, eventId, elapsed).0;
            Stale(st'.disk.tables, st'.disk.docs)
  {
    var t, k := st.disk.tables, st.pendingDocs[0].ident.key;
    CountPositive(st.pendingDocs, k);
    var u :| WaitsFor(t, u, k);
    var st' := Protocol.DeleteEvent(st, eventId, elapsed).0;
    DeletedTables(t, eventId);
    DeletedIndex(st, eventId, elapsed);
    assert k.eventId != eventId;
    CountConcat(st.disk.docs, st.pendingDocs, k);
    CountWithout(Working(st), eventId, k);
    assert WaitsFor(st'.disk.tables, u, k);
  }

  lemma DeletedIndex(st: State, eventId: EventId, elapsed: bool)
    requires DeleteEventsById(st.disk.tables, eventId).Success?
    ensures var st' := Protocol.DeleteEvent(st, eventId, elapsed).0;
            && st'.disk.docs == Without(Working(st), eventId)
            && st'.disk.tables == DeleteEventsById(st.disk.tables, eventId).value.(pending := st'.disk.tables.pending)
  {
    var docs := Without(Working(st), eventId);
    assert docs + [] == docs;
  }

  /** So does a first write that adds and deletes, if it does not commit afterwards. */
  lemma FirstWriteLeavesStale(st: State, force: bool, env: Env)
    requires SessionOk(st) && EnvFits(st, Write(force), env) && Disjoint(st.disk.tables)
    requires !TidyMessage(st, Write(force), env)
    ensures var st' := Handle(st, Write(force), env).0;
            Stale(st'.disk.tables, st'.disk.docs)
  {
    var st1 := LoadUnprocessed(st, env.uids, env.dids);
    var st' := Handle(st, Write(force), env).0;
    LoadUnprocessedOk(st, env.uids, env.dids);
    NothingToReplay(st, env.uids);
    FirstCommitsIff(st, force, env);
    IndexDeletesPending(ReplayUncommitted(st, env.uids), env.dids);
    assert env.dids != [];
    var u, k := WaitingRow(st, env.uids);
    LoadCount(st, env.uids, env.dids, k);
    assert Working(st1) == st1.disk.docs;
    UncommittedWrite(st1, force, env.elapsed, u, k);
  }

  lemma WaitingRow(st: State, uids: seq<int>) returns (u: int, k: Key)
    requires SessionOk(st) && IdSet(uids) == JoinedUncommitted(st.disk.tables) && uids != []
    ensures WaitsFor(st.disk.tables, u, k) && k in Keys(st.disk.tables)
  {
    assert uids[0] in IdSet(uids);
    u := uids[0];
    k := ReplayDoc(st.disk.tables, u).ident.key;
    StoredKey(st.disk.tables, u, k);
  }

  lemma UncommittedWrite(st: State, force: bool, elapsed: bool, u: int, k: Key)
    requires SessionOk(st) && !Commits(st, force, elapsed) && WaitsFor(st.disk.tables, u, k)
    requires Count(st.disk.docs, k) > 0
    ensures var st' := WriteQueued(st, force, elapsed).0;
            Stale(st'.disk.tables, st'.disk.docs)
  {
    SaveEventsSound(st.disk.tables, st.queue);
    PostponedWrite(st, st.queue, None, None, force, elapsed);
    SavedWaits(st.disk.tables, st.queue, k);
    var s := SaveEvents(st.disk.tables, st.queue);
    var v :| WaitsFor(s.tables, v, k);
    SavedTablesWait(st, st.queue, None, None);
    assert WaitsFor(SavedTables(st, st.queue, None, None), v, k);
  }

  /** A clean message leaves no event waiting that the index has, if and only if it is tidy. */
  lemma HandleCurrentIff(st: State, m: Message, env: Env)
    requires SessionOk(st) && EnvFits(st, m, env) && CleanMessage(st, m) && Disjoint(st.disk.tables)
    requires Current(st) && PendingWaits(st)
    ensures Current(Handle(st, m, env).0) <==> TidyMessage(st, m, env)
  {
    if TidyMessage(st, m, env) {
      HandleCurrent(st, m, env);
    } else if m.Delete? {
      DeleteLeavesStale(st, m.eventId, env.elapsed);
    } else {
      FirstWriteLeavesStale(st, m.force, env);
    }
  }
}
