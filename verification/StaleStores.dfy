/**
 Which runs leave no stale store behind, and therefore never index an event twice: no
 deletion commits documents whose events still wait, and no crash falls between an
 index commit and the bookkeeping that belongs to it.
 */
module StaleStores {
  import opened Wrappers
  import opened Events
  import opened Tables
  import opened Soundness
  import opened Protocol
  import opened Invariants
  import opened Runs
  import opened Duplicates

  /** Nothing that waits for the index is committed in it; a session that has not
      replayed yet holds nothing back. */
  ghost predicate Current(st: State) {
    && !Stale(st.disk.tables, st.disk.docs)
    && (!st.loaded ==> st.pendingDocs == [] && st.uncommitted == [])
  }

  /** The waiting rows of t' are among those of t. */
  ghost predicate WaitsLess(t: Tables, t': Tables) {
    forall u, k :: WaitsFor(t', u, k) ==> WaitsFor(t, u, k)
  }

  lemma LessStale(t: Tables, t': Tables, docs: seq<Doc>)
    requires !Stale(t, docs) && WaitsLess(t, t')
    ensures !Stale(t', docs)
  {
  }

  lemma SameRowsWait(t: Tables, t': Tables)
    requires t'.events == t.events && t'.rooms == t.rooms && t'.uncommitted.Keys <= t.uncommitted.Keys
    requires forall u | u in t'.uncommitted :: t'.uncommitted[u] == t.uncommitted[u]
    ensures WaitsLess(t, t')
  {
  }

  lemma NobodyWaits(t: Tables, docs: seq<Doc>)
    requires t.uncommitted.Keys == {}
    ensures !Stale(t, docs)
  {
  }

  lemma StoredKey(t: Tables, u: int, k: Key)
    requires WaitsFor(t, u, k)
    ensures k in Keys(t)
  {
    assert RowIdent(t, t.uncommitted[u].eventRow).key == k;
  }

  /** A row that waits after a batch was saved waited before, or is a new one. */
  lemma WaitsAfterSaving(t: Tables, batch: seq<Entry>, u: int, k: Key)
    requires Sound(t) && WaitsFor(SaveEvents(t, batch).tables, u, k)
    ensures || WaitsFor(t, u, k)
            || (u in IdSet(SaveEvents(t, batch).ids) && k !in Keys(t) && k in BatchKeys(batch))
  {
    var s := SaveEvents(t, batch);
    SaveEventsSound(t, batch);
    if u in t.uncommitted {
      assert s.tables.uncommitted[u] == t.uncommitted[u];
      RowIdentStable(t, s.tables, t.uncommitted[u].eventRow);
    } else {
      assert u in s.ids && ReplayDoc(s.tables, u) in s.docs;
      CountPositive(s.docs, k);
      SavedFromBatch(t, batch, k);
    }
  }

  /** Saving a batch makes no store stale: the index has nothing of what is new. */
  lemma SavingKeepsCurrent(t: Tables, batch: seq<Entry>, docs: seq<Doc>)
    requires Sound(t) && NoGhosts(t, docs) && CleanBatch(t, batch) && !Stale(t, docs)
    ensures !Stale(SaveEvents(t, batch).tables, docs)
  {
    var t' := SaveEvents(t, batch).tables;
    forall u, k | WaitsFor(t', u, k)
      ensures Count(docs, k) == 0
    {
      WaitsAfterSaving(t, batch, u, k);
      if !WaitsFor(t, u, k) {
        var x :| x in batch && KeyOf(x.0) == k;
        NotStoredNotIndexed(t, docs, k);
      }
    }
  }

  /** The tables right after a batch was saved. */
  function SavedTables(st: State, batch: seq<Entry>,
    newCheckpoint: Option<CrawlerCheckpoint>, oldCheckpoint: Option<CrawlerCheckpoint>): Tables
  {
    StoreSaved(st, SaveEvents(st.disk.tables, batch), newCheckpoint, oldCheckpoint).disk.tables
  }

  lemma SavedTablesWait(st: State, batch: seq<Entry>,
    newCheckpoint: Option<CrawlerCheckpoint>, oldCheckpoint: Option<CrawlerCheckpoint>)
    ensures var s := SaveEvents(st.disk.tables, batch);
            var t := SavedTables(st, batch, newCheckpoint, oldCheckpoint);
            t == s.tables.(checkpoints := t.checkpoints) && WaitsLess(s.tables, t)
  {
  }

  lemma SavedTablesCurrent(st: State, batch: seq<Entry>, docs: seq<Doc>,
    newCheckpoint: Option<CrawlerCheckpoint>, oldCheckpoint: Option<CrawlerCheckpoint>)
    requires Sound(st.disk.tables) && NoGhosts(st.disk.tables, docs)
    requires CleanBatch(st.disk.tables, batch) && !Stale(st.disk.tables, docs)
    ensures !Stale(SavedTables(st, batch, newCheckpoint, oldCheckpoint), docs)
  {
    SavingKeepsCurrent(st.disk.tables, batch, docs);
    SavedTablesWait(st, batch, newCheckpoint, oldCheckpoint);
    LessStale(SaveEvents(st.disk.tables, batch).tables,
              SavedTables(st, batch, newCheckpoint, oldCheckpoint), docs);
  }

  /** In a session that has not replayed, a forced write marks exactly its own rows. */
  lemma UnloadedWriteCurrent(t: Tables, batch: seq<Entry>, docs: seq<Doc>, t': Tables)
    requires Sound(t) && !Stale(t, docs)
    requires var s := SaveEvents(t, batch);
             t' == s.tables.(uncommitted := t'.uncommitted, checkpoints := t'.checkpoints)
             && t'.uncommitted == s.tables.uncommitted - IdSet(s.ids)
    ensures !Stale(t', docs + SaveEvents(t, batch).docs)
  {
    var s := SaveEvents(t, batch);
    SameRowsWait(s.tables, t');
    forall u, k | WaitsFor(t', u, k)
      ensures Count(docs + s.docs, k) == 0
    {
      WaitsAfterSaving(t, batch, u, k);
      StoredKey(t, u, k);
      SavedCount(t, batch, k);
      CountConcat(docs, s.docs, k);
    }
  }

  lemma DiskHasNoGhosts(st: State)
    requires SessionOk(st)
    ensures NoGhosts(st.disk.tables, st.disk.docs)
  {
    assert forall d | d in st.disk.docs :: d in Working(st);
  }

  /** A write whose index commit has to wait only stores. */
  lemma PostponedWrite(st: State, batch: seq<Entry>,
    newCheckpoint: Option<CrawlerCheckpoint>, oldCheckpoint: Option<CrawlerCheckpoint>,
    force: bool, elapsed: bool)
    requires SaveEvents(st.disk.tables, batch).error.None?
    ensures var (st', res) := WriteEvents(st, batch, newCheckpoint, oldCheckpoint, force, elapsed);
            res.Success? && (!res.value.1 ==>
              && st'.disk == Durable(SavedTables(st, batch, newCheckpoint, oldCheckpoint), st.disk.docs)
              && st'.loaded == st.loaded && !force)
  {
  }

  /** A forced write of a session that has not replayed. */
  lemma UnloadedWrite(st: State, batch: seq<Entry>,
    newCheckpoint: Option<CrawlerCheckpoint>, oldCheckpoint: Option<CrawlerCheckpoint>, elapsed: bool)
    requires SaveEvents(st.disk.tables, batch).error.None? && st.uncommitted == []
    ensures var s := SaveEvents(st.disk.tables, batch);
            var t := WriteEvents(st, batch, newCheckpoint, oldCheckpoint, true, elapsed).0.disk.tables;
            && t == s.tables.(uncommitted := t.uncommitted, checkpoints := t.checkpoints)
            && t.uncommitted == s.tables.uncommitted - IdSet(s.ids)
    ensures WriteEvents(st, batch, newCheckpoint, oldCheckpoint, true, elapsed).0.uncommitted == []
  {
    var s := SaveEvents(st.disk.tables, batch);
    var st1 := StoreSaved(st, s, newCheckpoint, oldCheckpoint);
    assert [] + s.ids == s.ids;
    assert st1.uncommitted == s.ids && st1.disk.tables.uncommitted == s.tables.uncommitted;
    CommitLog(st1, true, elapsed);
    MarkTables(CommitHelper(st1, true, elapsed).0);
  }

  lemma MarkTables(st: State)
    ensures var t := MarkIndexed(st).disk.tables;
            && t == st.disk.tables.(uncommitted := t.uncommitted)
            && t.uncommitted == st.disk.tables.uncommitted - IdSet(st.uncommitted)
            && MarkIndexed(st).uncommitted == []
  {
    assert st.uncommitted == [] ==>
        st.disk.tables.uncommitted - IdSet(st.uncommitted) == st.disk.tables.uncommitted;
  }

  /** A write leaves no stale store, provided a session that has not replayed forces it. */
  lemma WriteEventsCurrent(st: State, batch: seq<Entry>,
    newCheckpoint: Option<CrawlerCheckpoint>, oldCheckpoint: Option<CrawlerCheckpoint>,
    force: bool, elapsed: bool)
    requires SessionOk(st) && CleanBatch(st.disk.tables, batch) && Current(st) && (st.loaded || force)
    ensures Current(WriteEvents(st, batch, newCheckpoint, oldCheckpoint, force, elapsed).0)
  {
    var (st', res) := WriteEvents(st, batch, newCheckpoint, oldCheckpoint, force, elapsed);
    SaveEventsSound(st.disk.tables, batch);
    WriteEventsOk(st, batch, newCheckpoint, oldCheckpoint, force, elapsed);
    PostponedWrite(st, batch, newCheckpoint, oldCheckpoint, force, elapsed);
    if !res.value.1 {
      DiskHasNoGhosts(st);
      SavedTablesCurrent(st, batch, st.disk.docs, newCheckpoint, oldCheckpoint);
    } else if st.loaded {
      MarkedAll(st, batch, newCheckpoint, oldCheckpoint, force, elapsed);
      NobodyWaits(st'.disk.tables, st'.disk.docs);
    } else {
      UnloadedWrite(st, batch, newCheckpoint, oldCheckpoint, elapsed);
      assert st'.disk.docs == Working(st') && Working(st) == st.disk.docs;
      UnloadedWriteCurrent(st.disk.tables, batch, st.disk.docs, st'.disk.tables);
    }
  }

  /** A write that marks its rows as indexed. */
  predicate Committed(st: State, batch: seq<Entry>,
    newCheckpoint: Option<CrawlerCheckpoint>, oldCheckpoint: Option<CrawlerCheckpoint>,
    force: bool, elapsed: bool)
  {
    var res := WriteEvents(st, batch, newCheckpoint, oldCheckpoint, force, elapsed).1;
    res.Success? && res.value.1
  }

  /** A committed write of a loaded session leaves nobody waiting. */
  lemma MarkedAll(st: State, batch: seq<Entry>,
    newCheckpoint: Option<CrawlerCheckpoint>, oldCheckpoint: Option<CrawlerCheckpoint>,
    force: bool, elapsed: bool)
    requires SessionOk(st) && st.loaded
    requires Committed(st, batch, newCheckpoint, oldCheckpoint, force, elapsed)
    ensures WriteEvents(st, batch, newCheckpoint, oldCheckpoint, force, elapsed).0.disk.tables.uncommitted.Keys == {}
  {
    WriteEventsOk(st, batch, newCheckpoint, oldCheckpoint, force, elapsed);
    var st3 := WriteEvents(st, batch, newCheckpoint, oldCheckpoint, force, elapsed).0;
    assert st3.uncommitted == [];
  }

  lemma SettleCurrent(st: State, res: Result<(bool, bool), SqlError>)
    requires Current(st)
    ensures Current(Settle(st, res))
  {
    SameRowsWait(st.disk.tables, Settle(st, res).disk.tables);
  }

  lemma WriteQueuedCurrent(st: State, force: bool, elapsed: bool)
    requires SessionOk(st) && CleanBatch(st.disk.tables, st.queue) && Current(st) && st.loaded
    ensures Current(WriteQueued(st, force, elapsed).0)
  {
    WriteEventsCurrent(st, st.queue, None, None, force, elapsed);
    var (st1, res) := WriteEvents(st, st.queue, None, None, force, elapsed);
    SettleCurrent(st1.(queue := []), res);
  }

  lemma WriteHistoricCurrent(st: State, m: Message, elapsed: bool)
    requires m.Historic? && SessionOk(st) && CleanBatch(st.disk.tables, m.batch) && Current(st)
    ensures Current(WriteHistoric(st, m.newCheckpoint, m.oldCheckpoint, m.batch, elapsed).0)
  {
    WriteEventsCurrent(st, m.batch, m.newCheckpoint, m.oldCheckpoint, true, elapsed);
    var (st1, res) := WriteEvents(st, m.batch, m.newCheckpoint, m.oldCheckpoint, true, elapsed);
    SettleCurrent(st1, res);
  }

  lemma NoIds(ids: seq<EventId>)
    ensures EventIdSet(ids) == {} ==> ids == []
  {
    if ids != [] {
      assert ids[0] in EventIdSet(ids);
    }
  }

  /** A replay that deletes nothing, or adds nothing, commits nothing that waits. */
  lemma LoadCurrent(st: State, uids: seq<int>, dids: seq<EventId>)
    requires SessionOk(st) && Lists(st.disk.tables, uids, dids) && Current(st)
    requires st.disk.tables.pending == {} || st.disk.tables.uncommitted.Keys == {}
    ensures Current(LoadUnprocessed(st, uids, dids))
  {
    LoadUnprocessedOk(st, uids, dids);
    if st.disk.tables.pending == {} {
      NoIds(dids);
    } else {
      NobodyWaits(st.disk.tables, LoadUnprocessed(st, uids, dids).disk.docs);
    }
  }

  /** A deletion with nothing pending in the index commits nothing that waits. */
  lemma DeleteEventCurrent(st: State, eventId: EventId, elapsed: bool)
    requires SessionOk(st) && Current(st) && st.pendingDocs == []
    ensures Current(Protocol.DeleteEvent(st, eventId, elapsed).0)
  {
    match DeleteEventsById(st.disk.tables, eventId)
    case Failure(_) =>
    case Success(t) =>
      var st' := Protocol.DeleteEvent(st, eventId, elapsed).0;
      DeletedTables(st.disk.tables, eventId);
      DeletedTablesWait(st.disk.tables, eventId, st'.disk.tables);
      DeletedDocs(st, t, eventId, elapsed);
      forall k
        ensures Count(st'.disk.docs, k) <= Count(st.disk.docs, k)
      {
        CountWithout(st.disk.docs, eventId, k);
      }
  }

  lemma DeletedTablesWait(t: Tables, eventId: EventId, t': Tables)
    requires Sound(t) && DeleteEventsById(t, eventId).Success?
    requires t' == DeleteEventsById(t, eventId).value.(pending := t'.pending)
    ensures WaitsLess(t, t')
  {
    DeletedTables(t, eventId);
  }

  lemma DeletedDocs(st: State, t: Tables, eventId: EventId, elapsed: bool)
    requires DeleteEventsById(st.disk.tables, eventId) == Success(t) && st.pendingDocs == []
    ensures var st' := Protocol.DeleteEvent(st, eventId, elapsed).0;
            && st'.disk.docs == Without(st.disk.docs, eventId) && st'.pendingDocs == []
            && st'.disk.tables == t.(pending := st'.disk.tables.pending)
            && st'.uncommitted == st.uncommitted && st'.loaded == st.loaded
  {
    assert st.disk.docs + [] == st.disk.docs;
    var docs := Without(st.disk.docs, eventId);
    assert docs + [] == docs;
  }

  // ----- Messages -----

  /** The index commit of a first write need not wait: the time has passed, or what it
      replays and stores reaches the rate. */
  predicate RateReached(st: State, env: Env) {
    env.elapsed || st.added + |env.uids| + |SaveEvents(st.disk.tables, st.queue).docs| >= COMMIT_RATE
  }

  /** A deletion comes only when nothing is pending in the index, or is refused; and a first
      write that both adds and deletes commits what it adds. */
  ghost predicate TidyMessage(st: State, m: Message, env: Env) {
    match m
    case Delete(eventId) => st.pendingDocs == [] || DeleteEventsById(st.disk.tables, eventId).Failure?
    case Write(force) =>
      || st.loaded || force || RateReached(st, env)
      || st.disk.tables.pending == {} || st.disk.tables.uncommitted.Keys == {}
    case _ => true
  }

  predicate Commits(st: State, force: bool, elapsed: bool) {
    Committed(st, st.queue, None, None, force, elapsed)
  }

  lemma {:induction false} IndexDeletesAdded(st: State, ids: seq<EventId>)
    ensures IndexDeletes(st, ids).added == st.added
    decreases |ids|
  {
    if ids == [] {
    } else {
      IndexDeletesAdded(IndexDelete(st, ids[0]), ids[1..]);
    }
  }

  lemma CommitsIff(st: State, force: bool, elapsed: bool)
    requires SessionOk(st)
    ensures var added := st.added + |SaveEvents(st.disk.tables, st.queue).docs|;
            Commits(st, force, elapsed) <==> force || (added > 0 && (added >= COMMIT_RATE || elapsed))
  {
    SaveEventsSound(st.disk.tables, st.queue);
  }

  /** When the first write of a session that replays something commits. */
  lemma FirstCommitsIff(st: State, force: bool, env: Env)
    requires SessionOk(st) && EnvFits(st, Write(force), env) && !st.loaded && env.uids != []
    ensures Commits(LoadUnprocessed(st, env.uids, env.dids), force, env.elapsed) <==> force || RateReached(st, env)
  {
    var st1 := LoadUnprocessed(st, env.uids, env.dids);
    LoadUnprocessedOk(st, env.uids, env.dids);
    IndexDeletesAdded(ReplayUncommitted(st, env.uids), env.dids);
    CommitsIff(st1, force, env.elapsed);
  }

  lemma NothingToReplay(st: State, uids: seq<int>)
    requires SessionOk(st) && IdSet(uids) == JoinedUncommitted(st.disk.tables)
    ensures uids == [] <==> st.disk.tables.uncommitted.Keys == {}
  {
    ReplayUncommittedOk(st, uids);
    if uids != [] {
      assert uids[0] in IdSet(uids);
    }
  }

  lemma CommittedCurrent(st: State, force: bool, elapsed: bool)
    requires SessionOk(st) && st.loaded && Commits(st, force, elapsed)
    ensures Current(WriteQueued(st, force, elapsed).0)
    ensures WriteQueued(st, force, elapsed).0.disk.tables.uncommitted.Keys == {}
  {
    MarkedAll(st, st.queue, None, None, force, elapsed);
    WriteQueuedOk(st, force, elapsed);
    var st' := WriteQueued(st, force, elapsed).0;
    NobodyWaits(st'.disk.tables, st'.disk.docs);
  }

  /** The replay of a tidy first write that does not commit afterwards. */
  lemma TidyReplay(st: State, force: bool, env: Env)
    requires SessionOk(st) && EnvFits(st, Write(force), env) && !st.loaded
    requires TidyMessage(st, Write(force), env)
    requires !Commits(LoadUnprocessed(st, env.uids, env.dids), force, env.elapsed)
    ensures st.disk.tables.pending == {} || st.disk.tables.uncommitted.Keys == {}
  {
    NothingToReplay(st, env.uids);
    if env.uids != [] {
      FirstCommitsIff(st, force, env);
    }
  }

  lemma HandleCurrent(st: State, m: Message, env: Env)
    requires SessionOk(st) && EnvFits(st, m, env) && CleanMessage(st, m)
    requires Current(st) && TidyMessage(st, m, env)
    ensures Current(Handle(st, m, env).0)
  {
    match m
    case Add(_, _) =>
    case Write(force) =>
      if st.loaded {
        WriteQueuedCurrent(st, force, env.elapsed);
      } else {
        LoadUnprocessedOk(st, env.uids, env.dids);
        var st1 := LoadUnprocessed(st, env.uids, env.dids);
        if Commits(st1, force, env.elapsed) {
          CommittedCurrent(st1, force, env.elapsed);
        } else {
          TidyReplay(st, force, env);
          LoadCurrent(st, env.uids, env.dids);
          WriteQueuedCurrent(st1, force, env.elapsed);
        }
      }
    case Historic(_, _, _) =>
      WriteHistoricCurrent(st, m, env.elapsed);
    case Delete(eventId) =>
      if st.pendingDocs == [] {
        DeleteEventCurrent(st, eventId, env.elapsed);
      }
    case ShutDown =>
  }

  // ----- Crash points -----

  /** The second index has no event that the first has not. */
  ghost predicate NothingNew(docs: seq<Doc>, docs': seq<Doc>) {
    forall k :: Count(docs', k) > 0 ==> Count(docs, k) > 0
  }

  lemma NothingNewStale(t: Tables, docs: seq<Doc>, docs': seq<Doc>)
    requires !Stale(t, docs) && NothingNew(docs, docs')
    ensures !Stale(t, docs')
  {
  }

  /** The durable states of a write. */
  lemma WriteLog(st: State, batch: seq<Entry>,
    newCheckpoint: Option<CrawlerCheckpoint>, oldCheckpoint: Option<CrawlerCheckpoint>,
    force: bool, elapsed: bool, d: Durable)
    requires SaveEvents(st.disk.tables, batch).error.None?
    requires d in WriteEvents(st, batch, newCheckpoint, oldCheckpoint, force, elapsed).0.log
    ensures var st' := WriteEvents(st, batch, newCheckpoint, oldCheckpoint, force, elapsed).0;
            var t := SavedTables(st, batch, newCheckpoint, oldCheckpoint);
            || d in st.log || d == st'.disk
            || (d.tables == t && (d.docs == st.disk.docs || d.docs == st'.disk.docs))
  {
    var st1 := StoreSaved(st, SaveEvents(st.disk.tables, batch), newCheckpoint, oldCheckpoint);
    var (st2, flushed) := CommitHelper(st1, force, elapsed);
    CommitLog(st1, force, elapsed);
    if force || flushed {
      MarkLog(st2);
    }
  }

  lemma WriteTables(st: State, batch: seq<Entry>,
    newCheckpoint: Option<CrawlerCheckpoint>, oldCheckpoint: Option<CrawlerCheckpoint>,
    force: bool, elapsed: bool)
    requires SaveEvents(st.disk.tables, batch).error.None?
    ensures var t := SavedTables(st, batch, newCheckpoint, oldCheckpoint);
            var t' := WriteEvents(st, batch, newCheckpoint, oldCheckpoint, force, elapsed).0.disk.tables;
            t' == t.(uncommitted := t'.uncommitted)
  {
    var st1 := StoreSaved(st, SaveEvents(st.disk.tables, batch), newCheckpoint, oldCheckpoint);
    var (st2, flushed) := CommitHelper(st1, force, elapsed);
    CommitLog(st1, force, elapsed);
    if force || flushed {
      MarkLog(st2);
    }
  }

  lemma CommitLog(st: State, force: bool, elapsed: bool)
    ensures var st' := CommitHelper(st, force, elapsed).0;
            && st'.disk.tables == st.disk.tables
            && (st'.log == st.log || st'.log == st.log + [st'.disk])
            && (st'.log == st.log ==> st'.disk == st.disk)
  {
  }

  lemma MarkLog(st: State)
    ensures var st' := MarkIndexed(st);
            && st'.disk.docs == st.disk.docs
            && st'.disk.tables == st.disk.tables.(uncommitted := st'.disk.tables.uncommitted)
            && (st'.log == st.log || st'.log == st.log + [st'.disk])
            && (st'.log == st.log ==> st'.disk == st.disk)
  {
  }

  /** A durable state of a write that is stale has events in the index that were not there
      before, and other waiting rows than the write leaves. */
  lemma WriteStaleOnlyBetween(st: State, batch: seq<Entry>,
    newCheckpoint: Option<CrawlerCheckpoint>, oldCheckpoint: Option<CrawlerCheckpoint>,
    force: bool, elapsed: bool, docs: seq<Doc>, d: Durable)
    requires SessionOk(st) && CleanBatch(st.disk.tables, batch)
    requires Current(st) || (st.loaded && Committed(st, batch, newCheckpoint, oldCheckpoint, force, elapsed))
    requires NoGhosts(st.disk.tables, docs) && !Stale(st.disk.tables, docs)
    requires var st' := WriteEvents(st, batch, newCheckpoint, oldCheckpoint, force, elapsed).0;
             d in st'.log && d !in st.log && Current(st')
             && (NothingNew(docs, d.docs) || d.tables.uncommitted == st'.disk.tables.uncommitted)
    ensures !Stale(d.tables, d.docs)
  {
    var (st', res) := WriteEvents(st, batch, newCheckpoint, oldCheckpoint, force, elapsed);
    var t := SavedTables(st, batch, newCheckpoint, oldCheckpoint);
    SaveEventsSound(st.disk.tables, batch);
    WriteEventsOk(st, batch, newCheckpoint, oldCheckpoint, force, elapsed);
    WriteLog(st, batch, newCheckpoint, oldCheckpoint, force, elapsed, d);
    if d != st'.disk {
      if NothingNew(docs, d.docs) {
        SavedTablesCurrent(st, batch, docs, newCheckpoint, oldCheckpoint);
        NothingNewStale(t, docs, d.docs);
      } else if d.docs == st'.disk.docs {
        WriteTables(st, batch, newCheckpoint, oldCheckpoint, force, elapsed);
        SameRowsWait(st'.disk.tables, t);
        LessStale(st'.disk.tables, t, d.docs);
      } else if Current(st) {
        DiskHasNoGhosts(st);
        SavedTablesCurrent(st, batch, st.disk.docs, newCheckpoint, oldCheckpoint);
      } else {
        MarkedAll(st, batch, newCheckpoint, oldCheckpoint, force, elapsed);
        NobodyWaits(d.tables, d.docs);
      }
    }
  }

  lemma SettleLog(st: State, res: Result<(bool, bool), SqlError>, d: Durable)
    requires d in Settle(st, res).log
    ensures d in st.log || d == Settle(st, res).disk
    ensures Settle(st, res).disk.tables.uncommitted == st.disk.tables.uncommitted
  {
  }

  lemma {:induction false} IndexDeletesLog(st: State, ids: seq<EventId>, d: Durable)
    requires d in IndexDeletes(st, ids).log
    ensures d in st.log || (ids != [] && d.tables == st.disk.tables)
    decreases |ids|
  {
    if ids == [] {
    } else {
      IndexDeletesLog(IndexDelete(st, ids[0]), ids[1..], d);
    }
  }

  /** A crash in a message comes between an index commit and the bookkeeping that belongs to
      it: the index has an event that it had not, and other rows wait than in the end. */
  ghost predicate Between(st: State, st': State, d: Durable) {
    !NothingNew(st.disk.docs, d.docs) && d.tables.uncommitted != st'.disk.tables.uncommitted
  }

  lemma QueuedNotBetween(st: State, docs: seq<Doc>, force: bool, elapsed: bool, d: Durable)
    requires SessionOk(st) && CleanBatch(st.disk.tables, st.queue) && st.loaded
    requires Current(st) || Commits(st, force, elapsed)
    requires NoGhosts(st.disk.tables, docs) && !Stale(st.disk.tables, docs)
    requires var st' := WriteQueued(st, force, elapsed).0;
             d in st'.log && d !in st.log
             && (NothingNew(docs, d.docs) || d.tables.uncommitted == st'.disk.tables.uncommitted)
    ensures !Stale(d.tables, d.docs)
  {
    var (st1, res) := WriteEvents(st, st.queue, None, None, force, elapsed);
    SettleLog(st1.(queue := []), res, d);
    if Commits(st, force, elapsed) {
      MarkedAll(st, st.queue, None, None, force, elapsed);
      CommittedCurrent(st, force, elapsed);
      NobodyWaits(st1.disk.tables, st1.disk.docs);
      WriteEventsOk(st, st.queue, None, None, force, elapsed);
    } else {
      WriteQueuedCurrent(st, force, elapsed);
      WriteEventsCurrent(st, st.queue, None, None, force, elapsed);
    }
    if d in st1.log {
      WriteStaleOnlyBetween(st, st.queue, None, None, force, elapsed, docs, d);
    }
  }

  lemma HistoricNotBetween(st: State, m: Message, elapsed: bool, d: Durable)
    requires m.Historic? && SessionOk(st) && CleanBatch(st.disk.tables, m.batch) && Current(st) && st.log == []
    requires var st' := WriteHistoric(st, m.newCheckpoint, m.oldCheckpoint, m.batch, elapsed).0;
             d in st'.log && !Between(st, st', d)
    ensures !Stale(d.tables, d.docs)
  {
    var (st1, res) := WriteEvents(st, m.batch, m.newCheckpoint, m.oldCheckpoint, true, elapsed);
    SettleLog(st1, res, d);
    WriteEventsCurrent(st, m.batch, m.newCheckpoint, m.oldCheckpoint, true, elapsed);
    WriteHistoricCurrent(st, m, elapsed);
    DiskHasNoGhosts(st);
    if d in st1.log {
      WriteStaleOnlyBetween(st, m.batch, m.newCheckpoint, m.oldCheckpoint, true, elapsed, st.disk.docs, d);
    }
  }

  /** No crash point of a deletion is stale if nothing was pending in the index. */
  lemma DeleteNotStale(st: State, eventId: EventId, elapsed: bool, d: Durable)
    requires SessionOk(st) && Current(st) && st.pendingDocs == [] && st.log == []
    requires d in Protocol.DeleteEvent(st, eventId, elapsed).0.log
    ensures !Stale(d.tables, d.docs)
  {
    var t := DeleteEventsById(st.disk.tables, eventId).value;
    DeleteLog(st, t, eventId, elapsed, d);
    DeletedTablesWait(st.disk.tables, eventId, d.tables);
    forall k
      ensures Count(d.docs, k) <= Count(st.disk.docs, k)
    {
      CountWithout(st.disk.docs, eventId, k);
    }
  }

  lemma DeleteLog(st: State, t: Tables, eventId: EventId, elapsed: bool, d: Durable)
    requires DeleteEventsById(st.disk.tables, eventId) == Success(t) && st.pendingDocs == [] && st.log == []
    requires d in Protocol.DeleteEvent(st, eventId, elapsed).0.log
    ensures d.docs == st.disk.docs || d.docs == Without(st.disk.docs, eventId)
    ensures d.tables == t.(pending := d.tables.pending)
  {
    assert st.disk.docs + [] == st.disk.docs;
    var docs := Without(st.disk.docs, eventId);
    assert docs + [] == docs;
  }

  lemma FirstWriteNotBetween(st: State, force: bool, env: Env, d: Durable)
    requires SessionOk(st) && EnvFits(st, Write(force), env) && CleanMessage(st, Write(force))
    requires Current(st) && TidyMessage(st, Write(force), env) && !st.loaded && st.log == []
    requires var st' := Handle(st, Write(force), env).0;
             d in st'.log && !Between(st, st', d)
    ensures !Stale(d.tables, d.docs)
  {
    var st1 := LoadUnprocessed(st, env.uids, env.dids);
    LoadUnprocessedOk(st, env.uids, env.dids);
    if Commits(st1, force, env.elapsed) {
      CommittedCurrent(st1, force, env.elapsed);
    } else {
      TidyReplay(st, force, env);
      LoadCurrent(st, env.uids, env.dids);
    }
    if d in st1.log {
      IndexDeletesLog(ReplayUncommitted(st, env.uids), env.dids, d);
      NoIds(env.dids);
      if NothingNew(st.disk.docs, d.docs) {
        NothingNewStale(d.tables, st.disk.docs, d.docs);
      } else {
        NobodyWaits(d.tables, d.docs);
      }
    } else {
      DiskHasNoGhosts(st);
      QueuedNotBetween(st1, st.disk.docs, force, env.elapsed, d);
    }
  }

  /** The crash points of a tidy message that leave a stale store lie between its index
      commit and the bookkeeping that belongs to it. */
  lemma StaleOnlyBetween(st: State, m: Message, env: Env, d: Durable)
    requires SessionOk(st) && EnvFits(st, m, env) && CleanMessage(st, m) && st.log == []
    requires Current(st) && TidyMessage(st, m, env)
    requires d in Handle(st, m, env).0.log && !Between(st, Handle(st, m, env).0, d)
    ensures !Stale(d.tables, d.docs)
  {
    match m
    case Add(_, _) =>
    case Write(force) =>
      if st.loaded {
        DiskHasNoGhosts(st);
        QueuedNotBetween(st, st.disk.docs, force, env.elapsed, d);
      } else {
        FirstWriteNotBetween(st, force, env, d);
      }
    case Historic(_, _, _) =>
      HistoricNotBetween(st, m, env.elapsed, d);
    case Delete(eventId) =>
      if st.pendingDocs == [] {
        DeleteNotStale(st, eventId, env.elapsed, d);
      }
    case ShutDown =>
  }

  // ----- Tidy runs -----

  /** Deletions come when nothing is pending, and crashes not in between. */
  ghost predicate Tidy(st: State, acts: seq<Action>)
    requires Run(st, acts)
    decreases |acts|
  {
    acts == [] || (
      && TidyMessage(st, acts[0].message, acts[0].env)
      && (acts[0].CrashIn? ==>
            !Between(st, Handle(Blank(st), acts[0].message, acts[0].env).0, Step(st, acts[0]).disk))
      && Tidy(Step(st, acts[0]), acts[1..]))
  }

  lemma StepCurrent(st: State, a: Action)
    requires Safe(st) && Enabled(st, a) && CleanMessage(st, a.message) && Current(st)
    requires TidyMessage(st, a.message, a.env)
    requires a.CrashIn? ==> !Between(st, Handle(Blank(st), a.message, a.env).0, Step(st, a).disk)
    ensures Current(Step(st, a))
  {
    assert Working(Blank(st)) == Working(st);
    HandleCurrent(Blank(st), a.message, a.env);
    if a.CrashIn? && a.at > 0 {
      StaleOnlyBetween(Blank(st), a.message, a.env, Step(st, a).disk);
    }
  }

  lemma {:induction false} TidyRunFresh(st: State, acts: seq<Action>)
    requires Safe(st) && Run(st, acts) && Clean(st, acts) && Tidy(st, acts) && Current(st)
    ensures FreshReplays(st, acts) && Current(Exec(st, acts))
    decreases |acts|
  {
    if acts == [] {
    } else {
      assert ReplayFresh(st, acts[0].message) by {
        if !st.loaded {
          assert Working(st) == st.disk.docs;
        }
      }
      StepSafe(st, acts[0]);
      StepCurrent(st, acts[0]);
      TidyRunFresh(Step(st, acts[0]), acts[1..]);
    }
  }

  /** Such runs never index an event twice, for any process and any crash. */
  lemma TidyRunUnique(acts: seq<Action>)
    requires Run(Fresh(EMPTY), acts) && Clean(Fresh(EMPTY), acts) && Tidy(Fresh(EMPTY), acts)
    ensures AllUnique(Exec(Fresh(EMPTY), acts))
  {
    EmptySafe();
    NobodyWaits(EMPTY.tables, []);
    TidyRunFresh(Fresh(EMPTY), acts);
    RunUnique(Fresh(EMPTY), acts);
  }
}
