/**
 What every step of the writer keeps without any assumption on the messages:
 integrity of the tables, no ghost documents, live bookkeeping, and the bound on
 the documents that wait in the index.
 */
module Invariants {
  import opened Wrappers
  import opened Events
  import opened Tables
  import opened Soundness
  import opened Protocol

  /** Every document belongs to a stored event or to a deletion still to be done. */
  ghost predicate NoGhosts(t: Tables, docs: seq<Doc>) {
    forall d | d in docs :: d.ident.key.eventId in t.pending || d.ident in RowIdents(t)
  }

  ghost predicate DurableOk(d: Durable) {
    Sound(d.tables) && NoGhosts(d.tables, d.docs)
  }

  /** The documents of the index as this process sees it. */
  function Working(st: State): seq<Doc> {
    st.disk.docs + st.pendingDocs
  }

  /** Clearing the remembered deletions orphans no document. */
  ghost predicate DeletionsSettled(st: State) {
    Settled(st.disk.tables, Working(st), st.deletions)
  }

  ghost predicate Settled(t: Tables, docs: seq<Doc>, deletions: seq<EventId>) {
    forall d | d in docs && d.ident.key.eventId in deletions :: d.ident in RowIdents(t)
  }

  /** The vectors in memory hold live rows only and, once the replay is done, all
      of them. */
  ghost predicate VectorsLive(st: State) {
    && IdSet(st.uncommitted) <= st.disk.tables.uncommitted.Keys
    && (st.loaded ==> st.disk.tables.uncommitted.Keys <= IdSet(st.uncommitted))
    && (st.loaded ==> st.disk.tables.pending <= EventIdSet(st.deletions))
  }

  ghost predicate SessionOk(st: State) {
    && Sound(st.disk.tables)
    && NoGhosts(st.disk.tables, Working(st))
    && (forall d | d in st.log :: DurableOk(d))
    && |st.pendingDocs| <= st.added
    && DeletionsSettled(st)
    && VectorsLive(st)
  }

  lemma SameEvents(t: Tables, t': Tables)
    requires t'.events == t.events && t'.rooms == t.rooms
    ensures RowIdents(t') == RowIdents(t) && Keys(t') == Keys(t)
  {
  }

  lemma FreshOk(d: Durable)
    requires DurableOk(d)
    ensures SessionOk(Fresh(d))
  {
  }

  // ----- Index steps -----

  lemma CommitHelperOk(st: State, force: bool, elapsed: bool)
    requires SessionOk(st)
    ensures var (st', committed) := CommitHelper(st, force, elapsed);
            && SessionOk(st')
            && Working(st') == Working(st)
            && (force || committed ==> st'.pendingDocs == [])
            && (st.added >= COMMIT_RATE || force || committed ==> st'.added == 0)
            && st'.added <= st.added
  {
  }

  lemma AddDocsOk(st: State, docs: seq<Doc>)
    requires SessionOk(st)
    requires forall d | d in docs :: d.ident in RowIdents(st.disk.tables)
    ensures SessionOk(AddDocs(st, docs))
    ensures Working(AddDocs(st, docs)) == Working(st) + docs
  {
  }

  lemma IndexDeleteOk(st: State, eventId: EventId)
    requires SessionOk(st)
    ensures SessionOk(IndexDelete(st, eventId))
    ensures Working(IndexDelete(st, eventId)) == Without(Working(st), eventId)
  {
  }

  /** Replaying the deletions leaves exactly the documents of other events. */
  lemma {:induction false} IndexDeletesOk(st: State, ids: seq<EventId>)
    requires SessionOk(st)
    ensures var st' := IndexDeletes(st, ids);
            && SessionOk(st')
            && st' == st.(disk := st'.disk, log := st'.log, pendingDocs := st'.pendingDocs)
            && st'.disk.tables == st.disk.tables
            && (forall d :: d in Working(st') <==> d in Working(st) && d.ident.key.eventId !in ids)
    decreases |ids|
  {
    if ids == [] {
    } else {
      IndexDeleteOk(st, ids[0]);
      IndexDeletesOk(IndexDelete(st, ids[0]), ids[1..]);
      assert forall x :: x in ids <==> x == ids[0] || x in ids[1..];
    }
  }

  // ----- Bookkeeping steps -----

  lemma MarkIndexedOk(st: State)
    requires SessionOk(st)
    ensures SessionOk(MarkIndexed(st)) && Working(MarkIndexed(st)) == Working(st)
    ensures RowIdents(MarkIndexed(st).disk.tables) == RowIdents(st.disk.tables)
  {
    var st' := MarkIndexed(st);
    SameEvents(st.disk.tables, st'.disk.tables);
    assert DurableOk(st'.disk);
  }

  lemma MarkDeletedOk(st: State)
    requires SessionOk(st)
    ensures SessionOk(MarkDeleted(st)) && Working(MarkDeleted(st)) == Working(st)
    ensures RowIdents(MarkDeleted(st).disk.tables) == RowIdents(st.disk.tables)
  {
    var st' := MarkDeleted(st);
    SameEvents(st.disk.tables, st'.disk.tables);
    assert forall d | d in Working(st) && d.ident.key.eventId in EventIdSet(st.deletions) ::
        d.ident in RowIdents(st.disk.tables);
    assert DurableOk(st'.disk);
  }

  // ----- Transactions -----

  /** The tables after the transaction of a batch. */
  lemma StoreSavedTables(st: State, batch: seq<Entry>, s: Saved,
    newCheckpoint: Option<CrawlerCheckpoint>, oldCheckpoint: Option<CrawlerCheckpoint>)
    requires Sound(st.disk.tables) && BatchSaved(st.disk.tables, batch, s)
    ensures var t := StoreSaved(st, s, newCheckpoint, oldCheckpoint).disk.tables;
            && t == s.tables.(checkpoints := t.checkpoints)
            && Sound(t) && RowIdents(t) == RowIdents(s.tables) && Keys(t) == Keys(s.tables)
            && RowIdents(st.disk.tables) <= RowIdents(t)
            && t.pending == st.disk.tables.pending
            && (forall d | d in s.docs :: d.ident in RowIdents(t))
  {
  }

  lemma NoGhostsGrow(t: Tables, t': Tables, docs: seq<Doc>, more: seq<Doc>, deletions: seq<EventId>)
    requires NoGhosts(t, docs) && t'.pending == t.pending && RowIdents(t) <= RowIdents(t')
    requires Settled(t, docs, deletions)
    requires forall d | d in more :: d.ident in RowIdents(t')
    ensures NoGhosts(t', docs + more) && Settled(t', docs + more, deletions)
  {
  }

  lemma StoreSavedOk(st: State, batch: seq<Entry>, s: Saved,
    newCheckpoint: Option<CrawlerCheckpoint>, oldCheckpoint: Option<CrawlerCheckpoint>)
    requires SessionOk(st) && BatchSaved(st.disk.tables, batch, s)
    ensures SessionOk(StoreSaved(st, s, newCheckpoint, oldCheckpoint))
    ensures Working(StoreSaved(st, s, newCheckpoint, oldCheckpoint)) == Working(st) + s.docs
  {
    StoreSavedTables(st, batch, s, newCheckpoint, oldCheckpoint);
    var st' := StoreSaved(st, s, newCheckpoint, oldCheckpoint);
    assert Working(st') == Working(st) + s.docs;
    NoGhostsGrow(st.disk.tables, st'.disk.tables, Working(st), s.docs, st.deletions);
    assert DurableOk(st'.disk);
    assert IdSet(st'.uncommitted) == IdSet(st.uncommitted) + IdSet(s.ids);
  }

  /** A batch is written: no state on the way is unsound and nothing is refused. */
  lemma WriteEventsOk(st: State, batch: seq<Entry>,
    newCheckpoint: Option<CrawlerCheckpoint>, oldCheckpoint: Option<CrawlerCheckpoint>,
    force: bool, elapsed: bool)
    requires SessionOk(st)
    ensures var (st', res) := WriteEvents(st, batch, newCheckpoint, oldCheckpoint, force, elapsed);
            && SessionOk(st')
            && res.Success?
            && (force ==> res.value.1)
            && (res.value.1 ==> st'.pendingDocs == [] && st'.added == 0)
            && st'.added < COMMIT_RATE
            && Working(st') == Working(st) + SaveEvents(st.disk.tables, batch).docs
            && st'.queue == st.queue && st'.deletions == st.deletions && st'.loaded == st.loaded
  {
    var s := SaveEvents(st.disk.tables, batch);
    SaveEventsSound(st.disk.tables, batch);
    var st1 := StoreSaved(st, s, newCheckpoint, oldCheckpoint);
    StoreSavedOk(st, batch, s, newCheckpoint, oldCheckpoint);
    CommitHelperOk(st1, force, elapsed);
    MarkIndexedOk(CommitHelper(st1, force, elapsed).0);
  }

  lemma DeletedTables(t: Tables, eventId: EventId)
    requires Sound(t) && DeleteEventsById(t, eventId).Success?
    ensures var t' := DeleteEventsById(t, eventId).value;
            && Sound(t') && t'.uncommitted == t.uncommitted && t'.pending == t.pending
            && (forall r | r in t.events :: r in t'.events <==> t.events[r].eventId != eventId)
            && (forall r | r in t'.events :: r in t.events && RowIdent(t', r) == RowIdent(t, r))
            && (forall i :: i in RowIdents(t') <==> i in RowIdents(t) && i.key.eventId != eventId)
  {
  }

  lemma DeleteRowsOk(st: State, eventId: EventId)
    requires SessionOk(st) && DeleteEventsById(st.disk.tables, eventId).Success?
    ensures var st' := DeleteRows(st, DeleteEventsById(st.disk.tables, eventId).value, eventId);
            && SessionOk(st')
            && Working(st') == Without(Working(st), eventId)
  {
    var t := DeleteEventsById(st.disk.tables, eventId).value;
    DeletedTables(st.disk.tables, eventId);
    var t' := t.(pending := t.pending + {eventId});
    SameEvents(t, t');
    var st1 := Persist(st, st.disk.(tables := t'));
    assert NoGhosts(t', Working(st)) && DurableOk(st1.disk);
    var st2 := IndexDelete(st1, eventId);
    assert Working(st2) == Without(Working(st), eventId);
    assert DurableOk(st2.disk);
  }

  lemma DeleteEventOk(st: State, eventId: EventId, elapsed: bool)
    requires SessionOk(st)
    ensures var (st', res) := DeleteEvent(st, eventId, elapsed);
            && SessionOk(st')
            && (st.added < COMMIT_RATE ==> st'.added < COMMIT_RATE)
            && st'.queue == st.queue && st'.loaded == st.loaded
            && (res.Failure? ==> st' == st)
            && (res.Success? ==> Working(st') == Without(Working(st), eventId))
  {
    match DeleteEventsById(st.disk.tables, eventId)
    case Failure(_) =>
    case Success(t) =>
      DeleteRowsOk(st, eventId);
      var st1 := DeleteRows(st, t, eventId);
      CommitHelperOk(st1, false, elapsed);
      MarkDeletedOk(CommitHelper(st1, false, elapsed).0);
  }

  // ----- Replay -----

  lemma ReplayUncommittedOk(st: State, uids: seq<int>)
    requires SessionOk(st) && IdSet(uids) == JoinedUncommitted(st.disk.tables)
    ensures var st' := ReplayUncommitted(st, uids);
            && SessionOk(st') && st'.disk == st.disk
            && Working(st') == Working(st) + ReplayDocs(st.disk.tables, uids)
            && st.disk.tables.uncommitted.Keys == IdSet(uids)
  {
    JoinDropsNoRow(st.disk.tables);
    assert forall i | 0 <= i < |uids| :: uids[i] in IdSet(uids) && uids[i] in st.disk.tables.uncommitted;
    AddDocsOk(st, ReplayDocs(st.disk.tables, uids));
    var st' := ReplayUncommitted(st, uids);
    assert Working(st') == Working(st) + ReplayDocs(st.disk.tables, uids);
    assert IdSet(st'.uncommitted) == IdSet(st.uncommitted) + IdSet(uids);
  }

  lemma LoadUnprocessedOk(st: State, uids: seq<int>, dids: seq<EventId>)
    requires SessionOk(st) && Lists(st.disk.tables, uids, dids)
    ensures var st' := LoadUnprocessed(st, uids, dids);
            && SessionOk(st') && st'.loaded && st'.queue == st.queue
            && st'.disk.tables == st.disk.tables
            && (forall d :: d in Working(st') <==>
                  d in Working(ReplayUncommitted(st, uids)) && d.ident.key.eventId !in st.disk.tables.pending)
  {
    ReplayUncommittedOk(st, uids);
    var st1 := ReplayUncommitted(st, uids);
    IndexDeletesOk(st1, dids);
    var st2 := IndexDeletes(st1, dids);
    var st' := LoadUnprocessed(st, uids, dids);
    assert Working(st') == Working(st2);
    assert forall x :: x in dids <==> x in EventIdSet(dids);
    assert EventIdSet(st'.deletions) == EventIdSet(st.deletions) + EventIdSet(dids);
    assert IdSet(st'.uncommitted) == IdSet(st.uncommitted) + IdSet(uids);
  }

  // ----- Messages -----

  lemma WriteQueuedOk(st: State, force: bool, elapsed: bool)
    requires SessionOk(st)
    ensures var (st', res) := WriteQueued(st, force, elapsed);
            && SessionOk(st') && st'.added < COMMIT_RATE && res.Success?
            && st'.queue == [] && st'.loaded == st.loaded
  {
    WriteEventsOk(st, st.queue, None, None, force, elapsed);
    var st1 := WriteEvents(st, st.queue, None, None, force, elapsed).0.(queue := []);
    assert Working(st1) == Working(st1.(queue := st.queue));
    assert SessionOk(st1);
    MarkDeletedOk(st1);
  }

  /** Every message keeps the invariant and the rate bound; in particular every
      state a crash can leave behind is sound and free of ghosts. */
  lemma HandleOk(st: State, m: Message, env: Env)
    requires SessionOk(st) && EnvFits(st, m, env)
    ensures SessionOk(Handle(st, m, env).0)
    ensures st.added < COMMIT_RATE ==> Handle(st, m, env).0.added < COMMIT_RATE
  {
    match m
    case Add(e, p) =>
      assert Working(Handle(st, m, env).0) == Working(st);
    case Write(force) =>
      if !st.loaded {
        LoadUnprocessedOk(st, env.uids, env.dids);
      }
      var st1 := if st.loaded then st else LoadUnprocessed(st, env.uids, env.dids);
      WriteQueuedOk(st1, force, env.elapsed);
    case Historic(newCheckpoint, oldCheckpoint, batch) =>
      WriteEventsOk(st, batch, newCheckpoint, oldCheckpoint, true, env.elapsed);
      MarkDeletedOk(WriteEvents(st, batch, newCheckpoint, oldCheckpoint, true, env.elapsed).0);
    case Delete(eventId) =>
      DeleteEventOk(st, eventId, env.elapsed);
    case ShutDown =>
      assert Working(Handle(st, m, env).0) == st.disk.docs;
  }
}
