/**
 Completeness: a stored event is in the committed index or is remembered as
 uncommitted, in every state a crash can leave behind. The one step that can
 break it is the replay at the start of a session, and it does so exactly when an
 event id is stored again while its deletion is still pending.
 */
module Completeness {
  import opened Wrappers
  import opened Events
  import opened Tables
  import opened Soundness
  import opened Protocol
  import opened Invariants

  ghost predicate Complete(t: Tables, docs: seq<Doc>) {
    forall r | r in t.events :: IsUncommitted(t, r) || RowIdent(t, r) in Idents(docs)
  }

  ghost predicate DurableComplete(d: Durable) {
    Complete(d.tables, d.docs)
  }

  /** Completeness of every durable state, with the inductive part: each row the
      process remembers has its exact document in the index already. */
  ghost predicate SessionComplete(st: State) {
    && DurableComplete(st.disk)
    && (forall d | d in st.log :: DurableComplete(d))
    && IdsBacked(st.disk.tables, st.uncommitted, Working(st))
  }

  /** No stored event has the id of a deletion that is still to be replayed. */
  ghost predicate Disjoint(t: Tables) {
    forall r | r in t.events :: t.events[r].eventId !in t.pending
  }

  /** The guard of the replay. */
  ghost predicate LoadSafe(st: State, m: Message) {
    m.Write? && !st.loaded ==> Disjoint(st.disk.tables)
  }

  lemma FreshComplete(d: Durable)
    requires DurableComplete(d)
    ensures SessionComplete(Fresh(d))
  {
  }

  lemma CompleteGrows(t: Tables, docs: seq<Doc>, more: seq<Doc>)
    requires Complete(t, docs)
    ensures Complete(t, docs + more)
  {
  }

  lemma CommitHelperComplete(st: State, force: bool, elapsed: bool)
    requires SessionOk(st) && SessionComplete(st)
    ensures SessionComplete(CommitHelper(st, force, elapsed).0)
  {
  }

  /** Dropping the rows the process remembers is safe once nothing waits in the index. */
  lemma MarkIndexedComplete(st: State)
    requires SessionOk(st) && SessionComplete(st) && st.pendingDocs == []
    ensures SessionComplete(MarkIndexed(st))
  {
    var t, t' := st.disk.tables, MarkIndexed(st).disk.tables;
    assert Working(st) == st.disk.docs;
    forall r | r in t'.events
      ensures IsUncommitted(t', r) || RowIdent(t', r) in Idents(st.disk.docs)
    {
      assert RowIdent(t', r) == RowIdent(t, r);
      if IsUncommitted(t, r) {
        var u :| u in t.uncommitted && t.uncommitted[u].eventRow == r;
        if u in st.uncommitted {
          assert ReplayDoc(t, u) in st.disk.docs;
        } else {
          assert u in t'.uncommitted;
        }
      }
    }
  }

  lemma MarkDeletedComplete(st: State)
    requires SessionOk(st) && SessionComplete(st)
    ensures SessionComplete(MarkDeleted(st))
  {
  }

  lemma StoreSavedComplete(st: State, batch: seq<Entry>, s: Saved,
    newCheckpoint: Option<CrawlerCheckpoint>, oldCheckpoint: Option<CrawlerCheckpoint>)
    requires SessionOk(st) && SessionComplete(st) && BatchSaved(st.disk.tables, batch, s)
    ensures SessionComplete(StoreSaved(st, s, newCheckpoint, oldCheckpoint))
  {
  }

  lemma WriteEventsComplete(st: State, batch: seq<Entry>,
    newCheckpoint: Option<CrawlerCheckpoint>, oldCheckpoint: Option<CrawlerCheckpoint>,
    force: bool, elapsed: bool)
    requires SessionOk(st) && SessionComplete(st)
    ensures SessionComplete(WriteEvents(st, batch, newCheckpoint, oldCheckpoint, force, elapsed).0)
  {
    var s := SaveEvents(st.disk.tables, batch);
    SaveEventsSound(st.disk.tables, batch);
    var st1 := StoreSaved(st, s, newCheckpoint, oldCheckpoint);
    StoreSavedOk(st, batch, s, newCheckpoint, oldCheckpoint);
    StoreSavedComplete(st, batch, s, newCheckpoint, oldCheckpoint);
    var (st2, flushed) := CommitHelper(st1, force, elapsed);
    CommitHelperOk(st1, force, elapsed);
    CommitHelperComplete(st1, force, elapsed);
    if force || flushed {
      MarkIndexedComplete(st2);
    }
  }

  /** Deleting the documents of an event id that no row has loses no row. */
  lemma CompleteWithout(t: Tables, docs: seq<Doc>, eventId: EventId)
    requires Complete(t, docs)
    requires forall r | r in t.events :: t.events[r].eventId != eventId
    ensures Complete(t, Without(docs, eventId))
  {
  }

  /** Right after its transaction a deletion has lost nothing that is still stored. */
  lemma DeletedTablesComplete(t: Tables, docs: seq<Doc>, eventId: EventId)
    requires Sound(t) && Complete(t, docs) && DeleteEventsById(t, eventId).Success?
    ensures var t' := DeleteEventsById(t, eventId).value;
            Complete(t'.(pending := t'.pending + {eventId}), docs)
  {
  }

  lemma DeletedTablesBacked(t: Tables, ids: seq<int>, docs: seq<Doc>, eventId: EventId)
    requires Sound(t) && IdsBacked(t, ids, docs) && DeleteEventsById(t, eventId).Success?
    ensures var t' := DeleteEventsById(t, eventId).value;
            IdsBacked(t'.(pending := t'.pending + {eventId}), ids, Without(docs, eventId))
  {
  }

  lemma DeleteRowsComplete(st: State, eventId: EventId)
    requires SessionOk(st) && SessionComplete(st) && DeleteEventsById(st.disk.tables, eventId).Success?
    ensures SessionComplete(DeleteRows(st, DeleteEventsById(st.disk.tables, eventId).value, eventId))
  {
    var t := st.disk.tables;
    var rows := DeleteEventsById(t, eventId).value;
    var st' := DeleteRows(st, rows, eventId);
    var t' := st'.disk.tables;
    DeleteRowsOk(st, eventId);
    DeletedTablesComplete(t, st.disk.docs, eventId);
    DeletedTablesBacked(t, st.uncommitted, Working(st), eventId);
    assert Complete(t', Without(Working(st), eventId)) by {
      CompleteGrows(t', st.disk.docs, st.pendingDocs);
      CompleteWithout(t', Working(st), eventId);
    }
  }

  lemma DeleteEventComplete(st: State, eventId: EventId, elapsed: bool)
    requires SessionOk(st) && SessionComplete(st)
    ensures SessionComplete(DeleteEvent(st, eventId, elapsed).0)
  {
    match DeleteEventsById(st.disk.tables, eventId)
    case Failure(_) =>
    case Success(t) =>
      var st1 := DeleteRows(st, t, eventId);
      DeleteRowsOk(st, eventId);
      DeleteRowsComplete(st, eventId);
      CommitHelperOk(st1, false, elapsed);
      CommitHelperComplete(st1, false, elapsed);
      MarkDeletedComplete(CommitHelper(st1, false, elapsed).0);
  }

  // ----- Replay -----

  lemma IndexDeleteComplete(st: State, eventId: EventId)
    requires SessionOk(st) && SessionComplete(st)
    requires forall r | r in st.disk.tables.events :: st.disk.tables.events[r].eventId != eventId
    ensures SessionComplete(IndexDelete(st, eventId))
  {
  }

  lemma {:induction false} IndexDeletesComplete(st: State, ids: seq<EventId>)
    requires SessionOk(st) && SessionComplete(st)
    requires forall r | r in st.disk.tables.events :: st.disk.tables.events[r].eventId !in ids
    ensures SessionComplete(IndexDeletes(st, ids))
    decreases |ids|
  {
    if ids == [] {
    } else {
      IndexDeleteOk(st, ids[0]);
      IndexDeleteComplete(st, ids[0]);
      assert forall x | x in ids[1..] :: x in ids;
      IndexDeletesComplete(IndexDelete(st, ids[0]), ids[1..]);
    }
  }

  lemma ReplayUncommittedComplete(st: State, uids: seq<int>)
    requires SessionOk(st) && SessionComplete(st) && IdSet(uids) == JoinedUncommitted(st.disk.tables)
    ensures SessionComplete(ReplayUncommitted(st, uids))
  {
    var t, st' := st.disk.tables, ReplayUncommitted(st, uids);
    ReplayUncommittedOk(st, uids);
    var docs := ReplayDocs(t, uids);
    forall u | u in st'.uncommitted
      ensures u in t.uncommitted && t.uncommitted[u].eventRow in t.events && ReplayDoc(t, u) in Working(st')
    {
      assert u in IdSet(uids);
      var i :| 0 <= i < |uids| && uids[i] == u;
      assert docs[i] == ReplayDoc(t, u);
    }
  }

  lemma LoadUnprocessedComplete(st: State, uids: seq<int>, dids: seq<EventId>)
    requires SessionOk(st) && SessionComplete(st)
    requires Lists(st.disk.tables, uids, dids) && Disjoint(st.disk.tables)
    ensures SessionComplete(LoadUnprocessed(st, uids, dids))
  {
    ReplayUncommittedOk(st, uids);
    ReplayUncommittedComplete(st, uids);
    assert forall x :: x in dids <==> x in EventIdSet(dids);
    IndexDeletesComplete(ReplayUncommitted(st, uids), dids);
    var st2 := IndexDeletes(ReplayUncommitted(st, uids), dids);
    assert Working(LoadUnprocessed(st, uids, dids)) == Working(st2);
  }

  // ----- Messages -----

  lemma WriteQueuedComplete(st: State, force: bool, elapsed: bool)
    requires SessionOk(st) && SessionComplete(st)
    ensures SessionComplete(WriteQueued(st, force, elapsed).0)
  {
    WriteEventsOk(st, st.queue, None, None, force, elapsed);
    WriteEventsComplete(st, st.queue, None, None, force, elapsed);
    var st0 := WriteEvents(st, st.queue, None, None, force, elapsed).0;
    var st1 := st0.(queue := []);
    assert Working(st1) == Working(st0);
    assert SessionOk(st1) && SessionComplete(st1);
    MarkDeletedComplete(st1);
  }

  /** Every message keeps completeness of all durable states, provided the replay
      finds no stored event among the pending deletions. */
  lemma HandleComplete(st: State, m: Message, env: Env)
    requires SessionOk(st) && SessionComplete(st) && EnvFits(st, m, env) && LoadSafe(st, m)
    ensures SessionComplete(Handle(st, m, env).0)
  {
    match m
    case Add(e, p) =>
      assert Working(Handle(st, m, env).0) == Working(st);
    case Write(force) =>
      if !st.loaded {
        LoadUnprocessedOk(st, env.uids, env.dids);
        LoadUnprocessedComplete(st, env.uids, env.dids);
      }
      var st1 := if st.loaded then st else LoadUnprocessed(st, env.uids, env.dids);
      WriteQueuedComplete(st1, force, env.elapsed);
    case Historic(newCheckpoint, oldCheckpoint, batch) =>
      WriteEventsOk(st, batch, newCheckpoint, oldCheckpoint, true, env.elapsed);
      WriteEventsComplete(st, batch, newCheckpoint, oldCheckpoint, true, env.elapsed);
      MarkDeletedComplete(WriteEvents(st, batch, newCheckpoint, oldCheckpoint, true, env.elapsed).0);
    case Delete(eventId) =>
      DeleteEventComplete(st, eventId, env.elapsed);
    case ShutDown =>
  }

  // ----- A forced write settles the two stores -----

  /** Both bookkeeping tables are empty and nothing waits in the index, even when
      the index commit was skipped because nothing had been added. */
  lemma ForcedWriteSettles(st: State, elapsed: bool)
    requires SessionOk(st) && st.loaded
    ensures var st' := WriteQueued(st, true, elapsed).0;
            && st'.disk.tables.uncommitted.Keys == {}
            && st'.disk.tables.pending == {}
            && st'.pendingDocs == []
            && st'.disk.docs == Working(st) + SaveEvents(st.disk.tables, st.queue).docs
  {
    WriteQueuedOk(st, true, elapsed);
    WriteEventsOk(st, st.queue, None, None, true, elapsed);
    var st1 := WriteEvents(st, st.queue, None, None, true, elapsed).0.(queue := []);
    var st' := WriteQueued(st, true, elapsed).0;
    assert st1.uncommitted == [];
    assert st'.uncommitted == [] && st'.deletions == [];
    assert Working(st') == st'.disk.docs;
    assert st'.disk.docs == st1.disk.docs;
    assert Working(st1) == st1.disk.docs;
  }

  /** Settled stores agree on every field of every document. */
  lemma SettledStoresAgree(st: State)
    requires SessionOk(st) && st.pendingDocs == []
    requires st.disk.tables.uncommitted.Keys == {} && st.disk.tables.pending == {}
    ensures Complete(st.disk.tables, st.disk.docs) <==> Idents(st.disk.docs) == RowIdents(st.disk.tables)
  {
  }

  /** Convergence: one forced write makes the committed index hold exactly the
      stored events, with nothing left to do. */
  lemma ForcedWriteConverges(st: State, env: Env)
    requires SessionOk(st) && SessionComplete(st)
    requires EnvFits(st, Write(true), env) && LoadSafe(st, Write(true))
    ensures var d := Handle(st, Write(true), env).0.disk;
            && Idents(d.docs) == RowIdents(d.tables)
            && d.tables.uncommitted.Keys == {}
            && d.tables.pending == {}
  {
    HandleOk(st, Write(true), env);
    HandleComplete(st, Write(true), env);
    if !st.loaded {
      LoadUnprocessedOk(st, env.uids, env.dids);
    }
    var st1 := if st.loaded then st else LoadUnprocessed(st, env.uids, env.dids);
    ForcedWriteSettles(st1, env.elapsed);
    SettledStoresAgree(Handle(st, Write(true), env).0);
  }

  /** Only the transaction of a write touches the stored events, the rooms, the
      pending deletions and the checkpoints. */
  lemma {:induction false} WriteEventsRows(st: State, batch: seq<Entry>, s: Saved,
    newCheckpoint: Option<CrawlerCheckpoint>, oldCheckpoint: Option<CrawlerCheckpoint>,
    force: bool, elapsed: bool)
    requires s == SaveEvents(st.disk.tables, batch) && s.error.None?
    ensures var (st', res) := WriteEvents(st, batch, newCheckpoint, oldCheckpoint, force, elapsed);
            var t := StoreSaved(st, s, newCheckpoint, oldCheckpoint).disk.tables;
            && st'.disk.tables == t.(uncommitted := st'.disk.tables.uncommitted)
            && res.Success? && res.value.0 == s.allStored
  {
  }

  /** A write stores the batch: its keys are added to those that were there. */
  lemma WriteEventsKeys(st: State, batch: seq<Entry>,
    newCheckpoint: Option<CrawlerCheckpoint>, oldCheckpoint: Option<CrawlerCheckpoint>,
    force: bool, elapsed: bool)
    requires Sound(st.disk.tables)
    ensures var t' := WriteEvents(st, batch, newCheckpoint, oldCheckpoint, force, elapsed).0.disk.tables;
            && Keys(t') == Keys(st.disk.tables) + BatchKeys(batch)
            && t'.pending == st.disk.tables.pending
  {
    var s := SaveEvents(st.disk.tables, batch);
    SaveEventsSound(st.disk.tables, batch);
    WriteEventsRows(st, batch, s, newCheckpoint, oldCheckpoint, force, elapsed);
    SameEvents(s.tables, WriteEvents(st, batch, newCheckpoint, oldCheckpoint, force, elapsed).0.disk.tables);
  }

  /** A document of an earlier row that is not in the index is not brought back. */
  lemma OldRowNotWritten(st: State, elapsed: bool, r: int)
    requires SessionOk(st) && st.loaded && r in st.disk.tables.events
    requires forall d | d in Working(st) :: d.ident != RowIdent(st.disk.tables, r)
    ensures !DurableComplete(WriteQueued(st, true, elapsed).0.disk)
  {
    var t, d := st.disk.tables, WriteQueued(st, true, elapsed).0.disk;
    ForcedWriteSettles(st, elapsed);
    var s := SaveEvents(t, st.queue);
    SaveEventsSound(t, st.queue);
    RowIdentStable(t, s.tables, r);
    WriteEventsRows(st, st.queue, s, None, None, true, elapsed);
    assert RowIdent(d.tables, r) == RowIdent(t, r);
    assert RowIdent(t, r).key in Keys(t);
    assert !IsUncommitted(d.tables, r) by {
      assert forall u :: u !in d.tables.uncommitted.Keys;
    }
  }

  /** A stored event whose deletion is pending loses its document for good. */
  lemma UnsafeReplayLoses(st: State, env: Env, r: int)
    requires SessionOk(st) && EnvFits(st, Write(true), env) && !st.loaded
    requires r in st.disk.tables.events && st.disk.tables.events[r].eventId in st.disk.tables.pending
    ensures !DurableComplete(Handle(st, Write(true), env).0.disk)
  {
    LoadUnprocessedOk(st, env.uids, env.dids);
    OldRowNotWritten(LoadUnprocessed(st, env.uids, env.dids), env.elapsed, r);
  }

  /** Exactly when a forced write ends complete: iff the replay was safe. */
  lemma ForcedWriteCompleteIff(st: State, env: Env)
    requires SessionOk(st) && SessionComplete(st) && EnvFits(st, Write(true), env)
    ensures DurableComplete(Handle(st, Write(true), env).0.disk) <==> LoadSafe(st, Write(true))
  {
    if LoadSafe(st, Write(true)) {
      HandleComplete(st, Write(true), env);
    } else {
      var r :| r in st.disk.tables.events && st.disk.tables.events[r].eventId in st.disk.tables.pending;
      UnsafeReplayLoses(st, env, r);
    }
  }
}
