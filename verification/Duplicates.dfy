/**
 When the index holds an event twice: documents are added at least once, and exactly
 when a session replays an event that is in the index already they are added again.
 */
module Duplicates {
  import opened Wrappers
  import opened Events
  import opened Sequences
  import opened Tables
  import opened Soundness
  import opened Protocol
  import opened Invariants
  import opened Completeness
  import opened Runs

  function Count(docs: seq<Doc>, k: Key): nat {
    if docs == [] then 0 else (if docs[0].ident.key == k then 1 else 0) + Count(docs[1..], k)
  }

  /** No event is indexed twice. */
  ghost predicate Unique(docs: seq<Doc>) {
    forall k :: Count(docs, k) <= 1
  }

  lemma {:induction false} CountConcat(a: seq<Doc>, b: seq<Doc>, k: Key)
    ensures Count(a + b, k) == Count(a, k) + Count(b, k)
  {
    if a == [] {
      assert a + b == b;
    } else {
      assert (a + b)[1..] == a[1..] + b;
      CountConcat(a[1..], b, k);
    }
  }

  lemma {:induction false} CountWithout(docs: seq<Doc>, eventId: EventId, k: Key)
    ensures Count(Without(docs, eventId), k) == if k.eventId == eventId then 0 else Count(docs, k)
  {
    if docs == [] {
    } else {
      var rest := Without(docs[1..], eventId);
      CountWithout(docs[1..], eventId, k);
      assert ([docs[0]] + rest)[1..] == rest;
    }
  }

  lemma {:induction false} CountPositive(docs: seq<Doc>, k: Key)
    ensures Count(docs, k) > 0 <==> exists d :: d in docs && d.ident.key == k
  {
    if docs == [] {
    } else {
      CountPositive(docs[1..], k);
      assert forall d :: d in docs <==> d == docs[0] || d in docs[1..];
    }
  }

  /** Counting says the same as comparing every two documents. */
  lemma {:induction false} UniqueIffDistinctKeys(docs: seq<Doc>)
    ensures Unique(docs) <==> forall i, j | 0 <= i < j < |docs| :: docs[i].ident.key != docs[j].ident.key
  {
    if docs == [] {
    } else {
      var rest := docs[1..];
      UniqueIffDistinctKeys(rest);
      CountPositive(rest, docs[0].ident.key);
      assert docs == [docs[0]] + rest;
      if Unique(docs) {
        forall k
          ensures Count(rest, k) <= 1
        {
          assert Count(docs, k) <= 1;
        }
        assert Count(docs, docs[0].ident.key) <= 1;
      }
      if forall i, j | 0 <= i < j < |docs| :: docs[i].ident.key != docs[j].ident.key {
        assert forall i | 0 <= i < |rest| :: rest[i] == docs[i + 1];
        forall k
          ensures Count(docs, k) <= 1
        {
          assert Count(rest, k) <= 1;
        }
      }
    }
  }

  // ----- What each step adds -----

  lemma PrependCount(first: Option<int>, d: Doc, rest: Saved, k: Key)
    ensures Count(Prepend(first, d, rest).docs, k)
         == Count(rest.docs, k) + if first.Some? && d.ident.key == k then 1 else 0
  {
    assert ([d] + rest.docs)[1..] == rest.docs;
  }

  /** A batch hands over each new event once. */
  lemma {:induction false} SavedCount(t: Tables, batch: seq<Entry>, k: Key)
    requires Sound(t)
    ensures Count(SaveEvents(t, batch).docs, k) <= if k in Keys(t) then 0 else 1
    decreases |batch|
  {
    if batch == [] {
    } else {
      var (e, p) := batch[0];
      var (t1, res) := SaveEvent(t, e, p);
      SaveEventSound(t, e, p);
      SavedCount(t1, batch[1..], k);
      PrependCount(res.value, DocOf(e), SaveEvents(t1, batch[1..]), k);
      if res.value.Some? {
        StoredKeys(t, t1, e, res.value.value);
      } else {
        SameKeys(t, t1);
      }
    }
  }

  lemma SameKeys(t: Tables, t': Tables)
    requires Sound(t) && Extends(t, t') && t'.events == t.events
    ensures Keys(t') == Keys(t)
  {
    forall r | r in t.events
      ensures RowIdent(t', r) == RowIdent(t, r)
    {
      RowIdentStable(t, t', r);
    }
  }

  /** An uncommitted row stands for an event. */
  ghost predicate WaitsFor(t: Tables, u: int, k: Key) {
    u in t.uncommitted && t.uncommitted[u].eventRow in t.events && ReplayDoc(t, u).ident.key == k
  }

  lemma WaitsForOne(t: Tables, u: int, v: int, k: Key)
    requires Sound(t)
    ensures WaitsFor(t, u, k) && WaitsFor(t, v, k) ==> u == v
  {
    if WaitsFor(t, u, k) && WaitsFor(t, v, k) {
      var r, s := t.uncommitted[u].eventRow, t.uncommitted[v].eventRow;
      assert t.events[r].roomId == t.events[s].roomId;
    }
  }

  /** Replay adds each waiting event once. */
  lemma {:induction false} ReplayCount(t: Tables, uids: seq<int>, k: Key)
    requires Sound(t) && NoRepeat(uids)
    requires forall i | 0 <= i < |uids| :: uids[i] in t.uncommitted && t.uncommitted[uids[i]].eventRow in t.events
    ensures Count(ReplayDocs(t, uids), k) == if exists u :: u in uids && WaitsFor(t, u, k) then 1 else 0
  {
    if uids == [] {
    } else {
      var rest := uids[1..];
      assert forall i | 0 <= i < |rest| :: rest[i] == uids[i + 1];
      NoRepeatCons(uids);
      ReplayCount(t, rest, k);
      assert ReplayDocs(t, uids)[1..] == ReplayDocs(t, rest);
      assert forall u :: u in uids <==> u == uids[0] || u in rest;
      if WaitsFor(t, uids[0], k) {
        forall u | u in rest
          ensures !WaitsFor(t, u, k)
        {
          WaitsForOne(t, u, uids[0], k);
        }
      }
    }
  }

  lemma {:induction false} IndexDeletesCount(st: State, ids: seq<EventId>, k: Key)
    ensures Count(Working(IndexDeletes(st, ids)), k) == if k.eventId in ids then 0 else Count(Working(st), k)
    decreases |ids|
  {
    if ids == [] {
    } else {
      var st1 := IndexDelete(st, ids[0]);
      assert Working(st1) == Without(Working(st), ids[0]);
      CountWithout(Working(st), ids[0], k);
      IndexDeletesCount(st1, ids[1..], k);
      assert k.eventId in ids <==> k.eventId == ids[0] || k.eventId in ids[1..];
    }
  }

  // ----- Exactly when a message leaves a duplicate -----

  /** Some event waits for the index although the index has it. */
  ghost predicate Stale(t: Tables, docs: seq<Doc>) {
    exists u, k :: WaitsFor(t, u, k) && Count(docs, k) > 0
  }

  /** The guard of the replay. */
  ghost predicate ReplayFresh(st: State, m: Message) {
    m.Write? && !st.loaded ==> !Stale(st.disk.tables, Working(st))
  }

  lemma LoadCount(st: State, uids: seq<int>, dids: seq<EventId>, k: Key)
    requires SessionOk(st) && Lists(st.disk.tables, uids, dids)
    ensures Count(Working(LoadUnprocessed(st, uids, dids)), k)
         == if k.eventId in st.disk.tables.pending then 0
            else Count(Working(st), k) + if exists u :: WaitsFor(st.disk.tables, u, k) then 1 else 0
  {
    var t, st1 := st.disk.tables, ReplayUncommitted(st, uids);
    ReplayUncommittedOk(st, uids);
    assert forall u :: u in uids <==> u in IdSet(uids);
    ReplayCount(t, uids, k);
    CountConcat(Working(st), ReplayDocs(t, uids), k);
    IndexDeletesCount(st1, dids, k);
    assert Working(LoadUnprocessed(st, uids, dids)) == Working(IndexDeletes(st1, dids));
    assert k.eventId in dids <==> k.eventId in EventIdSet(dids);
  }

  lemma LoadUniqueIff(st: State, uids: seq<int>, dids: seq<EventId>)
    requires SessionOk(st) && Lists(st.disk.tables, uids, dids) && Disjoint(st.disk.tables)
    requires Unique(Working(st))
    ensures Unique(Working(LoadUnprocessed(st, uids, dids))) <==> !Stale(st.disk.tables, Working(st))
  {
    var t, st' := st.disk.tables, LoadUnprocessed(st, uids, dids);
    if Stale(t, Working(st)) {
      var u, k :| WaitsFor(t, u, k) && Count(Working(st), k) > 0;
      LoadCount(st, uids, dids, k);
      assert Count(Working(st'), k) > 1;
    } else {
      forall k
        ensures Count(Working(st'), k) <= 1
      {
        LoadCount(st, uids, dids, k);
        assert Count(Working(st), k) <= 1;
      }
    }
  }

  /** An event that is not stored has no document, unless its id is pending deletion. */
  lemma NotStoredNotIndexed(t: Tables, docs: seq<Doc>, k: Key)
    requires NoGhosts(t, docs) && k !in Keys(t) && k.eventId !in t.pending
    ensures Count(docs, k) == 0
  {
    CountPositive(docs, k);
  }

  lemma {:induction false} SavedFromBatch(t: Tables, batch: seq<Entry>, k: Key)
    requires Sound(t) && Count(SaveEvents(t, batch).docs, k) > 0
    ensures k in BatchKeys(batch)
    decreases |batch|
  {
    var (e, p) := batch[0];
    var (t1, res) := SaveEvent(t, e, p);
    SaveEventSound(t, e, p);
    assert BatchKeys(batch[1..]) <= BatchKeys(batch) && batch[0] in batch;
    PrependCount(res.value, DocOf(e), SaveEvents(t1, batch[1..]), k);
    if Count(SaveEvents(t1, batch[1..]).docs, k) > 0 {
      SavedFromBatch(t1, batch[1..], k);
    }
  }

  /** A clean write adds no duplicate, and removes none. */
  lemma SavedUniqueIff(t: Tables, docs: seq<Doc>, batch: seq<Entry>)
    requires Sound(t) && NoGhosts(t, docs) && CleanBatch(t, batch)
    ensures Unique(docs + SaveEvents(t, batch).docs) <==> Unique(docs)
  {
    var more := SaveEvents(t, batch).docs;
    forall k
      ensures Count(docs + more, k) == Count(docs, k) + Count(more, k)
      ensures Count(more, k) <= 1 && (Count(more, k) > 0 ==> Count(docs, k) == 0)
    {
      CountConcat(docs, more, k);
      SavedCount(t, batch, k);
      if Count(more, k) > 0 {
        SavedFromBatch(t, batch, k);
        var x :| x in batch && KeyOf(x.0) == k;
        NotStoredNotIndexed(t, docs, k);
      }
    }
    if Unique(docs) {
      forall k
        ensures Count(docs + more, k) <= 1
      {
        assert Count(docs, k) <= 1;
      }
    }
    if Unique(docs + more) {
      forall k
        ensures Count(docs, k) <= 1
      {
        assert Count(docs + more, k) <= 1;
      }
    }
  }

  /** No event is indexed twice, for this process and in every durable state. */
  ghost predicate AllUnique(st: State) {
    Unique(Working(st)) && Unique(st.disk.docs) && forall d | d in st.log :: Unique(d.docs)
  }

  lemma CommitStepsUnique(st: State, force: bool, elapsed: bool)
    requires AllUnique(st)
    ensures AllUnique(CommitHelper(st, force, elapsed).0)
    ensures AllUnique(MarkIndexed(st)) && Working(MarkIndexed(st)) == Working(st)
    ensures AllUnique(MarkDeleted(st)) && Working(MarkDeleted(st)) == Working(st)
  {
    assert Working(st) + [] == Working(st);
  }

  lemma IndexDeleteUnique(st: State, eventId: EventId)
    requires AllUnique(st)
    ensures AllUnique(IndexDelete(st, eventId))
  {
    var st' := IndexDelete(st, eventId);
    assert Working(st') == st'.disk.docs == Without(Working(st), eventId);
    forall k
      ensures Count(Without(Working(st), eventId), k) <= 1
    {
      CountWithout(Working(st), eventId, k);
      assert Count(Working(st), k) <= 1;
    }
  }

  lemma {:induction false} IndexDeletesUnique(st: State, ids: seq<EventId>)
    requires AllUnique(st)
    ensures AllUnique(IndexDeletes(st, ids))
    decreases |ids|
  {
    if ids == [] {
    } else {
      IndexDeleteUnique(st, ids[0]);
      IndexDeletesUnique(IndexDelete(st, ids[0]), ids[1..]);
    }
  }

  lemma WriteEventsUnique(st: State, batch: seq<Entry>,
    newCheckpoint: Option<CrawlerCheckpoint>, oldCheckpoint: Option<CrawlerCheckpoint>,
    force: bool, elapsed: bool)
    requires SessionOk(st) && CleanBatch(st.disk.tables, batch)
    ensures var st' := WriteEvents(st, batch, newCheckpoint, oldCheckpoint, force, elapsed).0;
            && (Unique(Working(st')) <==> Unique(Working(st)))
            && (AllUnique(st) ==> AllUnique(st'))
  {
    WriteEventsOk(st, batch, newCheckpoint, oldCheckpoint, force, elapsed);
    SavedUniqueIff(st.disk.tables, Working(st), batch);
    SaveEventsSound(st.disk.tables, batch);
    if AllUnique(st) {
      FinishUnique(st, SaveEvents(st.disk.tables, batch), newCheckpoint, oldCheckpoint, force, elapsed);
    }
  }

  lemma FinishUnique(st: State, s: Saved,
    newCheckpoint: Option<CrawlerCheckpoint>, oldCheckpoint: Option<CrawlerCheckpoint>,
    force: bool, elapsed: bool)
    requires AllUnique(st) && Unique(Working(st) + s.docs) && s.error.None?
    ensures AllUnique(FinishWrite(st, s, newCheckpoint, oldCheckpoint, force, elapsed).0)
  {
    var st1 := StoreSaved(st, s, newCheckpoint, oldCheckpoint);
    assert Working(st1) == Working(st) + s.docs;
    CommitStepsUnique(st1, force, elapsed);
    CommitStepsUnique(CommitHelper(st1, force, elapsed).0, force, elapsed);
  }

  lemma SettleUnique(st: State, res: Result<(bool, bool), SqlError>)
    ensures Working(Settle(st, res)) == Working(st)
    ensures AllUnique(st) ==> AllUnique(Settle(st, res))
  {
  }

  lemma WriteQueuedUnique(st: State, force: bool, elapsed: bool)
    requires SessionOk(st) && CleanBatch(st.disk.tables, st.queue)
    ensures var st' := WriteQueued(st, force, elapsed).0;
            && (Unique(Working(st')) <==> Unique(Working(st)))
            && (AllUnique(st) ==> AllUnique(st'))
  {
    WriteEventsUnique(st, st.queue, None, None, force, elapsed);
    var (st1, res) := WriteEvents(st, st.queue, None, None, force, elapsed);
    assert Working(st1.(queue := [])) == Working(st1);
    SettleUnique(st1.(queue := []), res);
  }

  lemma WriteHistoricUnique(st: State, m: Message, elapsed: bool)
    requires m.Historic? && SessionOk(st) && CleanBatch(st.disk.tables, m.batch)
    ensures var st' := WriteHistoric(st, m.newCheckpoint, m.oldCheckpoint, m.batch, elapsed).0;
            && (Unique(Working(st')) <==> Unique(Working(st)))
            && (AllUnique(st) ==> AllUnique(st'))
  {
    WriteEventsUnique(st, m.batch, m.newCheckpoint, m.oldCheckpoint, true, elapsed);
    var (st1, res) := WriteEvents(st, m.batch, m.newCheckpoint, m.oldCheckpoint, true, elapsed);
    SettleUnique(st1, res);
  }

  lemma DeleteEventUnique(st: State, eventId: EventId, elapsed: bool)
    requires AllUnique(st)
    ensures AllUnique(Protocol.DeleteEvent(st, eventId, elapsed).0)
  {
    match DeleteEventsById(st.disk.tables, eventId)
    case Failure(_) =>
    case Success(t) =>
      var st1 := Persist(st, st.disk.(tables := t.(pending := t.pending + {eventId})));
      assert Working(st1) == Working(st);
      IndexDeleteUnique(st1, eventId);
      var st2 := DeleteRows(st, t, eventId);
      assert Working(st2) == Working(IndexDelete(st1, eventId));
      CommitStepsUnique(st2, false, elapsed);
      CommitStepsUnique(CommitHelper(st2, false, elapsed).0, false, elapsed);
  }

  lemma LoadUnique(st: State, uids: seq<int>, dids: seq<EventId>)
    requires SessionOk(st) && Lists(st.disk.tables, uids, dids) && Disjoint(st.disk.tables)
    requires AllUnique(st) && !Stale(st.disk.tables, Working(st))
    ensures AllUnique(LoadUnprocessed(st, uids, dids))
  {
    var st1 := ReplayUncommitted(st, uids);
    ReplayUncommittedOk(st, uids);
    forall k
      ensures Count(Working(st1), k) <= 1
    {
      assert forall u :: u in uids <==> u in IdSet(uids);
      ReplayCount(st.disk.tables, uids, k);
      CountConcat(Working(st), ReplayDocs(st.disk.tables, uids), k);
      assert Count(Working(st), k) <= 1;
    }
    IndexDeletesUnique(st1, dids);
    assert Working(LoadUnprocessed(st, uids, dids)) == Working(IndexDeletes(st1, dids));
  }

  /** A clean message keeps every durable state free of duplicates if its replay does
      not meet an event that waits for the index although the index has it. */
  lemma HandleUnique(st: State, m: Message, env: Env)
    requires SessionOk(st) && EnvFits(st, m, env) && Disjoint(st.disk.tables) && CleanMessage(st, m)
    requires AllUnique(st) && ReplayFresh(st, m)
    ensures AllUnique(Handle(st, m, env).0)
  {
    match m
    case Add(_, _) =>
      assert Working(Handle(st, m, env).0) == Working(st);
    case Write(force) =>
      if st.loaded {
        WriteQueuedUnique(st, force, env.elapsed);
      } else {
        LoadUnprocessedOk(st, env.uids, env.dids);
        LoadUnique(st, env.uids, env.dids);
        WriteQueuedUnique(LoadUnprocessed(st, env.uids, env.dids), force, env.elapsed);
      }
    case Historic(_, _, _) =>
      WriteHistoricUnique(st, m, env.elapsed);
    case Delete(eventId) =>
      DeleteEventUnique(st, eventId, env.elapsed);
    case ShutDown =>
      assert Working(Handle(st, m, env).0) == st.disk.docs;
  }

  /** Exactly when a clean message leaves the index free of duplicates. */
  lemma HandleUniqueIff(st: State, m: Message, env: Env)
    requires SessionOk(st) && EnvFits(st, m, env) && Disjoint(st.disk.tables) && CleanMessage(st, m)
    requires AllUnique(st)
    ensures Unique(Working(Handle(st, m, env).0)) <==> ReplayFresh(st, m)
  {
    if ReplayFresh(st, m) {
      HandleUnique(st, m, env);
    } else {
      LoadUnprocessedOk(st, env.uids, env.dids);
      LoadUniqueIff(st, env.uids, env.dids);
      WriteQueuedUnique(LoadUnprocessed(st, env.uids, env.dids), m.force, env.elapsed);
    }
  }

  // ----- Whole runs -----

  /** Every session of the run that writes begins on a store that is not stale. */
  ghost predicate FreshReplays(st: State, acts: seq<Action>)
    requires Run(st, acts)
    decreases |acts|
  {
    acts == [] || (ReplayFresh(st, acts[0].message) && FreshReplays(Step(st, acts[0]), acts[1..]))
  }

  lemma StepUnique(st: State, a: Action)
    requires Safe(st) && Enabled(st, a) && Disjoint(st.disk.tables) && CleanMessage(st, a.message)
    requires AllUnique(st) && ReplayFresh(st, a.message)
    ensures AllUnique(Step(st, a))
  {
    assert Working(Blank(st)) == Working(st);
    HandleUnique(Blank(st), a.message, a.env);
    if a.CrashIn? {
      var d := Step(st, a).disk;
      assert d.docs + [] == d.docs;
    }
  }

  /** A clean run whose replays are fresh never indexes an event twice, in no state that
      a crash may leave behind. */
  lemma {:induction false} RunUnique(st: State, acts: seq<Action>)
    requires Safe(st) && Disjoint(st.disk.tables) && Run(st, acts) && Clean(st, acts)
    requires AllUnique(st) && FreshReplays(st, acts)
    ensures AllUnique(Exec(st, acts))
    decreases |acts|
  {
    if acts == [] {
    } else {
      StepSafe(st, acts[0]);
      StepDisjoint(st, acts[0]);
      StepUnique(st, acts[0]);
      RunUnique(Step(st, acts[0]), acts[1..]);
    }
  }
}
