/**
 Two runs that index an event twice: one with a crash between an index commit and its
 bookkeeping, and one without any crash, in which a deletion commits the index.
 */
module IndexedTwice {
  import opened Wrappers
  import opened Events
  import opened Sequences
  import opened Tables
  import opened Soundness
  import opened Protocol
  import opened Invariants
  import opened Completeness
  import opened Runs
  import LostEvent

  /** The tables after one event was saved into an empty store, and its waiting row. */
  function OneTable(e: Event, p: Profile): Tables {
    SaveEvent(EMPTY_TABLES, e, p).0
  }

  lemma SaveOne(e: Event, p: Profile) returns (u: int)
    ensures SaveEvents(EMPTY_TABLES, [(e, p)]) == Saved(OneTable(e, p), [u], [DocOf(e)], false, None)
    ensures var t := OneTable(e, p);
            && Sound(t) && t.pending == {} && t.uncommitted.Keys == {u}
            && t.uncommitted[u].eventRow in t.events && ReplayDoc(t, u) == DocOf(e)
            && Keys(t) == {KeyOf(e)}
  {
    var t := EMPTY_TABLES;
    var (t1, res) := SaveEvent(t, e, p);
    SaveEventSound(t, e, p);
    u := res.value.value;
    StoredKeys(t, t1, e, u);
    SaveSingle(t, e, p, t1, u);
  }

  lemma SaveSingle(t: Tables, e: Event, p: Profile, t1: Tables, u: int)
    requires SaveEvent(t, e, p) == (t1, Success(Some(u)))
    ensures SaveEvents(t, [(e, p)]) == Saved(t1, [u], [DocOf(e)], false, None)
  {
    assert [(e, p)][1..] == [];
    assert SaveEvents(t1, []) == Saved(t1, [], [], true, None);
    assert [u] + [] == [u] && [DocOf(e)] + [] == [DocOf(e)];
  }

  /** A session that has not replayed, on a store in which one event waits for the index
      although the index has it. */
  ghost predicate HasAndWaits(st: State, d: Doc, u: int) {
    && SessionOk(st) && !st.loaded && st.queue == [] && st.pendingDocs == [] && st.disk.docs == [d]
    && st.disk.tables.uncommitted.Keys == {u}
    && st.disk.tables.uncommitted[u].eventRow in st.disk.tables.events && ReplayDoc(st.disk.tables, u) == d
    && d.ident.key.eventId !in st.disk.tables.pending
  }

  lemma {:induction false} OtherDeletions(st: State, ids: seq<EventId>)
    requires forall d | d in Working(st) :: d.ident.key.eventId !in ids
    ensures Working(IndexDeletes(st, ids)) == Working(st)
    decreases |ids|
  {
    if ids == [] {
    } else {
      WithoutNone(Working(st), ids[0]);
      var st1 := IndexDelete(st, ids[0]);
      assert Working(st1) == Working(st);
      OtherDeletions(st1, ids[1..]);
    }
  }

  lemma {:induction false} WithoutNone(docs: seq<Doc>, eventId: EventId)
    requires forall d | d in docs :: d.ident.key.eventId != eventId
    ensures Without(docs, eventId) == docs
  {
    if docs == [] {
    } else {
      assert docs[0] in docs;
      WithoutNone(docs[1..], eventId);
    }
  }

  lemma ReplayAddsAgain(st: State, d: Doc, u: int, dids: seq<EventId>)
    requires HasAndWaits(st, d, u) && EventIdSet(dids) == st.disk.tables.pending && NoRepeat(dids)
    ensures Lists(st.disk.tables, [u], dids)
    ensures Working(LoadUnprocessed(st, [u], dids)) == [d, d]
  {
    JoinDropsNoRow(st.disk.tables);
    assert IdSet([u]) == {u};
    ReplayUncommittedOk(st, [u]);
    var st1 := ReplayUncommitted(st, [u]);
    assert ReplayDocs(st.disk.tables, [u]) == [d];
    assert Working(st1) == [d, d];
    assert forall x | x in dids :: x in EventIdSet(dids);
    OtherDeletions(st1, dids);
    assert Working(LoadUnprocessed(st, [u], dids)) == Working(IndexDeletes(st1, dids));
  }

  /** The next forced write of such a session indexes the event a second time. */
  lemma WriteIndexesTwice(st: State, d: Doc, u: int, dids: seq<EventId>)
    requires HasAndWaits(st, d, u) && EventIdSet(dids) == st.disk.tables.pending && NoRepeat(dids)
    ensures var env := Env(false, [u], dids);
            EnvFits(st, Write(true), env) && Handle(st, Write(true), env).0.disk.docs == [d, d]
  {
    ReplayAddsAgain(st, d, u, dids);
    LoadUnprocessedOk(st, [u], dids);
    var st1 := LoadUnprocessed(st, [u], dids);
    ForcedWriteSettles(st1, false);
    assert SaveEvents(st1.disk.tables, st1.queue).docs == [];
    assert [d, d] + [] == [d, d];
  }

  // ----- With a crash -----

  const QUIET: Env := Env(false, [], [])

  function CrashedRun(e: Event, p: Profile): seq<Action> {
    [Process(Add(e, p), QUIET)] + ([CrashIn(Write(true), QUIET, 2)] + [])
  }

  /** After the transaction of a write the event is stored and its document pending. */
  function Written(e: Event, p: Profile, u: int): State {
    var d := Durable(OneTable(e, p), []);
    State(d, [d], [DocOf(e)], 1, [], [u], [], true)
  }

  /** The first durable states of a forced write of one event into an empty store. */
  lemma FirstCommits(st: State, e: Event, p: Profile)
    requires st == Fresh(EMPTY).(queue := [(e, p)])
    ensures EnvFits(st, Write(true), QUIET)
    ensures var log := Handle(st, Write(true), QUIET).0.log;
            |log| >= 2 && log[1] == Durable(OneTable(e, p), [DocOf(e)])
  {
    var t := OneTable(e, p);
    var u := SaveOne(e, p);
    assert JoinedUncommitted(EMPTY_TABLES) == {} == IdSet([]);
    var st1 := LoadUnprocessed(st, [], []);
    assert st1 == st.(loaded := true);
    var st2 := Written(e, p, u).(queue := st.queue);
    assert StoreSaved(st1, SaveEvents(EMPTY_TABLES, st.queue), None, None) == st2;
    CommitsWritten(st2, t, DocOf(e));
    var st3 := CommitHelper(st2, true, false).0;
    LogGrows(st3);
    assert WriteEvents(st1, st.queue, None, None, true, false).0 == MarkIndexed(st3);
    LogGrows(MarkIndexed(st3).(queue := []));
  }

  lemma CommitsWritten(st: State, t: Tables, d: Doc)
    requires st.disk == Durable(t, []) && st.log == [Durable(t, [])] && st.pendingDocs == [d] && st.added == 1
    ensures CommitHelper(st, true, false).0.log == [Durable(t, []), Durable(t, [d])]
  {
    assert [] + [d] == [d];
  }

  lemma LogGrows(st: State)
    ensures st.log <= MarkIndexed(st).log && st.log <= MarkDeleted(st).log
  {
  }

  lemma CrashedRunEnds(e: Event, p: Profile)
    ensures Run(Fresh(EMPTY), CrashedRun(e, p))
    ensures Exec(Fresh(EMPTY), CrashedRun(e, p)) == Fresh(Durable(OneTable(e, p), [DocOf(e)]))
  {
    var st0, add, a := Fresh(EMPTY), Process(Add(e, p), QUIET), CrashIn(Write(true), QUIET, 2);
    var st1 := Step(st0, add);
    FirstCommits(Blank(st1), e, p);
    LostEvent.ExecCons(st1, a, []);
    LostEvent.ExecCons(st0, add, [a] + []);
  }

  /** A crash between the index commit and its bookkeeping indexes the event twice. */
  lemma CrashIndexesTwice(e: Event, p: Profile) returns (env: Env)
    ensures Run(Fresh(EMPTY), CrashedRun(e, p))
    ensures var st := Exec(Fresh(EMPTY), CrashedRun(e, p));
            EnvFits(st, Write(true), env) && Handle(st, Write(true), env).0.disk.docs == [DocOf(e), DocOf(e)]
  {
    CrashedRunEnds(e, p);
    EmptySafe();
    RunSafe(Fresh(EMPTY), CrashedRun(e, p));
    var u := SaveOne(e, p);
    env := Env(false, [u], []);
    WriteIndexesTwice(Fresh(Durable(OneTable(e, p), [DocOf(e)])), DocOf(e), u, []);
  }

  // ----- Without a crash -----

  function DeletingRun(e: Event, p: Profile, other: EventId): seq<Action> {
    [Process(Add(e, p), QUIET)] + ([Process(Write(false), QUIET)]
    + ([Process(Delete(other), QUIET)] + ([Process(ShutDown, QUIET)] + [])))
  }

  lemma UnforcedWrite(st: State, e: Event, p: Profile, u: int)
    requires st == Fresh(EMPTY).(queue := [(e, p)])
    requires SaveEvents(EMPTY_TABLES, [(e, p)]) == Saved(OneTable(e, p), [u], [DocOf(e)], false, None)
    ensures EnvFits(st, Write(false), QUIET) && Handle(st, Write(false), QUIET).0 == Written(e, p, u)
  {
    assert JoinedUncommitted(EMPTY_TABLES) == {} == IdSet([]);
    var st1 := LoadUnprocessed(st, [], []);
    assert st1 == st.(loaded := true);
    var st2 := StoreSaved(st1, SaveEvents(EMPTY_TABLES, st.queue), None, None);
    assert st2 == Written(e, p, u).(queue := st.queue);
  }

  /** A deletion of another event commits the document and leaves the row waiting. */
  lemma DeleteCommits(st: State, e: Event, p: Profile, u: int, other: EventId)
    requires Blank(st) == Blank(Written(e, p, u)) && other != e.eventId
    requires OneTable(e, p).uncommitted.Keys == {u} && Sound(OneTable(e, p)) && Keys(OneTable(e, p)) == {KeyOf(e)}
    requires OneTable(e, p).pending == {}
    ensures Handle(Blank(st), Delete(other), QUIET).0.disk
         == Durable(OneTable(e, p).(pending := {other}), [DocOf(e)])
  {
    var t := OneTable(e, p);
    assert KeyOf(e).eventId != other;
    NothingToDelete(t, other);
    var st1 := DeleteRows(Blank(st), t, other);
    WithoutNone([DocOf(e)], other);
    assert [] + [DocOf(e)] == [DocOf(e)];
    assert t.pending + {other} == {other};
    assert st1.disk == Durable(t.(pending := {other}), [DocOf(e)]) && st1.added == 1;
  }

  lemma NothingToDelete(t: Tables, eventId: EventId)
    requires forall k | k in Keys(t) :: k.eventId != eventId
    ensures DeleteEventsById(t, eventId) == Success(t)
  {
    forall r | r in t.events
      ensures t.events[r].eventId != eventId
    {
      assert RowIdent(t, r).key in Keys(t);
    }
    var rows := set r | r in t.events && t.events[r].eventId == eventId;
    assert rows == {};
    assert t.events - rows == t.events;
  }

  lemma DeletingRunEnds(e: Event, p: Profile, u: int, other: EventId)
    requires other != e.eventId
    requires SaveEvents(EMPTY_TABLES, [(e, p)]) == Saved(OneTable(e, p), [u], [DocOf(e)], false, None)
    requires OneTable(e, p).uncommitted.Keys == {u} && Sound(OneTable(e, p)) && Keys(OneTable(e, p)) == {KeyOf(e)}
    requires OneTable(e, p).pending == {}
    ensures Run(Fresh(EMPTY), DeletingRun(e, p, other))
    ensures Exec(Fresh(EMPTY), DeletingRun(e, p, other))
         == Fresh(Durable(OneTable(e, p).(pending := {other}), [DocOf(e)]))
              .(log := Exec(Fresh(EMPTY), DeletingRun(e, p, other)).log)
  {
    var add, write := Process(Add(e, p), QUIET), Process(Write(false), QUIET);
    var delete, stop := Process(Delete(other), QUIET), Process(ShutDown, QUIET);
    var st0 := Fresh(EMPTY);
    var st1 := Step(st0, add);
    UnforcedWrite(Blank(st1), e, p, u);
    var st2 := Step(st1, write);
    DeleteCommits(st2, e, p, u, other);
    var st3 := Step(st2, delete);
    LostEvent.ExecCons(st3, stop, []);
    LostEvent.ExecCons(st2, delete, [stop] + []);
    LostEvent.ExecCons(st1, write, [delete] + ([stop] + []));
    LostEvent.ExecCons(st0, add, [write] + ([delete] + ([stop] + [])));
  }

  /** No crash is needed: a deletion that commits the index before the event was marked
      as indexed, followed by a shutdown, indexes the event twice as well. */
  lemma DeletionIndexesTwice(e: Event, p: Profile, other: EventId) returns (env: Env)
    requires other != e.eventId
    ensures Run(Fresh(EMPTY), DeletingRun(e, p, other))
    ensures var st := Exec(Fresh(EMPTY), DeletingRun(e, p, other));
            EnvFits(st, Write(true), env) && Handle(st, Write(true), env).0.disk.docs == [DocOf(e), DocOf(e)]
  {
    var u := SaveOne(e, p);
    DeletingRunEnds(e, p, u, other);
    var st0 := Fresh(EMPTY);
    EmptySafe();
    RunSafe(st0, DeletingRun(e, p, other));
    env := Env(false, [u], [other]);
    assert EventIdSet([other]) == {other};
    WriteIndexesTwice(Exec(st0, DeletingRun(e, p, other)), DocOf(e), u, [other]);
  }
}
