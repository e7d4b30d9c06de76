/**
 Whole runs of the writer: any sequence of messages, with a crash allowed after
 any durable commit of any message.
 */
module Runs {
  import opened Wrappers
  import opened Events
  import opened Tables
  import opened Soundness
  import opened Protocol
  import opened Invariants
  import opened Completeness
  import opened Atomicity

  /** A message is handled to the end, or the process dies after `at` of the durable
      commits the message makes. */
  datatype Action =
    | Process(message: Message, env: Env)
    | CrashIn(message: Message, env: Env, at: nat)

  const EMPTY := Durable(EMPTY_TABLES, [])

  /** A state with its log cut, so that the log is that of the next message. */
  function Blank(st: State): State {
    st.(log := [])
  }

  ghost predicate Enabled(st: State, a: Action) {
    && EnvFits(Blank(st), a.message, a.env)
    && (a.CrashIn? ==> a.at <= |Handle(Blank(st), a.message, a.env).0.log|)
  }

  ghost function Step(st: State, a: Action): State
    requires Enabled(st, a)
  {
    var st' := Handle(Blank(st), a.message, a.env).0;
    match a
    case Process(_, _) => st'
    case CrashIn(_, _, at) => Fresh(if at == 0 then st.disk else st'.log[at - 1])
  }

  ghost predicate Run(st: State, acts: seq<Action>)
    decreases |acts|
  {
    acts == [] || (Enabled(st, acts[0]) && Run(Step(st, acts[0]), acts[1..]))
  }

  ghost function Exec(st: State, acts: seq<Action>): State
    requires Run(st, acts)
    decreases |acts|
  {
    if acts == [] then st else Exec(Step(st, acts[0]), acts[1..])
  }

  // ----- Safety without assumptions -----

  /** What holds between messages. */
  ghost predicate Safe(st: State) {
    SessionOk(st) && st.added < COMMIT_RATE
  }

  lemma StepSafe(st: State, a: Action)
    requires Safe(st) && Enabled(st, a)
    ensures Safe(Step(st, a))
  {
    assert Working(Blank(st)) == Working(st);
    HandleOk(Blank(st), a.message, a.env);
    if a.CrashIn? {
      assert DurableOk(st.disk);
      FreshOk(Step(st, a).disk);
    }
  }

  /** In every reachable state the tables are sound, no document is a ghost, and the
      rate bound holds: fewer than 500 events are counted and no more documents wait
      than are counted. */
  lemma {:induction false} RunSafe(st: State, acts: seq<Action>)
    requires Safe(st) && Run(st, acts)
    ensures Safe(Exec(st, acts))
    decreases |acts|
  {
    if acts == [] {
    } else {
      StepSafe(st, acts[0]);
      RunSafe(Step(st, acts[0]), acts[1..]);
    }
  }

  lemma EmptySafe()
    ensures Safe(Fresh(EMPTY)) && SessionComplete(Fresh(EMPTY)) && Disjoint(EMPTY.tables)
  {
  }

  lemma NoGhostsAndRateBound(acts: seq<Action>)
    requires Run(Fresh(EMPTY), acts)
    ensures var st := Exec(Fresh(EMPTY), acts);
            && Sound(st.disk.tables)
            && NoGhosts(st.disk.tables, st.disk.docs + st.pendingDocs)
            && |st.pendingDocs| <= st.added < 500
  {
    EmptySafe();
    RunSafe(Fresh(EMPTY), acts);
  }

  // ----- Completeness -----

  /** Every replay of the run finds its guard satisfied. */
  ghost predicate Guarded(st: State, acts: seq<Action>)
    requires Run(st, acts)
    decreases |acts|
  {
    acts == [] || (LoadSafe(st, acts[0].message) && Guarded(Step(st, acts[0]), acts[1..]))
  }

  lemma StepComplete(st: State, a: Action)
    requires Safe(st) && SessionComplete(st) && Enabled(st, a) && LoadSafe(st, a.message)
    ensures SessionComplete(Step(st, a))
  {
    assert Working(Blank(st)) == Working(st);
    HandleComplete(Blank(st), a.message, a.env);
    if a.CrashIn? {
      FreshComplete(Step(st, a).disk);
    }
  }

  /** Crash-safe completeness over whole runs. */
  lemma {:induction false} RunComplete(st: State, acts: seq<Action>)
    requires Safe(st) && SessionComplete(st) && Run(st, acts) && Guarded(st, acts)
    ensures SessionComplete(Exec(st, acts))
    decreases |acts|
  {
    if acts == [] {
    } else {
      StepSafe(st, acts[0]);
      StepComplete(st, acts[0]);
      RunComplete(Step(st, acts[0]), acts[1..]);
    }
  }

  // ----- Clean runs: no event is stored again while its deletion is pending -----

  ghost predicate CleanBatch(t: Tables, batch: seq<Entry>) {
    forall x | x in batch :: x.0.eventId !in t.pending
  }

  ghost predicate CleanMessage(st: State, m: Message) {
    match m
    case Write(_) => CleanBatch(st.disk.tables, st.queue)
    case Historic(_, _, batch) => CleanBatch(st.disk.tables, batch)
    case _ => true
  }

  ghost predicate AllDisjoint(st: State) {
    Disjoint(st.disk.tables) && (forall d | d in st.log :: Disjoint(d.tables))
  }

  lemma CommitStepsDisjoint(st: State, force: bool, elapsed: bool)
    requires AllDisjoint(st)
    ensures AllDisjoint(CommitHelper(st, force, elapsed).0)
    ensures AllDisjoint(MarkIndexed(st))
    ensures AllDisjoint(MarkDeleted(st))
  {
  }

  lemma {:induction false} IndexDeletesDisjoint(st: State, ids: seq<EventId>)
    requires AllDisjoint(st)
    ensures AllDisjoint(IndexDeletes(st, ids))
    decreases |ids|
  {
    if ids == [] {
    } else {
      IndexDeletesDisjoint(IndexDelete(st, ids[0]), ids[1..]);
    }
  }

  lemma SavedDisjoint(t: Tables, batch: seq<Entry>)
    requires Sound(t) && Disjoint(t) && CleanBatch(t, batch)
    ensures var s := SaveEvents(t, batch);
            Disjoint(s.tables) && s.error.None?
  {
    var t' := SaveEvents(t, batch).tables;
    SaveEventsSound(t, batch);
    forall r | r in t'.events
      ensures t'.events[r].eventId !in t'.pending
    {
      if r !in t.events {
        var x :| x in batch && KeyOf(x.0) == RowIdent(t', r).key;
      }
    }
  }

  lemma WriteEventsDisjoint(st: State, batch: seq<Entry>,
    newCheckpoint: Option<CrawlerCheckpoint>, oldCheckpoint: Option<CrawlerCheckpoint>,
    force: bool, elapsed: bool)
    requires Sound(st.disk.tables) && AllDisjoint(st) && CleanBatch(st.disk.tables, batch)
    ensures AllDisjoint(WriteEvents(st, batch, newCheckpoint, oldCheckpoint, force, elapsed).0)
  {
    SavedDisjoint(st.disk.tables, batch);
    var st1 := StoreSaved(st, SaveEvents(st.disk.tables, batch), newCheckpoint, oldCheckpoint);
    assert AllDisjoint(st1);
    CommitStepsDisjoint(st1, force, elapsed);
    CommitStepsDisjoint(CommitHelper(st1, force, elapsed).0, force, elapsed);
  }

  lemma DeleteRowsDisjoint(st: State, eventId: EventId)
    requires Sound(st.disk.tables) && AllDisjoint(st) && DeleteEventsById(st.disk.tables, eventId).Success?
    ensures AllDisjoint(DeleteRows(st, DeleteEventsById(st.disk.tables, eventId).value, eventId))
  {
  }

  lemma SettleDisjoint(st: State, res: Result<(bool, bool), SqlError>)
    requires AllDisjoint(st)
    ensures AllDisjoint(Settle(st, res))
  {
  }

  lemma WriteQueuedDisjoint(st: State, force: bool, elapsed: bool)
    requires Sound(st.disk.tables) && AllDisjoint(st) && CleanBatch(st.disk.tables, st.queue)
    ensures AllDisjoint(WriteQueued(st, force, elapsed).0)
  {
    WriteEventsDisjoint(st, st.queue, None, None, force, elapsed);
    var (st1, res) := WriteEvents(st, st.queue, None, None, force, elapsed);
    SettleDisjoint(st1.(queue := []), res);
  }

  lemma WriteHistoricDisjoint(st: State, m: Message, elapsed: bool)
    requires m.Historic?
    requires Sound(st.disk.tables) && AllDisjoint(st) && CleanBatch(st.disk.tables, m.batch)
    ensures AllDisjoint(WriteHistoric(st, m.newCheckpoint, m.oldCheckpoint, m.batch, elapsed).0)
  {
    WriteEventsDisjoint(st, m.batch, m.newCheckpoint, m.oldCheckpoint, true, elapsed);
    var (st1, res) := WriteEvents(st, m.batch, m.newCheckpoint, m.oldCheckpoint, true, elapsed);
    SettleDisjoint(st1, res);
  }

  lemma DeleteEventDisjoint(st: State, eventId: EventId, elapsed: bool)
    requires Sound(st.disk.tables) && AllDisjoint(st)
    ensures AllDisjoint(DeleteEvent(st, eventId, elapsed).0)
  {
    if DeleteEventsById(st.disk.tables, eventId).Success? {
      DeleteRowsDisjoint(st, eventId);
      var st1 := DeleteRows(st, DeleteEventsById(st.disk.tables, eventId).value, eventId);
      CommitStepsDisjoint(st1, false, elapsed);
      CommitStepsDisjoint(CommitHelper(st1, false, elapsed).0, false, elapsed);
    }
  }

  lemma HandleDisjoint(st: State, m: Message, env: Env)
    requires SessionOk(st) && EnvFits(st, m, env) && AllDisjoint(st) && CleanMessage(st, m)
    ensures AllDisjoint(Handle(st, m, env).0)
  {
    match m
    case Add(_, _) =>
    case Write(force) =>
      if !st.loaded {
        LoadUnprocessedOk(st, env.uids, env.dids);
        IndexDeletesDisjoint(ReplayUncommitted(st, env.uids), env.dids);
      }
      WriteQueuedDisjoint(if st.loaded then st else LoadUnprocessed(st, env.uids, env.dids), force, env.elapsed);
    case Historic(_, _, _) =>
      WriteHistoricDisjoint(st, m, env.elapsed);
    case Delete(eventId) =>
      DeleteEventDisjoint(st, eventId, env.elapsed);
    case ShutDown =>
  }

  ghost predicate Clean(st: State, acts: seq<Action>)
    requires Run(st, acts)
    decreases |acts|
  {
    acts == [] || (CleanMessage(st, acts[0].message) && Clean(Step(st, acts[0]), acts[1..]))
  }

  lemma StepDisjoint(st: State, a: Action)
    requires Safe(st) && Disjoint(st.disk.tables) && Enabled(st, a) && CleanMessage(st, a.message)
    ensures Disjoint(Step(st, a).disk.tables)
  {
    assert Working(Blank(st)) == Working(st);
    HandleDisjoint(Blank(st), a.message, a.env);
  }

  lemma {:induction false} CleanRunGuarded(st: State, acts: seq<Action>)
    requires Safe(st) && Disjoint(st.disk.tables) && Run(st, acts) && Clean(st, acts)
    ensures Guarded(st, acts)
    ensures Disjoint(Exec(st, acts).disk.tables)
    decreases |acts|
  {
    if acts == [] {
    } else {
      StepSafe(st, acts[0]);
      StepDisjoint(st, acts[0]);
      CleanRunGuarded(Step(st, acts[0]), acts[1..]);
    }
  }

  /** Crash-safe completeness for callers that do not store an event again while its
      deletion is pending, and convergence of the next forced write. */
  lemma CleanRunConverges(acts: seq<Action>, env: Env)
    requires Run(Fresh(EMPTY), acts) && Clean(Fresh(EMPTY), acts)
    ensures var st := Exec(Fresh(EMPTY), acts);
            && DurableComplete(st.disk)
            && (EnvFits(st, Write(true), env) ==>
                  var d := Handle(st, Write(true), env).0.disk;
                  && Idents(d.docs) == RowIdents(d.tables)
                  && d.tables.uncommitted.Keys == {} && d.tables.pending == {})
  {
    EmptySafe();
    RunSafe(Fresh(EMPTY), acts);
    CleanRunGuarded(Fresh(EMPTY), acts);
    RunComplete(Fresh(EMPTY), acts);
    var st := Exec(Fresh(EMPTY), acts);
    if EnvFits(st, Write(true), env) {
      ForcedWriteConverges(st, env);
    }
  }

  // ----- Crashes and the atomic set -----

  /** A step acts on the key set as one atomic step; a crash additionally drops the
      queue, and leaves the step done or not begun. */
  lemma StepRefines(st: State, a: Action)
    requires Safe(st) && Enabled(st, a)
    ensures var after := SpecStep(View(st), a.message, Handle(Blank(st), a.message, a.env).1);
            var v := View(Step(st, a));
            if a.Process? then v == after
            else v == KeySet(View(st).stored, {}) || v == KeySet(after.stored, {})
  {
    assert Working(Blank(st)) == Working(st);
    var st' := Handle(Blank(st), a.message, a.env).0;
    HandleRefines(Blank(st), a.message, a.env);
    if a.CrashIn? {
      HandleAtomic(Blank(st), a.message, a.env);
      var d := Step(st, a).disk;
      assert a.at > 0 ==> d in st'.log;
      SameContentSameKeys(d.tables, st.disk.tables);
      SameContentSameKeys(d.tables, st'.disk.tables);
    }
  }

  lemma SameContentSameKeys(t: Tables, t': Tables)
    ensures ContentOf(t) == ContentOf(t') ==> Keys(t) == Keys(t')
  {
  }

  // ----- What the reply to a commit promises -----

  ghost predicate Serves(st: State, ms: seq<(Message, Env)>) {
    Run(st, Actions(ms)) && forall i | 0 <= i < |ms| :: !ms[i].0.ShutDown?
  }

  function Actions(ms: seq<(Message, Env)>): seq<Action> {
    seq(|ms|, i requires 0 <= i < |ms| => Process(ms[i].0, ms[i].1))
  }

  /** Some message of the sequence deletes the id. */
  predicate Deletes(ms: seq<(Message, Env)>, eventId: EventId) {
    exists i | 0 <= i < |ms| :: ms[i].0 == Delete(eventId)
  }

  ghost predicate Holds(st: State, k: Key, written: bool) {
    k in View(st).stored || (!written && k in View(st).queued)
  }

  lemma StepKeepsKey(st: State, m: Message, env: Env, k: Key)
    requires Safe(st) && EnvFits(Blank(st), m, env) && !m.ShutDown? && m != Delete(k.eventId)
    requires Holds(st, k, false)
    ensures var st' := Step(st, Process(m, env));
            Safe(st') && Holds(st', k, m.Write?)
  {
    StepSafe(st, Process(m, env));
    StepRefines(st, Process(m, env));
  }

  lemma ActionsTail(ms: seq<(Message, Env)>)
    requires ms != []
    ensures Actions(ms)[0] == Process(ms[0].0, ms[0].1)
    ensures Actions(ms)[1..] == Actions(ms[1..])
  {
  }

  lemma ServesTail(st: State, ms: seq<(Message, Env)>)
    requires Serves(st, ms) && ms != []
    ensures EnvFits(Blank(st), ms[0].0, ms[0].1)
    ensures var st1 := Step(st, Process(ms[0].0, ms[0].1));
            Serves(st1, ms[1..]) && Exec(st, Actions(ms)) == Exec(st1, Actions(ms[1..]))
  {
    ActionsTail(ms);
    assert forall i | 0 <= i < |ms[1..]| :: ms[1..][i] == ms[i + 1];
  }

  /** A key that was sent or stored stays so until its event is deleted, and is
      stored as soon as a write has been handled. */
  lemma {:induction false} KeyKept(st: State, ms: seq<(Message, Env)>, k: Key)
    requires Safe(st) && Serves(st, ms)
    requires forall i | 0 <= i < |ms| :: ms[i].0 != Delete(k.eventId)
    requires Holds(st, k, false)
    ensures Holds(Exec(st, Actions(ms)), k, ms != [] && ms[|ms| - 1].0.Write?)
    decreases |ms|
  {
    if ms == [] {
    } else {
      ServesTail(st, ms);
      StepKeepsKey(st, ms[0].0, ms[0].1, k);
      var st1 := Step(st, Process(ms[0].0, ms[0].1));
      if |ms| > 1 {
        KeyKept(st1, ms[1..], k);
      } else {
        assert Exec(st1, Actions(ms[1..])) == st1;
      }
    }
  }

  /** When the reply to a write arrives, every event sent before it is stored, unless
      a deletion of its id was sent in between. */
  lemma CommitStoresSentEvents(st: State, e: Event, p: Profile, env: Env, ms: seq<(Message, Env)>)
    requires Safe(st) && Serves(st, [(Add(e, p), env)] + ms)
    requires ms != [] && ms[|ms| - 1].0.Write? && !Deletes(ms, e.eventId)
    ensures KeyOf(e) in Keys(Exec(st, Actions([(Add(e, p), env)] + ms)).disk.tables)
  {
    var all := [(Add(e, p), env)] + ms;
    var acts := Actions(all);
    ActionsTail(all);
    assert all[1..] == ms;
    StepSafe(st, acts[0]);
    StepRefines(st, acts[0]);
    assert forall i | 0 <= i < |ms| :: all[i + 1] == ms[i];
    KeyKept(Step(st, acts[0]), ms, KeyOf(e));
  }
}
