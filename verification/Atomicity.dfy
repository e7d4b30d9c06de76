/**
 Each message is one atomic step on what is stored. Queue and writer thread
 together refine a set of keys that is updated in one go, also across crashes.
 */
module Atomicity {
  import opened Wrappers
  import opened Events
  import opened Tables
  import opened Soundness
  import opened Protocol
  import opened Invariants
  import opened Completeness

  /** The tables a user reads, without the bookkeeping. */
  datatype Content = Content(
    events: map<int, EventRow>, rooms: map<int, RoomId>, checkpoints: set<CrawlerCheckpoint>)

  function ContentOf(t: Tables): Content {
    Content(t.events, t.rooms, t.checkpoints)
  }

  /** The log shows content a until it shows content b, and b is on disk now. */
  ghost predicate Between(st: State, a: Content, b: Content) {
    && ContentOf(st.disk.tables) == b
    && (forall d | d in st.log :: ContentOf(d.tables) == a || ContentOf(d.tables) == b)
  }

  lemma CommitStepsKeepContent(st: State, a: Content, b: Content, force: bool, elapsed: bool)
    requires Between(st, a, b)
    ensures Between(CommitHelper(st, force, elapsed).0, a, b)
    ensures Between(MarkIndexed(st), a, b)
    ensures Between(MarkDeleted(st), a, b)
  {
  }

  lemma {:induction false} IndexDeletesKeepContent(st: State, a: Content, ids: seq<EventId>)
    requires Between(st, a, a)
    ensures Between(IndexDeletes(st, ids), a, a)
    decreases |ids|
  {
    if ids == [] {
    } else {
      IndexDeletesKeepContent(IndexDelete(st, ids[0]), a, ids[1..]);
    }
  }

  lemma WriteEventsAtomic(st: State, batch: seq<Entry>,
    newCheckpoint: Option<CrawlerCheckpoint>, oldCheckpoint: Option<CrawlerCheckpoint>,
    force: bool, elapsed: bool, a: Content)
    requires Sound(st.disk.tables) && Between(st, a, a)
    ensures var (st', res) := WriteEvents(st, batch, newCheckpoint, oldCheckpoint, force, elapsed);
            var s := SaveEvents(st.disk.tables, batch);
            Between(st', a, ContentOf(StoreSaved(st, s, newCheckpoint, oldCheckpoint).disk.tables))
  {
    var s := SaveEvents(st.disk.tables, batch);
    assert s.error.None? by { SaveEventsSound(st.disk.tables, batch); }
    var st1 := StoreSaved(st, s, newCheckpoint, oldCheckpoint);
    var b := ContentOf(st1.disk.tables);
    assert Between(st1, a, b);
    CommitStepsKeepContent(st1, a, b, force, elapsed);
    CommitStepsKeepContent(CommitHelper(st1, force, elapsed).0, a, b, force, elapsed);
  }

  lemma SettleKeepsContent(st: State, res: Result<(bool, bool), SqlError>, a: Content, b: Content)
    requires Between(st, a, b)
    ensures Between(Settle(st, res), a, b)
    ensures Keys(Settle(st, res).disk.tables) == Keys(st.disk.tables)
    ensures Settle(st, res).queue == st.queue
  {
  }

  /** The content a write leaves behind. */
  function Written(st: State, batch: seq<Entry>,
    newCheckpoint: Option<CrawlerCheckpoint>, oldCheckpoint: Option<CrawlerCheckpoint>): Content
  {
    ContentOf(ReplaceCheckpoint(SaveEvents(st.disk.tables, batch).tables, newCheckpoint, oldCheckpoint))
  }

  lemma WriteQueuedAtomic(st: State, force: bool, elapsed: bool, a: Content)
    requires Sound(st.disk.tables) && Between(st, a, a)
    ensures Between(WriteQueued(st, force, elapsed).0, a, Written(st, st.queue, None, None))
  {
    WriteEventsAtomic(st, st.queue, None, None, force, elapsed, a);
    var (st1, res) := WriteEvents(st, st.queue, None, None, force, elapsed);
    SettleKeepsContent(st1.(queue := []), res, a, Written(st, st.queue, None, None));
  }

  lemma WriteHistoricAtomic(st: State, batch: seq<Entry>,
    newCheckpoint: Option<CrawlerCheckpoint>, oldCheckpoint: Option<CrawlerCheckpoint>,
    elapsed: bool, a: Content)
    requires Sound(st.disk.tables) && Between(st, a, a)
    ensures Between(WriteHistoric(st, newCheckpoint, oldCheckpoint, batch, elapsed).0,
                    a, Written(st, batch, newCheckpoint, oldCheckpoint))
  {
    WriteEventsAtomic(st, batch, newCheckpoint, oldCheckpoint, true, elapsed, a);
    var (st1, res) := WriteEvents(st, batch, newCheckpoint, oldCheckpoint, true, elapsed);
    SettleKeepsContent(st1, res, a, Written(st, batch, newCheckpoint, oldCheckpoint));
  }

  lemma DeleteEventAtomic(st: State, eventId: EventId, elapsed: bool, a: Content)
    requires Between(st, a, a)
    ensures var st' := DeleteEvent(st, eventId, elapsed).0;
            Between(st', a, ContentOf(st'.disk.tables))
  {
    if DeleteEventsById(st.disk.tables, eventId).Success? {
      var t := DeleteEventsById(st.disk.tables, eventId).value;
      var st1 := DeleteRows(st, t, eventId);
      var b := ContentOf(t);
      assert Between(st1, a, b);
      CommitStepsKeepContent(st1, a, b, false, elapsed);
      CommitStepsKeepContent(CommitHelper(st1, false, elapsed).0, a, b, false, elapsed);
    }
  }

  lemma LoadKeepsContent(st: State, uids: seq<int>, dids: seq<EventId>, a: Content)
    requires SessionOk(st) && Lists(st.disk.tables, uids, dids) && Between(st, a, a)
    ensures var st' := LoadUnprocessed(st, uids, dids);
            Between(st', a, a) && SessionOk(st') && st'.queue == st.queue
            && st'.disk.tables == st.disk.tables
  {
    LoadUnprocessedOk(st, uids, dids);
    IndexDeletesKeepContent(ReplayUncommitted(st, uids), a, dids);
  }

  /** A crash while a message is handled leaves what was stored before the message
      or what is stored after it: events, rooms and checkpoints change together. */
  lemma HandleAtomic(st: State, m: Message, env: Env)
    requires SessionOk(st) && EnvFits(st, m, env) && st.log == []
    ensures var st' := Handle(st, m, env).0;
            Between(st', ContentOf(st.disk.tables), ContentOf(st'.disk.tables))
  {
    var a := ContentOf(st.disk.tables);
    match m
    case Add(_, _) =>
    case Write(force) =>
      if st.loaded {
        WriteQueuedAtomic(st, force, env.elapsed, a);
      } else {
        LoadKeepsContent(st, env.uids, env.dids, a);
        WriteQueuedAtomic(LoadUnprocessed(st, env.uids, env.dids), force, env.elapsed, a);
      }
    case Historic(newCheckpoint, oldCheckpoint, batch) =>
      WriteHistoricAtomic(st, batch, newCheckpoint, oldCheckpoint, env.elapsed, a);
    case Delete(eventId) =>
      DeleteEventAtomic(st, eventId, env.elapsed, a);
    case ShutDown =>
  }

  // ----- The crawl -----

  lemma WrittenKeys(t: Tables, batch: seq<Entry>, t': Tables)
    requires Sound(t)
    requires t'.events == SaveEvents(t, batch).tables.events && t'.rooms == SaveEvents(t, batch).tables.rooms
    ensures Keys(t') == Keys(t) + BatchKeys(batch)
  {
    SaveEventsSound(t, batch);
    SameEvents(SaveEvents(t, batch).tables, t');
  }

  /** What a historic batch leaves on disk at any crash point: the old tables, or
      all events of the batch together with the replaced checkpoint. */
  lemma CrawlAtomic(st: State, m: Message, env: Env, d: Durable)
    requires SessionOk(st) && m.Historic? && st.log == []
    requires d in Handle(st, m, env).0.log
    ensures var t := st.disk.tables;
            || ContentOf(d.tables) == ContentOf(t)
            || (BatchKeys(m.batch) <= Keys(d.tables)
                && d.tables.checkpoints
                   == ReplaceCheckpoint(t, m.newCheckpoint, m.oldCheckpoint).checkpoints)
  {
    WriteHistoricAtomic(st, m.batch, m.newCheckpoint, m.oldCheckpoint, env.elapsed, ContentOf(st.disk.tables));
    WrittenContent(st, m.batch, m.newCheckpoint, m.oldCheckpoint, d.tables);
  }

  lemma WrittenContent(st: State, batch: seq<Entry>,
    newCheckpoint: Option<CrawlerCheckpoint>, oldCheckpoint: Option<CrawlerCheckpoint>, t: Tables)
    requires Sound(st.disk.tables)
    ensures ContentOf(t) == Written(st, batch, newCheckpoint, oldCheckpoint) ==>
              && BatchKeys(batch) <= Keys(t)
              && t.checkpoints == ReplaceCheckpoint(st.disk.tables, newCheckpoint, oldCheckpoint).checkpoints
  {
    if ContentOf(t) == Written(st, batch, newCheckpoint, oldCheckpoint) {
      WrittenKeys(st.disk.tables, batch, t);
      SavedCheckpoints(st.disk.tables, batch);
    }
  }

  lemma SavedCheckpoints(t: Tables, batch: seq<Entry>)
    requires Sound(t)
    ensures SaveEvents(t, batch).tables.checkpoints == t.checkpoints
  {
    SaveEventsSound(t, batch);
  }

  /** A checkpoint that differs on disk from what it was, at any crash point, is one of
      the two that were sent, and then all events of the batch are stored. */
  lemma CheckpointImpliesEvents(st: State, m: Message, env: Env, d: Durable, c: CrawlerCheckpoint)
    requires SessionOk(st) && m.Historic? && st.log == []
    requires d in Handle(st, m, env).0.log
    ensures c in d.tables.checkpoints && c !in st.disk.tables.checkpoints ==>
              m.newCheckpoint == Some(c) && BatchKeys(m.batch) <= Keys(d.tables)
    ensures c !in d.tables.checkpoints && c in st.disk.tables.checkpoints ==>
              m.oldCheckpoint == Some(c) && BatchKeys(m.batch) <= Keys(d.tables)
  {
    CrawlAtomic(st, m, env, d);
  }

  /** Afterwards the new checkpoint is there, unless it is also the old one, and the
      old one is gone; no other checkpoint changed. */
  lemma CheckpointReplaced(st: State, m: Message, env: Env, c: CrawlerCheckpoint)
    requires SessionOk(st) && m.Historic? && st.log == []
    ensures var t' := Handle(st, m, env).0.disk.tables;
            c in t'.checkpoints <==>
              m.oldCheckpoint != Some(c) && (m.newCheckpoint == Some(c) || c in st.disk.tables.checkpoints)
  {
    WriteHistoricAtomic(st, m.batch, m.newCheckpoint, m.oldCheckpoint, env.elapsed, ContentOf(st.disk.tables));
    WrittenContent(st, m.batch, m.newCheckpoint, m.oldCheckpoint, Handle(st, m, env).0.disk.tables);
  }

  /** The answer says whether a nonempty batch had been stored in full before. */
  lemma CrawlAnswer(st: State, m: Message, env: Env)
    requires SessionOk(st) && m.Historic?
    ensures Handle(st, m, env).1
         == Flag(Success(m.batch != [] && BatchKeys(m.batch) <= Keys(st.disk.tables)))
  {
    var s := SaveEvents(st.disk.tables, m.batch);
    SaveEventsSound(st.disk.tables, m.batch);
    WriteEventsRows(st, m.batch, s, m.newCheckpoint, m.oldCheckpoint, true, env.elapsed);
  }

  /** Sending a stored batch again changes no stored event and answers true. */
  lemma CrawlIdempotent(st: State, m: Message, env: Env)
    requires SessionOk(st) && m.Historic? && m.batch != []
    requires BatchKeys(m.batch) <= Keys(st.disk.tables)
    ensures var (st', reply) := Handle(st, m, env);
            st'.disk.tables.events == st.disk.tables.events && reply == Flag(Success(true))
  {
    var s := SaveEvents(st.disk.tables, m.batch);
    SaveEventsSound(st.disk.tables, m.batch);
    WriteEventsRows(st, m.batch, s, m.newCheckpoint, m.oldCheckpoint, true, env.elapsed);
  }

  // ----- Refinement of an atomic set -----

  /** The specification: the keys stored and the keys sent but not yet stored. */
  datatype KeySet = KeySet(stored: set<Key>, queued: set<Key>)

  function View(st: State): KeySet {
    KeySet(Keys(st.disk.tables), BatchKeys(st.queue))
  }

  function ExceptId(keys: set<Key>, eventId: EventId): set<Key> {
    set k | k in keys && k.eventId != eventId
  }

  function SpecStep(v: KeySet, m: Message, reply: Reply): KeySet {
    match m
    case Add(e, _) => v.(queued := v.queued + {KeyOf(e)})
    case Write(_) => KeySet(v.stored + v.queued, {})
    case Historic(_, _, batch) => v.(stored := v.stored + BatchKeys(batch))
    case Delete(eventId) =>
      if reply.Flag? && reply.answer.Success? then v.(stored := ExceptId(v.stored, eventId)) else v
    case ShutDown => v.(queued := {})
  }

  lemma DeletedKeys(t: Tables, eventId: EventId)
    requires Sound(t) && DeleteEventsById(t, eventId).Success?
    ensures Keys(DeleteEventsById(t, eventId).value) == ExceptId(Keys(t), eventId)
  {
    var t' := DeleteEventsById(t, eventId).value;
    DeletedTables(t, eventId);
    forall k | k in ExceptId(Keys(t), eventId)
      ensures k in Keys(t')
    {
      var r :| r in t.events && RowIdent(t, r).key == k;
      assert RowIdent(t', r).key == k;
    }
  }

  lemma WriteRefines(st: State, force: bool, elapsed: bool)
    requires SessionOk(st) && Between(st, ContentOf(st.disk.tables), ContentOf(st.disk.tables))
    ensures View(WriteQueued(st, force, elapsed).0)
         == KeySet(Keys(st.disk.tables) + BatchKeys(st.queue), {})
  {
    WriteQueuedAtomic(st, force, elapsed, ContentOf(st.disk.tables));
    WrittenKeys(st.disk.tables, st.queue, WriteQueued(st, force, elapsed).0.disk.tables);
    WriteQueuedOk(st, force, elapsed);
  }

  lemma HistoricRefines(st: State, m: Message, env: Env)
    requires SessionOk(st) && m.Historic? && st.log == []
    ensures View(Handle(st, m, env).0)
         == View(st).(stored := Keys(st.disk.tables) + BatchKeys(m.batch))
  {
    WriteHistoricAtomic(st, m.batch, m.newCheckpoint, m.oldCheckpoint, env.elapsed, ContentOf(st.disk.tables));
    WrittenKeys(st.disk.tables, m.batch, Handle(st, m, env).0.disk.tables);
    var (st1, res) := WriteEvents(st, m.batch, m.newCheckpoint, m.oldCheckpoint, true, env.elapsed);
    WriteEventsOk(st, m.batch, m.newCheckpoint, m.oldCheckpoint, true, env.elapsed);
    SettleKeepsContent(st1, res, ContentOf(st.disk.tables), ContentOf(st1.disk.tables));
  }

  lemma DeleteRefines(st: State, eventId: EventId, elapsed: bool)
    requires SessionOk(st)
    ensures var (st', res) := DeleteEvent(st, eventId, elapsed);
            View(st') == if res.Success? then View(st).(stored := ExceptId(Keys(st.disk.tables), eventId))
                         else View(st)
  {
    if DeleteEventsById(st.disk.tables, eventId).Success? {
      DeletedKeys(st.disk.tables, eventId);
      SameEvents(DeleteEventsById(st.disk.tables, eventId).value, DeleteEvent(st, eventId, elapsed).0.disk.tables);
      DeleteEventOk(st, eventId, elapsed);
    }
  }

  /** The writer thread is a refinement of the key set, message by message. */
  lemma HandleRefines(st: State, m: Message, env: Env)
    requires SessionOk(st) && EnvFits(st, m, env) && st.log == []
    ensures var (st', reply) := Handle(st, m, env);
            View(st') == SpecStep(View(st), m, reply)
  {
    match m
    case Add(e, p) =>
      var q := st.queue + [(e, p)];
      assert forall x :: x in q <==> x in st.queue || x == (e, p);
    case Write(force) =>
      if st.loaded {
        WriteRefines(st, force, env.elapsed);
      } else {
        LoadKeepsContent(st, env.uids, env.dids, ContentOf(st.disk.tables));
        WriteRefines(LoadUnprocessed(st, env.uids, env.dids), force, env.elapsed);
      }
    case Historic(_, _, _) =>
      HistoricRefines(st, m, env);
    case Delete(eventId) =>
      DeleteRefines(st, eventId, env.elapsed);
    case ShutDown =>
  }

  /** How each message is answered: an event that is added is not, a deletion is as its
      operation says, and all others succeed. */
  lemma HandleAnswers(st: State, m: Message, env: Env)
    requires SessionOk(st) && EnvFits(st, m, env)
    ensures var reply := Handle(st, m, env).1;
            match m
            case Add(_, _) => reply == NoReply
            case Write(_) => reply == Unit(Success(()))
            case Historic(_, _, batch) =>
              reply == Flag(Success(batch != [] && BatchKeys(batch) <= Keys(st.disk.tables)))
            case Delete(eventId) =>
              reply == Flag(if Waits(st.disk.tables, eventId) then Failure(ForeignKeyViolation)
                            else Success(eventId !in Handle(st, m, env).0.disk.tables.pending))
            case ShutDown => reply == Unit(Success(()))
  {
    match m
    case Add(_, _) =>
    case Write(force) =>
      if st.loaded {
        WriteQueuedSucceeds(st, force, env.elapsed);
      } else {
        LoadUnprocessedOk(st, env.uids, env.dids);
        WriteQueuedSucceeds(LoadUnprocessed(st, env.uids, env.dids), force, env.elapsed);
      }
    case Historic(newCheckpoint, oldCheckpoint, batch) =>
      CrawlAnswer(st, m, env);
    case Delete(eventId) =>
      DeleteRefusedIff(st, eventId, env.elapsed);
    case ShutDown =>
  }

  lemma WriteQueuedSucceeds(st: State, force: bool, elapsed: bool)
    requires SessionOk(st)
    ensures WriteQueued(st, force, elapsed).1 == Success(())
  {
    WriteEventsOk(st, st.queue, None, None, force, elapsed);
  }

  /** An event with this id still waits for the index. */
  ghost predicate Waits(t: Tables, eventId: EventId)
    requires UncommittedLinked(t)
  {
    exists u | u in t.uncommitted :: t.events[t.uncommitted[u].eventRow].eventId == eventId
  }

  lemma DeleteFailsIff(t: Tables, eventId: EventId)
    requires UncommittedLinked(t)
    ensures DeleteEventsById(t, eventId).Failure? <==> Waits(t, eventId)
    ensures Waits(t, eventId) ==> DeleteEventsById(t, eventId) == Failure(ForeignKeyViolation)
  {
  }

  /** A deletion is refused, and changes nothing, exactly if an event with the id is
      still waiting for the index. Otherwise neither a row nor a document with the id is
      left, committed or not; and the answer is whether the deletion is settled, so that no
      commit is needed. */
  lemma DeleteRefusedIff(st: State, eventId: EventId, elapsed: bool)
    requires SessionOk(st)
    ensures var (st', res) := DeleteEvent(st, eventId, elapsed);
            var t := st.disk.tables;
            if Waits(t, eventId) then
              st' == st && res == Failure(ForeignKeyViolation)
            else
              && res == Success(eventId !in st'.disk.tables.pending)
              && Keys(st'.disk.tables) == ExceptId(Keys(t), eventId)
              && Working(st') == Without(Working(st), eventId)
  {
    DeleteFailsIff(st.disk.tables, eventId);
    DeleteEventOk(st, eventId, elapsed);
    DeleteRefines(st, eventId, elapsed);
  }
}
