/**
 The writer as it runs: objects that update the stores, their vectors and their
 counter in place. Each method is proved to do what the state machine says, so the
 invariants and run theorems of the state machine are about this code.
 */
module WriterThread {
  import opened Wrappers
  import opened Events
  import opened Sequences
  import T = Tables
  import opened Soundness
  import opened Protocol
  import opened Storage
  import opened Invariants
  import opened Runs

  class IndexWriter {
    const inner: TantivyWriter
    var addedEvents: nat

    constructor (inner: TantivyWriter)
      ensures this.inner == inner && addedEvents == 0
    {
      this.inner := inner;
      addedEvents := 0;
    }

    method CommitHelper(force: bool, elapsed: bool) returns (committed: bool)
      modifies this, inner, inner.disk
      ensures inner.disk.tables == old(inner.disk.tables)
      ensures committed == (old(addedEvents) > 0 && (force || old(addedEvents) >= COMMIT_RATE || elapsed))
      ensures committed ==>
                && inner.disk.docs == WithoutAll(old(inner.disk.docs), old(inner.deleted)) + old(inner.pending)
                && inner.disk.log == old(inner.disk.log) + [Durable(inner.disk.tables, inner.disk.docs)]
                && inner.pending == [] && inner.deleted == [] && addedEvents == 0
      ensures !committed ==>
                && inner.disk.docs == old(inner.disk.docs) && inner.disk.log == old(inner.disk.log)
                && inner.pending == old(inner.pending) && inner.deleted == old(inner.deleted)
                && addedEvents == old(addedEvents)
    {
      if addedEvents > 0 && (force || addedEvents >= COMMIT_RATE || elapsed) {
        inner.Commit();
        addedEvents := 0;
        committed := true;
      } else {
        committed := false;
      }
    }

    method AddEvent(e: Event)
      modifies this, inner
      ensures inner.pending == old(inner.pending) + [DocOf(e)] && inner.deleted == old(inner.deleted)
      ensures addedEvents == old(addedEvents) + 1
    {
      inner.AddDocument(DocOf(e));
      addedEvents := addedEvents + 1;
    }

    method DeleteEvent(eventId: EventId)
      requires inner.deleted == []
      modifies inner, inner.disk
      ensures inner.disk.docs == Without(old(inner.disk.docs) + old(inner.pending), eventId)
      ensures inner.disk.tables == old(inner.disk.tables)
      ensures inner.disk.log == old(inner.disk.log) + [Durable(inner.disk.tables, inner.disk.docs)]
      ensures inner.pending == [] && inner.deleted == []
    {
      WithoutConcat(inner.disk.docs, inner.pending, eventId);
      inner.DeleteTerm(eventId);
      assert WithoutAll(inner.disk.docs, [eventId]) == Without(inner.disk.docs, eventId);
      inner.Commit();
    }
  }

  class Writer {
    const disk: Disk
    const connection: Connection
    const inner: IndexWriter
    var events: seq<Entry>
    var uncommittedEvents: seq<int>
    var pendingDeletionEvents: seq<EventId>
    var loadedUnprocessed: bool

    ghost predicate Valid()
      reads this, connection, inner, inner.inner, disk
    {
      && connection.disk == disk
      && inner.inner.disk == disk
      && connection.tables == disk.tables
      && inner.inner.deleted == []
    }

    /** The state of the machine these objects are in. */
    ghost function View(): State
      reads this, inner, inner.inner, disk
    {
      State(Durable(disk.tables, disk.docs), disk.log, inner.inner.pending, inner.addedEvents,
            events, uncommittedEvents, pendingDeletionEvents, loadedUnprocessed)
    }

    constructor (disk: Disk)
      ensures Valid() && this.disk == disk
      ensures fresh(connection) && fresh(inner) && fresh(inner.inner)
      ensures View() == Fresh(Durable(disk.tables, disk.docs)).(log := disk.log)
    {
      var connection := new Connection(disk);
      var tantivy := new TantivyWriter(disk);
      var index := new IndexWriter(tantivy);
      this.disk, this.connection, this.inner := disk, connection, index;
      events, uncommittedEvents, pendingDeletionEvents, loadedUnprocessed := [], [], [], false;
    }

    method AddEvent(e: Event, p: Profile)
      requires Valid()
      modifies this
      ensures Valid() && View() == old(View()).(queue := old(events) + [(e, p)])
    {
      events := events + [(e, p)];
    }

    /** Deletes the remembered rows from the bookkeeping table, fifty at a time. */
    method MarkEventsAsIndexed()
      requires Valid()
      modifies this, connection, disk
      ensures Valid() && View() == MarkIndexed(old(View()))
    {
      if uncommittedEvents == [] {
        return;
      }
      connection.Transaction();
      var i := 0;
      ghost var before := connection.tables;
      while i < |uncommittedEvents|
        invariant 0 <= i <= |uncommittedEvents|
        invariant connection.tables == before.(uncommitted := before.uncommitted - IdSet(uncommittedEvents[..i]))
        modifies connection
      {
        var j := if i + 50 < |uncommittedEvents| then i + 50 else |uncommittedEvents|;
        var chunk := uncommittedEvents[i..j];
        assert uncommittedEvents[..j] == uncommittedEvents[..i] + chunk;
        assert IdSet(uncommittedEvents[..j]) == IdSet(uncommittedEvents[..i]) + IdSet(chunk);
        connection.tables := connection.tables.(uncommitted := connection.tables.uncommitted - IdSet(chunk));
        i := j;
      }
      assert uncommittedEvents[..i] == uncommittedEvents;
      connection.Commit();
      uncommittedEvents := [];
    }

    method MarkEventsAsDeleted()
      requires Valid()
      modifies this, connection, disk
      ensures Valid() && View() == MarkDeleted(old(View()))
    {
      if pendingDeletionEvents == [] {
        return;
      }
      connection.Transaction();
      var i := 0;
      ghost var before := connection.tables;
      while i < |pendingDeletionEvents|
        invariant 0 <= i <= |pendingDeletionEvents|
        invariant connection.tables == before.(pending := before.pending - EventIdSet(pendingDeletionEvents[..i]))
        modifies connection
      {
        var j := if i + 50 < |pendingDeletionEvents| then i + 50 else |pendingDeletionEvents|;
        var chunk := pendingDeletionEvents[i..j];
        assert pendingDeletionEvents[..j] == pendingDeletionEvents[..i] + chunk;
        assert EventIdSet(pendingDeletionEvents[..j]) == EventIdSet(pendingDeletionEvents[..i]) + EventIdSet(chunk);
        connection.tables := connection.tables.(pending := connection.tables.pending - EventIdSet(chunk));
        i := j;
      }
      assert pendingDeletionEvents[..i] == pendingDeletionEvents;
      connection.Commit();
      pendingDeletionEvents := [];
    }

    /** The index writer commits if it may, seen as a step of the machine. */
    method CommitIndex(force: bool, elapsed: bool) returns (committed: bool)
      requires Valid()
      modifies inner, inner.inner, disk
      ensures Valid() && (View(), committed) == CommitHelper(old(View()), force, elapsed)
    {
      committed := inner.CommitHelper(force, elapsed);
    }

    method DeleteFromIndex(eventId: EventId)
      requires Valid()
      modifies inner.inner, disk
      ensures Valid() && View() == IndexDelete(old(View()), eventId)
    {
      inner.DeleteEvent(eventId);
    }

    /** Saves one event and hands its document over if it is new. */
    method SaveAndAdd(e: Event, p: Profile) returns (r: Result<Option<int>, T.SqlError>)
      modifies connection, inner, inner.inner
      ensures (connection.tables, r) == T.SaveEvent(old(connection.tables), e, p)
      ensures inner.inner.deleted == old(inner.inner.deleted)
      ensures var docs := if r.Success? && r.value.Some? then [DocOf(e)] else [];
              && inner.inner.pending == old(inner.inner.pending) + docs
              && inner.addedEvents == old(inner.addedEvents) + |docs|
    {
      r := connection.SaveEvent(e, p);
      if r.Success? && r.value.Some? {
        inner.AddEvent(e);
      }
    }

    /** Saves a batch inside the open transaction and hands its documents over. */
    method WriteEventsHelper(batch: seq<Entry>)
      returns (allStored: bool, ids: seq<int>, error: Option<T.SqlError>)
      modifies connection, inner, inner.inner
      ensures var s := T.SaveEvents(old(connection.tables), batch);
              && connection.tables == s.tables && allStored == s.allStored
              && ids == s.ids && error == s.error
              && inner.inner.pending == old(inner.inner.pending) + s.docs
              && inner.addedEvents == old(inner.addedEvents) + |s.docs|
      ensures inner.inner.deleted == old(inner.inner.deleted)
    {
      allStored, ids, error := true, [], None;
      var rest := batch;
      ghost var saved := T.SaveEvents(connection.tables, batch);
      ghost var docs: seq<Doc> := [];
      while rest != [] && error.None?
        invariant SavedFrom(saved, RestOf(connection.tables, rest, error), ids, docs, allStored)
        invariant inner.inner.pending == old(inner.inner.pending) + docs
        invariant inner.addedEvents == old(inner.addedEvents) + |docs|
        invariant inner.inner.deleted == old(inner.inner.deleted)
        decreases |rest|
      {
        var (e, p) := rest[0];
        SaveEventsCons(connection.tables, rest);
        rest := rest[1..];
        var res := SaveAndAdd(e, p);
        if res.Failure? {
          error := Some(res.error);
        } else {
          SavedFromStep(saved, res.value, DocOf(e), T.SaveEvents(connection.tables, rest), ids, docs, allStored);
          if res.value.Some? {
            allStored := false;
            ids := ids + [res.value.value];
            docs := docs + [DocOf(e)];
          }
        }
      }
    }

    /** Ends the transaction of a batch. */
    method CommitBatch(
      newCheckpoint: Option<CrawlerCheckpoint>, oldCheckpoint: Option<CrawlerCheckpoint>, ids: seq<int>,
      ghost before: State, ghost s: T.Saved)
      requires connection.disk == disk && inner.inner.disk == disk && inner.inner.deleted == []
      requires connection.tables == s.tables && ids == s.ids && View() == AddDocs(before, s.docs)
      modifies this, connection, disk
      ensures Valid() && View() == StoreSaved(before, s, newCheckpoint, oldCheckpoint)
    {
      connection.tables := T.ReplaceCheckpoint(connection.tables, newCheckpoint, oldCheckpoint);
      connection.Commit();
      uncommittedEvents := uncommittedEvents + ids;
    }

    /** Begins the transaction of a batch. */
    method SaveBatch(batch: seq<Entry>)
      returns (allStored: bool, ids: seq<int>, error: Option<T.SqlError>)
      requires Valid()
      modifies connection, inner, inner.inner
      ensures inner.inner.deleted == []
      ensures var s := T.SaveEvents(disk.tables, batch);
              && connection.tables == s.tables && allStored == s.allStored && ids == s.ids && error == s.error
              && View() == AddDocs(old(View()), s.docs)
    {
      connection.Transaction();
      allStored, ids, error := WriteEventsHelper(batch);
      assert View() == old(View()).(pendingDocs := inner.inner.pending, added := inner.addedEvents);
    }

    /** The transaction of a write. */
    method StoreBatch(
      newCheckpoint: Option<CrawlerCheckpoint>, oldCheckpoint: Option<CrawlerCheckpoint>, batch: seq<Entry>)
      returns (allStored: bool, error: Option<T.SqlError>)
      requires Valid()
      modifies this, connection, inner, inner.inner, disk
      ensures Valid()
      ensures var s := T.SaveEvents(old(disk.tables), batch);
              && allStored == s.allStored && error == s.error
              && View() == if s.error.Some? then AddDocs(old(View()), s.docs)
                           else StoreSaved(old(View()), s, newCheckpoint, oldCheckpoint)
    {
      var ids;
      allStored, ids, error := SaveBatch(batch);
      if error.Some? {
        connection.Rollback();
      } else {
        CommitBatch(newCheckpoint, oldCheckpoint, ids, old(View()), T.SaveEvents(old(disk.tables), batch));
      }
    }

    method WriteEvents(
      newCheckpoint: Option<CrawlerCheckpoint>, oldCheckpoint: Option<CrawlerCheckpoint>,
      batch: seq<Entry>, force: bool, elapsed: bool)
      returns (r: Result<(bool, bool), T.SqlError>)
      requires Valid()
      modifies this, connection, inner, inner.inner, disk
      ensures Valid()
      ensures (View(), r) == Protocol.WriteEvents(old(View()), batch, newCheckpoint, oldCheckpoint, force, elapsed)
    {
      var allStored, error := StoreBatch(newCheckpoint, oldCheckpoint, batch);
      if error.Some? {
        return Failure(error.value);
      }
      var committed := CommitIndex(force, elapsed);
      if force {
        committed := true;
      }
      if committed {
        MarkEventsAsIndexed();
      }
      r := Success((allStored, committed));
    }

    method WriteQueuedEvents(force: bool, elapsed: bool) returns (r: Result<(), T.SqlError>)
      requires Valid()
      modifies this, connection, inner, inner.inner, disk
      ensures Valid() && (View(), r) == WriteQueued(old(View()), force, elapsed)
    {
      var res := WriteEvents(None, None, events, force, elapsed);
      events := [];
      if res.Failure? {
        return Failure(res.error);
      }
      if res.value.1 {
        MarkEventsAsDeleted();
      }
      r := Success(());
    }

    method WriteHistoricEvents(
      newCheckpoint: Option<CrawlerCheckpoint>, oldCheckpoint: Option<CrawlerCheckpoint>,
      batch: seq<Entry>, elapsed: bool)
      returns (r: Result<bool, T.SqlError>)
      requires Valid()
      modifies this, connection, inner, inner.inner, disk
      ensures Valid()
      ensures (View(), r) == WriteHistoric(old(View()), newCheckpoint, oldCheckpoint, batch, elapsed)
    {
      var emptyEvents := batch == [];
      var res := WriteEvents(newCheckpoint, oldCheckpoint, batch, true, elapsed);
      if res.Failure? {
        return Failure(res.error);
      }
      if res.value.1 {
        MarkEventsAsDeleted();
      }
      r := Success(if emptyEvents then false else res.value.0);
    }

    method DeleteEvent(eventId: EventId, elapsed: bool) returns (r: Result<bool, T.SqlError>)
      requires Valid()
      modifies this, connection, inner, inner.inner, disk
      ensures Valid() && (View(), r) == Protocol.DeleteEvent(old(View()), eventId, elapsed)
      ensures r.Success? ==> r.value == (eventId !in disk.tables.pending)
    {
      connection.Transaction();
      var deleted := T.DeleteEventsById(connection.tables, eventId);
      if deleted.Failure? {
        connection.Rollback();
        return Failure(deleted.error);
      }
      connection.tables := deleted.value;
      connection.tables := connection.tables.(pending := connection.tables.pending + {eventId});
      connection.Commit();
      inner.DeleteEvent(eventId);
      pendingDeletionEvents := pendingDeletionEvents + [eventId];
      var committed := inner.CommitHelper(false, elapsed);
      if committed {
        MarkEventsAsDeleted();
      }
      r := Success(committed);
    }

    /** Adds the documents of all rows that wait for the index. */
    method ReplayUncommittedEvents() returns (ghost uids: seq<int>)
      requires Valid()
      modifies this, inner, inner.inner
      ensures Valid() && IdSet(uids) == T.JoinedUncommitted(disk.tables) && NoRepeat(uids)
      ensures View() == ReplayUncommitted(old(View()), uids)
    {
      var rows := connection.LoadUncommittedEvents();
      uids := Ids(rows);
      var i := 0;
      while i < |rows|
        invariant 0 <= i <= |rows|
        invariant inner.inner.deleted == [] && loadedUnprocessed == old(loadedUnprocessed)
        invariant events == old(events) && pendingDeletionEvents == old(pendingDeletionEvents)
        invariant uncommittedEvents == old(uncommittedEvents) + uids[..i]
        invariant inner.addedEvents == old(inner.addedEvents) + i
        invariant inner.inner.pending == old(inner.inner.pending) + ReplayDocs(disk.tables, uids)[..i]
      {
        uncommittedEvents := uncommittedEvents + [rows[i].0];
        inner.AddEvent(rows[i].1);
        i := i + 1;
      }
      assert uids[..i] == uids;
      assert ReplayDocs(disk.tables, uids)[..i] == ReplayDocs(disk.tables, uids);
    }

    /** Deletes the documents of all pending deletions once more. */
    method ReplayDeletions(ids: seq<EventId>)
      requires Valid()
      modifies inner.inner, disk
      ensures Valid() && View() == IndexDeletes(old(View()), ids)
    {
      var rest := ids;
      while rest != []
        invariant Valid()
        invariant IndexDeletes(View(), rest) == IndexDeletes(old(View()), ids)
        decreases |rest|
      {
        DeleteFromIndex(rest[0]);
        rest := rest[1..];
      }
    }

    /** Replays what an earlier process left undone. */
    method LoadUnprocessedEvents() returns (ghost uids: seq<int>, ghost dids: seq<EventId>)
      requires Valid()
      modifies this, inner, inner.inner, disk
      ensures Valid() && Lists(old(disk.tables), uids, dids)
      ensures View() == LoadUnprocessed(old(View()), uids, dids).(loaded := old(loadedUnprocessed))
    {
      uids := ReplayUncommittedEvents();
      var ids := connection.LoadPendingDeletionEvents();
      dids := ids;
      ReplayDeletions(ids);
      pendingDeletionEvents := pendingDeletionEvents + ids;
    }

    method ShutDown()
      requires Valid()
      modifies this, inner, inner.inner
      ensures Valid() && View() == Fresh(old(View()).disk).(log := old(View()).log)
    {
      inner.inner.WaitMergingThreads();
      inner.addedEvents := 0;
      events, uncommittedEvents, pendingDeletionEvents, loadedUnprocessed := [], [], [], false;
    }

    /** One turn of the message loop. */
    method Receive(m: Message, elapsed: bool) returns (reply: Reply, ghost env: Env)
      requires Valid()
      modifies this, connection, inner, inner.inner, disk
      ensures Valid() && EnvFits(old(View()), m, env) && env.elapsed == elapsed
      ensures (View(), reply) == Handle(old(View()), m, env)
    {
      env := Env(elapsed, [], []);
      match m {
        case Add(e, p) =>
          AddEvent(e, p);
          reply := NoReply;
        case Write(force) =>
          if !loadedUnprocessed {
            ghost var uids, dids := LoadUnprocessedEvents();
            env := Env(elapsed, uids, dids);
            loadedUnprocessed := true;
          }
          var r := WriteQueuedEvents(force, elapsed);
          reply := Unit(r);
        case Historic(newCheckpoint, oldCheckpoint, batch) =>
          var r := WriteHistoricEvents(newCheckpoint, oldCheckpoint, batch, elapsed);
          reply := Flag(r);
        case Delete(eventId) =>
          var r := DeleteEvent(eventId, elapsed);
          reply := Flag(r);
        case ShutDown =>
          ShutDown();
          reply := Unit(Success(()));
      }
    }

    /** A turn of the loop continues a run of the machine. */
    method Turn(m: Message, elapsed: bool, ghost start: State, ghost acts: seq<Action>, ghost replies: seq<Reply>)
      returns (reply: Reply, ghost a: Action)
      requires Valid() && Safe(View()) && Ran(start, acts, View(), replies)
      modifies this, connection, inner, inner.inner, disk
      ensures Valid() && Safe(View())
      ensures a.Process? && a.message == m && a.env.elapsed == elapsed
      ensures Ran(start, acts + [a], View(), replies + [reply])
    {
      ghost var st := View();
      ghost var env;
      reply, env := Receive(m, elapsed);
      HandleOk(st, m, env);
      RunSnoc(start, acts, st, replies, m, env);
      a := Process(m, env);
    }

    /** The whole loop: it stops after a shutdown or when the channel is empty, and
        what it does is a run of the machine. The clock is an input. */
    method Serve(messages: seq<(Message, bool)>) returns (replies: seq<Reply>, ghost acts: seq<Action>)
      requires Valid() && Safe(View())
      modifies this, connection, inner, inner.inner, disk
      ensures Valid() && Safe(View())
      ensures |replies| == |acts| && Handled(messages, acts)
      ensures Ran(old(View()), acts, View(), replies)
      ensures |acts| < |messages| ==> acts != [] && acts[|acts| - 1].message.ShutDown?
    {
      replies, acts := [], [];
      ghost var start := View();
      while |replies| < |messages| && (replies == [] || !messages[|replies| - 1].0.ShutDown?)
        invariant |replies| == |acts| && Handled(messages, acts)
        invariant Valid() && Safe(View()) && Ran(start, acts, View(), replies)
      {
        var (m, elapsed) := messages[|replies|];
        var reply, a := Turn(m, elapsed, start, acts, replies);
        acts, replies := acts + [a], replies + [reply];
      }
    }
  }

  /** The actions process the first messages, in order and with their clocks. */
  ghost predicate Handled(messages: seq<(Message, bool)>, acts: seq<Action>) {
    && |acts| <= |messages|
    && forall i | 0 <= i < |acts| ::
         acts[i].Process? && acts[i].message == messages[i].0 && acts[i].env.elapsed == messages[i].1
  }

  /** What the machine replies in a run without crashes. */
  ghost function Replies(st: State, acts: seq<Action>): seq<Reply>
    requires Run(st, acts)
    decreases |acts|
  {
    if acts == [] then []
    else [Handle(Blank(st), acts[0].message, acts[0].env).1] + Replies(Step(st, acts[0]), acts[1..])
  }

  /** These actions are a run; it ends in this state, up to the log, with these replies. */
  ghost predicate Ran(start: State, acts: seq<Action>, st: State, replies: seq<Reply>) {
    Run(start, acts) && Blank(st) == Blank(Exec(start, acts)) && replies == Replies(start, acts)
  }

  /** What is saved so far followed by the rest gives the whole. */
  ghost predicate SavedFrom(whole: T.Saved, rest: T.Saved, ids: seq<int>, docs: seq<Doc>, allStored: bool) {
    && whole.tables == rest.tables && whole.error == rest.error
    && whole.ids == ids + rest.ids && whole.docs == docs + rest.docs
    && whole.allStored == (allStored && rest.allStored)
  }

  /** What is still to come of a batch; nothing after an error. */
  function RestOf(t: T.Tables, rest: seq<Entry>, error: Option<T.SqlError>): T.Saved {
    if error.Some? then T.Saved(t, [], [], true, error) else T.SaveEvents(t, rest)
  }

  lemma SaveEventsCons(t: T.Tables, batch: seq<Entry>)
    requires batch != []
    ensures var (t1, res) := T.SaveEvent(t, batch[0].0, batch[0].1);
            T.SaveEvents(t, batch) == match res
              case Failure(err) => T.Saved(t1, [], [], true, Some(err))
              case Success(first) => T.Prepend(first, DocOf(batch[0].0), T.SaveEvents(t1, batch[1..]))
  {
  }

  lemma SavedFromStep(
    whole: T.Saved, first: Option<int>, d: Doc, rest: T.Saved, ids: seq<int>, docs: seq<Doc>, allStored: bool)
    requires SavedFrom(whole, T.Prepend(first, d, rest), ids, docs, allStored)
    ensures match first
            case None => SavedFrom(whole, rest, ids, docs, allStored)
            case Some(id) => SavedFrom(whole, rest, ids + [id], docs + [d], false)
  {
  }

  // ----- The log does not influence the machine -----

  lemma {:induction false} IndexDeletesIgnoresLog(st: State, ids: seq<EventId>)
    ensures Blank(IndexDeletes(st, ids)) == Blank(IndexDeletes(Blank(st), ids))
    ensures IndexDeletes(st, ids).disk == IndexDeletes(Blank(st), ids).disk
    decreases |ids|
  {
    if ids == [] {
    } else {
      IndexDeletesIgnoresLog(IndexDelete(st, ids[0]), ids[1..]);
      IndexDeletesIgnoresLog(IndexDelete(Blank(st), ids[0]), ids[1..]);
    }
  }

  lemma FinishWriteIgnoresLog(st: State, st': State, s: T.Saved,
    newCheckpoint: Option<CrawlerCheckpoint>, oldCheckpoint: Option<CrawlerCheckpoint>,
    force: bool, elapsed: bool)
    requires Blank(st') == Blank(st)
    ensures var (w, r) := FinishWrite(st, s, newCheckpoint, oldCheckpoint, force, elapsed);
            var (w', r') := FinishWrite(st', s, newCheckpoint, oldCheckpoint, force, elapsed);
            Blank(w) == Blank(w') && r == r'
  {
    if s.error.None? {
      var st1 := StoreSaved(st, s, newCheckpoint, oldCheckpoint);
      var st2 := StoreSaved(st', s, newCheckpoint, oldCheckpoint);
      assert Blank(st1) == Blank(st2);
      CommitIgnoresLog(st1, st2, force, elapsed);
    }
  }

  lemma CommitIgnoresLog(st: State, st': State, force: bool, elapsed: bool)
    requires Blank(st') == Blank(st)
    ensures var (w, flushed), (w', flushed') := CommitHelper(st, force, elapsed), CommitHelper(st', force, elapsed);
            && Blank(w) == Blank(w') && flushed == flushed'
            && Blank(MarkIndexed(w)) == Blank(MarkIndexed(w'))
  {
  }

  lemma SettleIgnoresLog(st: State, st': State, res: Result<(bool, bool), T.SqlError>)
    requires Blank(st') == Blank(st)
    ensures Blank(Settle(st, res)) == Blank(Settle(st', res))
  {
  }

  lemma WriteQueuedIgnoresLog(st: State, st': State, force: bool, elapsed: bool)
    requires Blank(st') == Blank(st)
    ensures Blank(WriteQueued(st, force, elapsed).0) == Blank(WriteQueued(st', force, elapsed).0)
    ensures WriteQueued(st, force, elapsed).1 == WriteQueued(st', force, elapsed).1
  {
    var s := T.SaveEvents(st.disk.tables, st.queue);
    FinishWriteIgnoresLog(st, st', s, None, None, force, elapsed);
    var (w, r) := FinishWrite(st, s, None, None, force, elapsed);
    var (w', r') := FinishWrite(st', s, None, None, force, elapsed);
    SettleIgnoresLog(w.(queue := []), w'.(queue := []), r);
  }

  lemma WriteHistoricIgnoresLog(st: State, m: Message, elapsed: bool)
    requires m.Historic?
    ensures var (w, r) := WriteHistoric(st, m.newCheckpoint, m.oldCheckpoint, m.batch, elapsed);
            var (w', r') := WriteHistoric(Blank(st), m.newCheckpoint, m.oldCheckpoint, m.batch, elapsed);
            Blank(w) == Blank(w') && r == r'
  {
    var s := T.SaveEvents(st.disk.tables, m.batch);
    FinishWriteIgnoresLog(st, Blank(st), s, m.newCheckpoint, m.oldCheckpoint, true, elapsed);
    var (w, r) := FinishWrite(st, s, m.newCheckpoint, m.oldCheckpoint, true, elapsed);
    var (w', r') := FinishWrite(Blank(st), s, m.newCheckpoint, m.oldCheckpoint, true, elapsed);
    SettleIgnoresLog(w, w', r);
  }

  lemma DeleteEventIgnoresLog(st: State, eventId: EventId, elapsed: bool)
    ensures var (w, r) := Protocol.DeleteEvent(st, eventId, elapsed);
            var (w', r') := Protocol.DeleteEvent(Blank(st), eventId, elapsed);
            Blank(w) == Blank(w') && r == r'
  {
  }

  lemma HandleIgnoresLog(st: State, m: Message, env: Env)
    requires EnvFits(st, m, env)
    ensures Blank(Handle(st, m, env).0) == Blank(Handle(Blank(st), m, env).0)
    ensures Handle(st, m, env).1 == Handle(Blank(st), m, env).1
  {
    match m
    case Add(_, _) =>
    case Write(force) =>
      if st.loaded {
        WriteQueuedIgnoresLog(st, Blank(st), force, env.elapsed);
      } else {
        IndexDeletesIgnoresLog(ReplayUncommitted(st, env.uids), env.dids);
        WriteQueuedIgnoresLog(LoadUnprocessed(st, env.uids, env.dids),
                              LoadUnprocessed(Blank(st), env.uids, env.dids), force, env.elapsed);
      }
    case Historic(_, _, _) =>
      WriteHistoricIgnoresLog(st, m, env.elapsed);
    case Delete(eventId) =>
      DeleteEventIgnoresLog(st, eventId, env.elapsed);
    case ShutDown =>
  }

  lemma HandleSameUpToLog(st: State, st': State, m: Message, env: Env)
    requires Blank(st) == Blank(st') && EnvFits(st, m, env)
    ensures EnvFits(st', m, env)
    ensures Blank(Handle(st, m, env).0) == Blank(Handle(st', m, env).0)
    ensures Handle(st, m, env).1 == Handle(st', m, env).1
  {
    HandleIgnoresLog(st, m, env);
    HandleIgnoresLog(st', m, env);
  }

  lemma {:induction false} RunSnoc(
    start: State, acts: seq<Action>, st: State, replies: seq<Reply>, m: Message, env: Env)
    requires Ran(start, acts, st, replies) && EnvFits(st, m, env)
    ensures Ran(start, acts + [Process(m, env)], Handle(st, m, env).0, replies + [Handle(st, m, env).1])
    decreases |acts|
  {
    var more, a := acts + [Process(m, env)], Process(m, env);
    if acts == [] {
      assert more == [a] && more[1..] == [];
      HandleSameUpToLog(st, Blank(start), m, env);
      assert Exec(start, more) == Step(start, a);
      assert Replies(start, more) == [Handle(st, m, env).1] + [];
    } else {
      var next := Step(start, acts[0]);
      assert more[1..] == acts[1..] + [a];
      RunSnoc(next, acts[1..], st, replies[1..], m, env);
      assert Replies(start, more) == [replies[0]] + (replies[1..] + [Handle(st, m, env).1]);
    }
  }
}
