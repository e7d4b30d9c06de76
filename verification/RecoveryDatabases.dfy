/**
 The recovery database as it runs, and the loop that rebuilds the index with it.
 */
module RecoveryDatabases {
  import opened Wrappers
  import opened Events
  import opened Sequences
  import T = Tables
  import opened Storage
  import WT = WriterThread
  import opened Reindex
  import R = Recovery
  import opened Rebuilt

  /** The tables that hold the version and the flag. */
  class VersionTables {
    var version: Option<int>
    var reindexNeeded: Option<bool>
    var oldProfiles: bool

    constructor (s: R.Stored)
      ensures version == s.version && reindexNeeded == s.reindexNeeded && oldProfiles == s.oldProfiles
    {
      version, reindexNeeded, oldProfiles := s.version, s.reindexNeeded, s.oldProfiles;
    }

    function Stored(docs: seq<Doc>): R.Stored
      reads this
    {
      R.Stored(version, reindexNeeded, oldProfiles, docs)
    }

    /** Runs the migrations; the log lists what was durable after each commit. */
    method GetVersion(ghost docs: seq<Doc>)
      returns (r: Result<(int, bool), R.RecoveryError>, ghost log: seq<R.Stored>)
      modifies this
      ensures R.Migration(log, r) == R.GetVersion(old(Stored(docs)))
      ensures Stored(docs) == R.Final(old(Stored(docs)), log)
    {
      log := [];
      ghost var from := Stored(docs);
      ghost var s := from;
      assert R.Reaches(from, log, s);
      if reindexNeeded.None? {
        reindexNeeded := Some(false);
        R.ReachesNext(from, log, s, Stored(docs));
        log, s := log + [Stored(docs)], Stored(docs);
      }
      if version.None? {
        version := Some(R.DATABASE_VERSION);
        R.ReachesNext(from, log, s, Stored(docs));
        log, s := log + [Stored(docs)], Stored(docs);
      }
      if version.value == 1 {
        if !oldProfiles {
          return Failure(R.DatabaseOpenError), log;
        }
        oldProfiles := false;
        ghost var renamed := Stored(docs);
        version := Some(2);
        R.ReachesTwo(from, log, s, renamed, Stored(docs));
        log, s := log + [renamed] + [Stored(docs)], Stored(docs);
      }
      if version.value == 2 {
        reindexNeeded, version := Some(true), Some(3);
        R.ReachesNext(from, log, s, Stored(docs));
        log, s := log + [Stored(docs)], Stored(docs);
      }
      if version.value == 3 {
        reindexNeeded, version := Some(true), Some(4);
        R.ReachesNext(from, log, s, Stored(docs));
        log, s := log + [Stored(docs)], Stored(docs);
      }
      return Success((version.value, reindexNeeded.value)), log;
    }
  }

  class RecoveryDatabase {
    const disk: Disk
    const tables: VersionTables
    /** The rows of the event store as the query lists them. */
    const rows: seq<T.EventRow>
    const read: Reader
    var indexDeleted: bool
    var indexWriter: WT.IndexWriter?
    var reindexedEvents: nat
    ghost var log: seq<R.Stored>
    ghost var sent: seq<Doc>

    constructor (disk: Disk, tables: VersionTables, rows: seq<T.EventRow>, parse: Parser)
      ensures Valid() && this.disk == disk && this.tables == tables && this.rows == rows && read == ReaderOf(parse)
      ensures View() == R.NewSession(tables.Stored(disk.docs))
    {
      this.disk, this.tables, this.rows, this.read := disk, tables, rows, ReaderOf(parse);
      indexDeleted, indexWriter, reindexedEvents := false, null, 0;
      log, sent := [], [];
    }

    ghost function Writers(): set<object>
      reads this
    {
      if indexWriter == null then {} else {indexWriter, indexWriter.inner}
    }

    ghost predicate Valid()
      reads this, Writers()
    {
      indexWriter != null ==> indexWriter.inner.disk == disk && indexWriter.inner.deleted == []
    }

    ghost function View(): R.Session
      reads this, disk, tables, Writers()
    {
      R.Session(
        tables.Stored(disk.docs), log, indexDeleted,
        if indexWriter == null then None
        else Some(R.IndexSession(indexWriter.inner.pending, indexWriter.addedEvents, sent)),
        reindexedEvents)
    }

    method DeleteTheIndex()
      requires Valid()
      modifies this, disk
      ensures Valid() && View() == R.DeleteTheIndex(old(View())) && indexWriter == null
      ensures disk.tables == old(disk.tables)
    {
      indexWriter := null;
      disk.docs := [];
      log := log + [tables.Stored(disk.docs)];
      indexDeleted := true;
    }

    method OpenIndex() returns (r: Result<(), R.RecoveryError>)
      requires Valid()
      modifies this
      ensures Valid() && (View(), r) == R.OpenIndex(old(View()))
      ensures r.Success? ==> fresh(Writers())
      ensures r.Failure? ==> indexWriter == old(indexWriter)
    {
      if !indexDeleted {
        return Failure(R.ReindexError);
      }
      if indexWriter != null {
        return Failure(R.IndexLocked);
      }
      var inner := new TantivyWriter(disk);
      indexWriter := new WT.IndexWriter(inner);
      sent := [];
      return Success(());
    }

    /** Failure stands for the panic without a writer. */
    method IndexEvents(events: seq<Event>) returns (r: Result<(), R.RecoveryError>)
      requires Valid()
      modifies this, Writers()
      ensures Valid() && (View(), r) == R.IndexEvents(old(View()), events)
      ensures indexWriter == old(indexWriter)
    {
      if indexWriter == null {
        return Failure(R.IndexNotDeleted);
      }
      for i := 0 to |events|
        invariant indexWriter == old(indexWriter) && indexWriter.inner.deleted == []
        invariant indexWriter.inner.pending == old(indexWriter.inner.pending) + R.DocsOf(events[..i])
        invariant indexWriter.addedEvents == old(indexWriter.addedEvents) + i
        modifies indexWriter, indexWriter.inner
      {
        assert R.DocsOf(events[..i + 1]) == R.DocsOf(events[..i]) + [DocOf(events[i])];
        indexWriter.AddEvent(events[i]);
      }
      assert events[..|events|] == events;
      sent := sent + R.DocsOf(events);
      reindexedEvents := reindexedEvents + |events|;
      return Success(());
    }

    method CommitIndex(force: bool, elapsed: bool) returns (r: Result<bool, R.RecoveryError>)
      requires Valid()
      modifies this, disk, Writers()
      ensures Valid() && (View(), r) == R.CommitIndex(old(View()), force, elapsed)
      ensures indexWriter == old(indexWriter) && disk.tables == old(disk.tables)
    {
      if indexWriter == null {
        return Failure(R.ReindexError);
      }
      var committed := indexWriter.CommitHelper(force, elapsed);
      if committed {
        log := log + [tables.Stored(disk.docs)];
      }
      return Success(committed);
    }

    method Commit(elapsed: bool) returns (r: Result<bool, R.RecoveryError>)
      requires Valid()
      modifies this, disk, Writers()
      ensures Valid() && (View(), r) == R.CommitIndex(old(View()), false, elapsed)
      ensures indexWriter == old(indexWriter) && disk.tables == old(disk.tables)
    {
      r := CommitIndex(false, elapsed);
    }

    /** Consumes the object: what counts afterwards is what is stored. */
    method CommitAndClose() returns (r: Result<(), R.RecoveryError>)
      requires Valid()
      modifies this, disk, tables, Writers()
      ensures (R.NewSession(tables.Stored(disk.docs)).(log := log), r) == R.CommitAndClose(old(View()))
      ensures reindexedEvents == old(reindexedEvents) && disk.tables == old(disk.tables)
    {
      var committed := CommitIndex(true, false);
      if committed.Failure? {
        return Failure(committed.error);
      }
      tables.reindexNeeded := Some(false);
      log := log + [tables.Stored(disk.docs)];
      return Success(());
    }

    method LoadEventsDeserialized(limit: nat, from: Option<Event>) returns (events: seq<Event>)
      ensures events == EventsOf(read, Prefix(Select(rows, from), limit))
    {
      var sources := LoadAllEvents(limit, from);
      events := [];
      ghost var selected := Prefix(Select(rows, from), limit);
      for i := 0 to |sources|
        invariant events == EventsOf(read, selected[..i])
      {
        assert selected[..i + 1] == selected[..i] + [selected[i]];
        EventsConcat(read, selected[..i], [selected[i]]);
        var e := read(sources[i]);
        if e.Some? {
          events := events + [e.value];
        }
      }
      assert selected[..|sources|] == selected;
    }

    method LoadAllEvents(limit: nat, from: Option<Event>) returns (sources: seq<string>)
      ensures var selected := Prefix(Select(rows, from), limit);
              |sources| == |selected| && forall i | 0 <= i < |sources| :: sources[i] == selected[i].source
    {
      var selected := Prefix(Select(rows, from), limit);
      sources := seq(|selected|, i requires 0 <= i < |selected| => selected[i].source);
    }

    /** Empties the index and indexes the first batch. */
    method BeginReindex() returns (events: seq<Event>)
      requires Valid()
      modifies this, disk
      ensures Valid() && fresh(Writers()) && R.Rebuilding(old(View()), View(), events)
      ensures events == Batch(read, rows, None) && disk.tables == old(disk.tables)
    {
      ghost var r0 := View();
      R.StartRebuild(r0);
      DeleteTheIndex();
      var _ := OpenIndex();
      events := LoadEventsDeserialized(REINDEX_BATCH, None);
      R.RebuildIndex(r0, View(), [], events);
      assert [] + events == events;
      var _ := IndexEvents(events);
    }

    /** Indexes one more batch and commits if it is time to. */
    method IndexBatch(events: seq<Event>, elapsed: bool, ghost r0: R.Session, ghost es: seq<Event>)
      requires Valid() && R.Rebuilding(r0, View(), es)
      modifies this, disk, Writers()
      ensures Valid() && R.Rebuilding(r0, View(), es + events) && indexWriter == old(indexWriter)
      ensures disk.tables == old(disk.tables)
    {
      R.RebuildIndex(r0, View(), es, events);
      var _ := IndexEvents(events);
      R.CommitRewrites(r0, View(), es + events, false, elapsed);
      var _ := Commit(elapsed);
    }

    /** Rebuilds the whole index, in batches from the newest message on. It ends under
        any condition under which the batches do. */
    method Reindex(elapsed: nat -> bool)
      requires Valid() && exists rounds: nat :: Terminates(read, rows, rounds)
      modifies this, disk, tables, Writers()
      ensures forall rounds: nat | Terminates(read, rows, rounds) ::
                && R.Rebuilt(old(View()), R.NewSession(tables.Stored(disk.docs)).(log := log),
                             R.DocsOf(Indexed(read, rows, rounds)))
                && reindexedEvents == old(reindexedEvents) + |Indexed(read, rows, rounds)|
      ensures disk.tables == old(disk.tables)
      ensures Restorable(read, disk.tables, rows) ==> Restored(read, disk.tables, disk.docs)
    {
      ghost var r0 := View();
      ghost var rounds: nat :| Terminates(read, rows, rounds);
      var events := BeginReindex();
      ghost var left, es := rounds, events;
      var k := 0;
      while true
        invariant Valid() && fresh(Writers()) && R.Rebuilding(r0, View(), es)
        invariant disk.tables == old(disk.tables)
        invariant Halts(read, rows, LastOf(events), left)
        invariant Indexed(read, rows, rounds) == es + Loop(read, rows, LastOf(events), left)
        decreases left
      {
        var last := LastOf(events);
        events := LoadEventsDeserialized(REINDEX_BATCH, last);
        LoopUnfold(read, rows, last, left, es);
        if events == [] {
          break;
        }
        IndexBatch(events, elapsed(k), r0, es);
        es, left := es + events, left - 1;
        k := k + 1;
      }
      R.CloseRebuilds(r0, View(), es);
      var _ := CommitAndClose();
      SettledOnce(read, rows, rounds, es);
      if Restorable(read, disk.tables, rows) {
        ReindexRestores(read, disk.tables, rows, rounds);
      }
    }
  }

  lemma LoopUnfold(read: Reader, rows: seq<T.EventRow>, from: Option<Event>, rounds: nat, before: seq<Event>)
    requires Halts(read, rows, from, rounds)
    ensures var es := Batch(read, rows, from);
            && rounds > 0
            && (es == [] ==> before + Loop(read, rows, from, rounds) == before)
            && (es != [] ==>
                  && Halts(read, rows, LastOf(es), rounds - 1)
                  && before + Loop(read, rows, from, rounds)
                     == (before + es) + Loop(read, rows, LastOf(es), rounds - 1))
  {
  }

  lemma SettledOnce(read: Reader, rows: seq<T.EventRow>, rounds: nat, es: seq<Event>)
    requires Terminates(read, rows, rounds) && Indexed(read, rows, rounds) == es
    ensures forall other: nat | Terminates(read, rows, other) :: Indexed(read, rows, other) == es
  {
    forall other: nat | Terminates(read, rows, other)
      ensures Indexed(read, rows, other) == es
    {
      LoopSettled(read, rows, LastOf(Batch(read, rows, None)), other, rounds);
    }
  }
}
