/**
 The two stores as the writer thread sees them: a disk that survives a crash, a
 database connection with one transaction at a time, and the writer of the index
 library, which keeps what was not committed in memory.
 */
module Storage {
  import opened Wrappers
  import opened Events
  import opened Sequences
  import T = Tables
  import opened Soundness
  import opened Protocol

  /** What survives. The log lists the states it had after each durable commit. */
  class Disk {
    var tables: T.Tables
    var docs: seq<Doc>
    ghost var log: seq<Durable>

    constructor (d: Durable)
      ensures tables == d.tables && docs == d.docs && log == []
    {
      tables, docs, log := d.tables, d.docs, [];
    }
  }

  class Connection {
    const disk: Disk
    var tables: T.Tables

    constructor (disk: Disk)
      ensures this.disk == disk && tables == disk.tables
    {
      this.disk := disk;
      tables := disk.tables;
    }

    method Transaction()
      modifies this
      ensures tables == disk.tables
    {
      tables := disk.tables;
    }

    method Commit()
      modifies disk
      ensures disk.tables == tables && disk.docs == old(disk.docs)
      ensures disk.log == old(disk.log) + [Durable(tables, disk.docs)]
    {
      disk.tables := tables;
      disk.log := disk.log + [Durable(tables, disk.docs)];
    }

    /** Dropping a transaction that was not committed. */
    method Rollback()
      modifies this
      ensures tables == disk.tables
    {
      tables := disk.tables;
    }

    method GetRoomId(room: RoomId) returns (id: int)
      modifies this
      ensures (tables, id) == T.GetRoomId(old(tables), room)
    {
      var (rooms, found) := T.Intern(tables.rooms, room);
      tables, id := tables.(rooms := rooms), found;
    }

    method SaveProfile(userId: string, p: Profile) returns (id: int)
      modifies this
      ensures (tables, id) == T.SaveProfile(old(tables), userId, p)
    {
      var displayname := if p.displayname.Some? then p.displayname.value else "";
      var avatarUrl := if p.avatarUrl.Some? then p.avatarUrl.value else "";
      var (profiles, found) := T.Intern(tables.profiles, T.ProfileRow(userId, displayname, avatarUrl));
      tables, id := tables.(profiles := profiles), found;
    }

    method EventInStore(e: Event) returns (r: Result<bool, T.SqlError>)
      modifies this
      ensures (tables, r) == T.EventInStore(old(tables), e)
    {
      var roomId := GetRoomId(e.roomId);
      var count := |T.RowsWith(tables, e.eventId, roomId)|;
      if count == 0 {
        r := Success(false);
      } else if count == 1 {
        r := Success(true);
      } else {
        r := Failure(T.Unreachable);
      }
    }

    method SaveEventHelper(e: Event, profileId: int) returns (r: Result<int, T.SqlError>)
      modifies this
      ensures (tables, r) == T.SaveEventHelper(old(tables), e, profileId)
    {
      var roomId := GetRoomId(e.roomId);
      var inserted := T.InsertEvent(tables, T.RowFor(e, roomId, profileId));
      if inserted.Failure? {
        return Failure(inserted.error);
      }
      tables := inserted.value.0;
      var waiting := T.InsertUncommitted(tables, inserted.value.1, e.contentValue);
      if waiting.Failure? {
        return Failure(waiting.error);
      }
      tables := waiting.value.0;
      r := Success(waiting.value.1);
    }

    method SaveEvent(e: Event, p: Profile) returns (r: Result<Option<int>, T.SqlError>)
      modifies this
      ensures (tables, r) == T.SaveEvent(old(tables), e, p)
    {
      var inStore := EventInStore(e);
      if inStore.Failure? {
        return Failure(inStore.error);
      }
      if inStore.value {
        return Success(None);
      }
      var profileId := SaveProfile(e.sender, p);
      var saved := SaveEventHelper(e, profileId);
      if saved.Failure? {
        return Failure(saved.error);
      }
      r := Success(Some(saved.value));
    }

    /** Runs the replay query; the order of its rows is not determined. */
    method LoadUncommittedEvents() returns (rows: seq<(int, Event)>)
      ensures IdSet(Ids(rows)) == T.JoinedUncommitted(tables) && NoRepeat(Ids(rows))
      ensures forall i | 0 <= i < |rows| ::
                && rows[i].0 in T.JoinedUncommitted(tables)
                && rows[i].1 == ReplayEvent(tables, rows[i].0)
    {
      rows := [];
      var rest := T.JoinedUncommitted(tables);
      while rest != {}
        invariant rest <= T.JoinedUncommitted(tables)
        invariant IdSet(Ids(rows)) == T.JoinedUncommitted(tables) - rest && NoRepeat(Ids(rows))
        invariant forall i | 0 <= i < |rows| ::
                    && rows[i].0 in T.JoinedUncommitted(tables)
                    && rows[i].1 == ReplayEvent(tables, rows[i].0)
        decreases rest
      {
        assert (forall x: int :: x !in rest) ==> rest == {};
        var u :| u in rest;
        var row := tables.events[tables.uncommitted[u].eventRow];
        var e := Event(row.eventType, tables.uncommitted[u].contentValue, row.msgtype, row.eventId,
                       row.sender, row.serverTs, tables.rooms[row.roomId], row.source);
        IdsAppend(rows, (u, e));
        NoRepeatSnoc(Ids(rows), u) by { assert u !in IdSet(Ids(rows)); }
        rows := rows + [(u, e)];
        rest := rest - {u};
      }
    }

    method LoadPendingDeletionEvents() returns (ids: seq<EventId>)
      ensures EventIdSet(ids) == tables.pending && NoRepeat(ids)
    {
      ids := [];
      var rest := tables.pending;
      while rest != {}
        invariant rest <= tables.pending
        invariant EventIdSet(ids) == tables.pending - rest && NoRepeat(ids)
        decreases rest
      {
        var x :| x in rest;
        assert EventIdSet(ids + [x]) == EventIdSet(ids) + {x};
        NoRepeatSnoc(ids, x) by { assert x !in EventIdSet(ids); }
        ids := ids + [x];
        rest := rest - {x};
      }
    }
  }

  function Ids(rows: seq<(int, Event)>): seq<int> {
    seq(|rows|, i requires 0 <= i < |rows| => rows[i].0)
  }

  lemma IdsAppend(rows: seq<(int, Event)>, row: (int, Event))
    ensures Ids(rows + [row]) == Ids(rows) + [row.0]
    ensures IdSet(Ids(rows + [row])) == IdSet(Ids(rows)) + {row.0}
  {
  }

  function WithoutAll(docs: seq<Doc>, ids: seq<EventId>): seq<Doc>
    decreases |ids|
  {
    if ids == [] then docs else WithoutAll(Without(docs, ids[0]), ids[1..])
  }

  /** The writer of the index library: a deletion acts on everything added before
      it, and neither additions nor deletions are durable until the commit. */
  class TantivyWriter {
    const disk: Disk
    var pending: seq<Doc>
    var deleted: seq<EventId>

    constructor (disk: Disk)
      ensures this.disk == disk && pending == [] && deleted == []
    {
      this.disk := disk;
      pending, deleted := [], [];
    }

    method AddDocument(d: Doc)
      modifies this
      ensures pending == old(pending) + [d] && deleted == old(deleted)
    {
      pending := pending + [d];
    }

    method DeleteTerm(eventId: EventId)
      modifies this
      ensures pending == Without(old(pending), eventId) && deleted == old(deleted) + [eventId]
    {
      pending := Without(pending, eventId);
      deleted := deleted + [eventId];
    }

    method Commit()
      modifies this, disk
      ensures disk.docs == WithoutAll(old(disk.docs), old(deleted)) + old(pending)
      ensures disk.tables == old(disk.tables)
      ensures disk.log == old(disk.log) + [Durable(disk.tables, disk.docs)]
      ensures pending == [] && deleted == []
    {
      disk.docs := WithoutAll(disk.docs, deleted) + pending;
      disk.log := disk.log + [Durable(disk.tables, disk.docs)];
      pending, deleted := [], [];
    }

    /** Dropping the writer loses what it had not committed. */
    method WaitMergingThreads()
      modifies this
      ensures pending == [] && deleted == []
    {
      pending, deleted := [], [];
    }
  }
}
