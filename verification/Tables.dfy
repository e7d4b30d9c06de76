/**
 The SQLite event store: its tables with the constraints that matter (UNIQUE,
 FOREIGN KEY, INTEGER PRIMARY KEY allocation) and the statements the database
 layer runs on them.
 */
module Tables {
  import opened Wrappers
  import opened Events

  datatype ProfileRow = ProfileRow(userId: string, displayname: string, avatarUrl: string)

  datatype EventRow = EventRow(
    eventId: EventId, sender: string, serverTs: int, roomId: int,
    eventType: EventType, msgtype: Option<string>, source: string, profileId: int)

  datatype UncommittedRow = UncommittedRow(eventRow: int, contentValue: string)

  datatype Tables = Tables(
    profiles: map<int, ProfileRow>,
    rooms: map<int, RoomId>,
    events: map<int, EventRow>,
    uncommitted: map<int, UncommittedRow>,
    pending: set<EventId>,
    checkpoints: set<CrawlerCheckpoint>)

  const EMPTY_TABLES := Tables(map[], map[], map[], map[], {}, {})

  datatype SqlError = UniqueViolation | ForeignKeyViolation | StatementChangedRows | Unreachable

  // ----- Row ids -----

  lemma {:induction false} MaxWitness(s: set<int>) returns (m: int)
    requires s != {}
    ensures m in s && forall x | x in s :: x <= m
  {
    assert (forall a: int :: a !in s) ==> s == {};
    var a :| a in s;
    var rest := s - {a};
    m := a;
    if rest != {} {
      var b := MaxWitness(rest);
      if a <= b {
        m := b;
      }
    }
    forall x | x in s
      ensures x <= m
    {
      assert x == a || x in rest;
    }
  }

  lemma MaxExists(s: set<int>)
    requires s != {}
    ensures exists m :: m in s && forall x | x in s :: x <= m
  {
    var m := MaxWitness(s);
  }

  function MaxOf(s: set<int>): (m: int)
    requires s != {}
    ensures m in s && forall x | x in s :: x <= m
  {
    MaxExists(s);
    var m :| m in s && forall x | x in s :: x <= m;
    m
  }

  lemma {:induction false} MinWitness(s: set<int>) returns (m: int)
    requires s != {}
    ensures m in s && forall x | x in s :: m <= x
  {
    assert (forall a: int :: a !in s) ==> s == {};
    var a :| a in s;
    var rest := s - {a};
    m := a;
    if rest != {} {
      var b := MinWitness(rest);
      if b <= a {
        m := b;
      }
    }
    forall x | x in s
      ensures m <= x
    {
      assert x == a || x in rest;
    }
  }

  lemma MinExists(s: set<int>)
    requires s != {}
    ensures exists m :: m in s && forall x | x in s :: m <= x
  {
    var m := MinWitness(s);
  }

  function MinOf(s: set<int>): (m: int)
    requires s != {}
    ensures m in s && forall x | x in s :: m <= x
  {
    MinExists(s);
    var m :| m in s && forall x | x in s :: m <= x;
    m
  }

  /** SQLite's choice for an INTEGER PRIMARY KEY: one more than the largest id in
      use, so the id of a deleted last row is handed out again. */
  function NextId<V>(m: map<int, V>): (id: int)
    ensures id !in m
    ensures forall x | x in m :: x < id
    ensures if m.Keys == {} then id == 1 else id - 1 in m
  {
    if m.Keys == {} then 1 else MaxOf(m.Keys) + 1
  }

  /** Deleting the last row makes its id, or a smaller one, available again; deleting
      another row does not change what is handed out next. */
  lemma LastIdReused<V>(m: map<int, V>, id: int)
    requires id in m && id >= 1
    ensures var next := NextId(m - {id});
            if id + 1 != NextId(m) then next == NextId(m)
            else next <= id && (id - 1 in m ==> next == id)
  {
    var rest := m - {id};
    assert rest.Keys != {} ==> NextId(rest) - 1 in rest;
    assert id + 1 != NextId(m) ==> NextId(m) - 1 in rest;
    assert id - 1 in m ==> id - 1 in rest;
  }

  // ----- Tables of unique values: rooms and profiles -----

  predicate HasValue<V(==)>(m: map<int, V>, v: V) {
    exists id | id in m :: m[id] == v
  }

  ghost predicate Injective<V(!new)>(m: map<int, V>) {
    forall a, b | a in m && b in m && m[a] == m[b] :: a == b
  }

  /** m is a part of n. */
  ghost predicate Within<V(!new)>(m: map<int, V>, n: map<int, V>) {
    forall a | a in m :: a in n && n[a] == m[a]
  }

  /** INSERT OR IGNORE of a value followed by the SELECT of its id. */
  function Intern<V(==,!new)>(m: map<int, V>, v: V): (r: (map<int, V>, int))
    ensures r.1 in r.0 && r.0[r.1] == v
    ensures Within(m, r.0)
    ensures Injective(m) ==> Injective(r.0)
    ensures HasValue(m, v) ==> r.0 == m
  {
    var n := if HasValue(m, v) then m else m[NextId(m) := v];
    var ids := set id | id in n && n[id] == v;
    assert ids != {} by {
      if HasValue(m, v) {
        var id :| id in m && m[id] == v;
        assert id in ids;
      } else {
        assert NextId(m) in ids;
      }
    }
    (n, MinOf(ids))
  }

  function GetRoomId(t: Tables, room: RoomId): (Tables, int) {
    var (rooms, id) := Intern(t.rooms, room);
    (t.(rooms := rooms), id)
  }

  function OrEmpty(s: Option<string>): string {
    match s
    case Some(x) => x
    case None => ""
  }

  function SaveProfile(t: Tables, userId: string, p: Profile): (Tables, int) {
    var row := ProfileRow(userId, OrEmpty(p.displayname), OrEmpty(p.avatarUrl));
    var (profiles, id) := Intern(t.profiles, row);
    (t.(profiles := profiles), id)
  }

  // ----- Statements on events and the bookkeeping tables -----

  /** The rows that SELECT COUNT(*) counts in the look-up of an event. */
  function RowsWith(t: Tables, eventId: EventId, roomId: int): set<int> {
    set r | r in t.events && t.events[r].eventId == eventId && t.events[r].roomId == roomId
  }

  function InsertEvent(t: Tables, row: EventRow): Result<(Tables, int), SqlError> {
    if RowsWith(t, row.eventId, row.roomId) != {} then Failure(UniqueViolation)
    else if row.roomId !in t.rooms || row.profileId !in t.profiles then Failure(ForeignKeyViolation)
    else
      var id := NextId(t.events);
      Success((t.(events := t.events[id := row]), id))
  }

  predicate IsUncommitted(t: Tables, row: int) {
    exists u | u in t.uncommitted :: t.uncommitted[u].eventRow == row
  }

  /** INSERT OR IGNORE; the call that runs it reports an ignored row as an error. */
  function InsertUncommitted(t: Tables, row: int, content: string): Result<(Tables, int), SqlError> {
    if IsUncommitted(t, row) then Failure(StatementChangedRows)
    else if row !in t.events then Failure(ForeignKeyViolation)
    else
      var id := NextId(t.uncommitted);
      Success((t.(uncommitted := t.uncommitted[id := UncommittedRow(row, content)]), id))
  }

  /** DELETE FROM events; the foreign key of uncommitted_events refuses it as
      long as one of the rows is still waiting for the index. */
  function DeleteEventsById(t: Tables, eventId: EventId): Result<Tables, SqlError> {
    var rows := set r | r in t.events && t.events[r].eventId == eventId;
    if exists u | u in t.uncommitted :: t.uncommitted[u].eventRow in rows then
      Failure(ForeignKeyViolation)
    else
      Success(t.(events := t.events - rows))
  }

  function ReplaceCheckpoint(
    t: Tables, newCheckpoint: Option<CrawlerCheckpoint>, oldCheckpoint: Option<CrawlerCheckpoint>)
    : Tables
  {
    var added := if newCheckpoint.Some? then t.checkpoints + {newCheckpoint.value} else t.checkpoints;
    t.(checkpoints := if oldCheckpoint.Some? then added - {oldCheckpoint.value} else added)
  }

  /** The uncommitted rows that survive the inner joins with events and rooms. */
  function JoinedUncommitted(t: Tables): set<int> {
    set u | u in t.uncommitted
            && t.uncommitted[u].eventRow in t.events
            && t.events[t.uncommitted[u].eventRow].roomId in t.rooms
  }

  // ----- Saving events -----

  function EventInStore(t: Tables, e: Event): (Tables, Result<bool, SqlError>) {
    var (t1, roomId) := GetRoomId(t, e.roomId);
    var count := |RowsWith(t1, e.eventId, roomId)|;
    (t1, if count == 0 then Success(false) else if count == 1 then Success(true) else Failure(Unreachable))
  }

  /** The row that is stored for an event. */
  function RowFor(e: Event, roomId: int, profileId: int): EventRow {
    EventRow(e.eventId, e.sender, e.serverTs, roomId, e.eventType, e.msgtype, e.source, profileId)
  }

  function SaveEventHelper(t: Tables, e: Event, profileId: int): (Tables, Result<int, SqlError>) {
    var (t1, roomId) := GetRoomId(t, e.roomId);
    match InsertEvent(t1, RowFor(e, roomId, profileId))
    case Failure(err) => (t1, Failure(err))
    case Success((t2, row)) =>
      match InsertUncommitted(t2, row, e.contentValue)
      case Failure(err) => (t2, Failure(err))
      case Success((t3, id)) => (t3, Success(id))
  }

  /** None if the event was stored before, otherwise its uncommitted row. */
  function SaveEvent(t: Tables, e: Event, p: Profile): (Tables, Result<Option<int>, SqlError>) {
    var (t1, inStore) := EventInStore(t, e);
    match inStore
    case Failure(err) => (t1, Failure(err))
    case Success(true) => (t1, Success(None))
    case Success(false) =>
      var (t2, profileId) := SaveProfile(t1, e.sender, p);
      var (t3, saved) := SaveEventHelper(t2, e, profileId);
      match saved
      case Failure(err) => (t3, Failure(err))
      case Success(id) => (t3, Success(Some(id)))
  }

  datatype Saved = Saved(
    tables: Tables, ids: seq<int>, docs: seq<Doc>, allStored: bool, error: Option<SqlError>)

  /** The result of a batch whose first event was handled as `first` says. */
  function Prepend(first: Option<int>, d: Doc, rest: Saved): Saved {
    match first
    case None => rest
    case Some(id) => Saved(rest.tables, [id] + rest.ids, [d] + rest.docs, false, rest.error)
  }

  /** Saves a batch in order: the uncommitted rows it made, the documents it
      handed to the index, and whether every event was there already. */
  function SaveEvents(t: Tables, batch: seq<Entry>): Saved
    decreases |batch|
  {
    if batch == [] then Saved(t, [], [], true, None)
    else
      var (t1, res) := SaveEvent(t, batch[0].0, batch[0].1);
      match res
      case Failure(err) => Saved(t1, [], [], true, Some(err))
      case Success(first) => Prepend(first, DocOf(batch[0].0), SaveEvents(t1, batch[1..]))
  }
}
