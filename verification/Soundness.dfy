/**
 Referential integrity of the event store and what saving events does to it.
 */
module Soundness {
  import opened Wrappers
  import opened Events
  import opened Tables

  /** FOREIGN KEY of events. */
  ghost predicate EventsLinked(t: Tables) {
    forall r | r in t.events :: t.events[r].roomId in t.rooms && t.events[r].profileId in t.profiles
  }

  /** UNIQUE(event_id, room_id) of events. */
  ghost predicate EventsUnique(t: Tables) {
    forall r, s | r in t.events && s in t.events ::
      t.events[r].eventId == t.events[s].eventId && t.events[r].roomId == t.events[s].roomId ==> r == s
  }

  /** FOREIGN KEY and UNIQUE(event_id) of uncommitted_events. */
  ghost predicate UncommittedLinked(t: Tables) {
    && (forall u | u in t.uncommitted :: t.uncommitted[u].eventRow in t.events)
    && (forall u, v | u in t.uncommitted && v in t.uncommitted ::
          t.uncommitted[u].eventRow == t.uncommitted[v].eventRow ==> u == v)
  }

  /** UNIQUE and FOREIGN KEY hold on every table. */
  ghost predicate Sound(t: Tables) {
    && Injective(t.rooms)
    && Injective(t.profiles)
    && EventsLinked(t)
    && EventsUnique(t)
    && UncommittedLinked(t)
  }

  /** The document fields the row of an event stands for. */
  function RowIdent(t: Tables, r: int): Ident
    requires r in t.events
  {
    var row := t.events[r];
    var room := if row.roomId in t.rooms then t.rooms[row.roomId] else "";
    Ident(Key(row.eventId, room), row.sender, AsU64(row.serverTs), row.eventType)
  }

  function RowIdents(t: Tables): set<Ident> {
    set r | r in t.events :: RowIdent(t, r)
  }

  function Keys(t: Tables): set<Key> {
    set r | r in t.events :: RowIdent(t, r).key
  }

  /** The document that replaying an uncommitted row adds to the index. */
  function ReplayDoc(t: Tables, u: int): Doc
    requires u in t.uncommitted && t.uncommitted[u].eventRow in t.events
  {
    Doc(RowIdent(t, t.uncommitted[u].eventRow), t.uncommitted[u].contentValue)
  }

  /** The event that the replay query returns for an uncommitted row. */
  function ReplayEvent(t: Tables, u: int): (e: Event)
    requires u in t.uncommitted && t.uncommitted[u].eventRow in t.events
    requires t.events[t.uncommitted[u].eventRow].roomId in t.rooms
    ensures DocOf(e) == ReplayDoc(t, u)
  {
    var row := t.events[t.uncommitted[u].eventRow];
    Event(row.eventType, t.uncommitted[u].contentValue, row.msgtype, row.eventId,
          row.sender, row.serverTs, t.rooms[row.roomId], row.source)
  }

  /** t' keeps every row of t and both queues that saving does not touch. */
  ghost predicate Extends(t: Tables, t': Tables) {
    && Within(t.profiles, t'.profiles)
    && Within(t.rooms, t'.rooms)
    && Within(t.events, t'.events)
    && Within(t.uncommitted, t'.uncommitted)
    && t'.pending == t.pending
    && t'.checkpoints == t.checkpoints
  }

  lemma RowIdentStable(t: Tables, t': Tables, r: int)
    requires Sound(t) && Extends(t, t') && r in t.events
    ensures r in t'.events && RowIdent(t', r) == RowIdent(t, r)
  {
  }

  /** Under integrity the join of the replay query drops no row. */
  lemma JoinDropsNoRow(t: Tables)
    requires Sound(t)
    ensures JoinedUncommitted(t) == t.uncommitted.Keys
  {
    forall u | u in t.uncommitted
      ensures u in JoinedUncommitted(t)
    {
      assert t.uncommitted[u].eventRow in t.events;
    }
  }

  /** A key is present exactly if the row look-up finds one row, never more. */
  lemma LookupCountsKey(t: Tables, e: Event, roomId: int)
    requires Sound(t) && roomId in t.rooms && t.rooms[roomId] == e.roomId
    ensures |RowsWith(t, e.eventId, roomId)| == if KeyOf(e) in Keys(t) then 1 else 0
  {
    var rows := RowsWith(t, e.eventId, roomId);
    assert forall r | r in rows :: RowIdent(t, r).key == KeyOf(e);
    assert forall r | r in t.events :: RowIdent(t, r).key in Keys(t);
    assert (forall r: int :: r !in rows) ==> rows == {};
    if KeyOf(e) in Keys(t) {
      var r :| r in t.events && RowIdent(t, r).key == KeyOf(e);
      assert t.events[r].roomId in t.rooms;
      assert t.events[r].roomId == roomId;
      assert r in rows;
      forall s | s in rows ensures s == r {
        assert t.events[s].eventId == t.events[r].eventId;
      }
      assert rows == {r};
    }
  }

  /** What a stored event looks like after the step that stored it. */
  ghost predicate Stored(t: Tables, t': Tables, e: Event, u: int) {
    var row := NextId(t.events);
    && row in t'.events && t'.events.Keys == t.events.Keys + {row}
    && RowIdent(t', row) == DocOf(e).ident
    && t'.events[row].eventId == e.eventId
    && u !in t.uncommitted
    && t'.uncommitted == t.uncommitted[u := UncommittedRow(row, e.contentValue)]
  }

  lemma InternRoomSound(t: Tables, room: RoomId)
    requires Sound(t)
    ensures var (t', id) := GetRoomId(t, room);
            && Sound(t') && Extends(t, t')
            && t'.events == t.events && t'.uncommitted == t.uncommitted
            && id in t'.rooms && t'.rooms[id] == room
            && HasValue(t'.rooms, room)
  {
  }

  lemma InternProfileSound(t: Tables, userId: string, p: Profile)
    requires Sound(t)
    ensures var (t', id) := SaveProfile(t, userId, p);
            && Sound(t') && Extends(t, t')
            && t'.events == t.events && t'.uncommitted == t.uncommitted && t'.rooms == t.rooms
            && id in t'.profiles
  {
  }

  lemma KeysStable(t: Tables, t': Tables)
    requires Sound(t) && Extends(t, t') && t'.events == t.events
    ensures Keys(t') == Keys(t) && RowIdents(t') == RowIdents(t)
  {
  }

  /** INSERT INTO events is not refused for a key that is not there. */
  lemma InsertEventSound(t: Tables, row: EventRow)
    requires Sound(t)
    requires row.roomId in t.rooms && row.profileId in t.profiles
    requires RowsWith(t, row.eventId, row.roomId) == {}
    ensures InsertEvent(t, row).Success?
    ensures var (t', id) := InsertEvent(t, row).value;
            && Sound(t') && Extends(t, t') && id !in t.events
            && t' == t.(events := t.events[id := row])
  {
    var (t', id) := InsertEvent(t, row).value;
    forall r | r in t.events
      ensures !(t.events[r].eventId == row.eventId && t.events[r].roomId == row.roomId)
    {
      assert r !in RowsWith(t, row.eventId, row.roomId);
    }
  }

  /** INSERT OR IGNORE INTO uncommitted_events is not ignored for a new row. */
  lemma InsertUncommittedSound(t: Tables, row: int, content: string)
    requires Sound(t) && row in t.events && !IsUncommitted(t, row)
    ensures InsertUncommitted(t, row, content).Success?
    ensures var (t', id) := InsertUncommitted(t, row, content).value;
            && Sound(t') && Extends(t, t') && id !in t.uncommitted
            && t' == t.(uncommitted := t.uncommitted[id := UncommittedRow(row, content)])
  {
  }

  lemma SaveNewEventSound(t: Tables, e: Event, profileId: int)
    requires Sound(t) && profileId in t.profiles
    requires HasValue(t.rooms, e.roomId) && KeyOf(e) !in Keys(t)
    ensures var (t', res) := SaveEventHelper(t, e, profileId);
            res.Success? && Sound(t') && Extends(t, t') && Stored(t, t', e, res.value)
  {
    var (t1, roomId) := GetRoomId(t, e.roomId);
    assert t1 == t;
    var row := RowFor(e, roomId, profileId);
    assert RowsWith(t, row.eventId, row.roomId) == {} by { LookupCountsKey(t, e, roomId); }
    InsertEventSound(t, row);
    var (t2, id) := InsertEvent(t, row).value;
    assert !IsUncommitted(t2, id);
    InsertUncommittedSound(t2, id, e.contentValue);
    var (t3, u) := InsertUncommitted(t2, id, e.contentValue).value;
    assert SaveEventHelper(t, e, profileId) == (t3, Success(u));
    assert Extends(t, t3);
    assert RowIdent(t3, id) == DocOf(e).ident;
  }

  lemma SaveEventSound(t: Tables, e: Event, p: Profile)
    requires Sound(t)
    ensures var (t', res) := SaveEvent(t, e, p);
            && res.Success? && Sound(t') && Extends(t, t')
            && (res.value.None? <==> KeyOf(e) in Keys(t))
            && (res.value.None? ==> t' == t)
            && (res.value.Some? ==> Stored(t, t', e, res.value.value))
  {
    var (t1, roomId) := GetRoomId(t, e.roomId);
    InternRoomSound(t, e.roomId);
    KeysStable(t, t1);
    LookupCountsKey(t1, e, roomId);
    if KeyOf(e) !in Keys(t) {
      var (t2, profileId) := SaveProfile(t1, e.sender, p);
      InternProfileSound(t1, e.sender, p);
      KeysStable(t1, t2);
      SaveNewEventSound(t2, e, profileId);
    }
  }

  /** Every column of the row of a new event, with the profile of its sender. */
  lemma SaveEventColumns(t: Tables, e: Event, p: Profile)
    requires Sound(t) && KeyOf(e) !in Keys(t)
    ensures var (t', _) := SaveEvent(t, e, p);
            var r := NextId(t.events);
            && r in t'.events
            && var row := t'.events[r];
               && row.roomId in t'.rooms && row.profileId in t'.profiles
               && row == EventRow(
                    e.eventId, e.sender, e.serverTs, row.roomId, e.eventType, e.msgtype, e.source, row.profileId)
               && t'.rooms[row.roomId] == e.roomId
               && t'.profiles[row.profileId].userId == e.sender
               && var profile := t'.profiles[row.profileId];
                  && profile.displayname == (if p.displayname.Some? then p.displayname.value else "")
                  && profile.avatarUrl == (if p.avatarUrl.Some? then p.avatarUrl.value else "")
  {
    var (t1, roomId) := GetRoomId(t, e.roomId);
    InternRoomSound(t, e.roomId);
    KeysStable(t, t1);
    LookupCountsKey(t1, e, roomId);
    var (t2, profileId) := SaveProfile(t1, e.sender, p);
    InternProfileSound(t1, e.sender, p);
    KeysStable(t1, t2);
    SaveNewEventSound(t2, e, profileId);
    SavedRow(t2, e, profileId);
  }

  lemma SavedRow(t: Tables, e: Event, profileId: int)
    requires SaveEventHelper(t, e, profileId).1.Success?
    ensures var t' := SaveEventHelper(t, e, profileId).0;
            var r := NextId(t.events);
            && r in t'.events && t'.profiles == t.profiles
            && var row := t'.events[r];
               && row.roomId in t'.rooms && t'.rooms[row.roomId] == e.roomId
               && row == EventRow(
                    e.eventId, e.sender, e.serverTs, row.roomId, e.eventType, e.msgtype, e.source, profileId)
  {
  }

  /** What replay reads back is the event that was saved, every field of it, also after
      later events were saved. */
  lemma SavedEventIsReplayed(t: Tables, e: Event, p: Profile, t': Tables)
    requires Sound(t) && KeyOf(e) !in Keys(t) && Extends(SaveEvent(t, e, p).0, t')
    ensures var u := SaveEvent(t, e, p).1;
            && u.Success? && u.value.Some? && u.value.value in t'.uncommitted
            && t'.uncommitted[u.value.value].eventRow in t'.events
            && t'.events[t'.uncommitted[u.value.value].eventRow].roomId in t'.rooms
            && ReplayEvent(t', u.value.value) == e
  {
    SaveEventSound(t, e, p);
    SaveEventColumns(t, e, p);
  }

  // ----- Saving a whole batch -----

  lemma ExtendsTransitive(a: Tables, b: Tables, c: Tables)
    requires Extends(a, b) && Extends(b, c)
    ensures Extends(a, c)
  {
  }

  lemma StoredKeys(t: Tables, t': Tables, e: Event, u: int)
    requires Sound(t) && Extends(t, t') && Stored(t, t', e, u)
    ensures Keys(t') == Keys(t) + {KeyOf(e)}
  {
  }

  function IdSet(ids: seq<int>): set<int> {
    set u | u in ids
  }

  /** Every id is a live uncommitted row whose document is among the docs. */
  ghost predicate IdsBacked(t: Tables, ids: seq<int>, docs: seq<Doc>) {
    forall u | u in ids ::
      u in t.uncommitted && t.uncommitted[u].eventRow in t.events && ReplayDoc(t, u) in docs
  }

  /** Every document stands for a row, and for none that was there before. */
  ghost predicate DocsNew(t: Tables, t': Tables, docs: seq<Doc>) {
    forall d | d in docs :: d.ident in RowIdents(t') && d.ident.key !in Keys(t)
  }

  /** Every added row waits for the index and belongs to the batch. */
  ghost predicate RowsWait(t: Tables, t': Tables, batch: seq<Entry>) {
    forall r | r in t'.events && r !in t.events ::
      IsUncommitted(t', r) && RowIdent(t', r).key in BatchKeys(batch)
  }

  ghost predicate RowsAdded(t: Tables, t': Tables, batch: seq<Entry>, ids: seq<int>, docs: seq<Doc>) {
    && t'.uncommitted.Keys == t.uncommitted.Keys + IdSet(ids)
    && IdsBacked(t', ids, docs)
    && DocsNew(t, t', docs)
    && RowsWait(t, t', batch)
  }

  ghost predicate KeysAdded(t: Tables, batch: seq<Entry>, t': Tables) {
    Sound(t') && Extends(t, t') && Keys(t') == Keys(t) + BatchKeys(batch)
  }

  ghost predicate BatchSaved(t: Tables, batch: seq<Entry>, s: Saved) {
    && s.error.None?
    && KeysAdded(t, batch, s.tables)
    && (s.allStored <==> BatchKeys(batch) <= Keys(t))
    && (s.allStored ==> s.tables.events == t.events && s.docs == [])
    && |s.docs| == |s.ids|
    && RowsAdded(t, s.tables, batch, s.ids, s.docs)
  }

  lemma StoredLasts(t: Tables, t1: Tables, t2: Tables, e: Event, u: int)
    requires Sound(t1) && Extends(t1, t2) && Stored(t, t1, e, u)
    ensures var row := NextId(t.events);
            && row in t2.events && RowIdent(t2, row) == DocOf(e).ident && IsUncommitted(t2, row)
            && u in t2.uncommitted && t2.uncommitted[u].eventRow == row && ReplayDoc(t2, u) == DocOf(e)
  {
    var row := NextId(t.events);
    RowIdentStable(t1, t2, row);
    assert u in t1.uncommitted && t1.uncommitted[u].eventRow == row;
  }

  lemma DocsNewCons(t: Tables, t1: Tables, t2: Tables, e: Event, u: int, docs: seq<Doc>)
    requires Sound(t) && Sound(t1) && Extends(t, t1) && Extends(t1, t2)
    requires Stored(t, t1, e, u) && KeyOf(e) !in Keys(t)
    requires DocsNew(t1, t2, docs)
    ensures DocsNew(t, t2, [DocOf(e)] + docs)
  {
  }

  lemma RowsWaitCons(t: Tables, t1: Tables, t2: Tables, batch: seq<Entry>, u: int)
    requires Sound(t) && Sound(t1) && Extends(t, t1) && Extends(t1, t2) && batch != []
    requires Stored(t, t1, batch[0].0, u)
    requires RowsWait(t1, t2, batch[1..])
    ensures RowsWait(t, t2, batch)
  {
    StoredLasts(t, t1, t2, batch[0].0, u);
    BatchKeysCons(batch);
    forall r | r in t2.events && r !in t.events
      ensures IsUncommitted(t2, r) && RowIdent(t2, r).key in BatchKeys(batch)
    {
      assert r == NextId(t.events) || r !in t1.events;
    }
  }

  lemma IdsBackedCons(t: Tables, u: int, d: Doc, ids: seq<int>, docs: seq<Doc>)
    requires u in t.uncommitted && t.uncommitted[u].eventRow in t.events && ReplayDoc(t, u) == d
    requires IdsBacked(t, ids, docs)
    ensures IdsBacked(t, [u] + ids, [d] + docs)
    ensures IdSet([u] + ids) == {u} + IdSet(ids)
  {
  }

  lemma RowsAddedCons(
    t: Tables, t1: Tables, t2: Tables, batch: seq<Entry>, u: int, ids: seq<int>, docs: seq<Doc>)
    requires Sound(t) && Sound(t1) && Extends(t, t1) && Extends(t1, t2) && batch != []
    requires Stored(t, t1, batch[0].0, u) && KeyOf(batch[0].0) !in Keys(t)
    requires RowsAdded(t1, t2, batch[1..], ids, docs)
    ensures RowsAdded(t, t2, batch, [u] + ids, [DocOf(batch[0].0)] + docs)
  {
    StoredLasts(t, t1, t2, batch[0].0, u);
    DocsNewCons(t, t1, t2, batch[0].0, u, docs);
    RowsWaitCons(t, t1, t2, batch, u);
    IdsBackedCons(t2, u, DocOf(batch[0].0), ids, docs);
  }

  lemma {:induction false} SaveEventsSound(t: Tables, batch: seq<Entry>)
    requires Sound(t)
    ensures BatchSaved(t, batch, SaveEvents(t, batch))
    decreases |batch|
  {
    if batch == [] {
    } else {
      var (t1, res) := SaveEvent(t, batch[0].0, batch[0].1);
      SaveEventSound(t, batch[0].0, batch[0].1);
      SaveEventsSound(t1, batch[1..]);
      if res.value.None? {
        BatchSavedOld(t, t1, batch, SaveEvents(t1, batch[1..]));
      } else {
        BatchSavedNew(t, t1, batch, res.value.value, SaveEvents(t1, batch[1..]));
      }
    }
  }

  lemma BatchSavedOld(t: Tables, t1: Tables, batch: seq<Entry>, rest: Saved)
    requires Sound(t) && Sound(t1) && Extends(t, t1) && batch != []
    requires t1.events == t.events && t1.uncommitted == t.uncommitted && KeyOf(batch[0].0) in Keys(t)
    requires BatchSaved(t1, batch[1..], rest)
    ensures BatchSaved(t, batch, rest)
  {
    ExtendsTransitive(t, t1, rest.tables);
    BatchKeysCons(batch);
    KeysStable(t, t1);
  }

  lemma KeysAddedCons(t: Tables, t1: Tables, t2: Tables, batch: seq<Entry>, u: int)
    requires Sound(t) && Sound(t1) && Extends(t, t1) && batch != []
    requires Stored(t, t1, batch[0].0, u)
    requires KeysAdded(t1, batch[1..], t2)
    ensures KeysAdded(t, batch, t2)
  {
    ExtendsTransitive(t, t1, t2);
    BatchKeysCons(batch);
    StoredKeys(t, t1, batch[0].0, u);
  }

  lemma BatchSavedNew(t: Tables, t1: Tables, batch: seq<Entry>, u: int, rest: Saved)
    requires Sound(t) && Sound(t1) && Extends(t, t1) && batch != []
    requires Stored(t, t1, batch[0].0, u) && KeyOf(batch[0].0) !in Keys(t)
    requires BatchSaved(t1, batch[1..], rest)
    ensures BatchSaved(t, batch, Saved(rest.tables, [u] + rest.ids, [DocOf(batch[0].0)] + rest.docs, false, rest.error))
  {
    KeysAddedCons(t, t1, rest.tables, batch, u);
    RowsAddedCons(t, t1, rest.tables, batch, u, rest.ids, rest.docs);
    BatchKeysCons(batch);
  }

  lemma BatchKeysCons(batch: seq<Entry>)
    requires batch != []
    ensures BatchKeys(batch) == {KeyOf(batch[0].0)} + BatchKeys(batch[1..])
  {
  }
}
