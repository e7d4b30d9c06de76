/**
 Rebuilding the index: reading the stored messages back in batches, newest first,
 and what the loop over the batches reaches.
 */
module Reindex {
  import opened Wrappers
  import opened Sequences
  import opened Events
  import opened Tables

  const REINDEX_BATCH: nat := 500

  // ----- Events from their stored source -----

  /** A parsed JSON value; numbers that are not integers are among the others. */
  datatype Json = JString(text: string) | JNumber(n: int) | JObject(fields: map<string, Json>) | JOther

  type Parser = string -> Option<Json>

  function Member(json: Json, name: string): Json {
    if json.JObject? && name in json.fields then json.fields[name] else JOther
  }

  function AsString(json: Json): Option<string> {
    if json.JString? then Some(json.text) else None
  }

  /** A timestamp must be a number from 0 on that a signed 64-bit integer holds. */
  function AsTimestamp(json: Json): Option<int> {
    if json.JNumber? && 0 <= json.n < TWO_TO_THE_64 / 2 then Some(json.n) else None
  }

  function TypeFromName(name: Option<string>): Option<EventType> {
    if name == Some("m.room.message") then Some(Message)
    else if name == Some("m.room.name") then Some(Name)
    else if name == Some("m.room.topic") then Some(Topic)
    else None
  }

  function ContentName(t: EventType): string {
    match t case Message => "body" case Topic => "topic" case Name => "name"
  }

  function EventFromJson(parse: Parser, source: string): Option<Event> {
    var parsed := parse(source);
    if parsed.None? then None
    else
      var json := parsed.value;
      var t := TypeFromName(AsString(Member(json, "type")));
      if t.None? then None
      else
        var content := AsString(Member(Member(json, "content"), ContentName(t.value)));
        var eventId := AsString(Member(json, "event_id"));
        var sender := AsString(Member(json, "sender"));
        var serverTs := AsTimestamp(Member(json, "origin_server_ts"));
        var roomId := AsString(Member(json, "room_id"));
        if content.None? || eventId.None? || sender.None? || serverTs.None? || roomId.None? then None
        else
          Some(Event(t.value, content.value, if t.value == Message then Some("m.text") else None,
                     eventId.value, sender.value, serverTs.value, roomId.value, source))
  }

  function TypeName(t: EventType): string {
    match t case Message => "m.room.message" case Topic => "m.room.topic" case Name => "m.room.name"
  }

  /** A JSON object that carries these fields, among others. */
  ghost predicate Carries(json: Json, e: Event) {
    && Member(json, "type") == JString(TypeName(e.eventType))
    && Member(Member(json, "content"), ContentName(e.eventType)) == JString(e.contentValue)
    && Member(json, "event_id") == JString(e.eventId)
    && Member(json, "sender") == JString(e.sender)
    && Member(json, "origin_server_ts") == JNumber(e.serverTs)
    && Member(json, "room_id") == JString(e.roomId)
  }

  /** A source is read back as an event exactly if it carries its fields and the
      timestamp fits; the message type is not read but assumed. */
  lemma EventReadBackIff(parse: Parser, source: string, e: Event)
    ensures EventFromJson(parse, source) == Some(e) <==>
              && parse(source).Some? && Carries(parse(source).value, e)
              && 0 <= e.serverTs < TWO_TO_THE_64 / 2
              && e.msgtype == (if e.eventType == Message then Some("m.text") else None)
              && e.source == source
  {
  }

  /** A JSON object with this text under this name. */
  ghost predicate HasText(json: Json, name: string, text: string) {
    json.JObject? && name in json.fields && json.fields[name] == JString(text)
  }

  /** A JSON object as the events of a room are: what kind it is, and where its text lies. */
  ghost predicate IsRoomEvent(
    json: Json, kind: string, place: string, text: string, id: EventId, sender: string, ts: int, room: RoomId)
  {
    && HasText(json, "type", kind)
    && "content" in json.fields && HasText(json.fields["content"], place, text)
    && HasText(json, "event_id", id) && HasText(json, "sender", sender) && HasText(json, "room_id", room)
    && "origin_server_ts" in json.fields && json.fields["origin_server_ts"] == JNumber(ts)
  }

  /** Messages with a body, topics with a topic and names with a name are read back as what
      they say. */
  lemma RoomEventsReadBack(
    parse: Parser, source: string, text: string, id: EventId, sender: string, ts: int, room: RoomId)
    requires parse(source).Some? && 0 <= ts < 0x8000_0000_0000_0000
    ensures var json, r := parse(source).value, EventFromJson(parse, source);
            && (IsRoomEvent(json, "m.room.message", "body", text, id, sender, ts, room) ==>
                  r == Some(Event(Message, text, Some("m.text"), id, sender, ts, room, source)))
            && (IsRoomEvent(json, "m.room.topic", "topic", text, id, sender, ts, room) ==>
                  r == Some(Event(Topic, text, None, id, sender, ts, room, source)))
            && (IsRoomEvent(json, "m.room.name", "name", text, id, sender, ts, room) ==>
                  r == Some(Event(Name, text, None, id, sender, ts, room, source)))
  {
    assert "m.room.message"[7] != "m.room.topic"[7] && "m.room.message"[7] != "m.room.name"[7];
    assert "m.room.topic"[7] != "m.room.name"[7];
  }

  /** And nothing else is read back: an event comes only from such an object. */
  lemma ReadBackWasRoomEvent(parse: Parser, source: string)
    requires EventFromJson(parse, source).Some?
    ensures var e, json := EventFromJson(parse, source).value, parse(source).value;
            && parse(source).Some? && 0 <= e.serverTs < 0x8000_0000_0000_0000
            && match e.eventType
               case Message =>
                 IsRoomEvent(json, "m.room.message", "body", e.contentValue, e.eventId, e.sender, e.serverTs, e.roomId)
               case Topic =>
                 IsRoomEvent(json, "m.room.topic", "topic", e.contentValue, e.eventId, e.sender, e.serverTs, e.roomId)
               case Name =>
                 IsRoomEvent(json, "m.room.name", "name", e.contentValue, e.eventId, e.sender, e.serverTs, e.roomId)
  {
  }

  /** How a stored source is turned back into an event. */
  type Reader = string -> Option<Event>

  function ReaderOf(parse: Parser): Reader {
    source => EventFromJson(parse, source)
  }

  /** The events of the rows whose source can be parsed. */
  function EventsOf(read: Reader, rows: seq<EventRow>): (es: seq<Event>)
    ensures |es| <= |rows|
  {
    if rows == [] then []
    else
      var rest := EventsOf(read, rows[1..]);
      match read(rows[0].source)
      case Some(e) => [e] + rest
      case None => rest
  }

  predicate Parsable(read: Reader, row: EventRow) {
    read(row.source).Some?
  }

  // ----- Batches -----

  /** The condition of the query: messages only, no newer than the event to continue
      from, and not that event itself. */
  predicate Matches(row: EventRow, from: Option<Event>) {
    && row.eventType == Message
    && (from.Some? ==> row.eventId != from.value.eventId && row.serverTs <= from.value.serverTs)
  }

  function Select(rows: seq<EventRow>, from: Option<Event>): (s: seq<EventRow>)
    ensures |s| <= |rows|
  {
    if rows == [] then []
    else
      var rest := Select(rows[1..], from);
      if Matches(rows[0], from) then [rows[0]] + rest else rest
  }

  function LastOf(es: seq<Event>): Option<Event> {
    if es == [] then None else Some(es[|es| - 1])
  }

  /** One batch from rows that are listed by descending timestamp. */
  function Batch(read: Reader, rows: seq<EventRow>, from: Option<Event>): seq<Event> {
    EventsOf(read, Prefix(Select(rows, from), REINDEX_BATCH))
  }

  /** The events that the loop indexes in at most so many rounds. */
  function Loop(read: Reader, rows: seq<EventRow>, from: Option<Event>, rounds: nat): seq<Event>
    decreases rounds
  {
    var es := Batch(read, rows, from);
    if rounds == 0 || es == [] then [] else es + Loop(read, rows, LastOf(es), rounds - 1)
  }

  /** Within so many rounds the loop meets an empty batch. */
  predicate Halts(read: Reader, rows: seq<EventRow>, from: Option<Event>, rounds: nat)
    decreases rounds
  {
    var es := Batch(read, rows, from);
    rounds > 0 && (es == [] || Halts(read, rows, LastOf(es), rounds - 1))
  }

  /** The first batch and what the loop adds to it. */
  function Indexed(read: Reader, rows: seq<EventRow>, rounds: nat): seq<Event> {
    var first := Batch(read, rows, None);
    first + Loop(read, rows, LastOf(first), rounds)
  }

  predicate Terminates(read: Reader, rows: seq<EventRow>, rounds: nat) {
    Halts(read, rows, LastOf(Batch(read, rows, None)), rounds)
  }

  /** How many rounds are allowed does not matter once the loop ends within them. */
  lemma {:induction false} LoopSettled(read: Reader, rows: seq<EventRow>, from: Option<Event>, a: nat, b: nat)
    requires Halts(read, rows, from, a) && Halts(read, rows, from, b)
    ensures Loop(read, rows, from, a) == Loop(read, rows, from, b)
    decreases a
  {
    var es := Batch(read, rows, from);
    if es == [] {
    } else {
      LoopSettled(read, rows, LastOf(es), a - 1, b - 1);
    }
  }

  // ----- The order of the rows -----

  function Messages(rows: seq<EventRow>): seq<EventRow> {
    Select(rows, None)
  }

  /** Strictly descending timestamps. */
  ghost predicate Timed(ms: seq<EventRow>) {
    forall i, j | 0 <= i < j < |ms| :: ms[i].serverTs > ms[j].serverTs
  }

  /** No event id twice; the database enforces this only within one room. */
  ghost predicate OneIdEach(ms: seq<EventRow>) {
    forall i, j | 0 <= i < j < |ms| :: OtherId(ms, i, j)
  }

  predicate OtherId(ms: seq<EventRow>, i: nat, j: nat)
    requires i < j < |ms|
  {
    ms[i].eventId != ms[j].eventId
  }

  /** A parsed event carries the id and the timestamp of its row. */
  ghost predicate Agrees(read: Reader, ms: seq<EventRow>) {
    forall r | r in ms && Parsable(read, r) ::
      var e := read(r.source).value;
      e.eventId == r.eventId && e.serverTs == r.serverTs
  }

  lemma {:induction false} SelectMembers(rows: seq<EventRow>, from: Option<Event>)
    ensures forall r :: r in Select(rows, from) <==> r in rows && Matches(r, from)
  {
    if rows == [] {
    } else {
      SelectMembers(rows[1..], from);
      assert forall r :: r in rows <==> r == rows[0] || r in rows[1..];
    }
  }

  lemma {:induction false} SelectConcat(a: seq<EventRow>, b: seq<EventRow>, from: Option<Event>)
    ensures Select(a + b, from) == Select(a, from) + Select(b, from)
  {
    if a == [] {
      assert a + b == b;
    } else {
      assert (a + b)[1..] == a[1..] + b;
      SelectConcat(a[1..], b, from);
    }
  }

  lemma {:induction false} SelectTwice(rows: seq<EventRow>, from: Option<Event>)
    ensures Select(rows, from) == Select(Messages(rows), from)
  {
    if rows == [] {
    } else {
      SelectTwice(rows[1..], from);
      if rows[0].eventType == Message {
        assert Messages(rows)[1..] == Messages(rows[1..]);
      }
    }
  }

  lemma {:induction false} SelectAll(rows: seq<EventRow>, from: Option<Event>)
    requires forall r | r in rows :: Matches(r, from)
    ensures Select(rows, from) == rows
  {
    if rows == [] {
    } else {
      assert rows[0] in rows;
      SelectAll(rows[1..], from);
    }
  }

  lemma {:induction false} SelectNone(rows: seq<EventRow>, from: Option<Event>)
    requires forall r | r in rows :: !Matches(r, from)
    ensures Select(rows, from) == []
  {
    if rows == [] {
    } else {
      assert rows[0] in rows;
      SelectNone(rows[1..], from);
    }
  }

  /** The rows with another id than the one that is skipped. */
  function Apart(rows: seq<EventRow>, skip: Option<EventId>): (s: seq<EventRow>)
    ensures |s| <= |rows|
  {
    if rows == [] then []
    else
      var rest := Apart(rows[1..], skip);
      if Some(rows[0].eventId) == skip then rest else [rows[0]] + rest
  }

  lemma {:induction false} SelectIsApart(rows: seq<EventRow>, e: Event)
    requires forall r | r in rows :: r.eventType == Message && r.serverTs <= e.serverTs
    ensures Select(rows, Some(e)) == Apart(rows, Some(e.eventId))
  {
    if rows == [] {
    } else {
      assert rows[0] in rows;
      SelectIsApart(rows[1..], e);
    }
  }

  /** Continuing from the event of a row selects the rows after it, except those with
      its id. */
  lemma {:induction false} SelectAfter(rows: seq<EventRow>, p: nat, e: Event)
    requires Timed(Messages(rows)) && p < |Messages(rows)|
    requires e.eventId == Messages(rows)[p].eventId && e.serverTs == Messages(rows)[p].serverTs
    ensures Select(rows, Some(e)) == Apart(Messages(rows)[p + 1..], Some(e.eventId))
  {
    var ms := Messages(rows);
    SelectMembers(rows, None);
    SelectTwice(rows, Some(e));
    assert ms == ms[..p + 1] + ms[p + 1..];
    SelectConcat(ms[..p + 1], ms[p + 1..], Some(e));
    forall r | r in ms[..p + 1]
      ensures !Matches(r, Some(e))
    {
      var i :| 0 <= i <= p && r == ms[i];
    }
    SelectNone(ms[..p + 1], Some(e));
    forall r | r in ms[p + 1..]
      ensures r.eventType == Message && r.serverTs <= e.serverTs
    {
      var i :| p < i < |ms| && r == ms[i];
      assert r in ms;
    }
    SelectIsApart(ms[p + 1..], e);
  }

  // ----- What is reached -----

  lemma {:induction false} EventsConcat(read: Reader, a: seq<EventRow>, b: seq<EventRow>)
    ensures EventsOf(read, a + b) == EventsOf(read, a) + EventsOf(read, b)
  {
    if a == [] {
      assert a + b == b;
    } else {
      assert (a + b)[1..] == a[1..] + b;
      EventsConcat(read, a[1..], b);
    }
  }

  /** The number of rows up to the last one that can be parsed. */
  function LastParsable(read: Reader, rows: seq<EventRow>): (k: nat)
    ensures k <= |rows|
  {
    if rows == [] then 0
    else if Parsable(read, rows[|rows| - 1]) then |rows|
    else LastParsable(read, rows[..|rows| - 1])
  }

  lemma {:induction false} LastParsableIs(read: Reader, rows: seq<EventRow>)
    ensures var k := LastParsable(read, rows);
            && (k > 0 ==> Parsable(read, rows[k - 1]))
            && forall i | k <= i < |rows| :: !Parsable(read, rows[i])
  {
    if rows == [] || Parsable(read, rows[|rows| - 1]) {
    } else {
      LastParsableIs(read, rows[..|rows| - 1]);
      assert forall i | 0 <= i < |rows| - 1 :: rows[..|rows| - 1][i] == rows[i];
    }
  }

  lemma {:induction false} NoEvents(read: Reader, rows: seq<EventRow>)
    ensures EventsOf(read, rows) == [] <==> forall i | 0 <= i < |rows| :: !Parsable(read, rows[i])
  {
    if rows == [] {
    } else {
      NoEvents(read, rows[1..]);
      assert Parsable(read, rows[0]) || EventsOf(read, rows) == EventsOf(read, rows[1..]);
      assert forall i | 1 <= i < |rows| :: rows[1..][i - 1] == rows[i];
    }
  }

  lemma LastEvent(read: Reader, rows: seq<EventRow>)
    requires rows != [] && Parsable(read, rows[|rows| - 1])
    ensures LastOf(EventsOf(read, rows)) == read(rows[|rows| - 1].source)
  {
    var last := rows[|rows| - 1];
    assert rows == rows[..|rows| - 1] + [last];
    EventsConcat(read, rows[..|rows| - 1], [last]);
    assert EventsOf(read, [last]) == [read(last.source).value];
  }

  /** The events of a window are those up to its last parsable row, which is last. */
  lemma {:induction false} WindowEvents(read: Reader, window: seq<EventRow>)
    ensures var k := LastParsable(read, window);
            var es := EventsOf(read, window);
            && es == EventsOf(read, window[..k])
            && (es == [] <==> k == 0)
            && (k > 0 ==> Parsable(read, window[k - 1]) && LastOf(es) == read(window[k - 1].source))
  {
    var k := LastParsable(read, window);
    SilentTail(read, window);
    EventsSplit(read, window, k);
    if k > 0 {
      LastParsableIs(read, window);
      LastEvent(read, window[..k]);
    }
  }

  lemma SilentTail(read: Reader, window: seq<EventRow>)
    ensures EventsOf(read, window[LastParsable(read, window)..]) == []
  {
    LastParsableIs(read, window);
    NoEvents(read, window[LastParsable(read, window)..]);
  }

  lemma EventsSplit(read: Reader, rows: seq<EventRow>, k: nat)
    requires k <= |rows|
    ensures EventsOf(read, rows) == EventsOf(read, rows[..k]) + EventsOf(read, rows[k..])
  {
    assert rows == rows[..k] + rows[k..];
    EventsConcat(read, rows[..k], rows[k..]);
  }

  // ----- The walk of the loop -----

  /** How many of the rows that are not skipped one batch gets past. */
  function Far(read: Reader, rest: seq<EventRow>, skip: Option<EventId>): (k: nat)
    ensures k <= |Apart(rest, skip)|
  {
    LastParsable(read, Prefix(Apart(rest, skip), REINDEX_BATCH))
  }

  /** The end of the first k rows that are not skipped. */
  function Pos(rest: seq<EventRow>, skip: Option<EventId>, k: nat): (p: nat)
    requires k <= |Apart(rest, skip)|
    ensures k <= p <= |rest|
  {
    if k == 0 then 0
    else if Some(rest[0].eventId) == skip then 1 + Pos(rest[1..], skip, k)
    else 1 + Pos(rest[1..], skip, k - 1)
  }

  lemma {:induction false} PosTakes(rest: seq<EventRow>, skip: Option<EventId>, k: nat)
    requires k <= |Apart(rest, skip)|
    ensures Apart(rest[..Pos(rest, skip, k)], skip) == Apart(rest, skip)[..k]
  {
    if k == 0 {
    } else {
      var row, tail, skipped := rest[0], rest[1..], Some(rest[0].eventId) == skip;
      var n := if skipped then k else k - 1;
      var taken := tail[..Pos(tail, skip, n)];
      PosTakes(tail, skip, n);
      assert rest[..Pos(rest, skip, k)] == [row] + taken;
      ApartCons(row, taken, skip);
      if !skipped {
        TakeCons(row, Apart(tail, skip), k);
      }
    }
  }

  lemma TakeCons(row: EventRow, rows: seq<EventRow>, k: nat)
    requires 0 < k <= |rows| + 1
    ensures ([row] + rows)[..k] == [row] + rows[..k - 1]
  {
  }

  lemma {:induction false} PosLast(rest: seq<EventRow>, skip: Option<EventId>, k: nat)
    requires 0 < k <= |Apart(rest, skip)|
    ensures rest[Pos(rest, skip, k) - 1] == Apart(rest, skip)[k - 1]
  {
    if Some(rest[0].eventId) != skip && k == 1 {
    } else {
      PosLast(rest[1..], skip, if Some(rest[0].eventId) == skip then k else k - 1);
    }
  }

  lemma {:induction false} ApartCons(row: EventRow, rows: seq<EventRow>, skip: Option<EventId>)
    ensures Apart([row] + rows, skip)
         == (if Some(row.eventId) == skip then [] else [row]) + Apart(rows, skip)
  {
    assert ([row] + rows)[1..] == rows;
  }

  /** What the loop reaches from the top of these messages, one id skipped: it goes on
      after the last row that parses in each window, now skipping the id of that row, and
      stops at a window without one. */
  function Reached(read: Reader, rest: seq<EventRow>, skip: Option<EventId>): seq<Event>
    decreases |rest|
  {
    if Far(read, rest, skip) == 0 then []
    else WalkEvents(read, rest, skip) + Reached(read, Left(read, rest, skip), NewSkip(read, rest, skip))
  }

  /** The end of one batch, its events, the rows that it leaves, and the id of its last. */
  function BatchEnd(read: Reader, rest: seq<EventRow>, skip: Option<EventId>): (p: nat)
    ensures Far(read, rest, skip) <= p <= |rest|
  {
    Pos(rest, skip, Far(read, rest, skip))
  }

  function WalkEvents(read: Reader, rest: seq<EventRow>, skip: Option<EventId>): seq<Event> {
    EventsOf(read, Apart(rest[..BatchEnd(read, rest, skip)], skip))
  }

  function Left(read: Reader, rest: seq<EventRow>, skip: Option<EventId>): (left: seq<EventRow>)
    ensures Far(read, rest, skip) > 0 ==> |left| < |rest|
  {
    rest[BatchEnd(read, rest, skip)..]
  }

  function NewSkip(read: Reader, rest: seq<EventRow>, skip: Option<EventId>): Option<EventId>
    requires Far(read, rest, skip) > 0
  {
    Some(rest[BatchEnd(read, rest, skip) - 1].eventId)
  }

  /** Some message that parses is passed over: it lies where the walk has stopped, or it
      lies behind a batch that ended with an event of its id, and is skipped with it. */
  predicate PassedOver(read: Reader, rest: seq<EventRow>, skip: Option<EventId>)
    decreases |rest|
  {
    if Far(read, rest, skip) == 0 then exists r :: r in rest && Parsable(read, r)
    else
      || (exists i :: 0 <= i < BatchEnd(read, rest, skip) && Parsable(read, rest[i]) && Some(rest[i].eventId) == skip)
      || PassedOver(read, Left(read, rest, skip), NewSkip(read, rest, skip))
  }

  ghost predicate IsSuffix(rest: seq<EventRow>, ms: seq<EventRow>) {
    |rest| <= |ms| && ms[|ms| - |rest|..] == rest
  }

  lemma {:induction false} SelectWithin(rows: seq<EventRow>, rest: seq<EventRow>, p: nat, e: Event)
    requires Timed(Messages(rows)) && IsSuffix(rest, Messages(rows)) && 0 < p <= |rest|
    requires e.eventId == rest[p - 1].eventId && e.serverTs == rest[p - 1].serverTs
    ensures Select(rows, Some(e)) == Apart(rest[p..], Some(e.eventId)) && IsSuffix(rest[p..], Messages(rows))
  {
    var ms := Messages(rows);
    var n := |ms| - |rest| + p - 1;
    assert ms[n] == rest[p - 1];
    SelectAfter(rows, n, e);
    assert ms[n + 1..] == rest[p..];
  }

  lemma AgreesAt(read: Reader, ms: seq<EventRow>, rest: seq<EventRow>, i: nat)
    requires Agrees(read, ms) && IsSuffix(rest, ms) && i < |rest| && Parsable(read, rest[i])
    ensures var e := read(rest[i].source).value;
            e.eventId == rest[i].eventId && e.serverTs == rest[i].serverTs
  {
  }

  /** These messages are still to come, one id is skipped, and the query from here on
      selects the others. */
  ghost predicate Ahead(
    read: Reader, rows: seq<EventRow>, rest: seq<EventRow>, skip: Option<EventId>, from: Option<Event>)
  {
    && Timed(Messages(rows)) && Agrees(read, Messages(rows))
    && IsSuffix(rest, Messages(rows)) && Select(rows, from) == Apart(rest, skip)
  }

  /** One batch: its events, and what its last event continues with. */
  lemma {:induction false} BatchOf(
    read: Reader, rows: seq<EventRow>, rest: seq<EventRow>, skip: Option<EventId>, from: Option<Event>)
    requires Ahead(read, rows, rest, skip, from)
    ensures var es := Batch(read, rows, from);
            && (es == [] <==> Far(read, rest, skip) == 0) && es == WalkEvents(read, rest, skip)
            && (es != [] ==> Ahead(read, rows, Left(read, rest, skip), NewSkip(read, rest, skip), LastOf(es)))
  {
    var es := EventsOf(read, Prefix(Apart(rest, skip), REINDEX_BATCH));
    assert Batch(read, rows, from) == es;
    WalkBatch(read, rest, skip);
    if es != [] {
      AheadLeft(read, rows, rest, skip, LastOf(es));
    }
  }

  lemma {:induction false} AheadLeft(
    read: Reader, rows: seq<EventRow>, rest: seq<EventRow>, skip: Option<EventId>, last: Option<Event>)
    requires Timed(Messages(rows)) && Agrees(read, Messages(rows)) && IsSuffix(rest, Messages(rows))
    requires Far(read, rest, skip) > 0 && last.Some? && last == read(rest[BatchEnd(read, rest, skip) - 1].source)
    ensures Ahead(read, rows, Left(read, rest, skip), NewSkip(read, rest, skip), last)
  {
    var p := BatchEnd(read, rest, skip);
    var left, next := Left(read, rest, skip), NewSkip(read, rest, skip);
    AheadNext(read, rows, rest, p, left, next, last);
  }

  lemma {:induction false} AheadNext(
    read: Reader, rows: seq<EventRow>, rest: seq<EventRow>, p: nat,
    left: seq<EventRow>, next: Option<EventId>, last: Option<Event>)
    requires Timed(Messages(rows)) && Agrees(read, Messages(rows)) && IsSuffix(rest, Messages(rows))
    requires 0 < p <= |rest| && left == rest[p..] && next == Some(rest[p - 1].eventId)
    requires last.Some? && last == read(rest[p - 1].source)
    ensures Ahead(read, rows, left, next, last)
  {
    AgreesAt(read, Messages(rows), rest, p - 1);
    SelectWithin(rows, rest, p, last.value);
  }

  lemma {:induction false} WalkBatch(read: Reader, rest: seq<EventRow>, skip: Option<EventId>)
    ensures var es := EventsOf(read, Prefix(Apart(rest, skip), REINDEX_BATCH));
            && es == WalkEvents(read, rest, skip) && (es == [] <==> Far(read, rest, skip) == 0)
            && (es != [] ==>
                  var last := rest[BatchEnd(read, rest, skip) - 1];
                  Parsable(read, last) && LastOf(es) == read(last.source))
  {
    var others, k := Apart(rest, skip), Far(read, rest, skip);
    FirstWindow(read, others);
    PosTakes(rest, skip, k);
    assert WalkEvents(read, rest, skip) == EventsOf(read, others[..k]);
    if k > 0 {
      PosLast(rest, skip, k);
      assert rest[BatchEnd(read, rest, skip) - 1] == others[k - 1];
    }
  }

  lemma {:induction false} FirstWindow(read: Reader, others: seq<EventRow>)
    ensures var es := EventsOf(read, Prefix(others, REINDEX_BATCH));
            var k := LastParsable(read, Prefix(others, REINDEX_BATCH));
            && (es == [] <==> k == 0) && es == EventsOf(read, others[..k])
            && (k > 0 ==> Parsable(read, others[k - 1]) && LastOf(es) == read(others[k - 1].source))
  {
    var window := Prefix(others, REINDEX_BATCH);
    var k := LastParsable(read, window);
    WindowEvents(read, window);
    assert window[..k] == others[..k];
    assert k > 0 ==> window[k - 1] == others[k - 1];
  }

  /** The loop in the middle of its work. */
  lemma {:induction false} LoopReaches(
    read: Reader, rows: seq<EventRow>, rest: seq<EventRow>, skip: Option<EventId>, from: Option<Event>, rounds: nat)
    requires Ahead(read, rows, rest, skip, from) && rounds > |rest|
    ensures Halts(read, rows, from, rounds)
    ensures Loop(read, rows, from, rounds) == Reached(read, rest, skip)
    decreases rounds
  {
    var es := Batch(read, rows, from);
    BatchOf(read, rows, rest, skip, from);
    if es == [] {
    } else {
      var later := Loop(read, rows, LastOf(es), rounds - 1);
      LoopReaches(read, rows, Left(read, rest, skip), NewSkip(read, rest, skip), LastOf(es), rounds - 1);
      assert Reached(read, rest, skip) == es + later;
    }
  }

  lemma {:induction false} ApartNone(rows: seq<EventRow>)
    ensures Apart(rows, None) == rows
  {
    if rows == [] {
    } else {
      ApartNone(rows[1..]);
    }
  }

  /** With distinct timestamps the loop ends, and this is what it indexes. */
  lemma IndexedIsReached(read: Reader, rows: seq<EventRow>, rounds: nat)
    requires Timed(Messages(rows)) && Agrees(read, Messages(rows)) && rounds > |Messages(rows)|
    ensures Terminates(read, rows, rounds)
    ensures Indexed(read, rows, rounds) == Reached(read, Messages(rows), None)
  {
    var ms := Messages(rows);
    ApartNone(ms);
    BatchOf(read, rows, ms, None, None);
    var es := Batch(read, rows, None);
    if es == [] {
      LoopReaches(read, rows, ms, None, None, rounds);
    } else {
      LoopReaches(read, rows, Left(read, ms, None), NewSkip(read, ms, None), LastOf(es), rounds);
    }
  }

  // ----- When everything is reached -----

  /** Skipping an id loses exactly the events of the rows that carry it. */
  lemma {:induction false} ApartEvents(read: Reader, rows: seq<EventRow>, skip: Option<EventId>)
    ensures var some, all := EventsOf(read, Apart(rows, skip)), EventsOf(read, rows);
            && |some| <= |all|
            && (|some| == |all| <==>
                  forall i | 0 <= i < |rows| && Parsable(read, rows[i]) :: Some(rows[i].eventId) != skip)
            && (|some| == |all| ==> some == all)
  {
    if rows == [] {
    } else {
      ApartEvents(read, rows[1..], skip);
      assert forall i | 1 <= i < |rows| :: rows[1..][i - 1] == rows[i];
    }
  }

  lemma EventsNone(read: Reader, rows: seq<EventRow>)
    ensures EventsOf(read, rows) == [] <==> !exists r :: r in rows && Parsable(read, r)
  {
    NoEvents(read, rows);
    assert forall i | 0 <= i < |rows| :: rows[i] in rows;
  }

  /** What is reached are at most all events, and all of them exactly if none is passed over. */
  lemma {:induction false} ReachedIff(read: Reader, rest: seq<EventRow>, skip: Option<EventId>)
    ensures var reached, all := Reached(read, rest, skip), EventsOf(read, rest);
            && |reached| <= |all| && (|reached| == |all| <==> !PassedOver(read, rest, skip))
            && (|reached| == |all| ==> reached == all)
    decreases |rest|
  {
    if Far(read, rest, skip) == 0 {
      EventsNone(read, rest);
    } else {
      var p := BatchEnd(read, rest, skip);
      ReachedIff(read, Left(read, rest, skip), NewSkip(read, rest, skip));
      ApartEvents(read, rest[..p], skip);
      EventsSplit(read, rest, p);
      assert forall i | 0 <= i < p :: rest[..p][i] == rest[i];
    }
  }

  lemma {:induction false} ApartPart(read: Reader, rows: seq<EventRow>, skip: Option<EventId>)
    ensures Part(EventsOf(read, Apart(rows, skip)), EventsOf(read, rows))
  {
    if rows == [] {
    } else {
      ApartPart(read, rows[1..], skip);
    }
  }

  lemma {:induction false} ReachedPart(read: Reader, rest: seq<EventRow>, skip: Option<EventId>)
    ensures Part(Reached(read, rest, skip), EventsOf(read, rest))
    decreases |rest|
  {
    if Far(read, rest, skip) == 0 {
    } else {
      var p := BatchEnd(read, rest, skip);
      ReachedPart(read, Left(read, rest, skip), NewSkip(read, rest, skip));
      ApartPart(read, rest[..p], skip);
      EventsSplit(read, rest, p);
      PartConcat(WalkEvents(read, rest, skip), EventsOf(read, rest[..p]),
                 Reached(read, Left(read, rest, skip), NewSkip(read, rest, skip)), EventsOf(read, rest[p..]));
    }
  }

  /** With distinct timestamps the reindex ends. It indexes each message at most once,
      newest first, and all of them exactly if it passes none over. */
  lemma ReindexCoversIff(read: Reader, rows: seq<EventRow>, rounds: nat)
    requires Timed(Messages(rows)) && Agrees(read, Messages(rows)) && rounds > |Messages(rows)|
    ensures Terminates(read, rows, rounds)
    ensures Part(Indexed(read, rows, rounds), EventsOf(read, Messages(rows)))
    ensures Indexed(read, rows, rounds) == EventsOf(read, Messages(rows))
       <==> !PassedOver(read, Messages(rows), None)
  {
    IndexedIsReached(read, rows, rounds);
    ReachedIff(read, Messages(rows), None);
    ReachedPart(read, Messages(rows), None);
  }

  // ----- When no event id occurs twice -----

  /** From row i on, a whole window cannot be parsed. */
  ghost predicate Silent(read: Reader, ms: seq<EventRow>, i: nat) {
    i + REINDEX_BATCH <= |ms| && forall k | i <= k < i + REINDEX_BATCH :: !Parsable(read, ms[k])
  }

  /** A whole window of rows that cannot be parsed lies before one that can. */
  ghost predicate HasGap(read: Reader, ms: seq<EventRow>) {
    exists i, j :: 0 <= i && i + REINDEX_BATCH <= j < |ms| && Silent(read, ms, i) && Parsable(read, ms[j])
  }

  lemma GapAtStart(read: Reader, ms: seq<EventRow>)
    requires |ms| > REINDEX_BATCH && LastParsable(read, ms[..REINDEX_BATCH]) == 0
    ensures HasGap(read, ms) <==> EventsOf(read, ms) != []
  {
    NoEvents(read, ms);
    LastParsableIs(read, ms[..REINDEX_BATCH]);
    assert forall k | 0 <= k < REINDEX_BATCH :: ms[..REINDEX_BATCH][k] == ms[k];
    if EventsOf(read, ms) != [] {
      var j :| 0 <= j < |ms| && Parsable(read, ms[j]);
      assert Silent(read, ms, 0);
    }
  }

  lemma GapAfter(read: Reader, ms: seq<EventRow>, k: nat)
    requires 0 < k <= |ms| && k <= REINDEX_BATCH && Parsable(read, ms[k - 1])
    ensures HasGap(read, ms) <==> HasGap(read, ms[k..])
  {
    if HasGap(read, ms) {
      var i, j :| 0 <= i && i + REINDEX_BATCH <= j < |ms| && Silent(read, ms, i) && Parsable(read, ms[j]);
      assert i >= k;
      assert Silent(read, ms[k..], i - k) && Parsable(read, ms[k..][j - k]);
    }
    if HasGap(read, ms[k..]) {
      var i, j :| 0 <= i && i + REINDEX_BATCH <= j < |ms[k..]|
        && Silent(read, ms[k..], i) && Parsable(read, ms[k..][j]);
      assert Silent(read, ms, i + k) by {
        assert forall n | i + k <= n < i + k + REINDEX_BATCH :: ms[n] == ms[k..][n - k];
      }
      assert Parsable(read, ms[j + k]);
    }
  }

  lemma {:induction false} ApartAbsent(rows: seq<EventRow>, skip: Option<EventId>)
    requires forall r | r in rows :: Some(r.eventId) != skip
    ensures Apart(rows, skip) == rows
  {
    if rows == [] {
    } else {
      assert rows[0] in rows;
      ApartAbsent(rows[1..], skip);
    }
  }

  lemma {:induction false} PosAbsent(rows: seq<EventRow>, skip: Option<EventId>, k: nat)
    requires (forall r | r in rows :: Some(r.eventId) != skip) && k <= |Apart(rows, skip)|
    ensures Pos(rows, skip, k) == k
  {
    if k == 0 {
    } else {
      assert rows[0] in rows;
      PosAbsent(rows[1..], skip, k - 1);
    }
  }

  /** If no id occurs twice, what is passed over lies behind a window that does not parse. */
  lemma {:induction false} PassedOverIsGap(read: Reader, rest: seq<EventRow>, skip: Option<EventId>)
    requires OneIdEach(rest) && forall r | r in rest :: Some(r.eventId) != skip
    ensures PassedOver(read, rest, skip) <==> HasGap(read, rest)
    decreases |rest|
  {
    var k := Far(read, rest, skip);
    ApartAbsent(rest, skip);
    FirstWindow(read, rest);
    if k == 0 {
      PassedOverStart(read, rest);
    } else {
      IdsBehind(rest, k);
      NonePassedOver(read, rest, skip);
      PassedOverIsGap(read, rest[k..], Some(rest[k - 1].eventId));
      GapAfter(read, rest, k);
    }
  }

  lemma {:induction false} NonePassedOver(read: Reader, rest: seq<EventRow>, skip: Option<EventId>)
    requires (forall r | r in rest :: Some(r.eventId) != skip) && Far(read, rest, skip) > 0
    ensures var k := Far(read, rest, skip);
            k <= |rest| && (PassedOver(read, rest, skip) <==> PassedOver(read, rest[k..], Some(rest[k - 1].eventId)))
  {
    var k := Far(read, rest, skip);
    PosAbsent(rest, skip, k);
    NoneSkipped(rest, skip, k);
    var left, next := Left(read, rest, skip), NewSkip(read, rest, skip);
    assert BatchEnd(read, rest, skip) == k && left == rest[k..] && next == Some(rest[k - 1].eventId);
    assert PassedOver(read, rest, skip) <==> PassedOver(read, left, next);
  }

  lemma NoneSkipped(rest: seq<EventRow>, skip: Option<EventId>, k: nat)
    requires (forall r | r in rest :: Some(r.eventId) != skip) && k <= |rest|
    ensures forall i | 0 <= i < k :: Some(rest[i].eventId) != skip
  {
    assert forall i | 0 <= i < k :: rest[i] in rest;
  }

  lemma {:induction false} IdsBehind(rest: seq<EventRow>, k: nat)
    requires OneIdEach(rest) && 0 < k <= |rest|
    ensures OneIdEach(rest[k..]) && forall r | r in rest[k..] :: Some(r.eventId) != Some(rest[k - 1].eventId)
  {
    forall i, j | 0 <= i < j < |rest[k..]|
      ensures OtherId(rest[k..], i, j)
    {
      assert OtherId(rest, i + k, j + k);
    }
    forall r | r in rest[k..]
      ensures r.eventId != rest[k - 1].eventId
    {
      var i :| k <= i < |rest| && r == rest[i];
      assert OtherId(rest, k - 1, i);
    }
  }

  lemma {:induction false} PassedOverStart(read: Reader, rest: seq<EventRow>)
    requires LastParsable(read, Prefix(rest, REINDEX_BATCH)) == 0
    ensures (exists r :: r in rest && Parsable(read, r)) <==> HasGap(read, rest)
  {
    EventsNone(read, rest);
    if |rest| > REINDEX_BATCH {
      GapAtStart(read, rest);
    } else {
      assert Prefix(rest, REINDEX_BATCH) == rest;
      WindowEvents(read, rest);
    }
  }

  /** Then every message that parses is indexed, once and newest first, exactly if no
      window of rows that do not parse lies before one that does. */
  lemma ReindexCompleteIff(read: Reader, rows: seq<EventRow>, rounds: nat)
    requires Timed(Messages(rows)) && OneIdEach(Messages(rows)) && Agrees(read, Messages(rows))
    requires Terminates(read, rows, rounds)
    ensures Indexed(read, rows, rounds) == EventsOf(read, Messages(rows)) <==> !HasGap(read, Messages(rows))
  {
    var enough := |Messages(rows)| + 1;
    ReindexCoversIff(read, rows, enough);
    LoopSettled(read, rows, LastOf(Batch(read, rows, None)), rounds, enough);
    PassedOverIsGap(read, Messages(rows), None);
  }
}
