/**
 The values that travel through the event store: Matrix events, profiles,
 crawler checkpoints, and the documents the full-text index holds for events.
 */
module Events {
  import opened Wrappers

  type EventId = string
  type RoomId = string

  datatype EventType = Message | Name | Topic

  datatype Event = Event(
    eventType: EventType,
    contentValue: string,
    msgtype: Option<string>,
    eventId: EventId,
    sender: string,
    serverTs: int,
    roomId: RoomId,
    source: string)

  datatype Profile = Profile(displayname: Option<string>, avatarUrl: Option<string>)

  datatype Direction = Forwards | Backwards

  datatype CrawlerCheckpoint = CrawlerCheckpoint(
    roomId: RoomId, token: string, fullCrawl: bool, direction: Direction)

  /** An event together with the profile its sender had. */
  type Entry = (Event, Profile)

  /** What identifies an event in both stores. */
  datatype Key = Key(eventId: EventId, roomId: RoomId)

  /** Every stored field of a document except the indexed text. */
  datatype Ident = Ident(key: Key, sender: string, date: nat, field: EventType)

  datatype Doc = Doc(ident: Ident, content: string)

  const TWO_TO_THE_64: int := 0x1_0000_0000_0000_0000

  /** The two's complement cast from a signed to an unsigned 64-bit integer. */
  function AsU64(ts: int): nat {
    ts % TWO_TO_THE_64
  }

  /** A date before 1970 becomes a large number, and no two dates become the same one. */
  lemma DatesStayApart(a: int, b: int)
    requires -0x8000_0000_0000_0000 <= a < 0x8000_0000_0000_0000
    requires -0x8000_0000_0000_0000 <= b < 0x8000_0000_0000_0000
    ensures AsU64(a) == if a < 0 then 0x1_0000_0000_0000_0000 + a else a
    ensures AsU64(a) == AsU64(b) ==> a == b
  {
  }

  function KeyOf(e: Event): Key {
    Key(e.eventId, e.roomId)
  }

  /** The document the index writer builds for an event. */
  function DocOf(e: Event): Doc {
    Doc(Ident(KeyOf(e), e.sender, AsU64(e.serverTs), e.eventType), e.contentValue)
  }

  function Idents(docs: seq<Doc>): set<Ident> {
    set d | d in docs :: d.ident
  }

  function BatchKeys(batch: seq<Entry>): set<Key> {
    set x | x in batch :: KeyOf(x.0)
  }

  /** The documents left after deleting every one that carries an event id. */
  function Without(docs: seq<Doc>, eventId: EventId): (r: seq<Doc>)
    ensures forall d :: d in r <==> d in docs && d.ident.key.eventId != eventId
    ensures |r| <= |docs|
  {
    if docs == [] then []
    else
      var rest := Without(docs[1..], eventId);
      if docs[0].ident.key.eventId == eventId then rest else [docs[0]] + rest
  }

  lemma {:induction false} WithoutConcat(a: seq<Doc>, b: seq<Doc>, eventId: EventId)
    ensures Without(a + b, eventId) == Without(a, eventId) + Without(b, eventId)
  {
    if a == [] {
      assert a + b == b;
    } else {
      assert (a + b)[1..] == a[1..] + b;
      WithoutConcat(a[1..], b, eventId);
    }
  }
}
