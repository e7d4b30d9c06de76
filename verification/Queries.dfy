/**
 Search requests, the queries they are turned into, and the snapshot of the index a
 searcher works on.
 */
module Queries {
  import opened Wrappers
  import opened Events
  import opened Sequences

  /** The random identifier of a stored search. */
  type Token = int

  datatype SearchConfig = SearchConfig(
    limit: nat, orderByRecency: bool, roomId: Option<RoomId>, keys: seq<EventType>,
    nextBatch: Option<Token>)

  datatype Field = BodyField | TopicField | NameField | RoomIdField

  /** The text given to the query parser and its default fields. */
  datatype Query = Query(text: string, fields: seq<Field>)

  /** A matching document; None if it cannot be fetched or carries no event id. */
  datatype Hit = Hit(score: real, eventId: Option<EventId>)

  datatype Found = Found(score: real, eventId: EventId)

  /** What the index library answers: whether a query parses, its matches by
      descending score, and the same matches by descending date. */
  datatype Snapshot = Snapshot(
    parses: Query -> bool, byScore: Query -> seq<Hit>, byRecency: Query -> seq<Hit>)

  /** An earlier search: its term, its configuration, and every id returned so far. */
  datatype Past = Past(term: string, config: SearchConfig, eventIds: seq<EventId>)

  datatype SearchResult = SearchResult(count: nat, results: seq<Found>, nextBatch: Option<Token>)

  function FieldsOf(keys: seq<EventType>): seq<Field> {
    seq(|keys|, i requires 0 <= i < |keys| =>
      match keys[i] case Message => BodyField case Topic => TopicField case Name => NameField)
  }

  function ParseQuery(term: string, config: SearchConfig): Query {
    var text :=
      match config.roomId
      case Some(room) => "+room_id:\"" + room + "\" AND \"" + term + "\""
      case None => if term == "" then "*" else term;
    var roomFields := if config.roomId.Some? then [RoomIdField] else [];
    Query(text, roomFields + if config.keys == [] then [BodyField, TopicField, NameField] else FieldsOf(config.keys))
  }

  /** The field into which the text of an event is indexed. */
  function ContentField(t: EventType): Field {
    match t
    case Message => BodyField
    case Topic => TopicField
    case Name => NameField
  }

  /** A search looks into the text of an event exactly if its kind is among the keys, or there
      are no keys; and into the room exactly if one is given. */
  lemma FieldsSearched(term: string, config: SearchConfig, t: EventType)
    ensures var fields := ParseQuery(term, config).fields;
            && (ContentField(t) in fields <==> config.keys == [] || t in config.keys)
            && (RoomIdField in fields <==> config.roomId.Some?)
            && ContentField(Message) == BodyField && ContentField(Topic) == TopicField
            && ContentField(Name) == NameField
  {
    var kinds := FieldsOf(config.keys);
    if t in config.keys {
      var i :| 0 <= i < |config.keys| && config.keys[i] == t;
      assert kinds[i] == ContentField(t);
    }
    if ContentField(t) in kinds {
      var i :| 0 <= i < |kinds| && kinds[i] == ContentField(t);
      assert config.keys[i] == t;
    }
  }

  /** The text for the query parser: in a room the term is a phrase that must occur there,
      elsewhere it is taken as it is, and an empty one stands for everything. */
  lemma TextSearched(term: string, config: SearchConfig, room: RoomId)
    ensures config.roomId == Some(room) ==>
              ParseQuery(term, config).text == "+room_id:\"" + room + "\" AND \"" + term + "\""
    ensures config.roomId == None && term == "" ==> ParseQuery(term, config).text == "*"
    ensures config.roomId == None && term != "" ==> ParseQuery(term, config).text == term
  {
  }

  /** All matches in the order that was asked for; recency carries the score 1.0. */
  function Ranked(snapshot: Snapshot, q: Query, byRecency: bool): seq<Hit> {
    if byRecency then
      var hits := snapshot.byRecency(q);
      seq(|hits|, i requires 0 <= i < |hits| => Hit(1.0, hits[i].eventId))
    else
      snapshot.byScore(q)
  }

  /** The fetchable matches that were not returned before, in rank order. */
  function Unseen(hits: seq<Hit>, previous: seq<EventId>): (found: seq<Found>)
    ensures |found| <= |hits|
    ensures forall f | f in found :: f.eventId !in previous
  {
    if hits == [] then []
    else
      var rest := Unseen(hits[1..], previous);
      match hits[0].eventId
      case Some(id) => if id in previous then rest else [Found(hits[0].score, id)] + rest
      case None => rest
  }

  function IdsOf(found: seq<Found>): seq<EventId> {
    seq(|found|, i requires 0 <= i < |found| => found[i].eventId)
  }

  /** The specification of a page. */
  function Page(hits: seq<Hit>, previous: seq<EventId>, limit: nat): seq<Found> {
    Prefix(Unseen(hits, previous), limit)
  }

  lemma {:induction false} UnseenConcat(a: seq<Hit>, b: seq<Hit>, previous: seq<EventId>)
    ensures Unseen(a + b, previous) == Unseen(a, previous) + Unseen(b, previous)
  {
    if a == [] {
      assert a + b == b;
    } else {
      assert (a + b)[1..] == a[1..] + b;
      UnseenConcat(a[1..], b, previous);
    }
  }
}
