/**
 What a finished reindex means for the invariants that the writer keeps between the
 event store and the index.
 */
module Rebuilt {
  import opened Wrappers
  import opened Events
  import opened Tables
  import opened Soundness
  import opened Invariants
  import opened Completeness
  import opened Reindex
  import opened Ties
  import opened TieCoverage
  import opened SharedIds
  import R = Recovery

  /** An order in which the query may list the rows of the event store. */
  ghost predicate ListsRows(t: Tables, order: seq<int>) {
    (forall r | r in t.events :: r in order) && (forall i | 0 <= i < |order| :: order[i] in t.events)
  }

  ghost function RowsIn(t: Tables, order: seq<int>): seq<EventRow>
    requires ListsRows(t, order)
  {
    seq(|order|, i requires 0 <= i < |order| => t.events[order[i]])
  }

  /** The source of a row, where it parses, says the same as the columns of the row. */
  ghost predicate Faithful(read: Reader, t: Tables) {
    forall r | r in t.events && Parsable(read, t.events[r]) ::
      var e := read(t.events[r].source).value;
      DocOf(e).ident == RowIdent(t, r) && e.serverTs == t.events[r].serverTs
  }

  /** The rows that a reindex can bring back. */
  predicate Indexable(read: Reader, t: Tables, r: int)
    requires r in t.events
  {
    t.events[r].eventType == Message && Parsable(read, t.events[r])
  }

  lemma IdentsOfDocs(es: seq<Event>)
    ensures forall d :: d in R.DocsOf(es) <==> exists e :: e in es && d == DocOf(e)
  {
    forall e | e in es
      ensures DocOf(e) in R.DocsOf(es)
    {
      var i :| 0 <= i < |es| && es[i] == e;
      assert R.DocsOf(es)[i] == DocOf(e);
    }
  }

  /** The documents of all messages that parse. */
  function MessageDocs(read: Reader, rows: seq<EventRow>): seq<Doc> {
    R.DocsOf(EventsOf(read, Messages(rows)))
  }

  lemma DocsAreRows(read: Reader, t: Tables, order: seq<int>, d: Doc)
    requires ListsRows(t, order) && Faithful(read, t) && d in MessageDocs(read, RowsIn(t, order))
    ensures exists r :: r in t.events && Indexable(read, t, r) && d.ident == RowIdent(t, r)
  {
    var rows := RowsIn(t, order);
    IdentsOfDocs(EventsOf(read, Messages(rows)));
    var e :| e in EventsOf(read, Messages(rows)) && d == DocOf(e);
    EventsMembers(read, Messages(rows));
    var row :| row in Messages(rows) && read(row.source) == Some(e);
    SelectMembers(rows, None);
    var i :| 0 <= i < |rows| && rows[i] == row;
    assert order[i] in t.events && Indexable(read, t, order[i]);
  }

  lemma RowsAreDocs(read: Reader, t: Tables, order: seq<int>, r: int)
    requires ListsRows(t, order) && Faithful(read, t) && r in t.events && Indexable(read, t, r)
    ensures RowIdent(t, r) in Idents(MessageDocs(read, RowsIn(t, order)))
  {
    var rows, e := RowsIn(t, order), read(t.events[r].source).value;
    var i :| 0 <= i < |order| && order[i] == r;
    assert rows[i] == t.events[r] && rows[i] in rows;
    SelectMembers(rows, None);
    EventsMembers(read, Messages(rows));
    IdentsOfDocs(EventsOf(read, Messages(rows)));
    assert DocOf(e) in MessageDocs(read, rows);
  }

  lemma IdentDeterminesRow(t: Tables, r: int, s: int)
    requires Sound(t) && r in t.events && s in t.events && RowIdent(t, r).key == RowIdent(t, s).key
    ensures r == s
  {
  }

  /** The documents of all messages leave no ghosts. They are complete exactly if every
      row that is not a message, or does not parse, is still waiting to be indexed. */
  lemma MessageDocsComplete(read: Reader, t: Tables, order: seq<int>)
    requires Sound(t) && ListsRows(t, order) && Faithful(read, t)
    ensures var docs := MessageDocs(read, RowsIn(t, order));
            && NoGhosts(t, docs)
            && (Complete(t, docs) <==> forall r | r in t.events :: Indexable(read, t, r) || IsUncommitted(t, r))
  {
    var docs := MessageDocs(read, RowsIn(t, order));
    forall d | d in docs
      ensures d.ident in RowIdents(t)
    {
      DocsAreRows(read, t, order, d);
    }
    forall r | r in t.events
      ensures RowIdent(t, r) in Idents(docs) <==> Indexable(read, t, r)
    {
      if Indexable(read, t, r) {
        RowsAreDocs(read, t, order, r);
      }
      if RowIdent(t, r) in Idents(docs) {
        var d :| d in docs && d.ident == RowIdent(t, r);
        DocsAreRows(read, t, order, d);
        var s :| s in t.events && Indexable(read, t, s) && d.ident == RowIdent(t, s);
        IdentDeterminesRow(t, r, s);
      }
    }
  }

  lemma FaithfulAgrees(read: Reader, t: Tables, order: seq<int>)
    requires ListsRows(t, order) && Faithful(read, t)
    ensures Agrees(read, Messages(RowsIn(t, order)))
  {
    var rows := RowsIn(t, order);
    SelectMembers(rows, None);
    forall row | row in Messages(rows) && Parsable(read, row)
      ensures read(row.source).value.eventId == row.eventId && read(row.source).value.serverTs == row.serverTs
    {
      var i :| 0 <= i < |rows| && rows[i] == row;
      assert order[i] in t.events && Parsable(read, t.events[order[i]]);
      assert DocOf(read(row.source).value).ident == RowIdent(t, order[i]);
    }
  }

  // ----- Sources that say what the columns say -----

  /** Where the source of a row is JSON, it carries the columns of the row. */
  ghost predicate SourcesCarryColumns(parse: Parser, t: Tables) {
    forall r | r in t.events && t.events[r].roomId in t.rooms && parse(t.events[r].source).Some? ::
      var row, json := t.events[r], parse(t.events[r].source).value;
      && Member(json, "type") == JString(TypeName(row.eventType))
      && Member(json, "event_id") == JString(row.eventId)
      && Member(json, "sender") == JString(row.sender)
      && Member(json, "origin_server_ts") == JNumber(row.serverTs)
      && Member(json, "room_id") == JString(t.rooms[row.roomId])
  }

  lemma TypeNameInjective(a: EventType, b: EventType)
    ensures TypeName(a) == TypeName(b) ==> a == b
  {
    assert TypeName(a)[2] == (match a case Message => 'r' case Topic => 'r' case Name => 'r');
    assert TypeName(a)[7] == (match a case Message => 'm' case Topic => 't' case Name => 'n');
    assert TypeName(b)[7] == (match b case Message => 'm' case Topic => 't' case Name => 'n');
  }

  /** Then reading a row back gives what the row says. */
  lemma CarriedIsFaithful(parse: Parser, t: Tables)
    requires Sound(t) && SourcesCarryColumns(parse, t)
    ensures Faithful(ReaderOf(parse), t)
  {
    forall r | r in t.events && Parsable(ReaderOf(parse), t.events[r])
      ensures var e := ReaderOf(parse)(t.events[r].source).value;
              DocOf(e).ident == RowIdent(t, r) && e.serverTs == t.events[r].serverTs
    {
      var e := EventFromJson(parse, t.events[r].source).value;
      EventReadBackIff(parse, t.events[r].source, e);
      TypeNameInjective(e.eventType, t.events[r].eventType);
    }
  }

  // ----- What the loop has indexed, as a set -----

  lemma {:induction false} TimesMember(es: seq<Event>, id: EventId)
    ensures Times(es, id) > 0 ==> exists e :: e in es && e.eventId == id
  {
    if es == [] {
    } else {
      TimesMember(es[1..], id);
      assert forall e | e in es[1..] :: e in es;
    }
  }

  /** Nothing that parses is missed: with ties, nothing lies beyond the loop; with shared
      ids, nothing is passed over. */
  ghost predicate NothingMissed(read: Reader, ms: seq<EventRow>) {
    (Descending(ms) && NothingBeyond(read, ms)) || (Timed(ms) && !PassedOver(read, ms, None))
  }

  /** Then exactly the messages that parse are indexed. */
  lemma IndexedMessages(read: Reader, rows: seq<EventRow>, rounds: nat, e: Event)
    requires Agrees(read, Messages(rows)) && Terminates(read, rows, rounds) && NothingMissed(read, Messages(rows))
    ensures e in Indexed(read, rows, rounds) <==> e in EventsOf(read, Messages(rows))
  {
    var ms := Messages(rows);
    if e in Indexed(read, rows, rounds) {
      OnlyMessagesIndexed(read, rows, rounds, e);
    } else if e in EventsOf(read, ms) {
      if Timed(ms) && !PassedOver(read, ms, None) {
        TimedIndexesAll(read, rows, rounds);
      } else {
        TiesIndexAll(read, rows, rounds, e);
      }
    }
  }

  lemma TimedIndexesAll(read: Reader, rows: seq<EventRow>, rounds: nat)
    requires Timed(Messages(rows)) && !PassedOver(read, Messages(rows), None)
    requires Agrees(read, Messages(rows)) && Terminates(read, rows, rounds)
    ensures Indexed(read, rows, rounds) == EventsOf(read, Messages(rows))
  {
    var enough := |Messages(rows)| + 1;
    ReindexCoversIff(read, rows, enough);
    LoopSettled(read, rows, LastOf(Batch(read, rows, None)), rounds, enough);
  }

  lemma TiesIndexAll(read: Reader, rows: seq<EventRow>, rounds: nat, e: Event)
    requires Listed(read, Messages(rows)) && NothingBeyond(read, Messages(rows)) && Terminates(read, rows, rounds)
    requires e in EventsOf(read, Messages(rows))
    ensures e in Indexed(read, rows, rounds)
  {
    var ms := Messages(rows);
    EventsMembers(read, ms);
    var row :| row in ms && read(row.source) == Some(e);
    var i :| 0 <= i < |ms| && ms[i] == row;
    TiesCoveredIff(read, rows, rounds);
    TimesMember(Indexed(read, rows, rounds), ms[i].eventId);
    var f :| f in Indexed(read, rows, rounds) && f.eventId == ms[i].eventId;
    OneEventPerId(read, rows, rounds, f, i);
  }

  lemma OneEventPerId(read: Reader, rows: seq<EventRow>, rounds: nat, f: Event, i: nat)
    requires Listed(read, Messages(rows)) && i < |Messages(rows)|
    requires f in Indexed(read, rows, rounds) && f.eventId == Messages(rows)[i].eventId
    ensures read(Messages(rows)[i].source) == Some(f)
  {
    var ms := Messages(rows);
    OnlyMessagesIndexed(read, rows, rounds, f);
    EventsMembers(read, ms);
    var row :| row in ms && read(row.source) == Some(f);
    var j :| 0 <= j < |ms| && ms[j] == row;
    assert i < j ==> OtherId(ms, i, j);
    assert j < i ==> OtherId(ms, j, i);
  }

  // ----- The index after a reindex -----

  /** A store that a reindex can restore: what parses agrees with its columns, and nothing
      that parses is missed. */
  ghost predicate Restorable(read: Reader, t: Tables, rows: seq<EventRow>) {
    && Sound(t) && Faithful(read, t)
    && (exists order :: ListsRows(t, order) && rows == RowsIn(t, order))
    && NothingMissed(read, Messages(rows))
  }

  /** No ghosts; and complete exactly if every row that is not a message, or does not
      parse, still waits to be indexed. */
  ghost predicate Restored(read: Reader, t: Tables, docs: seq<Doc>) {
    && NoGhosts(t, docs)
    && (Complete(t, docs) <==> forall r | r in t.events :: Indexable(read, t, r) || IsUncommitted(t, r))
  }

  /** Whatever the order of the rows and the ids in them, and wherever the loop is stopped,
      a reindex leaves no ghosts. */
  lemma ReindexNoGhosts(read: Reader, t: Tables, order: seq<int>, rounds: nat)
    requires Sound(t) && Faithful(read, t) && ListsRows(t, order)
    ensures NoGhosts(t, R.DocsOf(Indexed(read, RowsIn(t, order), rounds)))
  {
    var rows := RowsIn(t, order);
    var es, all := Indexed(read, rows, rounds), EventsOf(read, Messages(rows));
    IdentsOfDocs(es);
    IdentsOfDocs(all);
    MessageDocsComplete(read, t, order);
    forall d | d in R.DocsOf(es)
      ensures d in MessageDocs(read, rows)
    {
      var e :| e in es && d == DocOf(e);
      OnlyMessagesIndexed(read, rows, rounds, e);
    }
  }

  lemma SameDocs(t: Tables, docs: seq<Doc>, docs': seq<Doc>)
    requires forall d :: d in docs <==> d in docs'
    ensures NoGhosts(t, docs) <==> NoGhosts(t, docs')
    ensures Complete(t, docs) <==> Complete(t, docs')
  {
    assert Idents(docs) == Idents(docs');
  }

  /** A reindex restores what the writer guarantees, up to what it never reads back. */
  lemma ReindexRestores(read: Reader, t: Tables, rows: seq<EventRow>, rounds: nat)
    requires Restorable(read, t, rows) && Terminates(read, rows, rounds)
    ensures Restored(read, t, R.DocsOf(Indexed(read, rows, rounds)))
  {
    var order :| ListsRows(t, order) && rows == RowsIn(t, order);
    var es, all := Indexed(read, rows, rounds), EventsOf(read, Messages(rows));
    FaithfulAgrees(read, t, order);
    forall e
      ensures e in es <==> e in all
    {
      IndexedMessages(read, rows, rounds, e);
    }
    IdentsOfDocs(es);
    IdentsOfDocs(all);
    SameDocs(t, R.DocsOf(es), R.DocsOf(all));
    MessageDocsComplete(read, t, order);
  }
}
