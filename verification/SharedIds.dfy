/**
 Reindexing when timestamps are shared and event ids are too, as the database allows in
 different rooms: what the loop never does, when it ends, and what it cannot lose.
 */
module SharedIds {
  import opened Wrappers
  import opened Sequences
  import opened Events
  import opened Tables
  import opened Reindex
  import opened Ties

  // ----- Whatever the rows are -----

  lemma {:induction false} EventsMembers(read: Reader, rows: seq<EventRow>)
    ensures forall e :: e in EventsOf(read, rows) <==> exists row :: row in rows && read(row.source) == Some(e)
  {
    if rows == [] {
    } else {
      EventsMembers(read, rows[1..]);
      assert forall row :: row in rows <==> row == rows[0] || row in rows[1..];
    }
  }

  lemma BatchMembers(read: Reader, rows: seq<EventRow>, from: Option<Event>, e: Event)
    requires e in Batch(read, rows, from)
    ensures e in EventsOf(read, Messages(rows))
  {
    var window := Prefix(Select(rows, from), REINDEX_BATCH);
    EventsMembers(read, window);
    var row :| row in window && read(row.source) == Some(e);
    SelectMembers(rows, from);
    SelectMembers(rows, None);
    EventsMembers(read, Messages(rows));
  }

  lemma {:induction false} LoopMembers(read: Reader, rows: seq<EventRow>, from: Option<Event>, rounds: nat, e: Event)
    requires e in Loop(read, rows, from, rounds)
    ensures e in EventsOf(read, Messages(rows))
    decreases rounds
  {
    var es := Batch(read, rows, from);
    if e in es {
      BatchMembers(read, rows, from, e);
    } else {
      LoopMembers(read, rows, LastOf(es), rounds - 1, e);
    }
  }

  /** Nothing but messages of the store is indexed. */
  lemma OnlyMessagesIndexed(read: Reader, rows: seq<EventRow>, rounds: nat, e: Event)
    requires e in Indexed(read, rows, rounds)
    ensures e in EventsOf(read, Messages(rows))
  {
    var first := Batch(read, rows, None);
    if e in first {
      BatchMembers(read, rows, None, e);
    } else {
      LoopMembers(read, rows, LastOf(first), rounds, e);
    }
  }

  lemma {:induction false} HaltsLonger(read: Reader, rows: seq<EventRow>, from: Option<Event>, a: nat, b: nat)
    requires Halts(read, rows, from, a) && a <= b
    ensures Halts(read, rows, from, b)
    decreases a
  {
    var es := Batch(read, rows, from);
    if es == [] {
    } else {
      HaltsLonger(read, rows, LastOf(es), a - 1, b - 1);
    }
  }

  lemma {:induction false} LeastRounds(read: Reader, rows: seq<EventRow>, from: Option<Event>, rounds: nat)
    returns (least: nat)
    requires Halts(read, rows, from, rounds)
    ensures 0 < least <= rounds && Halts(read, rows, from, least) && !Halts(read, rows, from, least - 1)
  {
    if Halts(read, rows, from, rounds - 1) {
      least := LeastRounds(read, rows, from, rounds - 1);
    } else {
      least := rounds;
    }
  }

  ghost function EventSet(read: Reader, rows: seq<EventRow>): set<Event> {
    set e | e in EventsOf(read, Messages(rows))
  }

  lemma {:induction false} SetSize(es: seq<Event>)
    ensures |set e | e in es| <= |es|
  {
    if es == [] {
    } else {
      SetSize(es[1..]);
      assert (set e | e in es) == {es[0]} + set e | e in es[1..];
    }
  }

  /** These events have been seen; the loop would need more rounds from each of them. */
  ghost predicate Seen(read: Reader, rows: seq<EventRow>, seen: set<Event>, rounds: nat) {
    seen <= EventSet(read, rows) && forall f | f in seen :: !Halts(read, rows, Some(f), rounds)
  }

  lemma SeenOneMore(read: Reader, rows: seq<EventRow>, seen: set<Event>, e: Event, rounds: nat)
    requires Seen(read, rows, seen, rounds) && e in EventSet(read, rows)
    requires rounds > 0 && !Halts(read, rows, Some(e), rounds - 1)
    ensures Seen(read, rows, seen + {e}, rounds - 1)
  {
    forall f | f in seen + {e}
      ensures !Halts(read, rows, Some(f), rounds - 1)
    {
      if Halts(read, rows, Some(f), rounds - 1) {
        HaltsLonger(read, rows, Some(f), rounds - 1, rounds);
      }
    }
  }

  lemma SeenSize(read: Reader, rows: seq<EventRow>, seen: set<Event>, e: Event)
    requires seen <= EventSet(read, rows) && e in EventSet(read, rows) && e !in seen
    ensures |seen + {e}| == |seen| + 1 <= |EventSet(read, rows)|
  {
    var all := EventSet(read, rows);
    assert all == (seen + {e}) + (all - (seen + {e}));
  }

  lemma LastInSet(read: Reader, rows: seq<EventRow>, from: Option<Event>)
    requires Batch(read, rows, from) != []
    ensures LastOf(Batch(read, rows, from)).value in EventSet(read, rows)
  {
    var es := Batch(read, rows, from);
    BatchMembers(read, rows, from, es[|es| - 1]);
  }

  /** A loop that ends does not come back to an event, so it sees at most all of them. */
  lemma {:induction false} SeenNeedMore(
    read: Reader, rows: seq<EventRow>, e: Event, rounds: nat, seen: set<Event>)
    requires e in EventSet(read, rows) && Seen(read, rows, seen, rounds)
    requires rounds > 0 && Halts(read, rows, Some(e), rounds) && !Halts(read, rows, Some(e), rounds - 1)
    ensures |seen| + rounds <= |EventSet(read, rows)|
    decreases rounds
  {
    SeenSize(read, rows, seen, e);
    if rounds == 1 {
    } else {
      SeenOneMore(read, rows, seen, e, rounds);
      LastInSet(read, rows, Some(e));
      var next := LastOf(Batch(read, rows, Some(e)));
      SeenNeedMore(read, rows, next.value, rounds - 1, seen + {e});
    }
  }

  /** Whatever the rows are, the loop ends within one round more than there are messages,
      or never. */
  lemma EndsWithinBound(read: Reader, rows: seq<EventRow>)
    ensures (exists rounds: nat :: Terminates(read, rows, rounds)) <==> Terminates(read, rows, |Messages(rows)| + 1)
  {
    var bound, first := |Messages(rows)| + 1, Batch(read, rows, None);
    if exists rounds: nat :: Terminates(read, rows, rounds) {
      var rounds: nat :| Terminates(read, rows, rounds);
      if first == [] {
        HaltsLonger(read, rows, None, 1, bound);
      } else {
        var e := first[|first| - 1];
        BatchMembers(read, rows, None, e);
        var least := LeastRounds(read, rows, Some(e), rounds);
        SeenNeedMore(read, rows, e, least, {});
        SetSize(EventsOf(read, Messages(rows)));
        HaltsLonger(read, rows, Some(e), least, bound);
      }
    }
  }

  // ----- The query -----

  /** Continuing from the event of a row selects the messages from the first of its timestamp
      on, except those with its id. */
  lemma SelectFromTie(rows: seq<EventRow>, p: nat, e: Event)
    requires Ordered(Messages(rows)) && p < |Messages(rows)|
    requires e.eventId == Messages(rows)[p].eventId && e.serverTs == Messages(rows)[p].serverTs
    ensures var ms := Messages(rows);
            Select(rows, Some(e)) == Apart(ms[TieStart(ms, p)..], Some(e.eventId))
  {
    var ms := Messages(rows);
    var a := TieStart(ms, p);
    SelectMembers(rows, None);
    SelectTwice(rows, Some(e));
    SelectNewer(ms, p, e);
    assert ms == ms[..a] + ms[a..];
    SelectConcat(ms[..a], ms[a..], Some(e));
    forall r | r in ms[a..]
      ensures r.eventType == Message && r.serverTs <= e.serverTs
    {
      var i :| a <= i < |ms| && ms[i] == r;
      assert r in ms && (i == a || Above(ms, a, i));
    }
    SelectIsApart(ms[a..], e);
  }

  // ----- No id is lost -----

  /** Messages in descending order, ties and shared ids allowed; each that parses gives its
      own id and timestamp. */
  ghost predicate Readable(read: Reader, rows: seq<EventRow>) {
    Ordered(Messages(rows)) && Agrees(read, Messages(rows))
  }

  /** Whichever id is skipped, no window of rows that do not parse lies before one that does. */
  ghost predicate NoGaps(read: Reader, ms: seq<EventRow>) {
    forall skip: Option<EventId> :: !HasGap(read, Apart(ms, skip))
  }

  lemma {:induction false} OrderedRest(ms: seq<EventRow>)
    requires Ordered(ms) && ms != []
    ensures Ordered(ms[1..]) && forall r | r in ms[1..] :: ms[0].serverTs >= r.serverTs
  {
    forall i, j | 0 <= i < j < |ms[1..]|
      ensures Above(ms[1..], i, j)
    {
      assert Above(ms, i + 1, j + 1);
    }
    forall r | r in ms[1..]
      ensures ms[0].serverTs >= r.serverTs
    {
      var i :| 0 < i < |ms| && ms[i] == r;
      assert Above(ms, 0, i);
    }
  }

  lemma OrderedCons(row: EventRow, ms: seq<EventRow>)
    requires Ordered(ms) && forall r | r in ms :: row.serverTs >= r.serverTs
    ensures Ordered([row] + ms)
  {
    var all := [row] + ms;
    forall i, j | 0 <= i < j < |all|
      ensures Above(all, i, j)
    {
      assert all[j] == ms[j - 1] && ms[j - 1] in ms;
      assert i > 0 ==> all[i] == ms[i - 1] && Above(ms, i - 1, j - 1);
    }
  }

  lemma {:induction false} SelectOrdered(ms: seq<EventRow>, from: Option<Event>)
    requires Ordered(ms)
    ensures Ordered(Select(ms, from))
  {
    if ms == [] {
    } else {
      OrderedRest(ms);
      SelectOrdered(ms[1..], from);
      SelectMembers(ms[1..], from);
      if Matches(ms[0], from) {
        OrderedCons(ms[0], Select(ms[1..], from));
      }
    }
  }

  lemma GapCons(read: Reader, row: EventRow, rows: seq<EventRow>)
    requires HasGap(read, rows)
    ensures HasGap(read, [row] + rows)
  {
    var i, j :| 0 <= i && i + REINDEX_BATCH <= j < |rows| && Silent(read, rows, i) && Parsable(read, rows[j]);
    var all := [row] + rows;
    assert Silent(read, all, i + 1) by {
      assert forall n | i + 1 <= n < i + 1 + REINDEX_BATCH :: all[n] == rows[n - 1];
    }
    assert Parsable(read, all[j + 1]);
  }

  /** A gap among the selected rows is one among all rows with another id. */
  lemma {:induction false} GapSelected(read: Reader, ms: seq<EventRow>, e: Event)
    requires Ordered(ms) && (forall r | r in ms :: r.eventType == Message) && HasGap(read, Select(ms, Some(e)))
    ensures HasGap(read, Apart(ms, Some(e.eventId)))
  {
    OrderedRest(ms);
    assert ms[0] in ms;
    if ms[0].serverTs <= e.serverTs {
      SelectIsApart(ms, e);
    } else {
      var rest := Apart(ms[1..], Some(e.eventId));
      GapSelected(read, ms[1..], e);
      GapCons(read, ms[0], rest);
    }
  }

  lemma NoGapSelected(read: Reader, rows: seq<EventRow>, from: Option<Event>)
    requires Ordered(Messages(rows)) && NoGaps(read, Messages(rows))
    ensures Ordered(Select(rows, from)) && !HasGap(read, Select(rows, from))
  {
    var ms := Messages(rows);
    SelectMembers(rows, None);
    SelectTwice(rows, from);
    SelectOrdered(ms, from);
    if from.None? {
      ApartNone(ms);
      assert !HasGap(read, Apart(ms, None));
    } else if HasGap(read, Select(ms, from)) {
      GapSelected(read, ms, from.value);
    }
  }

  predicate HasId(es: seq<Event>, id: EventId) {
    exists e :: e in es && e.eventId == id
  }

  lemma HasIdConcat(a: seq<Event>, b: seq<Event>, id: EventId)
    ensures HasId(a + b, id) <==> HasId(a, id) || HasId(b, id)
  {
    if HasId(a, id) {
      var e :| e in a && e.eventId == id;
      assert e in a + b;
    }
    if HasId(b, id) {
      var e :| e in b && e.eventId == id;
      assert e in a + b;
    }
  }

  /** Without a gap, the first window has a row that parses if any has, and reaches as far
      as the last of them. */
  lemma InWindowOrLater(read: Reader, ws: seq<EventRow>, i: nat)
    requires !HasGap(read, ws) && i < |ws| && Parsable(read, ws[i])
    ensures 0 < LastParsable(read, Prefix(ws, REINDEX_BATCH)) <= |ws|
    ensures i < LastParsable(read, Prefix(ws, REINDEX_BATCH)) || i >= REINDEX_BATCH
  {
    var window := Prefix(ws, REINDEX_BATCH);
    LastParsableIs(read, window);
    assert i < |window| ==> window[i] == ws[i];
    assert ws[i] in ws;
    if LastParsable(read, window) == 0 {
      PassedOverStart(read, ws);
    }
  }

  /** A selected row that parses is in the batch, or is no newer than its last event. */
  lemma InBatchOrLater(read: Reader, rows: seq<EventRow>, from: Option<Event>, r: EventRow)
    requires Readable(read, rows) && NoGaps(read, Messages(rows))
    requires r in Messages(rows) && Matches(r, from) && Parsable(read, r)
    ensures var es := Batch(read, rows, from);
            es != [] && (HasId(es, r.eventId) || r.serverTs <= LastOf(es).value.serverTs)
  {
    var ws, es := Select(rows, from), Batch(read, rows, from);
    var k := LastParsable(read, Prefix(ws, REINDEX_BATCH));
    SelectMembers(rows, from);
    SelectMembers(rows, None);
    NoGapSelected(read, rows, from);
    var i :| 0 <= i < |ws| && ws[i] == r;
    InWindowOrLater(read, ws, i);
    FirstWindow(read, ws);
    EventsMembers(read, ws[..k]);
    if i < k {
      assert r in ws[..k];
      assert read(r.source).value in es;
    } else {
      var last := ws[k - 1];
      assert Above(ws, k - 1, i) && last in ws;
      assert last in Messages(rows) && Parsable(read, last);
    }
  }

  /** From an event on, the loop indexes every other id of a message that parses and is no
      newer than it. */
  lemma {:induction false} LoopKeepsIds(read: Reader, rows: seq<EventRow>, e: Event, rounds: nat, r: EventRow)
    requires Readable(read, rows) && NoGaps(read, Messages(rows)) && Halts(read, rows, Some(e), rounds)
    requires r in Messages(rows) && Parsable(read, r) && r.serverTs <= e.serverTs
    ensures r.eventId == e.eventId || HasId(Loop(read, rows, Some(e), rounds), r.eventId)
    decreases rounds
  {
    var es := Batch(read, rows, Some(e));
    if r.eventId == e.eventId {
    } else {
      SelectMembers(rows, None);
      InBatchOrLater(read, rows, Some(e), r);
      var last := es[|es| - 1];
      HasIdConcat(es, Loop(read, rows, Some(last), rounds - 1), r.eventId);
      if !HasId(es, r.eventId) {
        assert last in es;
        LoopKeepsIds(read, rows, last, rounds - 1, r);
      }
    }
  }

  /** A reindex that ends, and meets no gap, has indexed exactly the event ids of the
      messages that parse: of several messages with one id some may be missing, never all. */
  lemma NoIdLost(read: Reader, rows: seq<EventRow>, rounds: nat, id: EventId)
    requires Readable(read, rows) && NoGaps(read, Messages(rows)) && Terminates(read, rows, rounds)
    ensures HasId(Indexed(read, rows, rounds), id)
       <==> exists r :: r in Messages(rows) && Parsable(read, r) && r.eventId == id
  {
    var ms, first := Messages(rows), Batch(read, rows, None);
    HasIdConcat(first, Loop(read, rows, LastOf(first), rounds), id);
    if exists r :: r in ms && Parsable(read, r) && r.eventId == id {
      var r :| r in ms && Parsable(read, r) && r.eventId == id;
      SelectMembers(rows, None);
      InBatchOrLater(read, rows, None, r);
      if !HasId(first, id) {
        assert first[|first| - 1] in first;
        LoopKeepsIds(read, rows, first[|first| - 1], rounds, r);
      }
    }
    if HasId(Indexed(read, rows, rounds), id) {
      var e :| e in Indexed(read, rows, rounds) && e.eventId == id;
      OnlyMessagesIndexed(read, rows, rounds, e);
      EventsMembers(read, ms);
    }
  }

  // ----- Where every message parses -----

  ghost predicate AllParse(read: Reader, ms: seq<EventRow>) {
    forall i | 0 <= i < |ms| :: Parsable(read, ms[i])
  }

  ghost predicate Parsing(read: Reader, rows: seq<EventRow>) {
    Readable(read, rows) && AllParse(read, Messages(rows))
  }

  /** Then there are no gaps. */
  lemma ParsingNoGaps(read: Reader, ms: seq<EventRow>)
    requires AllParse(read, ms)
    ensures NoGaps(read, ms)
  {
    forall skip: Option<EventId>
      ensures !HasGap(read, Apart(ms, skip))
    {
      var rest := Apart(ms, skip);
      ApartMembers(ms, skip);
      forall i: nat | i + REINDEX_BATCH <= |rest|
        ensures !Silent(read, rest, i)
      {
        assert rest[i] in rest && Parsable(read, rest[i]);
      }
    }
  }

  lemma {:induction false} ApartMembers(ms: seq<EventRow>, skip: Option<EventId>)
    ensures forall r | r in Apart(ms, skip) :: r in ms
  {
    if ms == [] {
    } else {
      ApartMembers(ms[1..], skip);
    }
  }

  lemma {:induction false} AllEvents(read: Reader, rows: seq<EventRow>)
    requires forall r | r in rows :: Parsable(read, r)
    ensures var es := EventsOf(read, rows);
            |es| == |rows| && forall i | 0 <= i < |rows| :: read(rows[i].source) == Some(es[i])
  {
    if rows == [] {
    } else {
      assert rows[0] in rows;
      AllEvents(read, rows[1..]);
      assert forall i | 1 <= i < |rows| :: rows[i] == rows[1..][i - 1];
    }
  }

  /** The rows that are selected: the messages that match, in descending order; and one
      batch of them gives their events. */
  lemma {:induction false} ParsingBatch(read: Reader, rows: seq<EventRow>, from: Option<Event>)
    requires Parsing(read, rows)
    ensures var ws, es := Select(rows, from), Batch(read, rows, from);
            && Ordered(ws) && (forall r :: r in ws <==> r in Messages(rows) && Matches(r, from))
            && |es| == Least(|ws|, REINDEX_BATCH)
            && forall i | 0 <= i < |es| :: Gives(read, ws[i], es[i])
  {
    var ms, ws := Messages(rows), Select(rows, from);
    SelectTwice(rows, from);
    SelectOrdered(ms, from);
    SelectMembers(ms, from);
    forall r | r in ws
      ensures Parsable(read, r)
    {
      var i :| 0 <= i < |ms| && ms[i] == r;
    }
    AllEvents(read, Prefix(ws, REINDEX_BATCH));
    forall i | 0 <= i < Least(|ws|, REINDEX_BATCH)
      ensures Gives(read, ws[i], Batch(read, rows, from)[i])
    {
      assert ws[i] in ms;
      assert Prefix(ws, REINDEX_BATCH)[i] == ws[i];
    }
  }

  /** The row parses to this event, with its own id and timestamp. */
  predicate Gives(read: Reader, row: EventRow, e: Event) {
    read(row.source) == Some(e) && e.eventId == row.eventId && e.serverTs == row.serverTs
  }

  // ----- When it ends -----

  /** The rows with one timestamp. */
  function AtTime(rows: seq<EventRow>, ts: int): (s: seq<EventRow>)
    ensures |s| <= |rows|
    ensures forall r :: r in s <==> r in rows && r.serverTs == ts
  {
    if rows == [] then []
    else
      var rest := AtTime(rows[1..], ts);
      if rows[0].serverTs == ts then [rows[0]] + rest else rest
  }

  /** No timestamp is shared by more messages than a batch holds. */
  ghost predicate SmallTies(ms: seq<EventRow>) {
    forall ts :: |AtTime(ms, ts)| <= REINDEX_BATCH
  }

  /** Where more messages share a timestamp, no id has so many of them that less than a
      batch is left without it. */
  ghost predicate Varied(ms: seq<EventRow>) {
    forall ts, id | |AtTime(ms, ts)| > REINDEX_BATCH :: |Apart(AtTime(ms, ts), Some(id))| >= REINDEX_BATCH
  }

  /** All messages with the oldest timestamp carry one id. */
  ghost predicate OneOldestId(ms: seq<EventRow>) {
    forall r | r in ms && r.serverTs == ms[|ms| - 1].serverTs :: r.eventId == ms[|ms| - 1].eventId
  }

  lemma {:induction false} SelectAtTime(ms: seq<EventRow>, e: Event, ts: int)
    requires ts <= e.serverTs && forall r | r in ms :: r.eventType == Message
    ensures AtTime(Select(ms, Some(e)), ts) == Apart(AtTime(ms, ts), Some(e.eventId))
  {
    if ms == [] {
    } else {
      assert ms[0] in ms;
      SelectAtTime(ms[1..], e, ts);
      var row, rest := ms[0], Select(ms[1..], Some(e));
      assert ([row] + rest)[1..] == rest;
      ApartCons(row, AtTime(ms[1..], ts), Some(e.eventId));
    }
  }

  lemma {:induction false} ApartShorter(rows: seq<EventRow>, r: EventRow)
    requires r in rows
    ensures |Apart(rows, Some(r.eventId))| < |rows|
  {
    if rows[0] == r {
    } else {
      ApartShorter(rows[1..], r);
    }
  }

  lemma {:induction false} AtTimeConcat(a: seq<EventRow>, b: seq<EventRow>, ts: int)
    ensures AtTime(a + b, ts) == AtTime(a, ts) + AtTime(b, ts)
  {
    if a == [] {
      assert a + b == b;
    } else {
      assert (a + b)[1..] == a[1..] + b;
      AtTimeConcat(a[1..], b, ts);
    }
  }

  lemma {:induction false} AllAtTime(rows: seq<EventRow>, ts: int)
    requires forall r | r in rows :: r.serverTs == ts
    ensures AtTime(rows, ts) == rows
  {
    if rows == [] {
    } else {
      assert rows[0] in rows;
      AllAtTime(rows[1..], ts);
    }
  }

  lemma {:induction false} NoneAtTime(rows: seq<EventRow>, ts: int)
    requires forall r | r in rows :: r.serverTs != ts
    ensures AtTime(rows, ts) == []
  {
    if rows == [] {
    } else {
      assert rows[0] in rows;
      NoneAtTime(rows[1..], ts);
    }
  }

  /** In descending order the rows with a timestamp lie before the older ones. */
  lemma AtTimeBefore(ws: seq<EventRow>, k: nat, ts: int)
    requires Ordered(ws) && k < |ws| && ws[k].serverTs < ts
    ensures |AtTime(ws, ts)| <= k
  {
    assert ws == ws[..k] + ws[k..];
    AtTimeConcat(ws[..k], ws[k..], ts);
    forall r | r in ws[k..]
      ensures r.serverTs < ts
    {
      var i :| k <= i < |ws| && ws[i] == r;
      assert i == k || Above(ws, k, i);
    }
    NoneAtTime(ws[k..], ts);
  }

  // ----- Never -----

  /** From any event that is not older than this timestamp, a batch is not empty and ends
      with such an event again. */
  ghost predicate Keeps(read: Reader, rows: seq<EventRow>, ts: int, from: Option<Event>) {
    (from.None? || from.value.serverTs >= ts) ==>
      var last := LastOf(Batch(read, rows, from));
      last.Some? && last.value.serverTs >= ts
  }

  lemma {:induction false} KeptNeverHalts(read: Reader, rows: seq<EventRow>, ts: int, from: Option<Event>, rounds: nat)
    requires (forall f :: Keeps(read, rows, ts, f)) && (from.None? || from.value.serverTs >= ts)
    ensures !Halts(read, rows, from, rounds)
    decreases rounds
  {
    assert Keeps(read, rows, ts, from);
    if rounds == 0 {
    } else {
      KeptNeverHalts(read, rows, ts, LastOf(Batch(read, rows, from)), rounds - 1);
    }
  }

  lemma KeptNeverEnds(read: Reader, rows: seq<EventRow>, ts: int, rounds: nat)
    requires forall f :: Keeps(read, rows, ts, f)
    ensures !Terminates(read, rows, rounds)
  {
    assert Keeps(read, rows, ts, None);
    KeptNeverHalts(read, rows, ts, LastOf(Batch(read, rows, None)), rounds);
  }

  /** What the query selects at a timestamp that the loop has not left behind. */
  lemma SelectedAtTime(rows: seq<EventRow>, from: Option<Event>, ts: int)
    requires from.None? || from.value.serverTs >= ts
    ensures var all := AtTime(Messages(rows), ts);
            AtTime(Select(rows, from), ts) == if from.None? then all else Apart(all, Some(from.value.eventId))
  {
    SelectTwice(rows, from);
    SelectMembers(rows, None);
    if from.Some? {
      SelectAtTime(Messages(rows), from.value, ts);
    }
  }

  lemma FullWindow(ws: seq<EventRow>, ts: int)
    requires Ordered(ws) && |AtTime(ws, ts)| >= REINDEX_BATCH
    ensures |ws| >= REINDEX_BATCH && ws[REINDEX_BATCH - 1].serverTs >= ts
  {
    if ws[REINDEX_BATCH - 1].serverTs < ts {
      AtTimeBefore(ws, REINDEX_BATCH - 1, ts);
    }
  }

  /** A timestamp that too many messages share keeps the loop. */
  lemma CrowdKeeps(read: Reader, rows: seq<EventRow>, ts: int, from: Option<Event>)
    requires Parsing(read, rows) && Varied(Messages(rows)) && |AtTime(Messages(rows), ts)| > REINDEX_BATCH
    ensures Keeps(read, rows, ts, from)
  {
    if from.None? || from.value.serverTs >= ts {
      var ws, es := Select(rows, from), Batch(read, rows, from);
      SelectedAtTime(rows, from, ts);
      ParsingBatch(read, rows, from);
      FullWindow(ws, ts);
      assert Gives(read, ws[REINDEX_BATCH - 1], es[REINDEX_BATCH - 1]);
    }
  }

  /** The row of the last event of a batch. */
  lemma LastRow(read: Reader, rows: seq<EventRow>, from: Option<Event>) returns (r: EventRow)
    requires Parsing(read, rows) && Batch(read, rows, from) != []
    ensures r in Messages(rows) && Matches(r, from) && Gives(read, r, LastOf(Batch(read, rows, from)).value)
  {
    var ws, es := Select(rows, from), Batch(read, rows, from);
    ParsingBatch(read, rows, from);
    r := ws[|es| - 1];
    assert r in ws && Gives(read, ws[|es| - 1], es[|es| - 1]);
  }

  lemma BatchNotEmpty(read: Reader, rows: seq<EventRow>, from: Option<Event>, r: EventRow)
    requires Parsing(read, rows) && r in Messages(rows) && Matches(r, from)
    ensures Batch(read, rows, from) != []
  {
    ParsingBatch(read, rows, from);
    assert r in Select(rows, from);
  }

  /** So does the oldest timestamp, if its messages have two ids. */
  lemma OldestKeeps(read: Reader, rows: seq<EventRow>, r: EventRow, from: Option<Event>)
    requires Parsing(read, rows) && r in Messages(rows)
    requires var last := Messages(rows)[|Messages(rows)| - 1];
             r.serverTs == last.serverTs && r.eventId != last.eventId
    ensures Keeps(read, rows, r.serverTs, from)
  {
    var ms := Messages(rows);
    var last := ms[|ms| - 1];
    if from.None? || from.value.serverTs >= r.serverTs {
      SelectMembers(rows, None);
      BatchNotEmpty(read, rows, from, if Matches(r, from) then r else last);
      var row := LastRow(read, rows, from);
      NoneOlder(ms, row);
    }
  }

  lemma NoneOlder(ms: seq<EventRow>, r: EventRow)
    requires Ordered(ms) && r in ms
    ensures r.serverTs >= ms[|ms| - 1].serverTs
  {
    var i :| 0 <= i < |ms| && ms[i] == r;
    assert i == |ms| - 1 || Above(ms, i, |ms| - 1);
  }

  // ----- Or after all -----

  /** If a batch does not get to an older timestamp, all older messages are skipped. */
  lemma StaysSkips(read: Reader, rows: seq<EventRow>, row: EventRow, e: Event)
    requires Parsing(read, rows) && SmallTies(Messages(rows)) && row in Messages(rows) && Gives(read, row, e)
    requires Batch(read, rows, Some(e)) != [] && LastOf(Batch(read, rows, Some(e))).value.serverTs >= e.serverTs
    ensures forall r | r in Messages(rows) && r.serverTs < e.serverTs :: r.eventId == e.eventId
  {
    var ms, ws, es := Messages(rows), Select(rows, Some(e)), Batch(read, rows, Some(e));
    ParsingBatch(read, rows, Some(e));
    FewAtTime(rows, row, e);
    var k := |es| - 1;
    assert Gives(read, ws[k], es[k]);
    StaysAtTime(ws, k, e.serverTs);
    assert k == |ws| - 1;
    forall r | r in ms && r.serverTs < e.serverTs
      ensures r.eventId == e.eventId
    {
      StaysSkipsOne(rows, e, r);
    }
  }

  lemma FewAtTime(rows: seq<EventRow>, row: EventRow, e: Event)
    requires SmallTies(Messages(rows)) && row in Messages(rows)
    requires row.serverTs == e.serverTs && row.eventId == e.eventId
    ensures |AtTime(Select(rows, Some(e)), e.serverTs)| < REINDEX_BATCH
  {
    SelectedAtTime(rows, Some(e), e.serverTs);
    ApartShorter(AtTime(Messages(rows), e.serverTs), row);
  }

  lemma StaysSkipsOne(rows: seq<EventRow>, e: Event, r: EventRow)
    requires Ordered(Select(rows, Some(e))) && r in Messages(rows) && r.serverTs < e.serverTs
    requires var ws := Select(rows, Some(e));
             ws != [] && ws[|ws| - 1].serverTs >= e.serverTs
    ensures r.eventId == e.eventId
  {
    var ws := Select(rows, Some(e));
    SelectMembers(rows, Some(e));
    SelectMembers(rows, None);
    if r.eventId != e.eventId {
      NoneOlder(ws, r);
    }
  }

  lemma StaysAtTime(ws: seq<EventRow>, k: nat, ts: int)
    requires Ordered(ws) && k < |ws| && (forall r | r in ws :: r.serverTs <= ts) && ws[k].serverTs >= ts
    ensures |AtTime(ws, ts)| > k
  {
    assert ws == ws[..k + 1] + ws[k + 1..];
    AtTimeConcat(ws[..k + 1], ws[k + 1..], ts);
    forall r | r in ws[..k + 1]
      ensures r.serverTs == ts
    {
      var i :| 0 <= i <= k && ws[i] == r;
      assert r in ws && (i == k || Above(ws, i, k));
    }
    AllAtTime(ws[..k + 1], ts);
  }

  /** Two batches in a row do not both stay at one timestamp. */
  lemma StaysOnce(read: Reader, rows: seq<EventRow>, row: EventRow, e: Event, row': EventRow, e': Event)
    requires Parsing(read, rows) && SmallTies(Messages(rows)) && OneOldestId(Messages(rows))
    requires row in Messages(rows) && Gives(read, row, e) && row' in Messages(rows) && Gives(read, row', e')
    requires LastOf(Batch(read, rows, Some(e))) == Some(e') && Matches(row', Some(e)) && e'.serverTs >= e.serverTs
    requires Batch(read, rows, Some(e')) != []
    ensures LastOf(Batch(read, rows, Some(e'))).value.serverTs < e'.serverTs
  {
    var ms := Messages(rows);
    var oldest := ms[|ms| - 1];
    StaysSkips(read, rows, row, e);
    NoneOlder(ms, row);
    assert oldest in ms;
    if LastOf(Batch(read, rows, Some(e'))).value.serverTs >= e'.serverTs {
      StaysSkips(read, rows, row', e');
    }
  }

  /** From the event of a message the loop ends. */
  lemma {:induction false} EndsFrom(read: Reader, rows: seq<EventRow>, row: EventRow, e: Event) returns (rounds: nat)
    requires Parsing(read, rows) && SmallTies(Messages(rows)) && OneOldestId(Messages(rows))
    requires row in Messages(rows) && Gives(read, row, e)
    ensures Halts(read, rows, Some(e), rounds)
    decreases e.serverTs - Messages(rows)[|Messages(rows)| - 1].serverTs, 1
  {
    var es := Batch(read, rows, Some(e));
    if es == [] {
      rounds := 1;
    } else {
      var next := LastRow(read, rows, Some(e));
      var last := es[|es| - 1];
      NoneOlder(Messages(rows), next);
      if last.serverTs < e.serverTs {
        rounds := EndsFrom(read, rows, next, last);
      } else {
        rounds := EndsStaying(read, rows, row, e, next, last);
      }
      rounds := rounds + 1;
    }
  }

  lemma {:induction false} EndsStaying(
    read: Reader, rows: seq<EventRow>, row: EventRow, e: Event, row': EventRow, e': Event) returns (rounds: nat)
    requires Parsing(read, rows) && SmallTies(Messages(rows)) && OneOldestId(Messages(rows))
    requires row in Messages(rows) && Gives(read, row, e) && row' in Messages(rows) && Gives(read, row', e')
    requires LastOf(Batch(read, rows, Some(e))) == Some(e') && Matches(row', Some(e)) && e'.serverTs >= e.serverTs
    ensures Halts(read, rows, Some(e'), rounds)
    decreases e.serverTs - Messages(rows)[|Messages(rows)| - 1].serverTs, 0
  {
    var es := Batch(read, rows, Some(e'));
    if es == [] {
      rounds := 1;
    } else {
      var next := LastRow(read, rows, Some(e'));
      var last := es[|es| - 1];
      StaysOnce(read, rows, row, e, row', e');
      NoneOlder(Messages(rows), next);
      rounds := EndsFrom(read, rows, next, last);
      rounds := rounds + 1;
    }
  }

  lemma CrowdNeverEnds(read: Reader, rows: seq<EventRow>, rounds: nat)
    requires Parsing(read, rows) && Varied(Messages(rows)) && !SmallTies(Messages(rows))
    ensures !Terminates(read, rows, rounds)
  {
    var ts :| |AtTime(Messages(rows), ts)| > REINDEX_BATCH;
    forall from
      ensures Keeps(read, rows, ts, from)
    {
      CrowdKeeps(read, rows, ts, from);
    }
    KeptNeverEnds(read, rows, ts, rounds);
  }

  lemma OldestNeverEnds(read: Reader, rows: seq<EventRow>, rounds: nat)
    requires Parsing(read, rows) && !OneOldestId(Messages(rows))
    ensures !Terminates(read, rows, rounds)
  {
    var ms := Messages(rows);
    var r :| r in ms && r.serverTs == ms[|ms| - 1].serverTs && r.eventId != ms[|ms| - 1].eventId;
    forall from
      ensures Keeps(read, rows, r.serverTs, from)
    {
      OldestKeeps(read, rows, r, from);
    }
    KeptNeverEnds(read, rows, r.serverTs, rounds);
  }

  lemma SmallTiesEnd(read: Reader, rows: seq<EventRow>) returns (rounds: nat)
    requires Parsing(read, rows) && SmallTies(Messages(rows)) && OneOldestId(Messages(rows))
    ensures Terminates(read, rows, rounds)
  {
    var first := Batch(read, rows, None);
    if first == [] {
      rounds := 1;
    } else {
      var row := LastRow(read, rows, None);
      rounds := EndsFrom(read, rows, row, first[|first| - 1]);
    }
  }

  /** If every message parses, the reindex ends only if all the oldest messages carry one
      id. That is also enough where no timestamp is shared by more messages than a batch
      holds; and if one is, the reindex ends never, unless an id is dominant there. */
  lemma SharedReindexEndsIff(read: Reader, rows: seq<EventRow>)
    requires Parsing(read, rows)
    ensures var ms, ends := Messages(rows), exists rounds: nat :: Terminates(read, rows, rounds);
            && (ends ==> OneOldestId(ms))
            && (SmallTies(ms) ==> (ends <==> OneOldestId(ms)))
            && (Varied(ms) ==> (ends <==> SmallTies(ms) && OneOldestId(ms)))
  {
    var ms := Messages(rows);
    if exists rounds: nat :: Terminates(read, rows, rounds) {
      var rounds: nat :| Terminates(read, rows, rounds);
      if !OneOldestId(ms) {
        OldestNeverEnds(read, rows, rounds);
      } else if Varied(ms) && !SmallTies(ms) {
        CrowdNeverEnds(read, rows, rounds);
      }
    }
    if SmallTies(ms) && OneOldestId(ms) {
      var rounds := SmallTiesEnd(read, rows);
    }
  }

  // ----- Where messages with one timestamp have different ids -----

  ghost predicate TiesApart(ms: seq<EventRow>) {
    forall i, j | 0 <= i < j < |ms| && ms[i].serverTs == ms[j].serverTs :: OtherId(ms, i, j)
  }

  lemma {:induction false} TiesApartRest(ms: seq<EventRow>)
    requires TiesApart(ms) && ms != []
    ensures TiesApart(ms[1..])
    ensures forall r | r in ms[1..] && r.serverTs == ms[0].serverTs :: r.eventId != ms[0].eventId
  {
    forall i, j | 0 <= i < j < |ms[1..]| && ms[1..][i].serverTs == ms[1..][j].serverTs
      ensures OtherId(ms[1..], i, j)
    {
      assert OtherId(ms, i + 1, j + 1);
    }
    forall r | r in ms[1..] && r.serverTs == ms[0].serverTs
      ensures r.eventId != ms[0].eventId
    {
      var j :| 0 < j < |ms| && ms[j] == r;
      assert OtherId(ms, 0, j);
    }
  }

  lemma {:induction false} OneAtTime(ms: seq<EventRow>, ts: int, id: EventId)
    requires TiesApart(ms)
    ensures |Apart(AtTime(ms, ts), Some(id))| + 1 >= |AtTime(ms, ts)|
  {
    if ms == [] {
    } else {
      TiesApartRest(ms);
      OneAtTime(ms[1..], ts, id);
      var rest := AtTime(ms[1..], ts);
      ApartCons(ms[0], rest, Some(id));
      if ms[0].serverTs == ts && ms[0].eventId == id {
        ApartAbsent(rest, Some(id));
      }
    }
  }

  /** The oldest timestamp is not shared. */
  predicate LoneOldest(ms: seq<EventRow>) {
    |ms| >= 2 ==> ms[|ms| - 2].serverTs > ms[|ms| - 1].serverTs
  }

  lemma LoneOldestIff(ms: seq<EventRow>)
    requires Ordered(ms) && TiesApart(ms)
    ensures OneOldestId(ms) <==> LoneOldest(ms)
  {
    var n := |ms|;
    if n >= 2 {
      assert Above(ms, n - 2, n - 1) && ms[n - 2] in ms;
      assert ms[n - 2].serverTs == ms[n - 1].serverTs ==> OtherId(ms, n - 2, n - 1);
    }
    if LoneOldest(ms) {
      forall r | r in ms && r.serverTs == ms[n - 1].serverTs
        ensures r.eventId == ms[n - 1].eventId
      {
        var i :| 0 <= i < n && ms[i] == r;
        assert i < n - 2 ==> Above(ms, i, n - 2);
      }
    }
  }

  /** If every message parses, and no two of them share both timestamp and id, the reindex
      ends exactly if the oldest timestamp is not shared and no timestamp is shared by more
      messages than a batch holds. */
  lemma ParsableReindexEndsIff(read: Reader, rows: seq<EventRow>)
    requires Parsing(read, rows) && TiesApart(Messages(rows))
    ensures (exists rounds: nat :: Terminates(read, rows, rounds)) <==>
              LoneOldest(Messages(rows)) && SmallTies(Messages(rows))
  {
    var ms := Messages(rows);
    SharedReindexEndsIff(read, rows);
    LoneOldestIff(ms);
    forall ts, id | |AtTime(ms, ts)| > REINDEX_BATCH
      ensures |Apart(AtTime(ms, ts), Some(id))| >= REINDEX_BATCH
    {
      OneAtTime(ms, ts, id);
    }
  }
}
