/**
 Small stores on which the reindex loop does not end, or stops too early.
 */
module ReindexExamples {
  import opened Wrappers
  import opened Events
  import opened Tables
  import opened Reindex
  import opened SharedIds

  function MessageRow(id: EventId, ts: int, source: string): EventRow {
    EventRow(id, "", ts, 1, Message, None, source, 1)
  }

  function MessageEvent(id: EventId, ts: int, source: string): Event {
    Event(Message, "", None, id, "", ts, "", source)
  }

  // ----- Two oldest messages with one timestamp -----

  const TIED: seq<EventRow> := [MessageRow("$1", 7, "one"), MessageRow("$2", 7, "two")]

  const TIED_READER: Reader :=
    source => if source == "one" then Some(MessageEvent("$1", 7, "one"))
              else if source == "two" then Some(MessageEvent("$2", 7, "two"))
              else None

  lemma TiedRows()
    ensures Messages(TIED) == TIED && Parsing(TIED_READER, TIED) && TiesApart(TIED)
  {
    assert TIED[0].source != TIED[1].source by {
      assert "one"[0] != "two"[0];
    }
    SelectAll(TIED, None);
  }

  /** Both parse, and each batch after one of them is the other: the loop never ends. */
  lemma TiedNeverEnds(rounds: nat)
    ensures !Terminates(TIED_READER, TIED, rounds)
  {
    TiedRows();
    ParsableReindexEndsIff(TIED_READER, TIED);
  }

  // ----- A message behind a batch of rows that do not parse -----

  /** Ids of different lengths. */
  function IdOf(i: nat): EventId {
    seq(i, _ => 'x')
  }

  function HiddenRow(i: nat): EventRow
    requires i <= REINDEX_BATCH
  {
    MessageRow(IdOf(i), REINDEX_BATCH - i, if i == REINDEX_BATCH then "good" else "bad")
  }

  function Hidden(): seq<EventRow> {
    seq(REINDEX_BATCH + 1, i requires 0 <= i <= REINDEX_BATCH => HiddenRow(i))
  }

  const HIDDEN_READER: Reader :=
    source => if source == "good" then Some(MessageEvent(IdOf(REINDEX_BATCH), 0, "good")) else None

  lemma HiddenAt(i: nat)
    requires i <= REINDEX_BATCH
    ensures Hidden()[i] == HiddenRow(i) && |Hidden()[i].eventId| == i
    ensures Parsable(HIDDEN_READER, Hidden()[i]) <==> i == REINDEX_BATCH
  {
    assert "good"[0] != "bad"[0];
  }

  lemma HiddenOrder()
    ensures Timed(Hidden()) && OneIdEach(Hidden())
  {
    var ms := Hidden();
    forall i, j | 0 <= i < j < |ms|
      ensures ms[i].serverTs > ms[j].serverTs && OtherId(ms, i, j)
    {
      HiddenAt(i);
      HiddenAt(j);
    }
  }

  lemma HiddenMessages()
    ensures Messages(Hidden()) == Hidden()
  {
    forall r | r in Hidden()
      ensures Matches(r, None)
    {
      var i :| 0 <= i < |Hidden()| && Hidden()[i] == r;
      HiddenAt(i);
    }
    SelectAll(Hidden(), None);
  }

  lemma HiddenAgrees()
    ensures Agrees(HIDDEN_READER, Hidden())
  {
    forall r | r in Hidden() && Parsable(HIDDEN_READER, r)
      ensures r == HiddenRow(REINDEX_BATCH)
    {
      var i :| 0 <= i < |Hidden()| && Hidden()[i] == r;
      HiddenAt(i);
    }
  }

  lemma HiddenGap()
    ensures HasGap(HIDDEN_READER, Hidden())
  {
    forall k | 0 <= k < REINDEX_BATCH
      ensures !Parsable(HIDDEN_READER, Hidden()[k])
    {
      HiddenAt(k);
    }
    HiddenAt(REINDEX_BATCH);
    assert Silent(HIDDEN_READER, Hidden(), 0);
  }

  /** The message behind them is not indexed, although the loop ends. */
  lemma HiddenNotIndexed(rounds: nat)
    requires rounds > |Hidden()|
    ensures |Hidden()| == 501
    ensures Terminates(HIDDEN_READER, Hidden(), rounds)
    ensures Indexed(HIDDEN_READER, Hidden(), rounds) != EventsOf(HIDDEN_READER, Messages(Hidden()))
  {
    HiddenMessages();
    HiddenOrder();
    HiddenAgrees();
    HiddenGap();
    IndexedIsReached(HIDDEN_READER, Hidden(), rounds);
    ReindexCompleteIff(HIDDEN_READER, Hidden(), rounds);
  }

  // ----- Two messages in different rooms with one id -----

  function SharedRow(i: nat): EventRow
    requires i <= REINDEX_BATCH
  {
    MessageRow(IdOf(if i == REINDEX_BATCH then i - 1 else i), REINDEX_BATCH - i, IdOf(i))
      .(roomId := if i == REINDEX_BATCH then 2 else 1)
  }

  function Shared(): seq<EventRow> {
    seq(REINDEX_BATCH + 1, i requires 0 <= i <= REINDEX_BATCH => SharedRow(i))
  }

  /** Every row parses; the source of row i has length i. */
  const SHARED_READER: Reader :=
    source =>
      if |source| <= REINDEX_BATCH then
        Some(MessageEvent(SharedRow(|source|).eventId, REINDEX_BATCH - |source|, source))
      else None

  lemma SharedAt(i: nat)
    requires i <= REINDEX_BATCH
    ensures Shared()[i] == SharedRow(i) && |Shared()[i].source| == i
    ensures SHARED_READER(Shared()[i].source)
         == Some(MessageEvent(SharedRow(i).eventId, REINDEX_BATCH - i, Shared()[i].source))
  {
  }

  lemma SharedMessages()
    ensures Messages(Shared()) == Shared()
  {
    forall r | r in Shared()
      ensures Matches(r, None)
    {
      var i :| 0 <= i < |Shared()| && Shared()[i] == r;
      SharedAt(i);
    }
    SelectAll(Shared(), None);
  }

  lemma {:induction false} NothingSelected(e: Event)
    requires e.eventId == IdOf(REINDEX_BATCH - 1) && e.serverTs == 1
    ensures Select(Shared(), Some(e)) == []
  {
    forall r | r in Shared()
      ensures !Matches(r, Some(e))
    {
      var i :| 0 <= i < |Shared()| && Shared()[i] == r;
      SharedAt(i);
    }
    SelectNone(Shared(), Some(e));
  }

  lemma SharedFirstBatch()
    ensures Batch(SHARED_READER, Shared(), None) == EventsOf(SHARED_READER, Shared()[..REINDEX_BATCH])
    ensures var last := LastOf(Batch(SHARED_READER, Shared(), None));
            last.Some? && last.value.eventId == IdOf(REINDEX_BATCH - 1) && last.value.serverTs == 1
  {
    SharedMessages();
    SharedAt(REINDEX_BATCH - 1);
    LastEvent(SHARED_READER, Shared()[..REINDEX_BATCH]);
  }

  /** The batch after the first one would begin with a message that carries the id of the
      event to continue from: the loop takes it for that event and ends. */
  lemma SharedIdNotIndexed(rounds: nat)
    requires rounds > 0
    ensures Terminates(SHARED_READER, Shared(), rounds)
    ensures Indexed(SHARED_READER, Shared(), rounds) == EventsOf(SHARED_READER, Shared()[..REINDEX_BATCH])
    ensures Messages(Shared()) == Shared() && Parsable(SHARED_READER, Shared()[REINDEX_BATCH])
  {
    SharedFirstBatch();
    SharedMessages();
    SharedAt(REINDEX_BATCH);
    var first := Batch(SHARED_READER, Shared(), None);
    NothingSelected(LastOf(first).value);
    assert first + [] == first;
  }

  lemma SharedOrder()
    ensures Timed(Shared()) && Agrees(SHARED_READER, Shared())
  {
    var ms := Shared();
    forall i, j | 0 <= i < j < |ms|
      ensures ms[i].serverTs > ms[j].serverTs
    {
      SharedAt(i);
      SharedAt(j);
    }
    forall r | r in ms && Parsable(SHARED_READER, r)
      ensures var e := SHARED_READER(r.source).value;
              e.eventId == r.eventId && e.serverTs == r.serverTs
    {
      var i :| 0 <= i < |ms| && ms[i] == r;
      SharedAt(i);
    }
  }

  /** It is passed over, as the condition for completeness says. */
  lemma SharedIdPassedOver()
    ensures PassedOver(SHARED_READER, Messages(Shared()), None)
  {
    var ms, rounds := Shared(), |Shared()| + 1;
    SharedMessages();
    SharedOrder();
    SharedIdNotIndexed(rounds);
    ReindexCoversIff(SHARED_READER, ms, rounds);
    EventsSplit(SHARED_READER, ms, REINDEX_BATCH);
    SharedAt(REINDEX_BATCH);
    NoEvents(SHARED_READER, ms[REINDEX_BATCH..]);
    assert Parsable(SHARED_READER, ms[REINDEX_BATCH..][0]);
  }
}
