/**
 Messages with equal timestamps, and rows that do not parse: exactly when the reindex
 loop ends, and what it has then indexed, how often.
 */
module Ties {
  import opened Wrappers
  import opened Sequences
  import opened Events
  import opened Tables
  import opened Reindex

  /** Descending timestamps, ties allowed. */
  ghost predicate Ordered(ms: seq<EventRow>) {
    forall i, j | 0 <= i < j < |ms| :: Above(ms, i, j)
  }

  predicate Above(ms: seq<EventRow>, i: nat, j: nat)
    requires i < j < |ms|
  {
    ms[i].serverTs >= ms[j].serverTs
  }

  /** And no event id twice. */
  ghost predicate Descending(ms: seq<EventRow>) {
    Ordered(ms) && OneIdEach(ms)
  }

  /** A row that parses gives its own event. */
  ghost predicate Listed(read: Reader, ms: seq<EventRow>) {
    Descending(ms) && Agrees(read, ms)
  }

  /** The first row with the timestamp of row p. */
  function TieStart(ms: seq<EventRow>, p: nat): (a: nat)
    requires p < |ms|
    ensures a <= p && ms[a].serverTs == ms[p].serverTs
    ensures a == 0 || ms[a - 1].serverTs != ms[p].serverTs
  {
    if p > 0 && ms[p - 1].serverTs == ms[p].serverTs then TieStart(ms, p - 1) else p
  }

  /** The rows that the query selects to continue from row p. */
  function Others(ms: seq<EventRow>, p: nat): seq<EventRow>
    requires p < |ms|
  {
    ms[TieStart(ms, p)..p] + ms[p + 1..]
  }

  lemma SelectParts(
    newer: seq<EventRow>, tied: seq<EventRow>, row: EventRow, older: seq<EventRow>, from: Option<Event>)
    requires Select(newer, from) == [] && Select([row], from) == []
    requires Select(tied, from) == tied && Select(older, from) == older
    ensures Select(newer + tied + [row] + older, from) == tied + older
  {
    SelectConcat(newer + tied + [row], older, from);
    SelectConcat(newer + tied, [row], from);
    SelectConcat(newer, tied, from);
    assert [] + tied + [] == tied;
  }

  lemma Parts(ms: seq<EventRow>, a: nat, p: nat)
    requires a <= p < |ms|
    ensures ms == ms[..a] + ms[a..p] + [ms[p]] + ms[p + 1..]
  {
  }

  lemma {:induction false} SelectNewer(ms: seq<EventRow>, p: nat, e: Event)
    requires Ordered(ms) && p < |ms| && e.serverTs == ms[p].serverTs
    ensures Select(ms[..TieStart(ms, p)], Some(e)) == []
  {
    var a := TieStart(ms, p);
    forall r | r in ms[..a]
      ensures !Matches(r, Some(e))
    {
      var i :| 0 <= i < a && r == ms[i];
      assert i == a - 1 || Above(ms, i, a - 1);
      assert Above(ms, a - 1, p);
    }
    SelectNone(ms[..a], Some(e));
  }

  lemma SelectOthers(ms: seq<EventRow>, a: nat, p: nat, e: Event)
    requires a <= p < |ms| && ms[a].serverTs == ms[p].serverTs
    requires Descending(ms)
    requires forall r | r in ms :: r.eventType == Message
    requires e.eventId == ms[p].eventId && e.serverTs == ms[p].serverTs
    ensures Select(ms[a..p], Some(e)) == ms[a..p]
    ensures Select([ms[p]], Some(e)) == []
    ensures Select(ms[p + 1..], Some(e)) == ms[p + 1..]
  {
    forall r | r in ms[a..p]
      ensures Matches(r, Some(e))
    {
      var i :| a <= i < p && r == ms[i];
      assert r in ms && (i == a || Above(ms, a, i)) && Above(ms, i, p) && OtherId(ms, i, p);
    }
    SelectAll(ms[a..p], Some(e));
    forall r | r in ms[p + 1..]
      ensures Matches(r, Some(e))
    {
      var i :| p < i < |ms| && r == ms[i];
      assert r in ms && Above(ms, p, i) && OtherId(ms, p, i);
    }
    SelectAll(ms[p + 1..], Some(e));
  }

  lemma SelectTiedIn(ms: seq<EventRow>, p: nat, e: Event)
    requires Descending(ms) && p < |ms| && forall r | r in ms :: r.eventType == Message
    requires e.eventId == ms[p].eventId && e.serverTs == ms[p].serverTs
    ensures Select(ms, Some(e)) == Others(ms, p)
  {
    var a := TieStart(ms, p);
    Parts(ms, a, p);
    SelectNewer(ms, p, e);
    SelectOthers(ms, a, p, e);
    SelectParts(ms[..a], ms[a..p], ms[p], ms[p + 1..], Some(e));
  }

  lemma SelectTied(rows: seq<EventRow>, p: nat, e: Event)
    requires Descending(Messages(rows)) && p < |Messages(rows)|
    requires e.eventId == Messages(rows)[p].eventId && e.serverTs == Messages(rows)[p].serverTs
    ensures Select(rows, Some(e)) == Others(Messages(rows), p)
  {
    SelectMembers(rows, None);
    SelectTwice(rows, Some(e));
    SelectTiedIn(Messages(rows), p, e);
  }

  // ----- One batch, by positions -----

  /** The end of the last row from lo to hi that parses, or lo. */
  function LastIn(read: Reader, ms: seq<EventRow>, lo: nat, hi: nat): (r: nat)
    requires lo <= hi <= |ms|
    ensures lo <= r <= hi
    decreases hi
  {
    if hi == lo then lo
    else if Parsable(read, ms[hi - 1]) then hi
    else LastIn(read, ms, lo, hi - 1)
  }

  lemma {:induction false} LastInIs(read: Reader, ms: seq<EventRow>, lo: nat, hi: nat)
    requires lo <= hi <= |ms|
    ensures var r := LastIn(read, ms, lo, hi);
            && (r > lo ==> Parsable(read, ms[r - 1]))
            && forall i | r <= i < hi :: !Parsable(read, ms[i])
    decreases hi
  {
    if lo == hi || Parsable(read, ms[hi - 1]) {
    } else {
      LastInIs(read, ms, lo, hi - 1);
    }
  }

  lemma LastInUnique(read: Reader, ms: seq<EventRow>, lo: nat, hi: nat, q: nat)
    requires lo <= q < hi <= |ms| && Parsable(read, ms[q])
    requires forall i | q < i < hi :: !Parsable(read, ms[i])
    ensures LastIn(read, ms, lo, hi) == q + 1
  {
    LastInIs(read, ms, lo, hi);
  }

  lemma EventsSnoc(read: Reader, ms: seq<EventRow>, lo: nat, hi: nat)
    requires lo < hi <= |ms|
    ensures EventsOf(read, ms[lo..hi])
         == EventsOf(read, ms[lo..hi - 1])
              + (if Parsable(read, ms[hi - 1]) then [read(ms[hi - 1].source).value] else [])
  {
    var last := [ms[hi - 1]];
    assert ms[lo..hi] == ms[lo..hi - 1] + last;
    EventsConcat(read, ms[lo..hi - 1], last);
    assert last[1..] == [];
  }

  lemma PieceParsable(read: Reader, ms: seq<EventRow>, lo: nat, hi: nat)
    requires lo < hi <= |ms| && Parsable(read, ms[hi - 1])
    ensures var es := EventsOf(read, ms[lo..hi]);
            es != [] && LastOf(es) == read(ms[hi - 1].source)
  {
    EventsSnoc(read, ms, lo, hi);
    LastOfConcat(EventsOf(read, ms[lo..hi - 1]), [read(ms[hi - 1].source).value]);
  }

  lemma PieceSilent(read: Reader, ms: seq<EventRow>, lo: nat, hi: nat)
    requires lo < hi <= |ms| && !Parsable(read, ms[hi - 1])
    ensures EventsOf(read, ms[lo..hi]) == EventsOf(read, ms[lo..hi - 1])
  {
    EventsSnoc(read, ms, lo, hi);
  }

  /** The events of a piece end with its last row that parses. */
  lemma {:induction false} PieceEvents(read: Reader, ms: seq<EventRow>, lo: nat, hi: nat)
    requires lo <= hi <= |ms|
    ensures var es, r := EventsOf(read, ms[lo..hi]), LastIn(read, ms, lo, hi);
            && es == EventsOf(read, ms[lo..r]) && (es == [] <==> r == lo)
            && (r > lo ==> LastOf(es) == read(ms[r - 1].source))
    decreases hi
  {
    if lo < hi && Parsable(read, ms[hi - 1]) {
      PieceParsable(read, ms, lo, hi);
    } else if lo < hi {
      PieceSilent(read, ms, lo, hi);
      PieceEvents(read, ms, lo, hi - 1);
    }
  }

  /** The end of the batch that continues from row p: a batch of rows after the first
      one with its timestamp. */
  function End(ms: seq<EventRow>, p: nat): (end: nat)
    requires p < |ms|
  {
    Least(TieStart(ms, p) + REINDEX_BATCH + 1, |ms|)
  }

  /** Row p parses and lies within one batch of the first row with its timestamp. */
  predicate Reachable(read: Reader, ms: seq<EventRow>, p: nat) {
    p < |ms| && Parsable(read, ms[p]) && p <= TieStart(ms, p) + REINDEX_BATCH
  }

  /** The last row that parses in the batch that continues from row p, or p. */
  function Forward(read: Reader, ms: seq<EventRow>, p: nat): (q: nat)
    requires Reachable(read, ms, p)
    ensures p <= q < End(ms, p)
  {
    ForwardEnd(read, ms, p) - 1
  }

  function ForwardEnd(read: Reader, ms: seq<EventRow>, p: nat): (r: nat)
    requires Reachable(read, ms, p)
    ensures p < r <= End(ms, p)
  {
    LastIn(read, ms, p + 1, End(ms, p))
  }

  lemma OthersWindow(read: Reader, ms: seq<EventRow>, p: nat)
    requires Reachable(read, ms, p)
    ensures Prefix(Others(ms, p), REINDEX_BATCH) == ms[TieStart(ms, p)..p] + ms[p + 1..End(ms, p)]
  {
    var a, end := TieStart(ms, p), End(ms, p);
    var tied, older := ms[a..p], ms[p + 1..];
    var n := Least(REINDEX_BATCH, |tied + older|);
    assert |tied| <= n && n - |tied| == end - p - 1;
    assert (tied + older)[..n] == tied + older[..n - |tied|];
    assert older[..n - |tied|] == ms[p + 1..end];
    assert Prefix(tied + older, REINDEX_BATCH) == (tied + older)[..n];
  }

  /** The loop continues from the event of row p. */
  ghost predicate At(read: Reader, rows: seq<EventRow>, p: nat, from: Option<Event>) {
    && Listed(read, Messages(rows)) && Reachable(read, Messages(rows), p)
    && from == read(Messages(rows)[p].source)
  }

  /** The events of the rows that the query selects to continue from row p. */
  lemma SelectedWindow(read: Reader, rows: seq<EventRow>, p: nat, from: Option<Event>)
    requires At(read, rows, p, from)
    ensures var ms := Messages(rows);
            Batch(read, rows, from) == EventsOf(read, ms[TieStart(ms, p)..p]) + EventsOf(read, ms[p + 1..End(ms, p)])
  {
    var ms := Messages(rows);
    assert ms[p] in ms;
    SelectTied(rows, p, from.value);
    OthersWindow(read, ms, p);
    EventsConcat(read, ms[TieStart(ms, p)..p], ms[p + 1..End(ms, p)]);
  }

  lemma LastOfConcat(a: seq<Event>, b: seq<Event>)
    ensures LastOf(a + b) == if b == [] then LastOf(a) else LastOf(b)
  {
  }

  /** The events of the batch that continues from row p: of the rows before it with its
      timestamp, and of the rows after it. */
  function BatchEvents(read: Reader, ms: seq<EventRow>, p: nat): seq<Event>
    requires Reachable(read, ms, p)
  {
    EventsOf(read, ms[TieStart(ms, p)..p]) + EventsOf(read, ms[p + 1..ForwardEnd(read, ms, p)])
  }

  /** The row at which this batch ends, if it is not empty. */
  function NextPos(read: Reader, ms: seq<EventRow>, p: nat): (q: Option<nat>)
    requires Reachable(read, ms, p)
    ensures q.Some? ==> q.value < |ms|
  {
    var r, t := ForwardEnd(read, ms, p), LastIn(read, ms, TieStart(ms, p), p);
    if r > p + 1 then Some(r - 1) else if t > TieStart(ms, p) then Some(t - 1) else None
  }

  lemma OlderPiece(read: Reader, ms: seq<EventRow>, p: nat)
    requires Reachable(read, ms, p)
    ensures var older, r := EventsOf(read, ms[p + 1..End(ms, p)]), ForwardEnd(read, ms, p);
            && older == EventsOf(read, ms[p + 1..r]) && (older == [] <==> r == p + 1)
            && (older != [] ==> LastOf(older) == read(ms[r - 1].source))
  {
    PieceEvents(read, ms, p + 1, End(ms, p));
  }

  lemma TiedPiece(read: Reader, ms: seq<EventRow>, p: nat)
    requires Reachable(read, ms, p)
    ensures var tied, a := EventsOf(read, ms[TieStart(ms, p)..p]), TieStart(ms, p);
            var t := LastIn(read, ms, a, p);
            && (tied == [] <==> t == a) && (tied != [] ==> LastOf(tied) == read(ms[t - 1].source))
  {
    PieceEvents(read, ms, TieStart(ms, p), p);
  }

  lemma WindowIsBatch(read: Reader, ms: seq<EventRow>, p: nat, tied: seq<Event>, older: seq<Event>)
    requires Reachable(read, ms, p)
    requires tied == EventsOf(read, ms[TieStart(ms, p)..p]) && older == EventsOf(read, ms[p + 1..End(ms, p)])
    ensures tied + older == BatchEvents(read, ms, p)
    ensures LastOf(tied + older) == match NextPos(read, ms, p) case Some(q) => read(ms[q].source) case None => None
    ensures tied + older == [] <==> NextPos(read, ms, p) == None
  {
    OlderPiece(read, ms, p);
    TiedPiece(read, ms, p);
    LastOfConcat(tied, older);
  }

  lemma BatchFrom(read: Reader, rows: seq<EventRow>, p: nat, from: Option<Event>)
    requires At(read, rows, p, from)
    ensures var ms, es := Messages(rows), Batch(read, rows, from);
            && es == BatchEvents(read, ms, p) && (es == [] <==> NextPos(read, ms, p) == None)
            && (es != [] ==> At(read, rows, NextPos(read, ms, p).value, LastOf(es)))
  {
    var ms, es := Messages(rows), Batch(read, rows, from);
    SelectedWindow(read, rows, p, from);
    WindowIsBatch(read, ms, p, EventsOf(read, ms[TieStart(ms, p)..p]), EventsOf(read, ms[p + 1..End(ms, p)]));
    NextReachable(read, ms, p);
  }

  // ----- Positions -----

  lemma TieStartIs(ms: seq<EventRow>, p: nat, i: nat)
    requires Ordered(ms) && p < |ms| && i < |ms|
    ensures TieStart(ms, p) <= i <= p ==> TieStart(ms, i) == TieStart(ms, p)
    ensures i <= p ==> TieStart(ms, i) <= TieStart(ms, p)
    ensures TieStart(ms, i) < TieStart(ms, p) ==> i < TieStart(ms, p)
  {
    var a, b := TieStart(ms, p), TieStart(ms, i);
    assert a < i ==> Above(ms, a, i);
    assert i < p ==> Above(ms, i, p);
    assert p < i ==> Above(ms, p, i);
    assert b > 0 ==> Above(ms, b - 1, i) && (a < b - 1 ==> Above(ms, a, b - 1));
    assert a > 0 ==> Above(ms, a - 1, p) && (b < a - 1 ==> Above(ms, b, a - 1));
  }

  lemma ForwardReachable(read: Reader, ms: seq<EventRow>, p: nat)
    requires Ordered(ms) && Reachable(read, ms, p)
    ensures var q := Forward(read, ms, p);
            && Reachable(read, ms, q) && TieStart(ms, q) >= TieStart(ms, p)
            && forall i | q < i < End(ms, p) :: !Parsable(read, ms[i])
  {
    var q := Forward(read, ms, p);
    LastInIs(read, ms, p + 1, End(ms, p));
    TieStartIs(ms, q, p);
  }

  lemma NextReachable(read: Reader, ms: seq<EventRow>, p: nat)
    requires Ordered(ms) && Reachable(read, ms, p)
    ensures NextPos(read, ms, p).Some? ==> Reachable(read, ms, NextPos(read, ms, p).value)
  {
    var a := TieStart(ms, p);
    ForwardReachable(read, ms, p);
    LastInIs(read, ms, a, p);
    if ForwardEnd(read, ms, p) == p + 1 && LastIn(read, ms, a, p) > a {
      TieStartIs(ms, p, LastIn(read, ms, a, p) - 1);
    }
  }

  /** The positions end within so many rounds. */
  predicate EndsIn(read: Reader, ms: seq<EventRow>, p: nat, rounds: nat)
    requires Descending(ms) && Reachable(read, ms, p)
    decreases rounds
  {
    NextReachable(read, ms, p);
    rounds > 0 && (NextPos(read, ms, p).None? || EndsIn(read, ms, NextPos(read, ms, p).value, rounds - 1))
  }

  /** The events on the way. */
  function Walk(read: Reader, ms: seq<EventRow>, p: nat, rounds: nat): seq<Event>
    requires Descending(ms) && Reachable(read, ms, p)
    decreases rounds
  {
    NextReachable(read, ms, p);
    if rounds == 0 || NextPos(read, ms, p).None? then []
    else BatchEvents(read, ms, p) + Walk(read, ms, NextPos(read, ms, p).value, rounds - 1)
  }

  /** The loop is what its positions say. */
  lemma {:induction false} LoopIsWalk(read: Reader, rows: seq<EventRow>, p: nat, from: Option<Event>, rounds: nat)
    requires At(read, rows, p, from)
    ensures Halts(read, rows, from, rounds) <==> EndsIn(read, Messages(rows), p, rounds)
    ensures Loop(read, rows, from, rounds) == Walk(read, Messages(rows), p, rounds)
    decreases rounds
  {
    BatchFrom(read, rows, p, from);
    var es := Batch(read, rows, from);
    if rounds == 0 || es == [] {
    } else {
      LoopIsWalk(read, rows, NextPos(read, Messages(rows), p).value, LastOf(es), rounds - 1);
    }
  }

  // ----- Going on, ending, and going to and fro -----

  /** The batch that continues from row p reaches an older timestamp. */
  predicate Onward(read: Reader, ms: seq<EventRow>, p: nat)
    requires Reachable(read, ms, p)
  {
    TieStart(ms, Forward(read, ms, p)) > TieStart(ms, p)
  }

  /** The batch that continues from row p is empty. */
  predicate Alone(read: Reader, ms: seq<EventRow>, p: nat)
    requires Reachable(read, ms, p)
  {
    NextPos(read, ms, p) == None
  }

  /** The loop goes to and fro: it cannot leave this timestamp, and is not done with it. */
  predicate ToAndFro(read: Reader, ms: seq<EventRow>, p: nat)
    requires Reachable(read, ms, p)
  {
    !Onward(read, ms, p) && !Alone(read, ms, p)
  }

  lemma OnwardNext(read: Reader, ms: seq<EventRow>, p: nat)
    requires Descending(ms) && Reachable(read, ms, p) && Onward(read, ms, p)
    ensures NextPos(read, ms, p) == Some(Forward(read, ms, p))
    ensures Forward(read, ms, p) > p && Reachable(read, ms, Forward(read, ms, p))
  {
    ForwardReachable(read, ms, p);
  }

  /** Once the loop goes to and fro it does so for ever. */
  lemma ToAndFroNext(read: Reader, ms: seq<EventRow>, p: nat)
    requires Descending(ms) && Reachable(read, ms, p) && ToAndFro(read, ms, p)
    ensures var q := NextPos(read, ms, p).value;
            Reachable(read, ms, q) && ToAndFro(read, ms, q)
  {
    NextReachable(read, ms, p);
    ForwardReachable(read, ms, p);
    if ForwardEnd(read, ms, p) > p + 1 {
      FroAfterTo(read, ms, p);
    } else {
      ToAfterFro(read, ms, p);
    }
  }

  lemma FroAfterTo(read: Reader, ms: seq<EventRow>, p: nat)
    requires Descending(ms) && Reachable(read, ms, p) && !Onward(read, ms, p)
    requires ForwardEnd(read, ms, p) > p + 1 && Reachable(read, ms, Forward(read, ms, p))
    ensures ToAndFro(read, ms, Forward(read, ms, p))
  {
    var a, q := TieStart(ms, p), Forward(read, ms, p);
    TieStartIs(ms, q, p);
    assert TieStart(ms, q) == a && End(ms, q) == End(ms, p);
    LastInIs(read, ms, p + 1, End(ms, p));
    SilentAfter(read, ms, q);
    LastInIs(read, ms, a, q);
  }

  lemma ToAfterFro(read: Reader, ms: seq<EventRow>, p: nat)
    requires Descending(ms) && Reachable(read, ms, p)
    requires ForwardEnd(read, ms, p) == p + 1 && LastIn(read, ms, TieStart(ms, p), p) > TieStart(ms, p)
    ensures var q := LastIn(read, ms, TieStart(ms, p), p) - 1;
            Reachable(read, ms, q) && ToAndFro(read, ms, q)
  {
    var a := TieStart(ms, p);
    var q := LastIn(read, ms, a, p) - 1;
    LastInIs(read, ms, a, p);
    TieStartIs(ms, p, q);
    assert TieStart(ms, q) == a && End(ms, q) == End(ms, p);
    LastInIs(read, ms, p + 1, End(ms, p));
    LastInUnique(read, ms, q + 1, End(ms, q), p);
  }

  lemma SilentAfter(read: Reader, ms: seq<EventRow>, p: nat)
    requires Reachable(read, ms, p) && forall i | p < i < End(ms, p) :: !Parsable(read, ms[i])
    ensures ForwardEnd(read, ms, p) == p + 1
  {
    LastInIs(read, ms, p + 1, End(ms, p));
  }

  lemma {:induction false} NeverEnds(read: Reader, ms: seq<EventRow>, p: nat, rounds: nat)
    requires Descending(ms) && Reachable(read, ms, p) && ToAndFro(read, ms, p)
    ensures !EndsIn(read, ms, p, rounds)
    decreases rounds
  {
    ToAndFroNext(read, ms, p);
    if rounds == 0 {
    } else {
      NeverEnds(read, ms, NextPos(read, ms, p).value, rounds - 1);
    }
  }

  /** The row from which the loop goes on no further. */
  function Stop(read: Reader, ms: seq<EventRow>, p: nat): (s: nat)
    requires Descending(ms) && Reachable(read, ms, p)
    ensures p <= s && Reachable(read, ms, s) && !Onward(read, ms, s)
    decreases |ms| - p
  {
    if Onward(read, ms, p) then
      OnwardNext(read, ms, p);
      Stop(read, ms, Forward(read, ms, p))
    else
      p
  }

  /** From row p the loop ends only if nothing is left where it stops. */
  lemma {:induction false} EndsOnlyAlone(read: Reader, ms: seq<EventRow>, p: nat, rounds: nat)
    requires Descending(ms) && Reachable(read, ms, p) && EndsIn(read, ms, p, rounds)
    ensures Alone(read, ms, Stop(read, ms, p))
    decreases rounds
  {
    if Onward(read, ms, p) {
      OnwardNext(read, ms, p);
      EndsOnlyAlone(read, ms, Forward(read, ms, p), rounds - 1);
    } else if !Alone(read, ms, p) {
      NeverEnds(read, ms, p, rounds);
    }
  }

  /** And then it does. */
  lemma {:induction false} AloneEnds(read: Reader, ms: seq<EventRow>, p: nat, rounds: nat)
    requires Descending(ms) && Reachable(read, ms, p) && Alone(read, ms, Stop(read, ms, p))
    requires rounds > |ms| - p
    ensures EndsIn(read, ms, p, rounds)
    decreases rounds
  {
    if Onward(read, ms, p) {
      OnwardNext(read, ms, p);
      AloneEnds(read, ms, Forward(read, ms, p), rounds - 1);
    }
  }

  // ----- The whole loop -----

  /** The row at which the first batch ends. */
  lemma FirstBatch(read: Reader, rows: seq<EventRow>)
    requires Listed(read, Messages(rows))
    ensures var ms, k := Messages(rows), FirstEnd(read, Messages(rows));
            && Batch(read, rows, None) == EventsOf(read, ms[..k])
            && (k == 0 ==> LastOf(Batch(read, rows, None)) == None)
            && (k > 0 ==> Reachable(read, ms, k - 1) && LastOf(Batch(read, rows, None)) == read(ms[k - 1].source))
            && forall i | k <= i < Least(REINDEX_BATCH, |ms|) :: !Parsable(read, ms[i])
  {
    var ms, n := Messages(rows), Least(REINDEX_BATCH, |Messages(rows)|);
    assert Prefix(ms, REINDEX_BATCH) == ms[0..n];
    PieceEvents(read, ms, 0, n);
    LastInIs(read, ms, 0, n);
    assert ms[0..FirstEnd(read, ms)] == ms[..FirstEnd(read, ms)];
  }

  function FirstEnd(read: Reader, ms: seq<EventRow>): (k: nat)
    ensures k <= |ms|
  {
    LastIn(read, ms, 0, Least(REINDEX_BATCH, |ms|))
  }

  /** The first batch is empty, or nothing is left where the loop stops. */
  predicate Finishes(read: Reader, ms: seq<EventRow>)
    requires Descending(ms)
  {
    var k := FirstEnd(read, ms);
    k == 0 || (Reachable(read, ms, k - 1) && Alone(read, ms, Stop(read, ms, k - 1)))
  }

  lemma TerminatesFinishes(read: Reader, rows: seq<EventRow>, rounds: nat)
    requires Listed(read, Messages(rows)) && Terminates(read, rows, rounds)
    ensures Finishes(read, Messages(rows))
  {
    var k := FirstEnd(read, Messages(rows));
    FirstBatch(read, rows);
    if k > 0 {
      LoopIsWalk(read, rows, k - 1, LastOf(Batch(read, rows, None)), rounds);
      EndsOnlyAlone(read, Messages(rows), k - 1, rounds);
    }
  }

  lemma FinishesTerminates(read: Reader, rows: seq<EventRow>, rounds: nat)
    requires Listed(read, Messages(rows)) && Finishes(read, Messages(rows)) && rounds > |Messages(rows)|
    ensures Terminates(read, rows, rounds)
  {
    var k := FirstEnd(read, Messages(rows));
    FirstBatch(read, rows);
    if k > 0 {
      LoopIsWalk(read, rows, k - 1, LastOf(Batch(read, rows, None)), rounds);
      AloneEnds(read, Messages(rows), k - 1, rounds);
    }
  }
}
