/**
 The reindex loop under ties, in terms of the rows alone: when it ends, what it reaches,
 and which messages it indexes twice.
 */
module TieCoverage {
  import opened Wrappers
  import opened Sequences
  import opened Events
  import opened Tables
  import opened Reindex
  import opened Ties

  // ----- When it ends -----

  /** The end of a batch of rows after row a. */
  function WindowEnd(ms: seq<EventRow>, a: nat): nat {
    Least(a + REINDEX_BATCH + 1, |ms|)
  }

  /** From the first row of a timestamp on, some row within a batch parses, but none with
      an older timestamp. */
  ghost predicate Blocked(read: Reader, ms: seq<EventRow>, a: nat) {
    && a < |ms| && TieStart(ms, a) == a
    && (exists i :: a <= i < WindowEnd(ms, a) && Parsable(read, ms[i]))
    && (forall i | a <= i < WindowEnd(ms, a) && Parsable(read, ms[i]) :: ms[i].serverTs == ms[a].serverTs)
  }

  ghost predicate FirstBlocked(read: Reader, ms: seq<EventRow>, a: nat) {
    Blocked(read, ms, a) && forall b | 0 <= b < a :: !Blocked(read, ms, b)
  }

  /** Only one row within a batch parses. */
  ghost predicate Lone(read: Reader, ms: seq<EventRow>, a: nat) {
    forall i, j | a <= i < j < WindowEnd(ms, a) :: !Parsable(read, ms[i]) || !Parsable(read, ms[j])
  }

  lemma SameTie(ms: seq<EventRow>, q: nat, b: nat)
    requires Ordered(ms) && b <= q < |ms| && ms[b].serverTs == ms[q].serverTs
    ensures TieStart(ms, q) <= b
  {
    var a := TieStart(ms, q);
    assert a > 0 ==> Above(ms, a - 1, q);
    assert a > 0 && b < a - 1 ==> Above(ms, b, a - 1);
  }

  lemma StopBlocked(read: Reader, ms: seq<EventRow>, p: nat)
    requires Descending(ms) && Reachable(read, ms, p) && !Onward(read, ms, p)
    ensures Blocked(read, ms, TieStart(ms, p))
    ensures Lone(read, ms, TieStart(ms, p)) <==> Alone(read, ms, p)
  {
    var a := TieStart(ms, p);
    TieStartIs(ms, p, a);
    assert WindowEnd(ms, a) == End(ms, p) && a <= p < End(ms, p);
    forall i | a <= i < End(ms, p) && Parsable(read, ms[i])
      ensures ms[i].serverTs == ms[a].serverTs
    {
      NotOnwardTie(read, ms, p, i);
    }
    StopAlone(read, ms, p);
  }

  lemma NotOnwardTie(read: Reader, ms: seq<EventRow>, p: nat, i: nat)
    requires Descending(ms) && Reachable(read, ms, p) && !Onward(read, ms, p)
    requires TieStart(ms, p) <= i < End(ms, p) && Parsable(read, ms[i])
    ensures ms[i].serverTs == ms[p].serverTs
  {
    var q := Forward(read, ms, p);
    ForwardReachable(read, ms, p);
    assert i <= q && TieStart(ms, q) == TieStart(ms, p);
    BetweenTies(ms, p, q, i);
  }

  lemma BetweenTies(ms: seq<EventRow>, p: nat, q: nat, i: nat)
    requires Ordered(ms) && p < |ms| && q < |ms| && TieStart(ms, q) == TieStart(ms, p) <= i <= q
    ensures ms[i].serverTs == ms[p].serverTs
  {
    TieStartIs(ms, q, i);
  }

  lemma StopAlone(read: Reader, ms: seq<EventRow>, p: nat)
    requires Descending(ms) && Reachable(read, ms, p)
    ensures Lone(read, ms, TieStart(ms, p)) <==> Alone(read, ms, p)
  {
    var a, end := TieStart(ms, p), End(ms, p);
    LastInIs(read, ms, p + 1, end);
    LastInIs(read, ms, a, p);
  }

  /** The loop passes no blocked timestamp. */
  lemma {:induction false} NotBlockedBefore(read: Reader, ms: seq<EventRow>, p: nat, b: nat)
    requires Descending(ms) && Reachable(read, ms, p)
    requires TieStart(ms, p) <= b < TieStart(ms, Stop(read, ms, p))
    ensures !Blocked(read, ms, b)
    decreases |ms| - p
  {
    if Onward(read, ms, p) {
      var q := Forward(read, ms, p);
      OnwardNext(read, ms, p);
      if b < TieStart(ms, q) {
        PassedNotBlocked(read, ms, b, q);
      } else {
        NotBlockedBefore(read, ms, q, b);
      }
    }
  }

  lemma PassedNotBlocked(read: Reader, ms: seq<EventRow>, b: nat, q: nat)
    requires Descending(ms) && q < |ms| && Parsable(read, ms[q])
    requires b < TieStart(ms, q) && q <= b + REINDEX_BATCH
    ensures !Blocked(read, ms, b)
  {
    if Blocked(read, ms, b) {
      assert b <= q < WindowEnd(ms, b);
      SameTie(ms, q, b);
    }
  }

  lemma StopFirstBlocked(read: Reader, ms: seq<EventRow>)
    requires Descending(ms) && FirstEnd(read, ms) > 0 && Reachable(read, ms, FirstEnd(read, ms) - 1)
    ensures FirstBlocked(read, ms, TieStart(ms, Stop(read, ms, FirstEnd(read, ms) - 1)))
  {
    var p := FirstEnd(read, ms) - 1;
    StopBlocked(read, ms, Stop(read, ms, p));
    forall b | 0 <= b < TieStart(ms, Stop(read, ms, p))
      ensures !Blocked(read, ms, b)
    {
      if b < TieStart(ms, p) {
        PassedNotBlocked(read, ms, b, p);
      } else {
        NotBlockedBefore(read, ms, p, b);
      }
    }
  }

  lemma OneFirstBlocked(read: Reader, ms: seq<EventRow>, a: nat, b: nat)
    requires FirstBlocked(read, ms, a) && FirstBlocked(read, ms, b)
    ensures a == b
  {
  }

  lemma FinishesIff(read: Reader, ms: seq<EventRow>)
    requires Descending(ms) && FirstEnd(read, ms) > 0 && Reachable(read, ms, FirstEnd(read, ms) - 1)
    ensures Finishes(read, ms) <==> forall a | FirstBlocked(read, ms, a) :: Lone(read, ms, a)
  {
    var s := Stop(read, ms, FirstEnd(read, ms) - 1);
    var a := TieStart(ms, s);
    StopFirstBlocked(read, ms);
    StopBlocked(read, ms, s);
    forall b | FirstBlocked(read, ms, b)
      ensures b == a
    {
      OneFirstBlocked(read, ms, a, b);
    }
  }

  /** Exactly when the reindex ends, for rows in descending order with any ties and with
      any rows that do not parse: nothing parses in the first batch, or the first
      timestamp from which a batch reaches no older message has a single one in it. */
  lemma ReindexEndsIff(read: Reader, rows: seq<EventRow>)
    requires Listed(read, Messages(rows))
    ensures var ms := Messages(rows);
            (exists rounds: nat :: Terminates(read, rows, rounds)) <==>
              || (forall i | 0 <= i < Least(REINDEX_BATCH, |ms|) :: !Parsable(read, ms[i]))
              || (forall a | FirstBlocked(read, ms, a) :: Lone(read, ms, a))
  {
    var ms, k := Messages(rows), FirstEnd(read, Messages(rows));
    FirstBatch(read, rows);
    if k > 0 {
      FinishesIff(read, ms);
      assert Parsable(read, ms[k - 1]);
    }
    if Finishes(read, ms) {
      FinishesTerminates(read, rows, |ms| + 1);
    }
    if exists rounds: nat :: Terminates(read, rows, rounds) {
      var rounds: nat :| Terminates(read, rows, rounds);
      TerminatesFinishes(read, rows, rounds);
    }
  }

  // ----- What it reaches, and how often -----

  function Times(es: seq<Event>, id: EventId): nat {
    if es == [] then 0 else (if es[0].eventId == id then 1 else 0) + Times(es[1..], id)
  }

  lemma {:induction false} TimesConcat(a: seq<Event>, b: seq<Event>, id: EventId)
    ensures Times(a + b, id) == Times(a, id) + Times(b, id)
  {
    if a == [] {
      assert a + b == b;
    } else {
      assert (a + b)[1..] == a[1..] + b;
      TimesConcat(a[1..], b, id);
    }
  }

  /** Each row is in a piece of the rows once. */
  lemma {:induction false} TimesPiece(read: Reader, ms: seq<EventRow>, lo: nat, hi: nat, i: nat)
    requires Listed(read, ms) && lo <= hi <= |ms| && i < |ms| && Parsable(read, ms[i])
    ensures Times(EventsOf(read, ms[lo..hi]), ms[i].eventId) == if lo <= i < hi then 1 else 0
    decreases hi
  {
    if lo < hi {
      var j, id := hi - 1, ms[i].eventId;
      EventsSnoc(read, ms, lo, hi);
      TimesPiece(read, ms, lo, j, i);
      assert i < j ==> OtherId(ms, i, j);
      assert j < i ==> OtherId(ms, j, i);
      if Parsable(read, ms[j]) {
        var e := read(ms[j].source).value;
        assert ms[j] in ms;
        TimesConcat(EventsOf(read, ms[lo..j]), [e], id);
        assert Times([e], id) == (if e.eventId == id then 1 else 0) + Times([], id);
      } else {
        TimesConcat(EventsOf(read, ms[lo..j]), [], id);
      }
    }
  }

  /** A row that is indexed again on the way from row p: a batch ends inside its
      timestamp, at a later row. */
  predicate Repeated(read: Reader, ms: seq<EventRow>, p: nat, i: nat)
    requires Descending(ms) && Reachable(read, ms, p)
    decreases |ms| - p
  {
    Onward(read, ms, p) && (
      OnwardNext(read, ms, p);
      TieStart(ms, p) <= i < p || Repeated(read, ms, Forward(read, ms, p), i))
  }

  lemma {:induction false} RepeatedLater(read: Reader, ms: seq<EventRow>, p: nat, i: nat)
    requires Descending(ms) && Reachable(read, ms, p) && Repeated(read, ms, p, i)
    ensures TieStart(ms, p) <= i < Stop(read, ms, p)
    decreases |ms| - p
  {
    OnwardNext(read, ms, p);
    if !(TieStart(ms, p) <= i < p) {
      RepeatedLater(read, ms, Forward(read, ms, p), i);
    }
  }

  /** A row is indexed again at most once. */
  lemma RepeatedOnce(read: Reader, ms: seq<EventRow>, p: nat, i: nat)
    requires Descending(ms) && Reachable(read, ms, p) && Onward(read, ms, p) && TieStart(ms, p) <= i < p
    ensures Reachable(read, ms, Forward(read, ms, p)) && !Repeated(read, ms, Forward(read, ms, p), i)
  {
    var q := Forward(read, ms, p);
    OnwardNext(read, ms, p);
    TieStartIs(ms, p, i);
    TieStartIs(ms, q, i);
    assert i < TieStart(ms, q);
    if Repeated(read, ms, q, i) {
      RepeatedLater(read, ms, q, i);
    }
  }

  /** The end of what the loop reaches. */
  function Reach(read: Reader, ms: seq<EventRow>): nat
    requires Descending(ms)
  {
    var k := FirstEnd(read, ms);
    if k == 0 || !Reachable(read, ms, k - 1) then 0 else Stop(read, ms, k - 1) + 1
  }

  predicate IndexedAgain(read: Reader, ms: seq<EventRow>, i: nat)
    requires Descending(ms)
  {
    var k := FirstEnd(read, ms);
    k > 0 && Reachable(read, ms, k - 1) && Repeated(read, ms, k - 1, i)
  }

  function One(b: bool): nat {
    if b then 1 else 0
  }

  lemma TimesBatch(read: Reader, ms: seq<EventRow>, p: nat, i: nat)
    requires Listed(read, ms) && Reachable(read, ms, p) && i < |ms| && Parsable(read, ms[i])
    ensures Times(BatchEvents(read, ms, p), ms[i].eventId)
         == One(TieStart(ms, p) <= i < p) + One(p < i <= Forward(read, ms, p))
  {
    var a, r := TieStart(ms, p), ForwardEnd(read, ms, p);
    TimesPiece(read, ms, a, p, i);
    TimesPiece(read, ms, p + 1, r, i);
    TimesConcat(EventsOf(read, ms[a..p]), EventsOf(read, ms[p + 1..r]), ms[i].eventId);
  }

  /** What the loop indexes from row p on: every later row up to where it stops, and some
      rows again. */
  lemma {:induction false} TimesWalk(read: Reader, ms: seq<EventRow>, p: nat, rounds: nat, i: nat)
    requires Listed(read, ms) && Reachable(read, ms, p) && EndsIn(read, ms, p, rounds)
    requires i < |ms| && Parsable(read, ms[i])
    ensures Times(Walk(read, ms, p, rounds), ms[i].eventId)
         == One(p < i <= Stop(read, ms, p)) + One(Repeated(read, ms, p, i))
    decreases rounds
  {
    if Onward(read, ms, p) {
      var q := Forward(read, ms, p);
      OnwardNext(read, ms, p);
      TimesWalk(read, ms, q, rounds - 1, i);
      TimesBatch(read, ms, p, i);
      TimesConcat(BatchEvents(read, ms, p), Walk(read, ms, q, rounds - 1), ms[i].eventId);
      if TieStart(ms, p) <= i < p {
        RepeatedOnce(read, ms, p, i);
      }
    } else if !Alone(read, ms, p) {
      NeverEnds(read, ms, p, rounds);
    }
  }

  /** How often a reindex that ends has indexed each message: once if it was reached, and
      once more if a batch ended at a later row with the same timestamp. */
  lemma TimesIndexed(read: Reader, rows: seq<EventRow>, rounds: nat, i: nat)
    requires Listed(read, Messages(rows)) && Terminates(read, rows, rounds)
    requires i < |Messages(rows)| && Parsable(read, Messages(rows)[i])
    ensures var ms := Messages(rows);
            var n := Times(Indexed(read, rows, rounds), ms[i].eventId);
            n == One(i < Reach(read, ms)) + One(IndexedAgain(read, ms, i))
    ensures IndexedAgain(read, Messages(rows), i) ==> i + 1 < Reach(read, Messages(rows))
  {
    var first := Batch(read, rows, None);
    TimesFirst(read, rows, i);
    TimesRest(read, rows, rounds, i);
    TimesConcat(first, Loop(read, rows, LastOf(first), rounds), Messages(rows)[i].eventId);
  }

  lemma TimesFirst(read: Reader, rows: seq<EventRow>, i: nat)
    requires Listed(read, Messages(rows)) && i < |Messages(rows)| && Parsable(read, Messages(rows)[i])
    ensures Times(Batch(read, rows, None), Messages(rows)[i].eventId) == One(i < FirstEnd(read, Messages(rows)))
  {
    var ms, k := Messages(rows), FirstEnd(read, Messages(rows));
    FirstBatch(read, rows);
    assert ms[..k] == ms[0..k];
    TimesPiece(read, ms, 0, k, i);
  }

  /** What the loop adds to the first batch. */
  lemma TimesRest(read: Reader, rows: seq<EventRow>, rounds: nat, i: nat)
    requires Listed(read, Messages(rows)) && Terminates(read, rows, rounds)
    requires i < |Messages(rows)| && Parsable(read, Messages(rows)[i])
    ensures var ms, k := Messages(rows), FirstEnd(read, Messages(rows));
            Times(Loop(read, rows, LastOf(Batch(read, rows, None)), rounds), ms[i].eventId)
              == One(k <= i < Reach(read, ms)) + One(IndexedAgain(read, ms, i))
    ensures var ms := Messages(rows);
            FirstEnd(read, ms) <= Reach(read, ms) && (IndexedAgain(read, ms, i) ==> i + 1 < Reach(read, ms))
  {
    var ms, k := Messages(rows), FirstEnd(read, Messages(rows));
    FirstBatch(read, rows);
    if k == 0 {
      assert Loop(read, rows, None, rounds) == [];
      assert Reach(read, ms) == 0 && !IndexedAgain(read, ms, i);
    } else {
      var last := LastOf(Batch(read, rows, None));
      TimesLoop(read, rows, k - 1, last, rounds, i);
      ReachIsStop(read, ms);
      assert IndexedAgain(read, ms, i) <==> Repeated(read, ms, k - 1, i);
    }
  }

  lemma ReachIsStop(read: Reader, ms: seq<EventRow>)
    requires Descending(ms) && FirstEnd(read, ms) > 0 && Reachable(read, ms, FirstEnd(read, ms) - 1)
    ensures Reach(read, ms) == Stop(read, ms, FirstEnd(read, ms) - 1) + 1
  {
  }

  lemma TimesLoop(read: Reader, rows: seq<EventRow>, p: nat, from: Option<Event>, rounds: nat, i: nat)
    requires At(read, rows, p, from) && Halts(read, rows, from, rounds)
    requires i < |Messages(rows)| && Parsable(read, Messages(rows)[i])
    ensures var ms := Messages(rows);
            && Times(Loop(read, rows, from, rounds), ms[i].eventId)
               == One(p < i <= Stop(read, ms, p)) + One(Repeated(read, ms, p, i))
            && (Repeated(read, ms, p, i) ==> i < Stop(read, ms, p))
  {
    LoopIsWalk(read, rows, p, from, rounds);
    TimesWalk(read, Messages(rows), p, rounds, i);
    if Repeated(read, Messages(rows), p, i) {
      RepeatedLater(read, Messages(rows), p, i);
    }
  }

  ghost predicate NoneParses(read: Reader, ms: seq<EventRow>, from: nat) {
    forall i | from <= i < |ms| :: !Parsable(read, ms[i])
  }

  /** What lies beyond the loop, in terms of the rows alone. */
  ghost predicate NothingBeyond(read: Reader, ms: seq<EventRow>) {
    if forall i | 0 <= i < Least(REINDEX_BATCH, |ms|) :: !Parsable(read, ms[i]) then NoneParses(read, ms, 0)
    else forall a | FirstBlocked(read, ms, a) :: NoneParses(read, ms, WindowEnd(ms, a))
  }

  /** Between where the loop stops and the end of its last batch nothing parses. */
  lemma StoppedWindow(read: Reader, ms: seq<EventRow>, s: nat)
    requires Descending(ms) && Reachable(read, ms, s) && Alone(read, ms, s)
    ensures NoneParses(read, ms, s + 1) <==> NoneParses(read, ms, WindowEnd(ms, TieStart(ms, s)))
  {
    LastInIs(read, ms, s + 1, End(ms, s));
    assert WindowEnd(ms, TieStart(ms, s)) == End(ms, s);
  }

  lemma NothingBeyondIff(read: Reader, rows: seq<EventRow>)
    requires Listed(read, Messages(rows)) && Finishes(read, Messages(rows))
    ensures NoneParses(read, Messages(rows), Reach(read, Messages(rows))) <==> NothingBeyond(read, Messages(rows))
  {
    var ms, k := Messages(rows), FirstEnd(read, Messages(rows));
    FirstBatch(read, rows);
    if k > 0 {
      assert Parsable(read, ms[k - 1]);
      BeyondFirstBlocked(read, ms);
    }
  }

  lemma BeyondFirstBlocked(read: Reader, ms: seq<EventRow>)
    requires Descending(ms) && FirstEnd(read, ms) > 0 && Reachable(read, ms, FirstEnd(read, ms) - 1)
    requires Alone(read, ms, Stop(read, ms, FirstEnd(read, ms) - 1))
    ensures NoneParses(read, ms, Reach(read, ms))
       <==> forall a | FirstBlocked(read, ms, a) :: NoneParses(read, ms, WindowEnd(ms, a))
  {
    var s := Stop(read, ms, FirstEnd(read, ms) - 1);
    var a := TieStart(ms, s);
    StopFirstBlocked(read, ms);
    StoppedWindow(read, ms, s);
    forall b | FirstBlocked(read, ms, b)
      ensures b == a
    {
      OneFirstBlocked(read, ms, a, b);
    }
  }

  /** Each message that parses is indexed at most twice, and at all if it was reached. */
  ghost predicate CoveredTo(read: Reader, ms: seq<EventRow>, es: seq<Event>, reach: nat) {
    forall i | 0 <= i < |ms| && Parsable(read, ms[i]) ::
      Times(es, ms[i].eventId) <= 2 && (Times(es, ms[i].eventId) >= 1 <==> i < reach)
  }

  lemma IndexedCoveredTo(read: Reader, rows: seq<EventRow>, rounds: nat)
    requires Listed(read, Messages(rows)) && Terminates(read, rows, rounds)
    ensures CoveredTo(read, Messages(rows), Indexed(read, rows, rounds), Reach(read, Messages(rows)))
  {
    var ms, es := Messages(rows), Indexed(read, rows, rounds);
    forall i | 0 <= i < |ms| && Parsable(read, ms[i])
      ensures Times(es, ms[i].eventId) <= 2
      ensures Times(es, ms[i].eventId) >= 1 <==> i < Reach(read, ms)
    {
      TimesIndexed(read, rows, rounds, i);
    }
  }

  lemma CoveredToIff(read: Reader, ms: seq<EventRow>, es: seq<Event>, reach: nat)
    requires CoveredTo(read, ms, es, reach)
    ensures (forall i | 0 <= i < |ms| && Parsable(read, ms[i]) :: Times(es, ms[i].eventId) >= 1)
       <==> NoneParses(read, ms, reach)
  {
  }

  /** Every message is indexed, at least once and at most twice, if and only if none that
      parses lies after a first batch in which none does, or after the batch of the first
      timestamp from which no older message is reached. */
  lemma TiesCoveredIff(read: Reader, rows: seq<EventRow>, rounds: nat)
    requires Listed(read, Messages(rows)) && Terminates(read, rows, rounds)
    ensures var ms, es := Messages(rows), Indexed(read, rows, rounds);
            && (forall i | 0 <= i < |ms| && Parsable(read, ms[i]) :: Times(es, ms[i].eventId) <= 2)
            && ((forall i | 0 <= i < |ms| && Parsable(read, ms[i]) :: Times(es, ms[i].eventId) >= 1)
                  <==> NothingBeyond(read, ms))
  {
    TerminatesFinishes(read, rows, rounds);
    NothingBeyondIff(read, rows);
    IndexedCoveredTo(read, rows, rounds);
    CoveredToIff(read, Messages(rows), Indexed(read, rows, rounds), Reach(read, Messages(rows)));
  }
}
