/**
 What a client sees who follows the tokens of a paginated search.
 */
module Pagination {
  import opened Sequences
  import opened Events
  import opened Queries

  function IdSetOf(ids: seq<EventId>): set<EventId> {
    set x | x in ids
  }

  /** The ids of the fetchable matches, in rank order. */
  function HitIds(hits: seq<Hit>): seq<EventId> {
    IdsOf(Unseen(hits, []))
  }

  /** Every match can be fetched and no event id occurs twice. */
  ghost predicate DistinctMatches(hits: seq<Hit>) {
    |HitIds(hits)| == |hits| && NoRepeat(HitIds(hits))
  }

  lemma IdSetCons(x: EventId, ids: seq<EventId>)
    ensures IdSetOf([x] + ids) == {x} + IdSetOf(ids)
  {
  }

  lemma IdSetConcat(a: seq<EventId>, b: seq<EventId>)
    ensures IdSetOf(a + b) == IdSetOf(a) + IdSetOf(b)
  {
  }

  lemma {:induction false} NoRepeatSize(ids: seq<EventId>)
    ensures |IdSetOf(ids)| <= |ids|
    ensures NoRepeat(ids) <==> |IdSetOf(ids)| == |ids|
  {
    if ids == [] {
    } else {
      NoRepeatSize(ids[1..]);
      NoRepeatCons(ids);
      assert ids == [ids[0]] + ids[1..];
      IdSetCons(ids[0], ids[1..]);
    }
  }

  lemma IdsOfConcat(a: seq<Found>, b: seq<Found>)
    ensures IdsOf(a + b) == IdsOf(a) + IdsOf(b)
  {
  }

  /** The id of a hit that a search with these earlier results would return. */
  function Head(hit: Hit, previous: seq<EventId>): seq<EventId> {
    if hit.eventId.Some? && hit.eventId.value !in previous then [hit.eventId.value] else []
  }

  lemma {:induction false} UnseenIdsCons(hits: seq<Hit>, previous: seq<EventId>)
    requires hits != []
    ensures IdsOf(Unseen(hits, previous)) == Head(hits[0], previous) + IdsOf(Unseen(hits[1..], previous))
  {
    var rest := Unseen(hits[1..], previous);
    if Head(hits[0], previous) != [] {
      IdsOfConcat([Found(hits[0].score, hits[0].eventId.value)], rest);
    }
  }

  /** Filtering by earlier results keeps exactly the ids not among them. */
  lemma {:induction false} UnseenIds(hits: seq<Hit>, previous: seq<EventId>)
    ensures IdSetOf(IdsOf(Unseen(hits, previous))) == IdSetOf(HitIds(hits)) - IdSetOf(previous)
  {
    if hits == [] {
    } else {
      UnseenIds(hits[1..], previous);
      UnseenIdsCons(hits, previous);
      UnseenIdsCons(hits, []);
      IdSetConcat(Head(hits[0], previous), IdsOf(Unseen(hits[1..], previous)));
      IdSetConcat(Head(hits[0], []), HitIds(hits[1..]));
      assert IdSetOf(Head(hits[0], previous)) == IdSetOf(Head(hits[0], [])) - IdSetOf(previous);
    }
  }

  lemma {:induction false} UnseenNoRepeat(hits: seq<Hit>, previous: seq<EventId>)
    requires NoRepeat(HitIds(hits))
    ensures NoRepeat(IdsOf(Unseen(hits, previous)))
  {
    if hits == [] {
    } else {
      UnseenIdsCons(hits, previous);
      UnseenIdsCons(hits, []);
      if Head(hits[0], []) != [] {
        assert HitIds(hits)[1..] == HitIds(hits[1..]);
        NoRepeatCons(HitIds(hits));
      }
      UnseenNoRepeat(hits[1..], previous);
      UnseenIds(hits[1..], previous);
      if Head(hits[0], previous) != [] {
        var x, rest := hits[0].eventId.value, IdsOf(Unseen(hits[1..], previous));
        assert x !in IdSetOf(HitIds(hits[1..]));
        assert x !in IdSetOf(rest);
        assert ([x] + rest)[1..] == rest;
        NoRepeatCons([x] + rest);
      }
    }
  }

  lemma {:induction false} NoRepeatConcat(a: seq<EventId>, b: seq<EventId>)
    ensures NoRepeat(a + b) <==> NoRepeat(a) && NoRepeat(b) && IdSetOf(a) !! IdSetOf(b)
  {
    IdSetConcat(a, b);
    NoRepeatSize(a);
    NoRepeatSize(b);
    NoRepeatSize(a + b);
  }

  // ----- Following tokens -----

  /** One call of a chain: the ranked matches it sees and the limit it asks for. */
  datatype Turn = Turn(hits: seq<Hit>, limit: nat)

  /** The list of ids that is stored after a call. */
  function After(previous: seq<EventId>, t: Turn): seq<EventId> {
    IdsOf(Page(t.hits, previous, t.limit)) + previous
  }

  /** The call that hands out no further token. */
  predicate Last(previous: seq<EventId>, t: Turn) {
    |After(previous, t)| == |t.hits|
  }

  /** The pages of a chain of calls that stops when no token is handed out. */
  function Pages(previous: seq<EventId>, turns: seq<Turn>): seq<seq<Found>>
    decreases |turns|
  {
    if turns == [] then []
    else
      [Page(turns[0].hits, previous, turns[0].limit)]
      + if Last(previous, turns[0]) then [] else Pages(After(previous, turns[0]), turns[1..])
  }

  function Covered(previous: seq<EventId>, turns: seq<Turn>): seq<EventId>
    decreases |turns|
  {
    if turns == [] then previous
    else if Last(previous, turns[0]) then After(previous, turns[0])
    else Covered(After(previous, turns[0]), turns[1..])
  }

  /** Some call of the chain handed out no token. */
  predicate Ends(previous: seq<EventId>, turns: seq<Turn>)
    decreases |turns|
  {
    turns != [] && (Last(previous, turns[0]) || Ends(After(previous, turns[0]), turns[1..]))
  }

  function SumLimits(turns: seq<Turn>): nat {
    if turns == [] then 0 else turns[0].limit + SumLimits(turns[1..])
  }

  function Flat(pages: seq<seq<Found>>): seq<Found> {
    if pages == [] then [] else pages[0] + Flat(pages[1..])
  }

  /** Everything that the calls of a chain return, in order. */
  function Received(previous: seq<EventId>, turns: seq<Turn>): seq<Found>
    decreases |turns|
  {
    if turns == [] then []
    else
      Page(turns[0].hits, previous, turns[0].limit)
      + if Last(previous, turns[0]) then [] else Received(After(previous, turns[0]), turns[1..])
  }

  lemma {:induction false} FlatPages(previous: seq<EventId>, turns: seq<Turn>)
    ensures Flat(Pages(previous, turns)) == Received(previous, turns)
    decreases |turns|
  {
    if turns == [] {
    } else {
      var after, page := After(previous, turns[0]), Page(turns[0].hits, previous, turns[0].limit);
      var later := if Last(previous, turns[0]) then [] else Pages(after, turns[1..]);
      if !Last(previous, turns[0]) {
        FlatPages(after, turns[1..]);
      }
      FlatCons(page, later);
    }
  }

  lemma FlatCons(page: seq<Found>, pages: seq<seq<Found>>)
    ensures Flat([page] + pages) == page + Flat(pages)
  {
    assert ([page] + pages)[1..] == pages;
  }

  /** What a chain has covered are the ids on its pages. */
  lemma {:induction false} CoveredByPages(previous: seq<EventId>, turns: seq<Turn>)
    ensures IdSetOf(Covered(previous, turns)) == IdSetOf(previous) + IdSetOf(IdsOf(Received(previous, turns)))
    ensures |Covered(previous, turns)| == |previous| + |Received(previous, turns)|
    decreases |turns|
  {
    if turns == [] {
    } else {
      var page := Page(turns[0].hits, previous, turns[0].limit);
      IdSetConcat(IdsOf(page), previous);
      if !Last(previous, turns[0]) {
        var later := Received(After(previous, turns[0]), turns[1..]);
        CoveredByPages(After(previous, turns[0]), turns[1..]);
        IdsOfConcat(page, later);
        IdSetConcat(IdsOf(page), IdsOf(later));
      } else {
        assert page + [] == page;
      }
    }
  }

  // ----- No repeats, whatever happens to the index -----

  lemma {:induction false} LaterPagesAvoid(previous: seq<EventId>, turns: seq<Turn>)
    ensures forall p, f | p in Pages(previous, turns) && f in p :: f.eventId !in previous
    decreases |turns|
  {
    if turns == [] || Last(previous, turns[0]) {
    } else {
      LaterPagesAvoid(After(previous, turns[0]), turns[1..]);
    }
  }

  /** Along a chain of tokens no event id is on two pages, even if the index changes
      between any two calls. */
  lemma {:induction false} NoRepeats(previous: seq<EventId>, turns: seq<Turn>, i: nat, j: nat)
    requires i < j < |Pages(previous, turns)|
    ensures IdSetOf(IdsOf(Pages(previous, turns)[i])) !! IdSetOf(IdsOf(Pages(previous, turns)[j]))
    decreases |turns|
  {
    var after := After(previous, turns[0]);
    var first, rest := Page(turns[0].hits, previous, turns[0].limit), Pages(after, turns[1..]);
    assert Pages(previous, turns) == [first] + rest;
    if i == 0 {
      LaterPagesAvoid(after, turns[1..]);
      assert rest[j - 1] in rest;
      ApartFrom(IdsOf(first), after, rest[j - 1]);
    } else {
      NoRepeats(after, turns[1..], i - 1, j - 1);
    }
  }

  lemma ApartFrom(ids: seq<EventId>, after: seq<EventId>, page: seq<Found>)
    requires ids <= after && forall f | f in page :: f.eventId !in after
    ensures IdSetOf(ids) !! IdSetOf(IdsOf(page))
  {
    assert forall x | x in ids :: x in after;
  }

  // ----- A partition of a fixed snapshot -----

  /** All calls see the same matches, in one of two orders, and ask for something. */
  ghost predicate OneSnapshot(turns: seq<Turn>, matches: set<EventId>, count: nat) {
    forall t | t in turns :: Sees(t, matches, count)
  }

  ghost predicate Sees(t: Turn, matches: set<EventId>, count: nat) {
    |t.hits| == count && DistinctMatches(t.hits) && IdSetOf(HitIds(t.hits)) == matches && t.limit >= 1
  }

  /** The second order needs no assumption of its own: listing the same ids in the
      same number makes it distinct as well. */
  lemma SameMatchesDistinct(a: seq<Hit>, b: seq<Hit>)
    requires DistinctMatches(a) && |b| == |a| && IdSetOf(HitIds(b)) == IdSetOf(HitIds(a))
    ensures DistinctMatches(b)
  {
    NoRepeatSize(HitIds(a));
    NoRepeatSize(HitIds(b));
  }

  lemma {:induction false} PrefixNoRepeat(ids: seq<EventId>, n: nat)
    requires NoRepeat(ids) && n <= |ids|
    ensures NoRepeat(ids[..n])
  {
    assert ids == ids[..n] + ids[n..];
    NoRepeatConcat(ids[..n], ids[n..]);
  }

  lemma UnseenSize(hits: seq<Hit>, previous: seq<EventId>)
    requires DistinctMatches(hits) && NoRepeat(previous) && IdSetOf(previous) <= IdSetOf(HitIds(hits))
    ensures |Unseen(hits, previous)| + |previous| == |hits|
    ensures NoRepeat(IdsOf(Unseen(hits, previous)))
  {
    UnseenIds(hits, previous);
    UnseenNoRepeat(hits, previous);
    NoRepeatSize(IdsOf(Unseen(hits, previous)));
    NoRepeatSize(previous);
    NoRepeatSize(HitIds(hits));
  }

  lemma {:induction false} AfterDistinct(previous: seq<EventId>, t: Turn)
    requires DistinctMatches(t.hits)
    requires NoRepeat(previous) && IdSetOf(previous) <= IdSetOf(HitIds(t.hits))
    ensures var after := After(previous, t);
            && NoRepeat(after) && IdSetOf(after) <= IdSetOf(HitIds(t.hits))
            && |after| == Least(|previous| + t.limit, |t.hits|)
  {
    var unseen := IdsOf(Unseen(t.hits, previous));
    UnseenIds(t.hits, previous);
    UnseenSize(t.hits, previous);
    var n := Least(t.limit, |unseen|);
    var page := unseen[..n];
    assert IdsOf(Page(t.hits, previous, t.limit)) == page;
    PrefixNoRepeat(unseen, n);
    assert IdSetOf(page) <= IdSetOf(unseen);
    NoRepeatConcat(page, previous);
    IdSetConcat(page, previous);
  }

  /** One call of a chain over a fixed snapshot. */
  lemma TurnGrows(previous: seq<EventId>, t: Turn, matches: set<EventId>, count: nat)
    requires Sees(t, matches, count) && NoRepeat(previous) && IdSetOf(previous) <= matches
    requires |previous| <= count
    ensures var after := After(previous, t);
            && NoRepeat(after) && IdSetOf(after) <= matches
            && |after| == Least(|previous| + t.limit, count)
            && (Last(previous, t) <==> |previous| + t.limit >= count)
  {
    AfterDistinct(previous, t);
  }

  lemma ChainCons(previous: seq<EventId>, turns: seq<Turn>)
    requires turns != []
    ensures !Last(previous, turns[0]) ==>
              && Covered(previous, turns) == Covered(After(previous, turns[0]), turns[1..])
              && (Ends(previous, turns) <==> Ends(After(previous, turns[0]), turns[1..]))
    ensures Last(previous, turns[0]) ==>
              Covered(previous, turns) == After(previous, turns[0]) && Ends(previous, turns)
    ensures SumLimits(turns) == turns[0].limit + SumLimits(turns[1..])
  {
  }

  lemma OneSnapshotTail(turns: seq<Turn>, matches: set<EventId>, count: nat)
    requires OneSnapshot(turns, matches, count) && turns != []
    ensures Sees(turns[0], matches, count) && OneSnapshot(turns[1..], matches, count)
  {
  }

  /** What a chain has covered that asked for so many results: no id twice, only
      matches, as many as were asked for, and it ended if that was all of them. */
  ghost predicate Grown(covered: seq<EventId>, ended: bool, asked: nat, matches: set<EventId>, count: nat) {
    && NoRepeat(covered) && IdSetOf(covered) <= matches
    && |covered| == Least(asked, count)
    && (ended <==> asked >= count)
  }

  lemma {:induction false} ChainGrows(previous: seq<EventId>, turns: seq<Turn>, matches: set<EventId>, count: nat)
    requires OneSnapshot(turns, matches, count) && NoRepeat(previous) && IdSetOf(previous) <= matches
    requires |previous| < count || (previous == [] && turns != [])
    ensures Grown(Covered(previous, turns), Ends(previous, turns), |previous| + SumLimits(turns), matches, count)
    decreases |turns|
  {
    if turns == [] {
    } else {
      OneSnapshotTail(turns, matches, count);
      TurnGrows(previous, turns[0], matches, count);
      ChainCons(previous, turns);
      if !Last(previous, turns[0]) {
        ChainGrows(After(previous, turns[0]), turns[1..], matches, count);
      }
    }
  }

  /** Following tokens from the first page on partitions the matches: the pages
      return no id twice, only matches, as many as were asked for, and there is no
      further token exactly when all of them were returned. */
  lemma ChainPartitions(turns: seq<Turn>, matches: set<EventId>, count: nat)
    requires OneSnapshot(turns, matches, count) && |matches| == count && turns != []
    ensures var all := Flat(Pages([], turns));
            var returned := IdSetOf(IdsOf(all));
            && |all| == |returned| == Least(SumLimits(turns), count) && returned <= matches
            && (Ends([], turns) <==> returned == matches)
  {
    ChainGrows([], turns, matches, count);
    CoveredByPages([], turns);
    FlatPages([], turns);
    var covered := Covered([], turns);
    NoRepeatSize(covered);
    SubsetCard(IdSetOf(covered), matches);
  }

  lemma SubsetCard(a: set<EventId>, b: set<EventId>)
    requires a <= b
    ensures |a| <= |b|
    ensures |a| == |b| ==> a == b
  {
    assert b == a + (b - a);
  }

  /** The chain is over after at most as many pages as there are matches. */
  lemma {:induction false} ChainLength(previous: seq<EventId>, turns: seq<Turn>, matches: set<EventId>, count: nat)
    requires OneSnapshot(turns, matches, count) && NoRepeat(previous) && IdSetOf(previous) <= matches
    requires |matches| == count
    ensures |Pages(previous, turns)| <= if |previous| < count then count - |previous| else 1
    decreases |turns|
  {
    if turns == [] {
    } else {
      OneSnapshotTail(turns, matches, count);
      NoRepeatSize(previous);
      SubsetCard(IdSetOf(previous), matches);
      TurnGrows(previous, turns[0], matches, count);
      if !Last(previous, turns[0]) {
        NoRepeatSize(After(previous, turns[0]));
        ChainLength(After(previous, turns[0]), turns[1..], matches, count);
      }
    }
  }

  // ----- One fixed order -----

  lemma {:induction false} AllSeen(hits: seq<Hit>, previous: seq<EventId>)
    requires IdSetOf(HitIds(hits)) <= IdSetOf(previous)
    ensures Unseen(hits, previous) == []
  {
    if hits == [] {
    } else {
      UnseenIdsCons(hits, []);
      IdSetConcat(Head(hits[0], []), HitIds(hits[1..]));
      assert Head(hits[0], []) != [] ==> Head(hits[0], [])[0] in IdSetOf(Head(hits[0], []));
      AllSeen(hits[1..], previous);
    }
  }

  lemma {:induction false} NoneSeen(hits: seq<Hit>, previous: seq<EventId>)
    requires IdSetOf(HitIds(hits)) !! IdSetOf(previous)
    ensures Unseen(hits, previous) == Unseen(hits, [])
  {
    if hits == [] {
    } else {
      UnseenIdsCons(hits, []);
      IdSetConcat(Head(hits[0], []), HitIds(hits[1..]));
      assert Head(hits[0], []) != [] ==> Head(hits[0], [])[0] in IdSetOf(Head(hits[0], []));
      NoneSeen(hits[1..], previous);
    }
  }

  lemma {:induction false} UnseenAligned(hits: seq<Hit>, k: nat)
    requires |Unseen(hits, [])| == |hits| && k <= |hits|
    ensures |Unseen(hits[..k], [])| == k && Unseen(hits[..k], []) == Unseen(hits, [])[..k]
    ensures Unseen(hits[k..], []) == Unseen(hits, [])[k..]
  {
    assert hits == hits[..k] + hits[k..];
    UnseenConcat(hits[..k], hits[k..], []);
  }

  /** Once the first k matches were returned, what is unseen are the others. */
  lemma {:induction false} UnseenSuffix(hits: seq<Hit>, previous: seq<EventId>, k: nat)
    requires DistinctMatches(hits) && k <= |hits| && IdSetOf(previous) == IdSetOf(HitIds(hits)[..k])
    ensures Unseen(hits, previous) == Unseen(hits, [])[k..]
  {
    var seen, others := hits[..k], hits[k..];
    HitIdsSplit(hits, k);
    UnseenAligned(hits, k);
    assert hits == seen + others;
    UnseenOthers(seen, others, previous);
  }

  lemma UnseenOthers(seen: seq<Hit>, others: seq<Hit>, previous: seq<EventId>)
    requires NoRepeat(HitIds(seen) + HitIds(others)) && IdSetOf(previous) == IdSetOf(HitIds(seen))
    ensures Unseen(seen + others, previous) == Unseen(others, [])
  {
    UnseenConcat(seen, others, previous);
    AllSeen(seen, previous);
    NoRepeatConcat(HitIds(seen), HitIds(others));
    NoneSeen(others, previous);
  }

  lemma IdsOfSlice(found: seq<Found>, k: nat)
    requires k <= |found|
    ensures IdsOf(found[..k]) == IdsOf(found)[..k] && IdsOf(found[k..]) == IdsOf(found)[k..]
  {
  }

  lemma HitIdsSplit(hits: seq<Hit>, k: nat)
    requires |Unseen(hits, [])| == |hits| && k <= |hits|
    ensures HitIds(hits[..k]) == HitIds(hits)[..k]
    ensures HitIds(hits) == HitIds(hits[..k]) + HitIds(hits[k..])
  {
    UnseenAligned(hits, k);
    IdsOfSlice(Unseen(hits, []), k);
    Halves(HitIds(hits), k);
  }

  lemma Halves(ids: seq<EventId>, k: nat)
    requires k <= |ids|
    ensures ids == ids[..k] + ids[k..]
  {
  }

  /** The first k matches were returned. */
  ghost predicate Returned(hits: seq<Hit>, previous: seq<EventId>, k: nat) {
    && DistinctMatches(hits) && k <= |hits|
    && IdSetOf(previous) == IdSetOf(HitIds(hits)[..k]) && |previous| == k
  }

  /** One page of such a chain. */
  lemma {:induction false} PageInOrder(hits: seq<Hit>, previous: seq<EventId>, t: Turn, k: nat)
    requires Returned(hits, previous, k) && t.hits == hits
    ensures var n := k + Least(t.limit, |hits| - k);
            && n <= |Unseen(hits, [])| == |hits|
            && Page(hits, previous, t.limit) == Unseen(hits, [])[k..n]
            && Returned(hits, After(previous, t), n)
            && (Last(previous, t) <==> n == |hits|)
  {
    var all, n := Unseen(hits, []), k + Least(t.limit, |hits| - k);
    UnseenSuffix(hits, previous, k);
    assert |all| == |hits|;
    var page := Page(hits, previous, t.limit);
    assert page == all[k..n];
    ReturnedMore(HitIds(hits), previous, IdsOf(page), k, n) by {
      IdsOfSlice(all, n);
      IdsOfSlice(all[..n], k);
      assert all[..n][k..] == page && HitIds(hits)[..n][k..] == HitIds(hits)[k..n];
    }
  }

  lemma ReturnedMore(ids: seq<EventId>, previous: seq<EventId>, page: seq<EventId>, k: nat, n: nat)
    requires k <= n <= |ids| && IdSetOf(previous) == IdSetOf(ids[..k]) && page == ids[k..n]
    ensures IdSetOf(page + previous) == IdSetOf(ids[..n])
  {
    assert ids[..n] == ids[..k] + page;
    IdSetConcat(ids[..k], page);
    IdSetConcat(page, previous);
  }

  /** Every call sees these matches in this order. */
  ghost predicate AllSee(turns: seq<Turn>, hits: seq<Hit>) {
    forall t | t in turns :: t.hits == hits
  }

  lemma AllSeeTail(turns: seq<Turn>, hits: seq<Hit>)
    requires turns != [] && AllSee(turns, hits)
    ensures turns[0].hits == hits && AllSee(turns[1..], hits)
  {
  }

  /** The first pieces of a list, taken one after the other. */
  lemma PrefixMore(rest: seq<Found>, limit: nat, more: nat)
    ensures Prefix(rest, limit + more)
         == Prefix(rest, limit) + if limit >= |rest| then [] else Prefix(rest[limit..], more)
  {
    if limit < |rest| {
      var n := Least(more, |rest| - limit);
      assert rest[limit..][..n] == rest[limit..limit + n];
      assert rest[..limit + n] == rest[..limit] + rest[limit..limit + n];
      assert Prefix(rest[limit..], more) == rest[limit..][..n];
      assert Prefix(rest, limit + more) == rest[..limit + n];
    }
  }

  /** The page, cut from what is left of the ranking. */
  lemma PageIsPrefix(hits: seq<Hit>, previous: seq<EventId>, t: Turn, k: nat)
    requires Returned(hits, previous, k) && t.hits == hits
    ensures var rest := Unseen(hits, [])[k..];
            && |rest| == |hits| - k && Page(hits, previous, t.limit) == Prefix(rest, t.limit)
            && (Last(previous, t) <==> t.limit >= |rest|)
    ensures t.limit < |hits| - k ==> Returned(hits, After(previous, t), k + t.limit)
  {
    var all, n := Unseen(hits, []), k + Least(t.limit, |hits| - k);
    PageInOrder(hits, previous, t, k);
    assert Prefix(all[k..], t.limit) == all[k..n];
  }

  lemma RestOfRest(all: seq<Found>, k: nat, limit: nat)
    requires k + limit <= |all|
    ensures all[k + limit..] == all[k..][limit..]
  {
  }

  lemma ReceivedUnfold(hits: seq<Hit>, previous: seq<EventId>, turns: seq<Turn>, page: seq<Found>, later: seq<Found>)
    requires turns != [] && turns[0].hits == hits && page == Page(hits, previous, turns[0].limit)
    requires later == if Last(previous, turns[0]) then [] else Received(After(previous, turns[0]), turns[1..])
    ensures Received(previous, turns) == page + later
  {
  }

  /** With one order, what is received after the first k matches is the rest of the ranked
      list, as far as it was asked for. */
  lemma {:induction false} ReceivedInOrder(
    hits: seq<Hit>, previous: seq<EventId>, turns: seq<Turn>, k: nat, rest: seq<Found>)
    requires Returned(hits, previous, k) && AllSee(turns, hits)
    requires k <= |Unseen(hits, [])| && rest == Unseen(hits, [])[k..]
    ensures Received(previous, turns) == Prefix(rest, SumLimits(turns))
    decreases |turns|
  {
    if turns == [] {
    } else {
      var limit, more := turns[0].limit, SumLimits(turns[1..]);
      AllSeeTail(turns, hits);
      PageIsPrefix(hits, previous, turns[0], k);
      if limit < |rest| {
        RestOfRest(Unseen(hits, []), k, limit);
        ReceivedInOrder(hits, After(previous, turns[0]), turns[1..], k + limit, rest[limit..]);
      }
      var later := if limit >= |rest| then [] else Prefix(rest[limit..], more);
      ReceivedUnfold(hits, previous, turns, Prefix(rest, limit), later);
      PrefixMore(rest, limit, more);
    }
  }

  /** With one fixed order the pages concatenate to the ranked list, as far as it
      was asked for. */
  lemma PagesConcatenate(hits: seq<Hit>, turns: seq<Turn>)
    requires DistinctMatches(hits) && AllSee(turns, hits)
    ensures Flat(Pages([], turns)) == Prefix(Unseen(hits, []), SumLimits(turns))
  {
    assert IdSetOf(HitIds(hits)[..0]) == {};
    assert Unseen(hits, [])[0..] == Unseen(hits, []);
    ReceivedInOrder(hits, [], turns, 0, Unseen(hits, []));
    FlatPages([], turns);
  }

  // ----- Exactly when every chain ends -----

  ghost predicate Over(turns: seq<Turn>, hits: seq<Hit>) {
    |turns| >= |hits| && turns != [] && forall t | t in turns :: t.hits == hits && t.limit >= 1
  }

  lemma SumAtLeast(turns: seq<Turn>)
    requires forall t | t in turns :: t.limit >= 1
    ensures SumLimits(turns) >= |turns|
  {
  }

  lemma SingleStep(hits: seq<Hit>, previous: seq<EventId>)
    requires NoRepeat(previous) && IdSetOf(previous) <= IdSetOf(HitIds(hits))
    ensures var after := After(previous, Turn(hits, 1));
            NoRepeat(after) && IdSetOf(after) <= IdSetOf(HitIds(hits))
  {
    UnseenIds(hits, previous);
    var ids := IdsOf(Unseen(hits, previous));
    var page := IdsOf(Page(hits, previous, 1));
    assert |page| <= 1 && (page != [] ==> page == [ids[0]]);
    assert page != [] ==> page[0] in IdSetOf(ids);
    assert NoRepeat(page);
    IdSetConcat(page, previous);
    NoRepeatConcat(page, previous);
  }

  /** One result at a time, a chain never gets past the number of distinct ids. */
  lemma {:induction false} SingleStepsStall(hits: seq<Hit>, previous: seq<EventId>, turns: seq<Turn>)
    requires !DistinctMatches(hits) && NoRepeat(previous) && IdSetOf(previous) <= IdSetOf(HitIds(hits))
    requires forall t | t in turns :: t == Turn(hits, 1)
    ensures !Ends(previous, turns)
    decreases |turns|
  {
    if turns == [] {
    } else {
      assert turns[0] in turns && forall t | t in turns[1..] :: t in turns;
      var after := After(previous, turns[0]);
      SingleStep(hits, previous);
      NoRepeatSize(after);
      NoRepeatSize(HitIds(hits));
      SubsetCard(IdSetOf(after), IdSetOf(HitIds(hits)));
      SingleStepsStall(hits, after, turns[1..]);
    }
  }

  /** Every chain that is long enough ends, for all limits, if and only if every
      match can be fetched and no event id is indexed twice. */
  lemma ChainsEndIffDistinct(hits: seq<Hit>)
    ensures (forall turns | Over(turns, hits) :: Ends([], turns)) <==> DistinctMatches(hits)
  {
    if DistinctMatches(hits) {
      NoRepeatSize(HitIds(hits));
      forall turns | Over(turns, hits)
        ensures Ends([], turns)
      {
        SumAtLeast(turns);
        ChainGrows([], turns, IdSetOf(HitIds(hits)), |hits|);
      }
    } else {
      var turns := seq(|hits| + 1, i => Turn(hits, 1));
      SingleStepsStall(hits, [], turns);
      assert Over(turns, hits);
    }
  }
}
