/**
 The searcher: paginated search over a snapshot of the index and a shared cache.
 */
module Searcher {
  import opened Wrappers
  import opened Events
  import opened Sequences
  import opened Queries
  import opened LruCaches
  import Pagination

  const SEARCH_CACHE_SIZE: nat := 100
  const SEARCH_LIMIT_INCREMENT: nat := 50

  // ----- One page -----

  /** A prefix of the ranking that already fills a page decides that page. */
  lemma PageOfPrefix(hits: seq<Hit>, n: nat, previous: seq<EventId>, limit: nat)
    requires n <= |hits|
    requires |Unseen(hits[..n], previous)| >= limit || n == |hits|
    ensures Page(hits, previous, limit) == Prefix(Unseen(hits[..n], previous), limit)
  {
    assert hits == hits[..n] + hits[n..];
    UnseenConcat(hits[..n], hits[n..], previous);
  }

  lemma UnseenNext(hits: seq<Hit>, n: nat, previous: seq<EventId>)
    requires n < |hits|
    ensures Unseen(hits[..n + 1], previous) == Unseen(hits[..n], previous) + Unseen([hits[n]], previous)
  {
    assert hits[..n + 1] == hits[..n] + [hits[n]];
    UnseenConcat(hits[..n], [hits[n]], previous);
  }

  /** Collects fetchable matches that were not returned before, until the page is full. */
  method CollectPage(topDocs: seq<Hit>, previous: seq<EventId>, ogLimit: nat)
    returns (docs: seq<Found>, eventIds: seq<EventId>)
    requires ogLimit >= 1
    ensures docs == Page(topDocs, previous, ogLimit) && eventIds == IdsOf(docs)
  {
    docs, eventIds := [], [];
    var i := 0;
    while i < |topDocs|
      invariant 0 <= i <= |topDocs|
      invariant docs == Unseen(topDocs[..i], previous) && |docs| < ogLimit
      invariant eventIds == IdsOf(docs)
    {
      UnseenNext(topDocs, i, previous);
      var hit := topDocs[i];
      i := i + 1;
      if hit.eventId.None? || hit.eventId.value in previous {
        continue;
      }
      eventIds := eventIds + [hit.eventId.value];
      docs := docs + [Found(hit.score, hit.eventId.value)];
      if |docs| >= ogLimit {
        break;
      }
    }
    PageOfPrefix(topDocs, i, previous, ogLimit);
  }

  /** The list of the snapshot that a request asks for. */
  function AskedList(snapshot: Snapshot, q: Query, byRecency: bool): seq<Hit> {
    if byRecency then snapshot.byRecency(q) else snapshot.byScore(q)
  }

  /** What a match is returned as: with the score 1.0 if the newest were asked for. */
  predicate Returns(hit: Hit, byRecency: bool, f: Found) {
    hit.eventId == Some(f.eventId) && (if byRecency then f.score == 1.0 else f.score == hit.score)
  }

  lemma {:induction false} UnseenFrom(hits: seq<Hit>, previous: seq<EventId>, f: Found)
    requires f in Unseen(hits, previous)
    ensures exists i :: 0 <= i < |hits| && hits[i].eventId == Some(f.eventId) && hits[i].score == f.score
  {
    var head := hits[0];
    if head.eventId == Some(f.eventId) && head.score == f.score {
    } else {
      UnseenFrom(hits[1..], previous, f);
      var i :| 0 <= i < |hits| - 1 && hits[1..][i].eventId == Some(f.eventId) && hits[1..][i].score == f.score;
      assert hits[i + 1].eventId == Some(f.eventId);
    }
  }

  /** Every result is a match in the list that was asked for. */
  lemma FoundInList(snapshot: Snapshot, q: Query, byRecency: bool, previous: seq<EventId>, limit: nat, f: Found)
    requires f in Page(Ranked(snapshot, q, byRecency), previous, limit)
    ensures var list := AskedList(snapshot, q, byRecency);
            exists i :: 0 <= i < |list| && Returns(list[i], byRecency, f)
  {
    var hits, list := Ranked(snapshot, q, byRecency), AskedList(snapshot, q, byRecency);
    UnseenFrom(hits, previous, f);
    var i :| 0 <= i < |hits| && hits[i].eventId == Some(f.eventId) && hits[i].score == f.score;
    assert Returns(list[i], byRecency, f);
  }

  /** Collects a page from the best `limit` matches, asking for more of them while
      earlier results leave too few. The answer does not depend on where it starts. */
  method SearchHelper(
    ogLimit: nat, limit: nat, byRecency: bool, previous: seq<EventId>, query: Query, snapshot: Snapshot)
    returns (count: nat, docs: seq<Found>, eventIds: seq<EventId>)
    requires ogLimit >= 1 && limit >= 1
    ensures count == |Ranked(snapshot, query, byRecency)|
    ensures docs == Page(Ranked(snapshot, query, byRecency), previous, ogLimit)
    ensures eventIds == IdsOf(docs)
    ensures var list := AskedList(snapshot, query, byRecency);
            && count == |list|
            && forall f | f in docs :: exists i :: 0 <= i < |list| && Returns(list[i], byRecency, f)
    decreases |Ranked(snapshot, query, byRecency)| - limit
  {
    var all := Ranked(snapshot, query, byRecency);
    var topDocs := Prefix(all, limit);
    count := |all|;
    var end := count == |topDocs|;
    docs, eventIds := CollectPage(topDocs, previous, ogLimit);
    if |docs| < ogLimit && !end {
      count, docs, eventIds :=
        SearchHelper(ogLimit, limit + SEARCH_LIMIT_INCREMENT, byRecency, previous, query, snapshot);
    } else {
      assert topDocs == all[..|topDocs|];
      PageOfPrefix(all, |topDocs|, previous, ogLimit);
    }
    forall f | f in docs
      ensures var list := AskedList(snapshot, query, byRecency);
              exists i :: 0 <= i < |list| && Returns(list[i], byRecency, f)
    {
      FoundInList(snapshot, query, byRecency, previous, ogLimit, f);
    }
  }

  // ----- One search -----

  /** The earlier search that a request continues, if its token is still known. */
  function Continued(es: Entries, config: SearchConfig): Option<Past> {
    match config.nextBatch
    case Some(token) => Lookup(es, token)
    case None => None
  }

  function AfterLookup(es: Entries, config: SearchConfig): Entries {
    match config.nextBatch
    case Some(token) => Touch(es, token)
    case None => es
  }

  /** What the cache is asked to remember: the first term and configuration, and the
      new page followed by everything before it. */
  function Remembered(past: Option<Past>, term: string, config: SearchConfig, page: seq<EventId>): Past {
    match past
    case Some(p) => Past(p.term, p.config, page + p.eventIds)
    case None => Past(term, config, page)
  }

  function PreviousIds(past: Option<Past>): seq<EventId> {
    match past case Some(p) => p.eventIds case None => []
  }

  /** A continued search keeps the rooms and fields of the first one, but uses the
      term, the limit and the order of this request. */
  function QueryOf(past: Option<Past>, term: string, config: SearchConfig): Query {
    ParseQuery(term, match past case Some(p) => p.config case None => config)
  }

  /** The rest of a search that continues this earlier one: the cache after it, and its
      result unless the query does not parse. The identifier for a new token is drawn by
      the environment. */
  function FinishStep(
    es: Entries, past: Option<Past>, snapshot: Snapshot, term: string, config: SearchConfig, token: Token)
    : (Entries, Option<SearchResult>)
  {
    var query := QueryOf(past, term, config);
    if !snapshot.parses(query) then (es, None)
    else
      var all := Ranked(snapshot, query, config.orderByRecency);
      var page := Page(all, PreviousIds(past), config.limit);
      var remembered := Remembered(past, term, config, IdsOf(page));
      if |remembered.eventIds| == |all| then (es, Some(SearchResult(|all|, page, None)))
      else (Put(es, token, remembered, SEARCH_CACHE_SIZE), Some(SearchResult(|all|, page, Some(token))))
  }

  /** One search. The lock on the cache is released after the look-up, so that others may
      use the cache before the new token is inserted. */
  function SearchStep(
    es: Entries, between: seq<Op>, snapshot: Snapshot, term: string, config: SearchConfig, token: Token)
    : (Entries, Option<SearchResult>)
  {
    var meanwhile := ApplyAll(AfterLookup(es, config), between, SEARCH_CACHE_SIZE);
    FinishStep(meanwhile, Continued(es, config), snapshot, term, config, token)
  }

  class IndexSearcher {
    const snapshot: Snapshot
    const searchCache: LruCache

    constructor (snapshot: Snapshot, searchCache: LruCache)
      ensures this.snapshot == snapshot && this.searchCache == searchCache
    {
      this.snapshot := snapshot;
      this.searchCache := searchCache;
    }

    method Search(term: string, config: SearchConfig, token: Token) returns (r: Option<SearchResult>)
      requires config.limit >= 1 && searchCache.capacity == SEARCH_CACHE_SIZE
      modifies searchCache
      ensures (searchCache.entries, r) == SearchStep(old(searchCache.entries), [], snapshot, term, config, token)
    {
      var past := LookUpPast(config);
      r := SearchFrom(past, term, config, token);
    }

    /** The part under the first lock. */
    method LookUpPast(config: SearchConfig) returns (past: Option<Past>)
      modifies searchCache
      ensures searchCache.entries == AfterLookup(old(searchCache.entries), config)
      ensures past == Continued(old(searchCache.entries), config)
    {
      past := None;
      if config.nextBatch.Some? {
        past := searchCache.GetMut(config.nextBatch.value);
      }
    }

    /** The part without a lock, and the insertion under the second one, whatever the cache
        holds by then. */
    method SearchFrom(past: Option<Past>, term: string, config: SearchConfig, token: Token)
      returns (r: Option<SearchResult>)
      requires config.limit >= 1 && searchCache.capacity == SEARCH_CACHE_SIZE
      modifies searchCache
      ensures (searchCache.entries, r) == FinishStep(old(searchCache.entries), past, snapshot, term, config, token)
    {
      var count, results, eventIds;
      var storedTerm, storedConfig := term, config;
      if past.Some? {
        var query := ParseQuery(term, past.value.config);
        if !snapshot.parses(query) {
          return None;
        }
        var previous := past.value.eventIds;
        count, results, eventIds :=
          SearchHelper(config.limit, config.limit, config.orderByRecency, previous, query, snapshot);
        eventIds := eventIds + previous;
        storedTerm, storedConfig := past.value.term, past.value.config;
      } else {
        var query := ParseQuery(term, config);
        if !snapshot.parses(query) {
          return None;
        }
        count, results, eventIds :=
          SearchHelper(config.limit, config.limit, config.orderByRecency, [], query, snapshot);
      }

      var nextBatch := None;
      if |eventIds| != count {
        searchCache.Insert(token, Past(storedTerm, storedConfig, eventIds));
        nextBatch := Some(token);
      }
      return Some(SearchResult(count, results, nextBatch));
    }
  }

  // ----- A client that follows tokens while others use the cache -----

  /** One call of a client; before it, and between its look-up and its insertion, others
      used the cache. */
  datatype Call = Call(
    others: seq<Op>, between: seq<Op>, snapshot: Snapshot, term: string, config: SearchConfig, token: Token)

  function CallStep(es: Entries, c: Call, next: Option<Token>): (Entries, Option<SearchResult>) {
    SearchStep(es, c.between, c.snapshot, c.term, c.config.(nextBatch := next), c.token)
  }

  /** What a client received, and whether a search handed it no further token. */
  datatype Walk = Walk(pages: seq<seq<Found>>, done: bool)

  /** A client that continues with each token it is given. */
  function Follow(es: Entries, next: Option<Token>, calls: seq<Call>): Walk
    decreases |calls|
  {
    if calls == [] then Walk([], false)
    else
      var c := calls[0];
      var es0 := ApplyAll(es, c.others, SEARCH_CACHE_SIZE);
      var (es', r) := CallStep(es0, c, next);
      match r
      case None => Walk([], false)
      case Some(result) =>
        var later := if result.nextBatch == None then Walk([], true) else Follow(es', result.nextBatch, calls[1..]);
        Onto(result.results, later)
  }

  function Onto(page: seq<Found>, later: Walk): Walk {
    Walk([page] + later.pages, later.done)
  }

  function OpKeys(ops: seq<Op>): set<Token> {
    set op | op in ops :: op.key
  }

  /** Others leave the token alone and use fewer distinct tokens than the cache holds. */
  ghost predicate LeavesAlone(ops: seq<Op>, token: Token) {
    (forall op | op in ops :: op.key != token) && |OpKeys(ops)| < SEARCH_CACHE_SIZE
  }

  /** Between the calls nobody else disturbs the token that is followed. */
  ghost predicate Undisturbed(next: Option<Token>, calls: seq<Call>)
    decreases |calls|
  {
    calls == [] || (
      && (next.Some? ==> LeavesAlone(calls[0].others, next.value))
      && Undisturbed(Some(calls[0].token), calls[1..]))
  }

  function QueryIn(c: Call, config: SearchConfig): Query {
    ParseQuery(c.term, config)
  }

  /** The calls as the turns of a chain that keeps the first call's configuration. */
  function Turns(calls: seq<Call>, config: SearchConfig): seq<Pagination.Turn> {
    if calls == [] then [] else [TurnOf(calls[0], config)] + Turns(calls[1..], config)
  }

  function TurnOf(c: Call, config: SearchConfig): Pagination.Turn {
    Pagination.Turn(Ranked(c.snapshot, QueryIn(c, config), c.config.orderByRecency), c.config.limit)
  }

  /** The specification of a walk. */
  function Chain(previous: seq<EventId>, turns: seq<Pagination.Turn>): Walk {
    Walk(Pagination.Pages(previous, turns), Pagination.Ends(previous, turns))
  }

  lemma ChainUnfold(previous: seq<EventId>, turns: seq<Pagination.Turn>)
    requires turns != []
    ensures var t := turns[0];
            var later := if Pagination.Last(previous, t) then Walk([], true)
                         else Chain(Pagination.After(previous, t), turns[1..]);
            Chain(previous, turns) == Onto(Page(t.hits, previous, t.limit), later)
  {
  }

  lemma {:induction false} TurnsAre(calls: seq<Call>, config: SearchConfig)
    ensures var turns := Turns(calls, config);
            |turns| == |calls| && forall i | 0 <= i < |calls| :: turns[i] == TurnOf(calls[i], config)
  {
    if calls == [] {
    } else {
      TurnsAre(calls[1..], config);
    }
  }

  lemma TurnsCons(calls: seq<Call>, config: SearchConfig)
    requires calls != []
    ensures var turns := Turns(calls, config);
            turns != [] && turns[0] == TurnOf(calls[0], config) && turns[1..] == Turns(calls[1..], config)
  {
  }

  function FirstConfig(calls: seq<Call>): SearchConfig
    requires calls != []
  {
    calls[0].config.(nextBatch := None)
  }

  ghost predicate Parse(calls: seq<Call>, config: SearchConfig) {
    forall c | c in calls :: c.snapshot.parses(QueryIn(c, config))
  }

  /** The token is the most recently used one. */
  ghost predicate JustUsed(es: Entries, k: Token, past: Past) {
    && es != [] && es[|es| - 1] == (k, past) && k !in KeySet(es[..|es| - 1])
    && |es| <= SEARCH_CACHE_SIZE
  }

  lemma {:induction false} TouchedAreUsed(es: Entries, ops: seq<Op>, capacity: nat)
    ensures Touched(es, ops, capacity) <= OpKeys(ops)
    decreases |ops|
  {
    if ops == [] {
    } else {
      TouchedAreUsed(Apply(es, ops[0], capacity), ops[1..], capacity);
      assert ops[0] in ops && forall op | op in ops[1..] :: op in ops;
    }
  }

  lemma StillThere(es: Entries, k: Token, past: Past, ops: seq<Op>)
    requires JustUsed(es, k, past) && LeavesAlone(ops, k)
    ensures Lookup(ApplyAll(es, ops, SEARCH_CACHE_SIZE), k) == Some(past)
  {
    TokenResolvable(es, k, past, ops, SEARCH_CACHE_SIZE);
    TouchedAreUsed(es, ops, SEARCH_CACHE_SIZE);
    SubsetSize(Touched(es, ops, SEARCH_CACHE_SIZE), OpKeys(ops));
  }

  lemma {:induction false} CacheBounded(es: Entries, ops: seq<Op>)
    requires |es| <= SEARCH_CACHE_SIZE
    ensures |ApplyAll(es, ops, SEARCH_CACHE_SIZE)| <= SEARCH_CACHE_SIZE
    decreases |ops|
  {
    if ops == [] {
    } else {
      if ops[0].Get? {
        TouchBounded(es, ops[0].key);
      }
      CacheBounded(Apply(es, ops[0], SEARCH_CACHE_SIZE), ops[1..]);
    }
  }

  lemma TouchBounded(es: Entries, k: Token)
    ensures |Touch(es, k)| <= |es|
  {
    if k in KeySet(es) {
      RemoveShrinks(es, k);
    }
  }

  lemma PutIsJustUsed(es: Entries, k: Token, past: Past)
    requires |es| <= SEARCH_CACHE_SIZE
    ensures JustUsed(Put(es, k, past, SEARCH_CACHE_SIZE), k, past)
  {
  }

  /** What one call of a chain answers, and what its token then stands for. */
  lemma CallIsTurn(es: Entries, past: Option<Past>, c: Call, next: Option<Token>, config: SearchConfig)
    requires |es| <= SEARCH_CACHE_SIZE
    requires Continued(es, c.config.(nextBatch := next)) == past
    requires config == match past case Some(p) => p.config case None => c.config.(nextBatch := next)
    requires c.snapshot.parses(QueryIn(c, config))
    ensures var (es', r) := CallStep(es, c, next);
            var t := TurnOf(c, config);
            && r.Some? && r.value.results == Page(t.hits, PreviousIds(past), t.limit)
            && r.value.count == |t.hits|
            && (r.value.nextBatch == if Pagination.Last(PreviousIds(past), t) then None else Some(c.token))
            && (r.value.nextBatch.Some? ==>
                  exists p: Past :: p.config == config && JustUsed(es', c.token, p)
                    && p.eventIds == Pagination.After(PreviousIds(past), t)
                    && p.term == match past case Some(q) => q.term case None => c.term)
  {
    var request := c.config.(nextBatch := next);
    if next.Some? {
      TouchBounded(es, next.value);
    }
    var t := TurnOf(c, config);
    var page := IdsOf(Page(t.hits, PreviousIds(past), t.limit));
    var p := Remembered(past, c.term, request, page);
    CacheBounded(AfterLookup(es, request), c.between);
    PutIsJustUsed(ApplyAll(AfterLookup(es, request), c.between, SEARCH_CACHE_SIZE), c.token, p);
    assert page + [] == page;
  }

  /** A search fails exactly if its query does not parse, and then leaves no entry behind. */
  lemma SearchFailsIff(es: Entries, c: Call, next: Option<Token>)
    ensures var request := c.config.(nextBatch := next);
            var past := Continued(es, request);
            var (es', r) := CallStep(es, c, next);
            && (r == None <==>
                  !c.snapshot.parses(ParseQuery(c.term, if past.Some? then past.value.config else request)))
            && (r == None ==> es' == ApplyAll(AfterLookup(es, request), c.between, 100))
  {
  }

  /** A client that follows tokens receives exactly the pages of the chain, whatever
      rooms or fields its later requests name and whatever others do to the cache. */
  lemma {:induction false} FollowedPages(es: Entries, k: Token, past: Past, calls: seq<Call>)
    requires JustUsed(es, k, past) && Undisturbed(Some(k), calls) && Parse(calls, past.config)
    ensures Follow(es, Some(k), calls) == Chain(past.eventIds, Turns(calls, past.config))
    decreases |calls|
  {
    if calls != [] {
      StillThere(es, k, past, calls[0].others);
      CacheBounded(es, calls[0].others);
      FollowedStep(es, Some(k), Some(past), calls, past.config);
    }
  }

  lemma {:induction false} FollowUnfold(es: Entries, next: Option<Token>, calls: seq<Call>)
    requires calls != []
    requires CallStep(ApplyAll(es, calls[0].others, SEARCH_CACHE_SIZE), calls[0], next).1.Some?
    ensures var (es', r) := CallStep(ApplyAll(es, calls[0].others, SEARCH_CACHE_SIZE), calls[0], next);
            Follow(es, next, calls)
              == Onto(r.value.results,
                      if r.value.nextBatch == None then Walk([], true)
                      else Follow(es', r.value.nextBatch, calls[1..]))
  {
  }

  lemma {:induction false} FollowedStep(
    es: Entries, next: Option<Token>, past: Option<Past>, calls: seq<Call>, config: SearchConfig)
    requires calls != [] && Undisturbed(next, calls) && Parse(calls, config)
    requires var es0 := ApplyAll(es, calls[0].others, SEARCH_CACHE_SIZE);
             |es0| <= SEARCH_CACHE_SIZE && Continued(es0, calls[0].config.(nextBatch := next)) == past
    requires config == match past case Some(p) => p.config case None => calls[0].config.(nextBatch := next)
    ensures Follow(es, next, calls) == Chain(PreviousIds(past), Turns(calls, config))
    decreases |calls|, 0
  {
    var c, rest := calls[0], calls[1..];
    assert c in calls && forall d | d in rest :: d in calls;
    var es0 := ApplyAll(es, c.others, SEARCH_CACHE_SIZE);
    var (es', r) := CallStep(es0, c, next);
    CallIsTurn(es0, past, c, next, config);
    TurnsCons(calls, config);
    ChainUnfold(PreviousIds(past), Turns(calls, config));
    FollowUnfold(es, next, calls);
    if r.value.nextBatch.Some? {
      var p: Past :| p.config == config && JustUsed(es', c.token, p)
                  && p.eventIds == Pagination.After(PreviousIds(past), TurnOf(c, config));
      FollowedPages(es', c.token, p, rest);
    }
  }

  lemma FollowedFromStart(es: Entries, calls: seq<Call>)
    requires |es| <= SEARCH_CACHE_SIZE && calls != []
    requires Undisturbed(None, calls) && Parse(calls, FirstConfig(calls))
    ensures Follow(es, None, calls) == Chain([], Turns(calls, FirstConfig(calls)))
  {
    CacheBounded(es, calls[0].others);
    FollowedStep(es, None, None, calls, FirstConfig(calls));
  }

  // ----- What the client can rely on -----

  /** All calls repeat one term on one snapshot and ask for something. */
  ghost predicate Repeats(calls: seq<Call>, snapshot: Snapshot, term: string) {
    forall c | c in calls :: c.snapshot == snapshot && c.term == term && c.config.limit >= 1
  }

  /** Both lists of the snapshot have the same fetchable matches, none of them twice. */
  ghost predicate WellIndexed(snapshot: Snapshot, q: Query, matches: set<EventId>) {
    ListsAll(snapshot.byScore(q), matches) && ListsAll(snapshot.byRecency(q), matches)
  }

  ghost predicate ListsAll(hits: seq<Hit>, matches: set<EventId>) {
    && |hits| == |matches| && Pagination.DistinctMatches(hits)
    && Pagination.IdSetOf(Pagination.HitIds(hits)) == matches
  }

  lemma {:induction false} SameHitIds(a: seq<Hit>, b: seq<Hit>)
    requires |a| == |b| && forall i | 0 <= i < |a| :: a[i].eventId == b[i].eventId
    ensures Pagination.HitIds(a) == Pagination.HitIds(b)
  {
    if a == [] {
    } else {
      SameHitIds(a[1..], b[1..]);
      Pagination.UnseenIdsCons(a, []);
      Pagination.UnseenIdsCons(b, []);
    }
  }

  /** The ranking has the ids of the list that was asked for. */
  lemma RankedIds(snapshot: Snapshot, q: Query, byRecency: bool)
    ensures |Ranked(snapshot, q, byRecency)| == |AskedList(snapshot, q, byRecency)|
    ensures Pagination.HitIds(Ranked(snapshot, q, byRecency))
         == Pagination.HitIds(AskedList(snapshot, q, byRecency))
  {
    SameHitIds(Ranked(snapshot, q, byRecency), AskedList(snapshot, q, byRecency));
  }

  lemma {:induction false} AllUnseen(hits: seq<Hit>)
    requires |Unseen(hits, [])| == |hits|
    ensures forall i | 0 <= i < |hits| ::
              hits[i].eventId.Some? && Unseen(hits, [])[i] == Found(hits[i].score, hits[i].eventId.value)
  {
    if hits == [] {
    } else {
      AllUnseen(hits[1..]);
    }
  }

  lemma TurnsOfOneSnapshot(
    calls: seq<Call>, config: SearchConfig, snapshot: Snapshot, term: string, matches: set<EventId>)
    requires Repeats(calls, snapshot, term) && WellIndexed(snapshot, ParseQuery(term, config), matches)
    ensures Pagination.OneSnapshot(Turns(calls, config), matches, |matches|)
  {
    TurnsAre(calls, config);
    assert forall i | 0 <= i < |calls| :: calls[i] in calls;
    RankedIds(snapshot, ParseQuery(term, config), true);
    RankedIds(snapshot, ParseQuery(term, config), false);
  }

  /** Pagination is a partition. The client receives no event twice, only matches, and
      as many as it asked for while there are any; it is told that there are no more
      exactly when it has received all of them, after at most one page a match. */
  lemma ClientPartition(es: Entries, calls: seq<Call>, snapshot: Snapshot, term: string, matches: set<EventId>)
    requires |es| <= SEARCH_CACHE_SIZE && calls != [] && Undisturbed(None, calls)
    requires Repeats(calls, snapshot, term) && Parse(calls, FirstConfig(calls))
    requires WellIndexed(snapshot, ParseQuery(term, FirstConfig(calls)), matches)
    ensures var walk := Follow(es, None, calls);
            var all := Pagination.Flat(walk.pages);
            var returned := Pagination.IdSetOf(IdsOf(all));
            var asked := Pagination.SumLimits(Turns(calls, FirstConfig(calls)));
            && returned <= matches
            && |all| == |returned| == Least(asked, |matches|)
            && (walk.done <==> returned == matches)
            && |walk.pages| <= if matches == {} then 1 else |matches|
  {
    var turns := Turns(calls, FirstConfig(calls));
    FollowedFromStart(es, calls);
    TurnsOfOneSnapshot(calls, FirstConfig(calls), snapshot, term, matches);
    Pagination.ChainPartitions(turns, matches, |matches|);
    Pagination.ChainLength([], turns, matches, |matches|);
  }

  /** With one order throughout, the pages are the list that was asked for, cut into pieces:
      the newest matches each with the score 1.0, or the best matches with their own. */
  lemma ClientInOrder(
    es: Entries, calls: seq<Call>, snapshot: Snapshot, term: string, matches: set<EventId>, byRecency: bool)
    requires |es| <= SEARCH_CACHE_SIZE && calls != [] && Undisturbed(None, calls)
    requires Repeats(calls, snapshot, term) && Parse(calls, FirstConfig(calls))
    requires forall c | c in calls :: c.config.orderByRecency == byRecency
    requires WellIndexed(snapshot, ParseQuery(term, FirstConfig(calls)), matches)
    ensures var q := ParseQuery(term, FirstConfig(calls));
            var list := if byRecency then snapshot.byRecency(q) else snapshot.byScore(q);
            var all := Pagination.Flat(Follow(es, None, calls).pages);
            && |all| == Least(Pagination.SumLimits(Turns(calls, FirstConfig(calls))), |list|)
            && forall i | 0 <= i < |all| ::
                 && list[i].eventId == Some(all[i].eventId)
                 && all[i].score == if byRecency then 1.0 else list[i].score
  {
    var config := FirstConfig(calls);
    var q := ParseQuery(term, config);
    RankedIds(snapshot, q, byRecency);
    PagesAreRanked(es, calls, snapshot, term, byRecency);
    AllUnseen(Ranked(snapshot, q, byRecency));
  }

  lemma PagesAreRanked(es: Entries, calls: seq<Call>, snapshot: Snapshot, term: string, byRecency: bool)
    requires |es| <= SEARCH_CACHE_SIZE && calls != [] && Undisturbed(None, calls)
    requires Repeats(calls, snapshot, term) && Parse(calls, FirstConfig(calls))
    requires forall c | c in calls :: c.config.orderByRecency == byRecency
    requires Pagination.DistinctMatches(Ranked(snapshot, ParseQuery(term, FirstConfig(calls)), byRecency))
    ensures var ranked := Unseen(Ranked(snapshot, ParseQuery(term, FirstConfig(calls)), byRecency), []);
            var asked := Pagination.SumLimits(Turns(calls, FirstConfig(calls)));
            Pagination.Flat(Follow(es, None, calls).pages) == Prefix(ranked, asked)
  {
    var config := FirstConfig(calls);
    var turns, hits := Turns(calls, config), Ranked(snapshot, ParseQuery(term, config), byRecency);
    FollowedFromStart(es, calls);
    TurnsAre(calls, config);
    forall t | t in turns
      ensures t.hits == hits
    {
      var i :| 0 <= i < |calls| && t == turns[i];
      assert calls[i] in calls;
    }
    Pagination.PagesConcatenate(hits, turns);
  }

  /** Even if the index, the term and the order change between the calls, no event is
      on two of the pages. */
  lemma ClientNoRepeats(es: Entries, calls: seq<Call>, i: nat, j: nat)
    requires |es| <= SEARCH_CACHE_SIZE && calls != [] && Undisturbed(None, calls)
    requires Parse(calls, FirstConfig(calls))
    requires i < j < |Follow(es, None, calls).pages|
    ensures var pages := Follow(es, None, calls).pages;
            Pagination.IdSetOf(IdsOf(pages[i])) !! Pagination.IdSetOf(IdsOf(pages[j]))
  {
    FollowedFromStart(es, calls);
    Pagination.NoRepeats([], Turns(calls, FirstConfig(calls)), i, j);
  }

  lemma {:induction false} ApplyAllConcat(es: Entries, a: seq<Op>, b: seq<Op>)
    ensures ApplyAll(es, a + b, SEARCH_CACHE_SIZE)
         == ApplyAll(ApplyAll(es, a, SEARCH_CACHE_SIZE), b, SEARCH_CACHE_SIZE)
    decreases |a|
  {
    if a == [] {
      assert a + b == b;
    } else {
      assert (a + b)[1..] == a[1..] + b;
      ApplyAllConcat(Apply(es, a[0], SEARCH_CACHE_SIZE), a[1..], b);
    }
  }

  /** A search uses the cache like its look-up, the others and its insertion. */
  lemma SearchIsOps(es: Entries, k: Token, past: Past, c: Call, ops: seq<Op>) returns (used: seq<Op>)
    requires Lookup(es, k) == Some(past) && c.snapshot.parses(QueryIn(c, past.config)) && c.token != k
    requires LeavesAlone(c.between + [Get(c.token)] + ops, k)
    ensures ApplyAll(CallStep(es, c, Some(k)).0, ops, SEARCH_CACHE_SIZE)
         == ApplyAll(Touch(es, k), used, SEARCH_CACHE_SIZE)
    ensures LeavesAlone(used, k)
  {
    var request, step := c.config.(nextBatch := Some(k)), CallStep(es, c, Some(k));
    var meanwhile := ApplyAll(Touch(es, k), c.between, SEARCH_CACHE_SIZE);
    var ranked := Ranked(c.snapshot, QueryIn(c, past.config), c.config.orderByRecency);
    var p := Remembered(Some(past), c.term, request, IdsOf(Page(ranked, past.eventIds, c.config.limit)));
    ApplyAllConcat(Touch(es, k), c.between, ops);
    used := c.between + ops;
    if step.1.value.nextBatch.Some? {
      var insert := [Insert(c.token, p)];
      assert insert[1..] + ops == ops;
      ApplyAllConcat(meanwhile, insert, ops);
      ApplyAllConcat(Touch(es, k), c.between, insert + ops);
      assert ApplyAll(meanwhile, insert, SEARCH_CACHE_SIZE) == Put(meanwhile, c.token, p, SEARCH_CACHE_SIZE);
      used := c.between + (insert + ops);
    }
    OpKeysConcat(c.between, [Get(c.token)] + ops);
    SameOpsLeaveAlone(c.between + [Get(c.token)] + ops, used, k);
  }

  lemma SameOpsLeaveAlone(a: seq<Op>, b: seq<Op>, k: Token)
    requires LeavesAlone(a, k) && OpKeys(b) <= OpKeys(a)
    ensures LeavesAlone(b, k)
  {
    SubsetSize(OpKeys(b), OpKeys(a));
    assert forall op | op in b :: op.key in OpKeys(b);
  }

  /** Using a token that is still known, and using it again with nobody disturbing it
      meanwhile, gives the same page. */
  lemma ReuseGivesSamePage(es: Entries, k: Token, past: Past, c: Call, again: Call)
    requires Lookup(es, k) == Some(past) && |es| <= SEARCH_CACHE_SIZE
    requires c.snapshot.parses(QueryIn(c, past.config)) && c.token != k
    requires again.snapshot == c.snapshot && again.term == c.term && again.config == c.config
    requires LeavesAlone(c.between + [Get(c.token)] + again.others, k)
    ensures var (es1, first) := CallStep(es, c, Some(k));
            var (_, second) := CallStep(ApplyAll(es1, again.others, SEARCH_CACHE_SIZE), again, Some(k));
            && first.Some? && second.Some?
            && first.value.results == second.value.results && first.value.count == second.value.count
  {
    TouchIsJustUsed(es, k, past);
    var used := SearchIsOps(es, k, past, c, again.others);
    StillThere(Touch(es, k), k, past, used);
  }

  lemma OpKeysConcat(a: seq<Op>, b: seq<Op>)
    ensures OpKeys(a + b) == OpKeys(a) + OpKeys(b)
  {
  }

  lemma TouchIsJustUsed(es: Entries, k: Token, past: Past)
    requires Lookup(es, k) == Some(past) && |es| <= SEARCH_CACHE_SIZE
    ensures JustUsed(Touch(es, k), k, past)
  {
    TouchBounded(es, k);
    var es' := Touch(es, k);
    assert es'[..|es'| - 1] == Remove(es, k);
  }
}
