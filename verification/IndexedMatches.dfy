/**
 From the writer to the searcher: when the matches of every search are distinct, as
 pagination needs them to be.
 */
module IndexedMatches {
  import opened Wrappers
  import opened Events
  import opened Sequences
  import opened Tables
  import opened Soundness
  import opened Protocol
  import opened Invariants
  import opened Runs
  import opened Duplicates
  import opened StaleStores
  import opened Queries
  import Pagination

  /** The matches of a search are documents of the index, each at most once. */
  ghost predicate Selects(docs: seq<Doc>, hits: seq<Hit>) {
    exists pick: seq<nat> :: Picks(docs, hits, pick)
  }

  ghost predicate Picks(docs: seq<Doc>, hits: seq<Hit>, pick: seq<nat>) {
    && |pick| == |hits| && NoRepeat(pick)
    && forall i | 0 <= i < |hits| ::
         pick[i] < |docs| && hits[i].eventId == Some(docs[pick[i]].ident.key.eventId)
  }

  ghost predicate DistinctIds(docs: seq<Doc>) {
    forall i, j | 0 <= i < j < |docs| :: docs[i].ident.key.eventId != docs[j].ident.key.eventId
  }

  lemma {:induction false} AllFetchable(hits: seq<Hit>)
    requires forall i | 0 <= i < |hits| :: hits[i].eventId.Some?
    ensures |Pagination.HitIds(hits)| == |hits|
    ensures forall i | 0 <= i < |hits| :: Pagination.HitIds(hits)[i] == hits[i].eventId.value
  {
    if hits == [] {
    } else {
      AllFetchable(hits[1..]);
      Pagination.UnseenIdsCons(hits, []);
      assert Pagination.HitIds(hits) == [hits[0].eventId.value] + Pagination.HitIds(hits[1..]);
    }
  }

  lemma SelectedDistinct(docs: seq<Doc>, hits: seq<Hit>)
    requires DistinctIds(docs) && Selects(docs, hits)
    ensures Pagination.DistinctMatches(hits)
  {
    var pick: seq<nat> :| Picks(docs, hits, pick);
    AllFetchable(hits);
    var ids := Pagination.HitIds(hits);
    forall i, j | 0 <= i < j < |ids|
      ensures Differ(ids, i, j)
    {
      assert Differ(pick, i, j);
    }
  }

  function AllHits(docs: seq<Doc>): seq<Hit> {
    seq(|docs|, i requires 0 <= i < |docs| => Hit(1.0, Some(docs[i].ident.key.eventId)))
  }

  /** The matches of every search are distinct if and only if no two documents of the
      index carry the same event id. */
  lemma MatchesDistinctIff(docs: seq<Doc>)
    ensures (forall hits | Selects(docs, hits) :: Pagination.DistinctMatches(hits)) <==> DistinctIds(docs)
  {
    if DistinctIds(docs) {
      forall hits | Selects(docs, hits)
        ensures Pagination.DistinctMatches(hits)
      {
        SelectedDistinct(docs, hits);
      }
    } else {
      var hits := AllHits(docs);
      var pick: seq<nat> := seq(|docs|, i => i);
      assert Picks(docs, hits, pick);
      assert Selects(docs, hits);
      AllFetchable(hits);
      var ids := Pagination.HitIds(hits);
      var i, j :| 0 <= i < j < |docs| && docs[i].ident.key.eventId == docs[j].ident.key.eventId;
      assert ids[i] == docs[i].ident.key.eventId && ids[j] == docs[j].ident.key.eventId;
        assert !Differ(ids, i, j);
    }
  }

  /** No event id is stored in two rooms. */
  ghost predicate OneRoom(t: Tables) {
    forall r, s | r in t.events && s in t.events :: t.events[r].eventId == t.events[s].eventId ==> r == s
  }

  lemma SameIdent(t: Tables, r: int, s: int)
    requires Sound(t) && r in t.events && s in t.events && RowIdent(t, r) == RowIdent(t, s)
    ensures r == s
  {
  }

  /** An index that holds each stored event once has two documents with one id exactly if
      the tables have two rows with one. */
  lemma OneRoomIff(t: Tables, docs: seq<Doc>)
    requires Sound(t) && Unique(docs) && Idents(docs) == RowIdents(t)
    ensures OneRoom(t) <==> DistinctIds(docs)
  {
    UniqueIffDistinctKeys(docs);
    if OneRoom(t) {
      forall i, j | 0 <= i < j < |docs|
        ensures docs[i].ident.key.eventId != docs[j].ident.key.eventId
      {
        assert docs[i].ident in Idents(docs) && docs[j].ident in Idents(docs);
        var r :| r in t.events && RowIdent(t, r) == docs[i].ident;
        var s :| s in t.events && RowIdent(t, s) == docs[j].ident;
        assert docs[i].ident.key != docs[j].ident.key;
      }
    }
    if DistinctIds(docs) {
      forall r, s | r in t.events && s in t.events && t.events[r].eventId == t.events[s].eventId
        ensures r == s
      {
        assert RowIdent(t, r) in Idents(docs) && RowIdent(t, s) in Idents(docs);
        var i :| 0 <= i < |docs| && docs[i].ident == RowIdent(t, r);
        var j :| 0 <= j < |docs| && docs[j].ident == RowIdent(t, s);
        SameIdent(t, r, s);
      }
    }
  }

  /** What leads up to a forced write: a clean and tidy run, and a write that is clean. */
  ghost predicate BeforeWrite(acts: seq<Action>, env: Env) {
    && Run(Fresh(EMPTY), acts) && Clean(Fresh(EMPTY), acts) && Tidy(Fresh(EMPTY), acts)
    && var st := Exec(Fresh(EMPTY), acts);
       EnvFits(st, Write(true), env) && CleanMessage(st, Write(true))
  }

  lemma WrittenOnce(acts: seq<Action>, env: Env)
    requires BeforeWrite(acts, env)
    ensures Unique(Handle(Exec(Fresh(EMPTY), acts), Write(true), env).0.disk.docs)
  {
    var st := Exec(Fresh(EMPTY), acts);
    EmptySafe();
    RunSafe(Fresh(EMPTY), acts);
    CleanRunGuarded(Fresh(EMPTY), acts);
    TidyRunUnique(acts);
    NobodyWaits(EMPTY.tables, []);
    TidyRunFresh(Fresh(EMPTY), acts);
    if !st.loaded {
      assert Working(st) == st.disk.docs;
    }
    HandleUnique(st, Write(true), env);
  }

  lemma WrittenSound(acts: seq<Action>, env: Env)
    requires BeforeWrite(acts, env)
    ensures Sound(Handle(Exec(Fresh(EMPTY), acts), Write(true), env).0.disk.tables)
  {
    var st := Exec(Fresh(EMPTY), acts);
    EmptySafe();
    RunSafe(Fresh(EMPTY), acts);
    HandleOk(st, Write(true), env);
  }

  /** After a clean and tidy run and a forced write, the index holds each stored event
      exactly once; and the matches of every search on it are distinct if and only if no id
      is stored in two rooms. */
  lemma WrittenIndexPaginates(acts: seq<Action>, env: Env)
    requires BeforeWrite(acts, env)
    ensures var d := Handle(Exec(Fresh(EMPTY), acts), Write(true), env).0.disk;
            && Unique(d.docs) && Idents(d.docs) == RowIdents(d.tables)
            && ((forall hits | Selects(d.docs, hits) :: Pagination.DistinctMatches(hits)) <==> OneRoom(d.tables))
  {
    var d := Handle(Exec(Fresh(EMPTY), acts), Write(true), env).0.disk;
    WrittenOnce(acts, env);
    WrittenSound(acts, env);
    CleanRunConverges(acts, env);
    OneRoomIff(d.tables, d.docs);
    MatchesDistinctIff(d.docs);
  }
}
