/**
 Completeness does not hold for every run: an event that is stored again while its
 deletion is pending loses its document for good if the process restarts in time.
 */
module LostEvent {
  import opened Wrappers
  import opened Events
  import opened Sequences
  import opened Tables
  import opened Soundness
  import opened Protocol
  import opened Invariants
  import opened Completeness
  import opened Runs

  lemma {:induction false} DocsBounded(t: Tables, batch: seq<Entry>)
    ensures |SaveEvents(t, batch).docs| <= |batch|
    decreases |batch|
  {
    if batch == [] {
    } else {
      DocsBounded(SaveEvent(t, batch[0].0, batch[0].1).0, batch[1..]);
    }
  }

  /** A deletion of an unknown event only leaves its id pending. */
  function AfterDelete(eventId: EventId): State {
    var d := Durable(EMPTY_TABLES.(pending := {eventId}), []);
    State(d, [d, d], [], 0, [], [], [eventId], false)
  }

  lemma DeleteUnknown(eventId: EventId, env: Env)
    ensures Handle(Fresh(EMPTY), Delete(eventId), env) == (AfterDelete(eventId), Flag(Success(false)))
  {
    var t := EMPTY_TABLES;
    assert DeleteEventsById(t, eventId) == Success(t);
    var t1 := t.(pending := t.pending + {eventId});
    assert t1 == EMPTY_TABLES.(pending := {eventId});
    var d := Durable(t1, []);
    assert Without([], eventId) == [];
    assert DeleteRows(Fresh(EMPTY), t, eventId) == AfterDelete(eventId);
  }

  /** An unforced write of one event leaves it stored while its id is pending. */
  lemma WriteWhilePending(st: State, e: Event, p: Profile, env: Env)
    requires st == Blank(AfterDelete(e.eventId)).(queue := [(e, p)])
    requires env == Env(false, [], [e.eventId])
    ensures SessionOk(st) && EnvFits(st, Write(false), env)
    ensures var t := Handle(st, Write(false), env).0.disk.tables;
            KeyOf(e) in Keys(t) && t.pending == {e.eventId}
  {
    assert Working(st) == [];
    assert SessionOk(st);
    assert EventIdSet(env.dids) == {e.eventId};
    assert JoinedUncommitted(st.disk.tables) == {} == IdSet([]);
    var st1 := LoadUnprocessed(st, env.uids, env.dids);
    LoadUnprocessedOk(st, env.uids, env.dids);
    assert st1.added == 0 by {
      IndexDeletesOk(ReplayUncommitted(st, env.uids), env.dids);
      ReplayUncommittedOk(st, env.uids);
    }
    DocsBounded(st1.disk.tables, st1.queue);
    WriteEventsKeys(st1, st1.queue, None, None, false, false);
    WriteEventsOk(st1, st1.queue, None, None, false, false);
    var (st2, res) := WriteEvents(st1, st1.queue, None, None, false, false);
    assert !res.value.1;
    assert st1.queue[0] in st1.queue;
  }

  lemma {:induction false} ListsSet(s: set<int>) returns (q: seq<int>)
    ensures IdSet(q) == s && NoRepeat(q)
    decreases s
  {
    if s == {} {
      q := [];
    } else {
      var x := MaxOf(s);
      var rest := ListsSet(s - {x});
      q := rest + [x];
      assert x !in IdSet(rest);
      NoRepeatSnoc(rest, x);
      assert IdSet(q) == {x} + IdSet(rest);
    }
  }

  lemma ExecCons(st: State, a: Action, acts: seq<Action>)
    requires Enabled(st, a) && Run(Step(st, a), acts)
    ensures Run(st, [a] + acts) && Exec(st, [a] + acts) == Exec(Step(st, a), acts)
  {
  }

  /** The session that stores the event: delete its id, add the event, write without
      force, shut down. */
  function Losing(e: Event, p: Profile): seq<Action> {
    var quiet := Env(false, [], [e.eventId]);
    [Process(Delete(e.eventId), quiet)] + ([Process(Add(e, p), quiet)]
    + ([Process(Write(false), quiet)] + ([Process(ShutDown, quiet)] + [])))
  }

  lemma {:induction false} WriteAndShutDown(st: State, e: Event, p: Profile)
    requires Blank(st) == Blank(AfterDelete(e.eventId)).(queue := [(e, p)])
    ensures var quiet := Env(false, [], [e.eventId]);
            var acts := [Process(Write(false), quiet)] + ([Process(ShutDown, quiet)] + []);
            && Run(st, acts)
            && var end := Exec(st, acts);
               !end.loaded && KeyOf(e) in Keys(end.disk.tables) && end.disk.tables.pending == {e.eventId}
  {
    var quiet := Env(false, [], [e.eventId]);
    WriteWhilePending(Blank(st), e, p, quiet);
    var st1 := Step(st, Process(Write(false), quiet));
    ExecCons(st1, Process(ShutDown, quiet), []);
    ExecCons(st, Process(Write(false), quiet), [Process(ShutDown, quiet)] + []);
  }

  lemma PrefixLeavesPending(e: Event, p: Profile)
    ensures Run(Fresh(EMPTY), Losing(e, p))
    ensures var st := Exec(Fresh(EMPTY), Losing(e, p));
            && Safe(st) && !st.loaded
            && KeyOf(e) in Keys(st.disk.tables) && st.disk.tables.pending == {e.eventId}
  {
    var quiet := Env(false, [], [e.eventId]);
    var st0 := Fresh(EMPTY);
    DeleteUnknown(e.eventId, quiet);
    var st1 := Step(st0, Process(Delete(e.eventId), quiet));
    var st2 := Step(st1, Process(Add(e, p), quiet));
    WriteAndShutDown(st2, e, p);
    var tail := [Process(Write(false), quiet)] + ([Process(ShutDown, quiet)] + []);
    ExecCons(st1, Process(Add(e, p), quiet), tail);
    ExecCons(st0, Process(Delete(e.eventId), quiet), [Process(Add(e, p), quiet)] + tail);
    EmptySafe();
    RunSafe(st0, Losing(e, p));
  }

  /** The forced write of the next session then loses the document: the event stays
      stored, nothing remembers it, and the index does not have it. */
  lemma StoredAgainWhilePendingIsLost(e: Event, p: Profile) returns (env: Env)
    ensures Run(Fresh(EMPTY), Losing(e, p))
    ensures var st := Exec(Fresh(EMPTY), Losing(e, p));
            && EnvFits(st, Write(true), env)
            && !DurableComplete(Handle(st, Write(true), env).0.disk)
  {
    PrefixLeavesPending(e, p);
    var st := Exec(Fresh(EMPTY), Losing(e, p));
    var uids := ListsSet(JoinedUncommitted(st.disk.tables));
    env := Env(false, uids, [e.eventId]);
    assert EventIdSet(env.dids) == {e.eventId};
    var r :| r in st.disk.tables.events && RowIdent(st.disk.tables, r).key == KeyOf(e);
    UnsafeReplayLoses(st, env, r);
  }
}
