/**
 Of several events with one key it is the first sent that is stored: with every column, and
 with its own text in the index.
 */
module SentEvents {
  import opened Wrappers
  import opened Events
  import opened Tables
  import opened Soundness
  import opened Protocol
  import opened Invariants
  import opened Completeness
  import opened Runs

  /** Row r has the columns of this event. */
  ghost predicate RowSays(t: Tables, r: int, e: Event) {
    && r in t.events && t.events[r].roomId in t.rooms && t.rooms[t.events[r].roomId] == e.roomId
    && t.events[r] == EventRow(
         e.eventId, e.sender, e.serverTs, t.events[r].roomId, e.eventType, e.msgtype, e.source, t.events[r].profileId)
  }

  ghost predicate IsStored(t: Tables, e: Event) {
    exists r :: RowSays(t, r, e)
  }

  /** Entry i is the first of its key. */
  ghost predicate FirstOfKey(batch: seq<Entry>, i: nat) {
    i < |batch| && forall j | 0 <= j < i :: KeyOf(batch[j].0) != KeyOf(batch[i].0)
  }

  lemma StoredStays(t: Tables, t': Tables, e: Event)
    requires Sound(t) && Extends(t, t') && IsStored(t, e)
    ensures IsStored(t', e)
  {
    var r :| RowSays(t, r, e);
    assert RowSays(t', r, e);
  }

  /** The rows and documents of a batch are those of its rest, and what its first event adds. */
  lemma {:induction false} SavedParts(t: Tables, batch: seq<Entry>, t1: Tables, first: Option<int>, rest: Saved)
    requires batch != [] && SaveEvent(t, batch[0].0, batch[0].1) == (t1, Success(first))
    requires rest == SaveEvents(t1, batch[1..])
    ensures var s := SaveEvents(t, batch);
            && s.tables == rest.tables && (forall d | d in rest.docs :: d in s.docs)
            && (first.Some? ==> DocOf(batch[0].0) in s.docs)
  {
  }

  lemma SavingSucceeds(t: Tables, e: Event, p: Profile)
    requires Sound(t)
    ensures var (t1, res) := SaveEvent(t, e, p);
            res.Success? && Sound(t1) && (KeyOf(e) !in Keys(t) ==> res.value.Some?)
  {
    SaveEventSound(t, e, p);
  }

  lemma FirstEventStored(t: Tables, e: Event, p: Profile, t': Tables)
    requires Sound(t) && KeyOf(e) !in Keys(t) && Extends(SaveEvent(t, e, p).0, t')
    ensures IsStored(t', e)
  {
    var t1 := SaveEvent(t, e, p).0;
    SaveEventSound(t, e, p);
    SaveEventColumns(t, e, p);
    assert RowSays(t1, NextId(t.events), e);
    StoredStays(t1, t', e);
  }

  lemma RestKeepsFirst(t: Tables, e: Event, p: Profile, rest: seq<Entry>)
    requires Sound(t) && KeyOf(e) !in Keys(t)
    ensures IsStored(SaveEvents(SaveEvent(t, e, p).0, rest).tables, e)
  {
    var t1 := SaveEvent(t, e, p).0;
    SavingSucceeds(t, e, p);
    SaveEventsSound(t1, rest);
    FirstEventStored(t, e, p, SaveEvents(t1, rest).tables);
  }

  lemma {:induction false} BatchStoresFirst(t: Tables, batch: seq<Entry>, i: nat)
    requires Sound(t) && FirstOfKey(batch, i) && KeyOf(batch[i].0) !in Keys(t)
    ensures var s := SaveEvents(t, batch);
            IsStored(s.tables, batch[i].0) && DocOf(batch[i].0) in s.docs
    decreases |batch|
  {
    var (e, p) := batch[0];
    var (t1, res) := SaveEvent(t, e, p);
    var rest := SaveEvents(t1, batch[1..]);
    SavingSucceeds(t, e, p);
    SavedParts(t, batch, t1, res.value, rest);
    if i == 0 {
      RestKeepsFirst(t, e, p, batch[1..]);
    } else {
      KeyNotAdded(t, e, p, KeyOf(batch[i].0));
      FirstOfRest(batch, i);
      BatchStoresFirst(t1, batch[1..], i - 1);
    }
  }

  lemma FirstOfRest(batch: seq<Entry>, i: nat)
    requires FirstOfKey(batch, i) && i > 0
    ensures FirstOfKey(batch[1..], i - 1)
  {
    assert forall j | 0 <= j < i - 1 :: batch[1..][j] == batch[j + 1];
  }

  lemma KeyNotAdded(t: Tables, e: Event, p: Profile, k: Key)
    requires Sound(t) && k !in Keys(t) && k != KeyOf(e)
    ensures k !in Keys(SaveEvent(t, e, p).0)
  {
    var (t1, res) := SaveEvent(t, e, p);
    SaveEventSound(t, e, p);
    if res.value.Some? {
      StoredKeys(t, t1, e, res.value.value);
    } else {
      KeysStable(t, t1);
    }
  }

  /** A write stores each event of its queue that is the first of a new key, and hands its
      document to the index. */
  lemma WriteStoresFirst(st: State, force: bool, elapsed: bool, i: nat)
    requires SessionOk(st) && FirstOfKey(st.queue, i) && KeyOf(st.queue[i].0) !in Keys(st.disk.tables)
    ensures var st' := WriteQueued(st, force, elapsed).0;
            IsStored(st'.disk.tables, st.queue[i].0) && DocOf(st.queue[i].0) in Working(st')
  {
    var s, e := SaveEvents(st.disk.tables, st.queue), st.queue[i].0;
    var (st1, res) := WriteEvents(st, st.queue, None, None, force, elapsed);
    SaveEventsSound(st.disk.tables, st.queue);
    BatchStoresFirst(st.disk.tables, st.queue, i);
    WriteEventsOk(st, st.queue, None, None, force, elapsed);
    WriteEventsRows(st, st.queue, s, None, None, force, elapsed);
    SameRows(s.tables, st1.disk.tables, e);
    SettleKeeps(st1.(queue := []), res, e);
  }

  lemma SameRows(t: Tables, t': Tables, e: Event)
    requires t'.events == t.events && t'.rooms == t.rooms && IsStored(t, e)
    ensures IsStored(t', e)
  {
    var r :| RowSays(t, r, e);
    assert RowSays(t', r, e);
  }

  lemma SettleKeeps(st: State, res: Result<(bool, bool), SqlError>, e: Event)
    requires IsStored(st.disk.tables, e)
    ensures IsStored(Settle(st, res).disk.tables, e) && Working(Settle(st, res)) == Working(st)
  {
    SameRows(st.disk.tables, Settle(st, res).disk.tables, e);
  }

  lemma HandleStoresFirst(st: State, force: bool, env: Env, i: nat)
    requires SessionOk(st) && EnvFits(st, Write(force), env)
    requires FirstOfKey(st.queue, i) && KeyOf(st.queue[i].0) !in Keys(st.disk.tables)
    ensures var st' := Handle(st, Write(force), env).0;
            IsStored(st'.disk.tables, st.queue[i].0) && DocOf(st.queue[i].0) in Working(st')
  {
    if st.loaded {
      WriteStoresFirst(st, force, env.elapsed, i);
    } else {
      LoadUnprocessedOk(st, env.uids, env.dids);
      WriteStoresFirst(LoadUnprocessed(st, env.uids, env.dids), force, env.elapsed, i);
    }
  }

  // ----- What a caller sees -----

  /** These entries are sent one after the other. */
  function Sends(entries: seq<Entry>, env: Env): seq<Action> {
    seq(|entries|, i requires 0 <= i < |entries| => Process(Add(entries[i].0, entries[i].1), env))
  }

  lemma {:induction false} SendingQueues(st: State, entries: seq<Entry>, env: Env)
    requires Run(st, Sends(entries, env))
    ensures entries == [] ==> Exec(st, Sends(entries, env)) == st
    ensures entries != [] ==>
              Exec(st, Sends(entries, env)) == Blank(st).(queue := st.queue + entries)
    decreases |entries|
  {
    if entries == [] {
    } else {
      var (e, p) := entries[0];
      var acts := Sends(entries, env);
      var st1 := Step(st, acts[0]);
      assert acts[1..] == Sends(entries[1..], env);
      assert st1 == Blank(st).(queue := st.queue + [(e, p)]);
      assert [(e, p)] + entries[1..] == entries;
      SendingQueues(st1, entries[1..], env);
      assert st1.queue + entries[1..] == st.queue + entries;
    }
  }

  /** An event that is sent when its key is neither stored nor queued is stored by the next
      write as it was sent, whatever was sent with the same key after it. */
  lemma FirstSentIsStored(st: State, e: Event, p: Profile, more: seq<Entry>, quiet: Env, force: bool, env: Env)
    requires Safe(st) && KeyOf(e) !in Keys(st.disk.tables) && KeyOf(e) !in BatchKeys(st.queue)
    requires var acts := Sends([(e, p)] + more, quiet) + [Process(Write(force), env)];
             Run(st, acts)
    ensures var st' := Exec(st, Sends([(e, p)] + more, quiet) + [Process(Write(force), env)]);
            IsStored(st'.disk.tables, e) && DocOf(e) in Working(st')
  {
    var entries := [(e, p)] + more;
    var sends := Sends(entries, quiet);
    var last := Process(Write(force), env);
    RunParts(st, sends, last);
    var st1 := Exec(st, sends);
    SendingQueues(st, entries, quiet);
    assert st1.queue == st.queue + entries && Blank(st1) == st1;
    assert FirstOfKey(st1.queue, |st.queue|) by {
      assert forall j | 0 <= j < |st.queue| :: st1.queue[j] in st.queue;
    }
    assert Working(st1) == Working(st);
    HandleStoresFirst(st1, force, env, |st.queue|);
  }

  lemma {:induction false} RunParts(st: State, acts: seq<Action>, last: Action)
    requires Run(st, acts + [last])
    ensures Run(st, acts) && Enabled(Exec(st, acts), last)
    ensures Exec(st, acts + [last]) == Step(Exec(st, acts), last)
    decreases |acts|
  {
    if acts == [] {
      assert acts + [last] == [last];
      assert Exec(Step(st, last), []) == Step(st, last);
    } else {
      assert (acts + [last])[1..] == acts[1..] + [last];
      RunParts(Step(st, acts[0]), acts[1..], last);
    }
  }
}
