/**
 Schema migration and recovery: the version and the durable flag that says the index
 must be rebuilt, and the session that rebuilds it and clears the flag.
 */
module Recovery {
  import opened Wrappers
  import opened Events
  import opened Protocol

  const DATABASE_VERSION: int := 4

  /** What survives. A missing row of one of the two tables is None; version 1 has its
      profiles in a table with another name. */
  datatype Stored = Stored(version: Option<int>, reindexNeeded: Option<bool>, oldProfiles: bool, docs: seq<Doc>)

  datatype RecoveryError =
    | DatabaseOpenError | DatabaseVersionError | ReindexError | IndexLocked | IndexNotDeleted

  // ----- Opening -----

  /** The durable states that migrating passes through, and how it ends. */
  datatype Migration = Migration(states: seq<Stored>, outcome: Result<(int, bool), RecoveryError>)

  function Then(s: Stored, m: Migration): Migration {
    Migration([s] + m.states, m.outcome)
  }

  /** Creates missing rows, then migrates one version at a time. The rename and the
      version of the first migration are two commits, the others are one. */
  function GetVersion(s: Stored): Migration
    decreases s.reindexNeeded.None?, s.version.None?,
              if s.version.Some? && s.version.value <= 4 then 4 - s.version.value else 0, s.oldProfiles
  {
    if s.reindexNeeded.None? then
      var s' := s.(reindexNeeded := Some(false));
      Then(s', GetVersion(s'))
    else if s.version.None? then
      var s' := s.(version := Some(DATABASE_VERSION));
      Then(s', GetVersion(s'))
    else if s.version.value == 1 then
      if !s.oldProfiles then Migration([], Failure(DatabaseOpenError))
      else
        var renamed := s.(oldProfiles := false);
        var s' := renamed.(version := Some(2));
        Then(renamed, Then(s', GetVersion(s')))
    else if s.version.value == 2 || s.version.value == 3 then
      var s' := s.(reindexNeeded := Some(true), version := Some(s.version.value + 1));
      Then(s', GetVersion(s'))
    else
      Migration([], Success((s.version.value, s.reindexNeeded.value)))
  }

  function Final(s: Stored, states: seq<Stored>): Stored {
    if states == [] then s else states[|states| - 1]
  }

  /** The migration has passed through these states and goes on from s. */
  ghost predicate Reaches(from: Stored, states: seq<Stored>, s: Stored) {
    && GetVersion(from) == Migration(states + GetVersion(s).states, GetVersion(s).outcome)
    && s == Final(from, states)
  }

  lemma ReachesNext(from: Stored, states: seq<Stored>, s: Stored, s': Stored)
    requires Reaches(from, states, s)
    requires GetVersion(s) == Then(s', GetVersion(s'))
    ensures Reaches(from, states + [s'], s')
  {
    var rest := GetVersion(s').states;
    assert GetVersion(s).states == [s'] + rest;
    assert states + ([s'] + rest) == states + [s'] + rest;
  }

  /** A step of two commits. */
  lemma ReachesTwo(from: Stored, states: seq<Stored>, s: Stored, middle: Stored, s': Stored)
    requires Reaches(from, states, s)
    requires GetVersion(s) == Then(middle, Then(s', GetVersion(s')))
    ensures Reaches(from, states + [middle] + [s'], s')
  {
    var rest := GetVersion(s').states;
    assert GetVersion(s).states == [middle] + ([s'] + rest);
    assert states + ([middle] + ([s'] + rest)) == states + [middle] + [s'] + rest;
  }

  /** What opening the database for normal use answers. */
  function OpenDatabase(s: Stored): Result<(), RecoveryError> {
    match GetVersion(s).outcome
    case Failure(e) => Failure(e)
    case Success(v) =>
      if v.0 != DATABASE_VERSION then Failure(DatabaseVersionError)
      else if v.1 then Failure(ReindexError)
      else Success(())
  }

  /** Opening stops after some of its commits. */
  function CrashedOpening(s: Stored, commits: nat): Stored {
    var states := GetVersion(s).states;
    if commits == 0 || states == [] then s
    else if commits <= |states| then states[commits - 1]
    else states[|states| - 1]
  }

  function CrashedOpenings(s: Stored, crashes: seq<nat>): Stored
    decreases |crashes|
  {
    if crashes == [] then s else CrashedOpenings(CrashedOpening(s, crashes[0]), crashes[1..])
  }

  /** The index does not match the schema, and the store knows it. */
  predicate Flagged(s: Stored) {
    s.version in {Some(2), Some(3)} || (s.version == Some(DATABASE_VERSION) && s.reindexNeeded == Some(true))
  }

  /** The states of an opening and its end, as promised below. */
  ghost predicate EndsFlagged(s: Stored, m: Migration) {
    && (forall x | x in m.states :: Flagged(x) && x.docs == s.docs)
    && m.outcome == Success((DATABASE_VERSION, true))
    && Final(s, m.states).version == Some(DATABASE_VERSION)
    && Final(s, m.states).reindexNeeded == Some(true)
  }

  lemma {:induction false} ThenEndsFlagged(s: Stored, s': Stored)
    requires Flagged(s') && s'.docs == s.docs && EndsFlagged(s', GetVersion(s'))
    ensures EndsFlagged(s, Then(s', GetVersion(s')))
  {
  }

  lemma FlaggedOpening(s: Stored)
    requires Flagged(s)
    ensures EndsFlagged(s, GetVersion(s))
    decreases s.reindexNeeded.None?, if s.version.Some? then 4 - s.version.value else 0
  {
    if s.reindexNeeded.None? {
      var s' := s.(reindexNeeded := Some(false));
      FlaggedOpening(s');
      ThenEndsFlagged(s, s');
    } else if s.version != Some(4) {
      var s' := s.(reindexNeeded := Some(true), version := Some(s.version.value + 1));
      FlaggedOpening(s');
      ThenEndsFlagged(s, s');
    }
  }

  /** From version 2 or 3 on, however often opening is cut short, the next opening
      ends at version 4 with the flag set, and normal use is refused. */
  lemma {:induction false} MigrationSurvivesCrashes(s: Stored, crashes: seq<nat>)
    requires Flagged(s)
    ensures var s' := CrashedOpenings(s, crashes);
            && Flagged(s') && s'.docs == s.docs
            && GetVersion(s').outcome == Success((DATABASE_VERSION, true))
            && OpenDatabase(s') == Failure(ReindexError)
    decreases |crashes|
  {
    FlaggedOpening(s);
    if crashes == [] {
    } else {
      MigrationSurvivesCrashes(CrashedOpening(s, crashes[0]), crashes[1..]);
    }
  }

  /** A new store needs no reindex, however often its first opening is cut short. */
  lemma {:induction false} NewStoreOpens(s: Stored, crashes: seq<nat>)
    requires s.version in {None, Some(DATABASE_VERSION)} && s.reindexNeeded in {None, Some(false)}
    ensures OpenDatabase(CrashedOpenings(s, crashes)) == Success(())
    decreases |crashes|
  {
    var s1 := s.(reindexNeeded := Some(false));
    var s2 := s1.(version := Some(DATABASE_VERSION));
    assert GetVersion(s2) == Migration([], Success((4, false)));
    assert GetVersion(s1) == if s1.version.None? then Migration([s2], Success((4, false)))
                             else Migration([], Success((4, false)));
    assert forall x | x in GetVersion(s).states :: x == s1 || x == s2;
    if crashes == [] {
    } else {
      NewStoreOpens(CrashedOpening(s, crashes[0]), crashes[1..]);
    }
  }

  /** A version 1 store whose first opening did not get to the rename. */
  predicate Unmigrated(s: Stored) {
    s.version == Some(1) && s.oldProfiles
  }

  /** A version 1 store whose profiles were renamed already. */
  predicate Stuck(s: Stored) {
    s.version == Some(1) && !s.oldProfiles
  }

  /** The number of commits after which only the rename has happened: the first commit
      may be the missing row of the flag. */
  function FatalCut(s: Stored): nat {
    if s.reindexNeeded.None? then 2 else 1
  }

  lemma StuckOpening(s: Stored)
    requires Stuck(s)
    ensures GetVersion(s).outcome == Failure(DatabaseOpenError)
    ensures forall x | x in GetVersion(s).states :: Stuck(x)
  {
    if s.reindexNeeded.None? {
      var s' := s.(reindexNeeded := Some(false));
      assert GetVersion(s') == Migration([], Failure(DatabaseOpenError));
    }
  }

  lemma {:induction false} StuckForever(s: Stored, crashes: seq<nat>)
    requires Stuck(s)
    ensures Stuck(CrashedOpenings(s, crashes))
    ensures GetVersion(CrashedOpenings(s, crashes)).outcome == Failure(DatabaseOpenError)
    decreases |crashes|
  {
    StuckOpening(s);
    if crashes == [] {
    } else {
      StuckForever(CrashedOpening(s, crashes[0]), crashes[1..]);
    }
  }

  lemma UnmigratedStates(s: Stored)
    requires Unmigrated(s) && s.reindexNeeded.Some?
    ensures var renamed := s.(oldProfiles := false);
            var s2 := renamed.(version := Some(2));
            && GetVersion(s) == Migration([renamed, s2] + GetVersion(s2).states, Success((DATABASE_VERSION, true)))
            && Stuck(renamed) && Flagged(s2) && forall x | x in GetVersion(s2).states :: Flagged(x)
  {
    var s2 := s.(oldProfiles := false, version := Some(2));
    FlaggedOpening(s2);
  }

  /** What one cut leaves of an opening that had everything still to do. */
  lemma UnmigratedOpening(s: Stored, commits: nat)
    requires Unmigrated(s)
    ensures GetVersion(s).outcome == Success((DATABASE_VERSION, true))
    ensures var x := CrashedOpening(s, commits);
            if commits < FatalCut(s) then Unmigrated(x)
            else if commits == FatalCut(s) then Stuck(x)
            else Flagged(x)
  {
    var s1 := s.(reindexNeeded := if s.reindexNeeded.None? then Some(false) else s.reindexNeeded);
    UnmigratedStates(s1);
    var states := GetVersion(s).states;
    assert states == (if s.reindexNeeded.None? then [s1] else []) + GetVersion(s1).states;
    if commits > FatalCut(s) {
      var x := CrashedOpening(s, commits);
      var i := if commits <= |states| then commits - 1 else |states| - 1;
      assert x == states[i] && i >= FatalCut(s);
    }
  }

  /** One of the openings is cut right after the rename. */
  predicate CutsRename(s: Stored, crashes: seq<nat>)
    decreases |crashes|
  {
    crashes != [] && (
      || (Unmigrated(s) && crashes[0] == FatalCut(s))
      || CutsRename(CrashedOpening(s, crashes[0]), crashes[1..]))
  }

  lemma {:induction false} NoFurtherRename(s: Stored, crashes: seq<nat>)
    requires Flagged(s)
    ensures !CutsRename(s, crashes)
    decreases |crashes|
  {
    if crashes == [] {
    } else {
      FlaggedOpening(s);
      NoFurtherRename(CrashedOpening(s, crashes[0]), crashes[1..]);
    }
  }

  /** However often the openings of a version 1 store are cut short: the next one ends
      at version 4 with the flag set, unless one of them was cut between the rename and
      the new version. Then the store never opens again. */
  lemma {:induction false} RenameMustNotBeCut(s: Stored, crashes: seq<nat>)
    requires Unmigrated(s)
    ensures GetVersion(CrashedOpenings(s, crashes)).outcome
         == if CutsRename(s, crashes) then Failure(DatabaseOpenError) else Success((DATABASE_VERSION, true))
    decreases |crashes|
  {
    UnmigratedOpening(s, 0);
    if crashes == [] {
    } else {
      var x, rest := CrashedOpening(s, crashes[0]), crashes[1..];
      UnmigratedOpening(s, crashes[0]);
      if Unmigrated(x) {
        RenameMustNotBeCut(x, rest);
      } else if Stuck(x) {
        StuckForever(x, rest);
      } else {
        MigrationSurvivesCrashes(x, rest);
        NoFurtherRename(x, rest);
      }
    }
  }

  lemma FinishedOpening(s: Stored)
    requires s.reindexNeeded.Some? && s.version.Some? && s.version.value !in {1, 2, 3}
    ensures GetVersion(s) == Migration([], Success((s.version.value, s.reindexNeeded.value)))
  {
  }

  lemma OpeningFlagged(s: Stored)
    requires Flagged(s) || Unmigrated(s) || Stuck(s)
    ensures OpenDatabase(s) == if Stuck(s) then Failure(DatabaseOpenError) else Failure(ReindexError)
  {
    if Stuck(s) {
      StuckOpening(s);
    } else if Unmigrated(s) {
      UnmigratedOpening(s, 0);
    } else {
      FlaggedOpening(s);
    }
  }

  /** What opening for normal use answers, for every store: it succeeds exactly if the store is
      new or at version 4 without the flag, and each error stands for one kind of store. */
  lemma OpenDatabaseIff(s: Stored)
    ensures var r := OpenDatabase(s);
            && (r == Success(()) <==> s.version in {None, Some(4)} && s.reindexNeeded in {None, Some(false)})
            && (r == Failure(DatabaseOpenError) <==> Stuck(s))
            && (r == Failure(DatabaseVersionError) <==> s.version.Some? && !(1 <= s.version.value <= 4))
            && (r == Failure(ReindexError) <==>
                  || Unmigrated(s) || s.version in {Some(2), Some(3)}
                  || (s.version in {None, Some(4)} && s.reindexNeeded == Some(true)))
  {
    if Flagged(s) || Unmigrated(s) || Stuck(s) {
      OpeningFlagged(s);
    } else {
      var s1 := s.(reindexNeeded := if s.reindexNeeded.None? then Some(false) else s.reindexNeeded);
      var s2 := s1.(version := if s.version.None? then Some(4) else s.version);
      FinishedOpening(s2);
      assert GetVersion(s1).outcome == GetVersion(s2).outcome;
      assert GetVersion(s).outcome == GetVersion(s1).outcome;
    }
  }

  // ----- The session -----

  /** An open index writer; `sent` is every document added since it was opened. */
  datatype IndexSession = IndexSession(pending: seq<Doc>, added: nat, sent: seq<Doc>)

  datatype Session = Session(
    stored: Stored, log: seq<Stored>, deleted: bool, writer: Option<IndexSession>, reindexed: nat)

  function NewSession(s: Stored): Session {
    Session(s, [], false, None, 0)
  }

  function Store(r: Session, s: Stored): Session {
    r.(stored := s, log := r.log + [s])
  }

  function DocsOf(es: seq<Event>): seq<Doc> {
    seq(|es|, i requires 0 <= i < |es| => DocOf(es[i]))
  }

  function DeleteTheIndex(r: Session): Session {
    Store(r, r.stored.(docs := [])).(deleted := true, writer := None)
  }

  /** The directory lock admits one writer at a time. */
  function OpenIndex(r: Session): (Session, Result<(), RecoveryError>) {
    if !r.deleted then (r, Failure(ReindexError))
    else if r.writer.Some? then (r, Failure(IndexLocked))
    else (r.(writer := Some(IndexSession([], 0, []))), Success(()))
  }

  /** Without a writer this is an error; the code panics there. */
  function IndexEvents(r: Session, es: seq<Event>): (Session, Result<(), RecoveryError>) {
    match r.writer
    case None => (r, Failure(IndexNotDeleted))
    case Some(w) =>
      var w' := IndexSession(w.pending + DocsOf(es), w.added + |es|, w.sent + DocsOf(es));
      (r.(writer := Some(w'), reindexed := r.reindexed + |es|), Success(()))
  }

  function CommitIndex(r: Session, force: bool, elapsed: bool): (Session, Result<bool, RecoveryError>) {
    match r.writer
    case None => (r, Failure(ReindexError))
    case Some(w) =>
      if w.added > 0 && (force || w.added >= COMMIT_RATE || elapsed) then
        (Store(r, r.stored.(docs := r.stored.docs + w.pending)).(writer := Some(w.(pending := [], added := 0))),
         Success(true))
      else (r, Success(false))
  }

  /** Consumes the session. */
  function CommitAndClose(r: Session): (Session, Result<(), RecoveryError>) {
    match CommitIndex(r, true, false)
    case (_, Failure(e)) => (NewSession(r.stored).(log := r.log), Failure(e))
    case (committed, Success(_)) =>
      var closed := Store(committed, committed.stored.(reindexNeeded := Some(false)));
      (NewSession(closed.stored).(log := closed.log), Success(()))
  }

  /** What can be done to the store; opening for recovery runs the migration. */
  datatype Op = Open | Delete | OpenWriter | Index(events: seq<Event>) | Commit(elapsed: bool) | Close

  function Apply(r: Session, op: Op): Session {
    match op
    case Open =>
      var states := GetVersion(r.stored).states;
      NewSession(Final(r.stored, states)).(log := r.log + states)
    case Delete => DeleteTheIndex(r)
    case OpenWriter => OpenIndex(r).0
    case Index(es) => IndexEvents(r, es).0
    case Commit(elapsed) => CommitIndex(r, false, elapsed).0
    case Close => CommitAndClose(r).0
  }

  /** An operation, possibly cut short after some of its commits. */
  datatype Action = Do(op: Op) | CrashIn(op: Op, commits: nat)

  function Next(r: Session, a: Action): Session {
    var r' := Apply(r, a.op);
    match a
    case Do(_) => r'
    case CrashIn(_, commits) =>
      var at := |r.log| + commits;
      NewSession(if commits == 0 || |r'.log| <= |r.log| then r.stored
                 else if at <= |r'.log| then r'.log[at - 1]
                 else r'.stored)
  }

  function Exec(r: Session, actions: seq<Action>): Session
    decreases |actions|
  {
    if actions == [] then r else Exec(Next(r, actions[0]), actions[1..])
  }

  /** A writer was opened on an emptied index, and the index and what is pending are
      together what was added since. */
  ghost predicate RecoveryOk(r: Session) {
    && (r.writer.Some? ==>
          var w := r.writer.value;
          r.deleted && r.stored.docs + w.pending == w.sent && |w.pending| == w.added)
    && (r.deleted && r.writer.None? ==> r.stored.docs == [])
  }

  lemma NextOk(r: Session, a: Action)
    requires RecoveryOk(r)
    ensures RecoveryOk(Next(r, a))
  {
  }

  /** Closing with a writer: the index then holds what was added since the deletion. */
  ghost predicate ClosesComplete(r: Session, a: Action) {
    && a.op == Close && r.deleted && r.writer.Some?
    && Next(r, a).stored.docs == r.writer.value.sent
  }

  lemma OpenKeepsFlag(r: Session, a: Action)
    requires Flagged(r.stored) && a.op == Open
    ensures Flagged(Next(r, a).stored)
  {
    FlaggedOpening(r.stored);
  }

  lemma CloseIsComplete(r: Session, a: Action)
    requires RecoveryOk(r) && Flagged(r.stored) && a.op == Close && !Flagged(Next(r, a).stored)
    ensures ClosesComplete(r, a)
  {
  }

  lemma ClearsOnlyComplete(r: Session, a: Action)
    requires RecoveryOk(r) && Flagged(r.stored) && !Flagged(Next(r, a).stored)
    ensures ClosesComplete(r, a)
  {
    if a.op == Open {
      OpenKeepsFlag(r, a);
      assert false;
    } else if a.op == Close {
      CloseIsComplete(r, a);
    }
  }

  /** Whatever is done and wherever it is cut short: the flag is cleared only by closing
      a session whose writer was opened after the index was deleted, and the index then
      holds every document that was added through that writer. */
  lemma {:induction false} FlagClearsOnlyComplete(r: Session, actions: seq<Action>) returns (k: nat)
    requires RecoveryOk(r) && Flagged(r.stored) && !Flagged(Exec(r, actions).stored)
    ensures k < |actions| && ClosesComplete(Exec(r, actions[..k]), actions[k])
    ensures Flagged(Exec(r, actions[..k]).stored)
    decreases |actions|
  {
    var r' := Next(r, actions[0]);
    NextOk(r, actions[0]);
    if Flagged(r'.stored) {
      var j := FlagClearsOnlyComplete(r', actions[1..]);
      k := j + 1;
      assert actions[..k][1..] == actions[1..][..j];
    } else {
      ClearsOnlyComplete(r, actions[0]);
      k := 0;
    }
  }

  /** What the operations of a session refuse, and when a commit happens. */
  lemma SessionAnswers(r: Session, es: seq<Event>, elapsed: bool)
    requires RecoveryOk(r)
    ensures OpenIndex(r).1 == (if !r.deleted then Failure(ReindexError)
                               else if r.writer.Some? then Failure(IndexLocked) else Success(()))
    ensures r.writer == None <==> IndexEvents(r, es).1 == Failure(IndexNotDeleted)
    ensures r.writer == None <==> CommitIndex(r, false, elapsed).1 == Failure(ReindexError)
    ensures r.writer == None <==> CommitAndClose(r).1 == Failure(ReindexError)
    ensures r.writer.Some? ==>
              var n, r' := |r.writer.value.pending|, CommitIndex(r, false, elapsed).0;
              && CommitIndex(r, false, elapsed).1 == Success(n >= 500 || (n > 0 && elapsed))
              && r'.stored.docs + r'.writer.value.pending == r.stored.docs + r.writer.value.pending
  {
  }

  // ----- Rebuilding in one go -----

  /** Everything stored since r0 kept its version and its flag, and an index that is a
      beginning of these documents; the first of it is the emptied index. */
  ghost predicate Rewritten(r0: Session, log: seq<Stored>, docs: seq<Doc>) {
    && |r0.log| < |log| && log[..|r0.log|] == r0.log
    && log[|r0.log|].docs == []
    && forall i | |r0.log| <= i < |log| :: log[i] == r0.stored.(docs := log[i].docs) && log[i].docs <= docs
  }

  /** The session is rebuilding and has added these events so far. */
  ghost predicate Rebuilding(r0: Session, r: Session, es: seq<Event>) {
    && r.writer.Some? && RecoveryOk(r) && r.writer.value.sent == DocsOf(es)
    && r.reindexed == r0.reindexed + |es|
    && r.stored == r0.stored.(docs := r.stored.docs)
    && Rewritten(r0, r.log, DocsOf(es))
  }

  lemma StartRebuild(r0: Session)
    ensures var (r, o) := OpenIndex(DeleteTheIndex(r0));
            o == Success(()) && Rebuilding(r0, r, [])
  {
  }

  lemma RebuildIndex(r0: Session, r: Session, es: seq<Event>, more: seq<Event>)
    requires Rebuilding(r0, r, es)
    ensures var (r', o) := IndexEvents(r, more);
            o == Success(()) && Rebuilding(r0, r', es + more)
  {
  }

  lemma CommitRewrites(r0: Session, r: Session, es: seq<Event>, force: bool, elapsed: bool)
    requires Rebuilding(r0, r, es)
    ensures var (r', o) := CommitIndex(r, force, elapsed);
            o.Success? && Rebuilding(r0, r', es) && (force ==> r'.stored.docs == DocsOf(es))
  {
  }

  /** What a completed rebuild leaves behind. */
  ghost predicate Rebuilt(r0: Session, r: Session, docs: seq<Doc>) {
    && r.stored == r0.stored.(reindexNeeded := Some(false), docs := docs)
    && |r.log| > 0 && r.log[|r.log| - 1] == r.stored
    && Rewritten(r0, r.log[..|r.log| - 1], docs)
  }

  lemma CloseRebuilds(r0: Session, r: Session, es: seq<Event>)
    requires Rebuilding(r0, r, es)
    ensures var (r', o) := CommitAndClose(r);
            o == Success(()) && Rebuilt(r0, r', DocsOf(es))
  {
  }

  // ----- A rebuild that is cut short -----

  function Perform(r: Session, ops: seq<Op>): Session
    decreases |ops|
  {
    if ops == [] then r else Apply(Perform(r, ops[..|ops| - 1]), ops[|ops| - 1])
  }

  function AddedBy(op: Op): seq<Event> {
    if op.Index? then op.events else []
  }

  function IndexedBy(ops: seq<Op>): seq<Event> {
    if ops == [] then [] else IndexedBy(ops[..|ops| - 1]) + AddedBy(ops[|ops| - 1])
  }

  /** Delete the index, open a writer, index and commit in any order, and close. */
  ghost predicate IsRebuild(ops: seq<Op>) {
    && |ops| >= 3 && ops[0] == Op.Delete && ops[1] == OpenWriter && ops[|ops| - 1] == Close
    && forall i | 2 <= i < |ops| - 1 :: ops[i].Index? || ops[i].Commit?
  }

  /** What is stored if operation k is cut short after some of its commits. */
  function CutAt(r0: Session, ops: seq<Op>, k: nat, commits: nat): Stored
    requires k < |ops|
  {
    Next(Perform(r0, ops[..k]), CrashIn(ops[k], commits)).stored
  }

  lemma PerformLast(r: Session, ops: seq<Op>)
    requires ops != []
    ensures var before, last := ops[..|ops| - 1], ops[|ops| - 1];
            && Perform(r, ops) == Apply(Perform(r, before), last)
            && (last.Index? ==> IndexedBy(ops) == IndexedBy(before) + last.events)
            && (!last.Index? ==> IndexedBy(ops) == IndexedBy(before))
  {
  }

  lemma RebuildingFirst(r0: Session, ops: seq<Op>)
    requires IsRebuild(ops)
    ensures Rebuilding(r0, Perform(r0, ops[..2]), IndexedBy(ops[..2]))
  {
    PerformLast(r0, ops[..1]);
    PerformLast(r0, ops[..2]);
    assert ops[..1][..0] == [] && ops[..2][..1] == ops[..1];
    StartRebuild(r0);
  }

  lemma {:induction false} RebuildingAt(r0: Session, ops: seq<Op>, k: nat)
    requires IsRebuild(ops) && 2 <= k < |ops|
    ensures Rebuilding(r0, Perform(r0, ops[..k]), IndexedBy(ops[..k]))
  {
    if k == 2 {
      RebuildingFirst(r0, ops);
    } else {
      PerformLast(r0, ops[..k]);
      assert ops[..k][..k - 1] == ops[..k - 1];
      RebuildingAt(r0, ops, k - 1);
      var r, es := Perform(r0, ops[..k - 1]), IndexedBy(ops[..k - 1]);
      if ops[k - 1].Index? {
        RebuildIndex(r0, r, es, ops[k - 1].events);
      } else {
        CommitRewrites(r0, r, es, false, ops[k - 1].elapsed);
      }
    }
  }

  lemma {:induction false} IndexedByGrows(ops: seq<Op>, k: nat)
    requires k <= |ops|
    ensures IndexedBy(ops[..k]) <= IndexedBy(ops)
    decreases |ops|
  {
    if k < |ops| {
      IndexedByGrows(ops[..|ops| - 1], k);
      assert ops[..|ops| - 1][..k] == ops[..k];
    } else {
      assert ops[..k] == ops;
    }
  }

  /** What one operation of a rebuild leaves, wherever it is cut short. */
  lemma CutRebuilding(r0: Session, r: Session, es: seq<Event>, op: Op, commits: nat)
    requires Rebuilding(r0, r, es) && (op.Index? || op.Commit? || op.Close?)
    ensures var s := Next(r, CrashIn(op, commits)).stored;
            || (s == r0.stored.(docs := s.docs) && s.docs <= DocsOf(es))
            || (op.Close? && s.docs == DocsOf(es))
  {
    if op.Commit? {
      CommitRewrites(r0, r, es, false, op.elapsed);
    } else if op.Close? {
      CommitRewrites(r0, r, es, true, false);
      CloseRebuilds(r0, r, es);
    }
  }

  lemma CutBeginning(r0: Session, ops: seq<Op>, k: nat, commits: nat)
    requires IsRebuild(ops) && k <= 1 && (k > 0 || commits > 0)
    ensures CutAt(r0, ops, k, commits) == r0.stored.(docs := [])
  {
    PerformLast(r0, ops[..1]);
    assert ops[..0] == [] && ops[..1][..0] == [];
  }

  /** Wherever a rebuild is cut short once it has begun, the store knows that its index
      is incomplete, exactly if the flag was set before (or there is nothing to index):
      the rebuild itself does not set it. */
  lemma RebuildCrashSafeIff(r0: Session, ops: seq<Op>)
    requires IsRebuild(ops)
    ensures var docs := DocsOf(IndexedBy(ops));
            && Rebuilt(r0, Perform(r0, ops), docs)
            && ((forall k, commits: nat | 0 <= k < |ops| && (k > 0 || commits > 0) ::
                   var s := CutAt(r0, ops, k, commits);
                   s.reindexNeeded == Some(true) || s.docs == docs)
                <==> (r0.stored.reindexNeeded == Some(true) || docs == []))
  {
    var docs, last := DocsOf(IndexedBy(ops)), |ops| - 1;
    RebuildingAt(r0, ops, last);
    CloseRebuilds(r0, Perform(r0, ops[..last]), IndexedBy(ops[..last]));
    PerformLast(r0, ops);
    CutBeginning(r0, ops, 0, 1);
    if r0.stored.reindexNeeded == Some(true) || docs == [] {
      forall k, commits: nat | 0 <= k < |ops| && (k > 0 || commits > 0)
        ensures CutAt(r0, ops, k, commits).reindexNeeded == Some(true) || CutAt(r0, ops, k, commits).docs == docs
      {
        CutIsSafe(r0, ops, k, commits);
      }
    }
  }

  lemma {:induction false} CutIsSafe(r0: Session, ops: seq<Op>, k: nat, commits: nat)
    requires IsRebuild(ops) && k < |ops| && (k > 0 || commits > 0)
    requires r0.stored.reindexNeeded == Some(true) || DocsOf(IndexedBy(ops)) == []
    ensures var s := CutAt(r0, ops, k, commits);
            s.reindexNeeded == Some(true) || s.docs == DocsOf(IndexedBy(ops))
  {
    if k <= 1 {
      CutBeginning(r0, ops, k, commits);
    } else {
      var es := IndexedBy(ops[..k]);
      RebuildingAt(r0, ops, k);
      CutRebuilding(r0, Perform(r0, ops[..k]), es, ops[k], commits);
      IndexedByGrows(ops, k);
      assert DocsOf(IndexedBy(ops)) == [] ==> DocsOf(es) == [];
      if k == |ops| - 1 {
        PerformLast(r0, ops);
      }
    }
  }
}
