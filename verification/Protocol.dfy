/**
 The writer thread as a state machine over two stores that commit separately.

 A state has a durable part, which survives a crash, and a volatile part, which
 does not. Every durable commit is appended to `log`, so the states a crash can
 leave behind while a message is handled are exactly the entries of the log.
 */
module Protocol {
  import opened Wrappers
  import opened Events
  import opened Sequences
  import opened Tables
  import opened Soundness

  const COMMIT_RATE: nat := 500

  /** The event store together with the committed documents of the index. */
  datatype Durable = Durable(tables: Tables, docs: seq<Doc>)

  datatype State = State(
    disk: Durable,
    log: seq<Durable>,
    pendingDocs: seq<Doc>,
    added: nat,
    queue: seq<Entry>,
    uncommitted: seq<int>,
    deletions: seq<EventId>,
    loaded: bool)

  datatype Message =
    | Add(event: Event, profile: Profile)
    | Write(force: bool)
    | Historic(
        newCheckpoint: Option<CrawlerCheckpoint>, oldCheckpoint: Option<CrawlerCheckpoint>,
        batch: seq<Entry>)
    | Delete(eventId: EventId)
    | ShutDown

  datatype Reply =
    | NoReply
    | Unit(outcome: Result<(), SqlError>)
    | Flag(answer: Result<bool, SqlError>)

  /** What the machine does not decide: whether enough time went by since the last
      index commit, and the order in which the two replay queries list their rows. */
  datatype Env = Env(elapsed: bool, uids: seq<int>, dids: seq<EventId>)

  /** A process that has just opened the stores. */
  function Fresh(d: Durable): State {
    State(d, [], [], 0, [], [], [], false)
  }

  function Persist(st: State, d: Durable): State {
    st.(disk := d, log := st.log + [d])
  }

  // ----- The index writer -----

  function AddDocs(st: State, docs: seq<Doc>): State {
    st.(pendingDocs := st.pendingDocs + docs, added := st.added + |docs|)
  }

  function IndexCommit(st: State): State {
    Persist(st, st.disk.(docs := st.disk.docs + st.pendingDocs)).(pendingDocs := [])
  }

  /** Commits only if something was added, and then at the rate limit or by force. */
  function CommitHelper(st: State, force: bool, elapsed: bool): (State, bool) {
    if st.added > 0 && (force || st.added >= COMMIT_RATE || elapsed) then
      (IndexCommit(st).(added := 0), true)
    else
      (st, false)
  }

  /** Deleting commits the index at once and leaves the counter alone. */
  function IndexDelete(st: State, eventId: EventId): State {
    Persist(st, st.disk.(docs := Without(st.disk.docs + st.pendingDocs, eventId))).(pendingDocs := [])
  }

  function IndexDeletes(st: State, ids: seq<EventId>): State
    decreases |ids|
  {
    if ids == [] then st else IndexDeletes(IndexDelete(st, ids[0]), ids[1..])
  }

  // ----- The operations of the database layer -----

  function MarkIndexed(st: State): State {
    if st.uncommitted == [] then st
    else
      var t := st.disk.tables;
      Persist(st, st.disk.(tables := t.(uncommitted := t.uncommitted - IdSet(st.uncommitted))))
        .(uncommitted := [])
  }

  function EventIdSet(ids: seq<EventId>): set<EventId> {
    set x | x in ids
  }

  function MarkDeleted(st: State): State {
    if st.deletions == [] then st
    else
      var t := st.disk.tables;
      Persist(st, st.disk.(tables := t.(pending := t.pending - EventIdSet(st.deletions))))
        .(deletions := [])
  }

  /** The transaction that stores a batch and replaces a checkpoint. */
  function StoreSaved(
    st: State, s: Saved,
    newCheckpoint: Option<CrawlerCheckpoint>, oldCheckpoint: Option<CrawlerCheckpoint>): State
  {
    var t := ReplaceCheckpoint(s.tables, newCheckpoint, oldCheckpoint);
    Persist(AddDocs(st, s.docs), st.disk.(tables := t)).(uncommitted := st.uncommitted + s.ids)
  }

  /** The rest of a write, once the batch was saved inside the transaction. */
  function FinishWrite(
    st: State, s: Saved,
    newCheckpoint: Option<CrawlerCheckpoint>, oldCheckpoint: Option<CrawlerCheckpoint>,
    force: bool, elapsed: bool)
    : (State, Result<(bool, bool), SqlError>)
  {
    match s.error
    case Some(err) => (AddDocs(st, s.docs), Failure(err))
    case None =>
      var st1 := StoreSaved(st, s, newCheckpoint, oldCheckpoint);
      var (st2, flushed) := CommitHelper(st1, force, elapsed);
      var committed := force || flushed;
      (if committed then MarkIndexed(st2) else st2, Success((s.allStored, committed)))
  }

  /** Answers whether all events were there before, and whether the index is
      considered committed; a forced commit counts as one even when it was skipped. */
  function WriteEvents(
    st: State, batch: seq<Entry>,
    newCheckpoint: Option<CrawlerCheckpoint>, oldCheckpoint: Option<CrawlerCheckpoint>,
    force: bool, elapsed: bool)
    : (State, Result<(bool, bool), SqlError>)
  {
    FinishWrite(st, SaveEvents(st.disk.tables, batch), newCheckpoint, oldCheckpoint, force, elapsed)
  }

  /** The deletions remembered in memory are settled once the index is committed. */
  function Settle(st: State, res: Result<(bool, bool), SqlError>): State {
    if res.Success? && res.value.1 then MarkDeleted(st) else st
  }

  function WriteQueued(st: State, force: bool, elapsed: bool): (State, Result<(), SqlError>) {
    var (st1, res) := WriteEvents(st, st.queue, None, None, force, elapsed);
    (Settle(st1.(queue := []), res), if res.Success? then Success(()) else Failure(res.error))
  }

  function WriteHistoric(
    st: State, newCheckpoint: Option<CrawlerCheckpoint>, oldCheckpoint: Option<CrawlerCheckpoint>,
    batch: seq<Entry>, elapsed: bool)
    : (State, Result<bool, SqlError>)
  {
    var (st1, res) := WriteEvents(st, batch, newCheckpoint, oldCheckpoint, true, elapsed);
    (Settle(st1, res),
     if res.Failure? then Failure(res.error)
     else Success(if batch == [] then false else res.value.0))
  }

  /** The first two durable steps of a deletion: the rows, then the documents. */
  function DeleteRows(st: State, t: Tables, eventId: EventId): State {
    var st1 := Persist(st, st.disk.(tables := t.(pending := t.pending + {eventId})));
    IndexDelete(st1, eventId).(deletions := st.deletions + [eventId])
  }

  function DeleteEvent(st: State, eventId: EventId, elapsed: bool): (State, Result<bool, SqlError>) {
    match DeleteEventsById(st.disk.tables, eventId)
    case Failure(err) => (st, Failure(err))
    case Success(t) =>
      var (st1, committed) := CommitHelper(DeleteRows(st, t, eventId), false, elapsed);
      (if committed then MarkDeleted(st1) else st1, Success(committed))
  }

  function ReplayDocs(t: Tables, uids: seq<int>): (docs: seq<Doc>)
    requires forall i | 0 <= i < |uids| ::
               uids[i] in t.uncommitted && t.uncommitted[uids[i]].eventRow in t.events
    ensures |docs| == |uids|
    ensures forall i | 0 <= i < |uids| :: docs[i] == ReplayDoc(t, uids[i])
  {
    seq(|uids|, i requires 0 <= i < |uids| => ReplayDoc(t, uids[i]))
  }

  /** uids and dids list the rows of the two replay queries, each once. */
  ghost predicate Lists(t: Tables, uids: seq<int>, dids: seq<EventId>) {
    && IdSet(uids) == JoinedUncommitted(t) && NoRepeat(uids)
    && EventIdSet(dids) == t.pending && NoRepeat(dids)
  }

  function ReplayUncommitted(st: State, uids: seq<int>): State
    requires IdSet(uids) == JoinedUncommitted(st.disk.tables)
  {
    assert forall i | 0 <= i < |uids| :: uids[i] in IdSet(uids) && uids[i] in JoinedUncommitted(st.disk.tables);
    AddDocs(st, ReplayDocs(st.disk.tables, uids)).(uncommitted := st.uncommitted + uids)
  }

  function LoadUnprocessed(st: State, uids: seq<int>, dids: seq<EventId>): State
    requires Lists(st.disk.tables, uids, dids)
  {
    IndexDeletes(ReplayUncommitted(st, uids), dids).(deletions := st.deletions + dids, loaded := true)
  }

  // ----- The message loop -----

  ghost predicate EnvFits(st: State, m: Message, env: Env) {
    m.Write? && !st.loaded ==> Lists(st.disk.tables, env.uids, env.dids)
  }

  function Handle(st: State, m: Message, env: Env): (State, Reply)
    requires EnvFits(st, m, env)
  {
    match m
    case Add(e, p) => (st.(queue := st.queue + [(e, p)]), NoReply)
    case Write(force) =>
      var st1 := if st.loaded then st else LoadUnprocessed(st, env.uids, env.dids);
      var (st2, res) := WriteQueued(st1, force, env.elapsed);
      (st2, Unit(res))
    case Historic(newCheckpoint, oldCheckpoint, batch) =>
      var (st1, res) := WriteHistoric(st, newCheckpoint, oldCheckpoint, batch, env.elapsed);
      (st1, Flag(res))
    case Delete(eventId) =>
      var (st1, res) := DeleteEvent(st, eventId, env.elapsed);
      (st1, Flag(res))
    case ShutDown => (Fresh(st.disk).(log := st.log), Unit(Success(())))
  }
}
