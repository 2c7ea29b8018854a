/** Any number of batches committing at once, step by step, against an explicit server.

    The server keeps versioned records and a lock table, and hands out timestamps. Its rules are
    the ones the store relies on: only keys in a transaction's buffer are conflict-checked, a
    locking read pins its key and reads the newest committed value, a plain read stays at the
    start timestamp, and a commit whose answer is lost may have landed. */
module TwoPhase {
  import opened Wrappers
  import opened Batches
  import opened Mvcc

  /** A lock names its transaction by start timestamp. Only a prewrite lock blocks readers. */
  datatype Lock = Lock(owner: nat, prewritten: bool)

  datatype Outcome =
    | Committed(at: Option<nat>)
    | Conflict
    | Fault

  datatype Phase =
    | Staging(checked: nat)       // this many preconditions hold so far
    | Prewriting                  // everything is buffered; prewrites are being sent
    | Committing(at: nat)         // the commit of the primary key is sent
    | Undetermined(at: nat)       // its answer was lost; the caller got an error
    | Cleaning(outcome: Outcome)  // failed before the commit point; rolling back
    | Done(outcome: Outcome)

  /** `buffer` is what the transaction will send: fixed by its mode and batch. */
  datatype Txn = Txn(mode: LockMode, batch: WriteBatch, buffer: Buffer, phase: Phase, pins: set<Key>, primary: Option<Key>)

  /** `records` is what the server has written. `log` and `history` are what is committed: the
      owner of each commit timestamp, and every record its commit stands for, which the server
      may still have to write on secondary keys. */
  datatype State = State(
    clock: nat,
    records: Records,
    locks: map<Key, Lock>,
    txns: map<nat, Txn>,
    log: map<nat, nat>,
    history: Records)

  const INIT: State := State(0, map[], map[], map[], map[], map[])

  datatype Step =
    | Tick                                     // a timestamp is handed to anyone else
    | Begin(mode: LockMode, batch: WriteBatch)
    | LockingRead(t: nat, forUpdate: nat)      // `get_for_update` of the next precondition
    | SnapshotRead(t: nat)                     // `get` of the next precondition
    | PinWrite(t: nat, key: Key, forUpdate: nat)
    | StartPrewrite(t: nat, primary: Key)
    | CommitNothing(t: nat)
    | Prewrite(t: nat, key: Key)
    | TakeCommitTs(t: nat)
    | CommitPrimary(t: nat)
    | CommitSecondary(t: nat, key: Key)
    | ReportCommitted(t: nat)
    | ReportUndetermined(t: nat)
    | Fail(t: nat, lostRace: bool)
    | ReleaseLock(t: nat, key: Key)
    | FinishRollback(t: nat)

  // ---- Views of a state ----

  ghost predicate FreeFor(s: State, key: Key, t: nat) {
    key in s.locks ==> s.locks[key].owner == t
  }

  ghost predicate HoldsPrewrite(s: State, t: nat, key: Key) {
    key in s.locks && s.locks[key] == Lock(t, true)
  }

  ghost predicate NoNewer(records: Records, key: Key, ts: nat) {
    forall slot :: slot in records && slot.key == key ==> slot.ts <= ts
  }

  /** The commit timestamp a transaction has taken, if any. */
  ghost function CommitTs(phase: Phase): Option<nat> {
    match phase
    case Committing(c) => Some(c)
    case Undetermined(c) => Some(c)
    case Done(Committed(at)) => at
    case _ => None
  }

  ghost predicate Failed(phase: Phase) {
    (phase.Cleaning? || phase.Done?) && !phase.outcome.Committed?
  }

  /** The transaction has its commit timestamp and its commit may still land. */
  ghost predicate InFlight(s: State, t: nat) {
    t in s.txns && (s.txns[t].phase.Committing? || s.txns[t].phase.Undetermined?) && s.txns[t].phase.at !in s.log
  }

  ghost predicate Staged(x: Txn) {
    x.phase.Staging? && x.phase.checked == |x.batch.preconditions|
  }

  /** The precondition to be checked next. */
  ghost predicate HasNext(x: Txn) {
    x.phase.Staging? && x.phase.checked < |x.batch.preconditions|
  }

  ghost function Next(x: Txn): Precondition
    requires HasNext(x)
  {
    x.batch.preconditions[x.phase.checked]
  }

  /** The transaction will change the value of the key, and not only lock it. */
  ghost predicate Changes(x: Txn, key: Key) {
    key in x.buffer && !x.buffer[key].LockOnly?
  }

  /** The key is prewritten by a transaction other than `t` that is to change it. A lock that
      changes nothing does not block. */
  ghost predicate BlocksReads(s: State, key: Key, t: nat) {
    && key in s.locks && s.locks[key].prewritten && s.locks[key].owner != t
    && (s.locks[key].owner in s.txns ==> Changes(s.txns[s.locks[key].owner], key))
  }

  /** A plain read of a key at `ts` waits for the blocking locks of older transactions. */
  ghost predicate Readable(s: State, key: Key, t: nat, ts: nat) {
    BlocksReads(s, key, t) ==> s.locks[key].owner > ts
  }

  ghost function WithPhase(s: State, t: nat, phase: Phase): State
    requires t in s.txns
  {
    s.(txns := s.txns[t := s.txns[t].(phase := phase)])
  }

  /** The byte comparison of one precondition: on to the next, or out with a conflict. */
  ghost function Judge(x: Txn, actual: Option<Value>): Phase
    requires HasNext(x)
  {
    if actual == Next(x).expected then Staging(x.phase.checked + 1) else Cleaning(Conflict)
  }

  /** The records a commit stands for. */
  ghost function RecordsOf(x: Txn, c: nat): Records {
    map key | key in x.buffer :: Slot(key, c) := x.buffer[key]
  }

  // ---- Steps ----

  ghost predicate Enabled(s: State, step: Step) {
    match step
    case Tick => true
    case Begin(_, _) => true
    case LockingRead(t, f) =>
      && t in s.txns && HasNext(s.txns[t]) && s.txns[t].mode.Pessimistic?
      && t <= f <= s.clock
      && FreeFor(s, Next(s.txns[t]).key, t) && NoNewer(s.records, Next(s.txns[t]).key, f)
    case SnapshotRead(t) =>
      && t in s.txns && HasNext(s.txns[t]) && !s.txns[t].mode.Pessimistic?
      && Readable(s, Next(s.txns[t]).key, t, t)
    case PinWrite(t, key, f) =>
      && t in s.txns && Staged(s.txns[t]) && s.txns[t].mode.Pessimistic?
      && key in s.txns[t].buffer
      && t <= f <= s.clock
      && FreeFor(s, key, t) && NoNewer(s.records, key, f)
    case StartPrewrite(t, primary) =>
      && t in s.txns && Staged(s.txns[t]) && primary in s.txns[t].buffer
    case CommitNothing(t) =>
      && t in s.txns && Staged(s.txns[t]) && s.txns[t].buffer == map[]
    case Prewrite(t, key) =>
      // A prewrite may still arrive after its transaction has failed.
      && t in s.txns && (s.txns[t].phase.Prewriting? || Failed(s.txns[t].phase)) && s.txns[t].primary.Some?
      && key in s.txns[t].buffer && FreeFor(s, key, t)
      && ((key in s.txns[t].pins && key in s.locks) || NoNewer(s.records, key, t))
    case TakeCommitTs(t) =>
      && t in s.txns && s.txns[t].phase.Prewriting?
      && forall key :: key in s.txns[t].buffer ==> HoldsPrewrite(s, t, key)
    case CommitPrimary(t) =>
      && InFlight(s, t) && s.txns[t].primary.Some? && s.txns[t].primary.value in s.txns[t].buffer
      && HoldsPrewrite(s, t, s.txns[t].primary.value)
    case CommitSecondary(t, key) =>
      && t in s.txns && CommitTs(s.txns[t].phase).Some? && CommitTs(s.txns[t].phase).value in s.log
      && key in s.txns[t].buffer && HoldsPrewrite(s, t, key)
    case ReportCommitted(t) =>
      && t in s.txns && s.txns[t].phase.Committing? && s.txns[t].phase.at in s.log
    case ReportUndetermined(t) =>
      && t in s.txns && s.txns[t].phase.Committing?
    case Fail(t, _) =>
      && t in s.txns
      && (s.txns[t].phase.Staging? || s.txns[t].phase.Prewriting? || (s.txns[t].phase.Committing? && InFlight(s, t)))
    case ReleaseLock(t, key) =>
      && t in s.txns && Failed(s.txns[t].phase) && key in s.locks && s.locks[key].owner == t
    case FinishRollback(t) =>
      && t in s.txns && s.txns[t].phase.Cleaning?
  }

  ghost function Do(s: State, step: Step): State
    requires Enabled(s, step)
  {
    match step
    case Tick => s.(clock := s.clock + 1)
    case Begin(mode, batch) =>
      s.(clock := s.clock + 1, txns := s.txns[s.clock + 1 := Txn(mode, batch, Buffered(mode, batch), Staging(0), {}, None)])
    case LockingRead(t, f) =>
      var x := s.txns[t];
      var key := Next(x).key;
      var phase := Judge(x, ValueAt(s.records, key, f));
      s.(locks := s.locks[key := Lock(t, false)], txns := s.txns[t := x.(phase := phase, pins := x.pins + {key})])
    case SnapshotRead(t) =>
      var x := s.txns[t];
      WithPhase(s, t, Judge(x, ValueAt(s.records, Next(x).key, t)))
    case PinWrite(t, key, _) =>
      var x := s.txns[t];
      s.(locks := s.locks[key := Lock(t, false)], txns := s.txns[t := x.(pins := x.pins + {key})])
    case StartPrewrite(t, primary) =>
      s.(txns := s.txns[t := s.txns[t].(phase := Prewriting, primary := Some(primary))])
    case CommitNothing(t) => WithPhase(s, t, Done(Committed(None)))
    case Prewrite(t, key) => s.(locks := s.locks[key := Lock(t, true)])
    case TakeCommitTs(t) => WithPhase(s, t, Committing(s.clock + 1)).(clock := s.clock + 1)
    case CommitPrimary(t) =>
      var x := s.txns[t];
      var c := x.phase.at;
      var key := x.primary.value;
      s.(records := s.records[Slot(key, c) := x.buffer[key]],
         locks := s.locks - {key},
         log := s.log[c := t],
         history := s.history + RecordsOf(x, c))
    case CommitSecondary(t, key) =>
      var x := s.txns[t];
      s.(records := s.records[Slot(key, CommitTs(x.phase).value) := x.buffer[key]],
         locks := s.locks - {key})
    case ReportCommitted(t) => WithPhase(s, t, Done(Committed(Some(s.txns[t].phase.at))))
    case ReportUndetermined(t) => WithPhase(s, t, Undetermined(s.txns[t].phase.at))
    case Fail(t, lostRace) => WithPhase(s, t, Cleaning(if lostRace then Conflict else Fault))
    case ReleaseLock(t, key) => s.(locks := s.locks - {key})
    case FinishRollback(t) => WithPhase(s, t, Done(s.txns[t].phase.outcome))
  }

  /** A run is a sequence of enabled steps; `After` is where it ends. */
  ghost predicate IsRun(s: State, steps: seq<Step>)
    decreases |steps|
  {
    steps == [] || (Enabled(s, steps[0]) && IsRun(Do(s, steps[0]), steps[1..]))
  }

  ghost function After(s: State, steps: seq<Step>): State
    requires IsRun(s, steps)
    decreases |steps|
  {
    if steps == [] then s else After(Do(s, steps[0]), steps[1..])
  }

  ghost predicate Reachable(s: State) {
    exists steps :: IsRun(INIT, steps) && s == After(INIT, steps)
  }
}
