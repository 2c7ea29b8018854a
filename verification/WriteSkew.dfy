/** Runs that exist: the anomaly of the unsafe mode, and a commit in each safe mode. */
module WriteSkew {
  import opened Wrappers
  import opened Batches
  import opened Mvcc
  import opened TwoPhase
  import opened Serializability

  const A: Key := [97]
  const B: Key := [98]
  const V: Value := [1]

  /** Require `read` to be absent, and put `write`. */
  ghost function Guarding(read: Key, write: Key): WriteBatch {
    WriteBatch([Precondition(read, None)], [(write, V)], [])
  }

  lemma GuardingBuffer(mode: LockMode, read: Key, write: Key)
    requires read != write
    ensures Buffered(mode, Guarding(read, write)) ==
            if IsSafe(mode) then map[read := LockOnly, write := Put(V)] else map[write := Put(V)]
  {
    var batch := Guarding(read, write);
    assert batch.preconditions[1..] == [] && batch.puts[1..] == [];
    var none: Buffer := map[];
    assert BufferLocks(none, batch.preconditions) == BufferLocks(none[read := LockOnly], batch.preconditions[1..]);
    var locks := LockSet(mode, batch.preconditions);
    assert locks == if IsSafe(mode) then map[read := LockOnly] else map[];
    assert BufferPuts(locks, batch.puts) == locks[write := Put(V)];
  }

  lemma {:induction false} RunThenStep(s: State, steps: seq<Step>, step: Step)
    requires IsRun(s, steps) && Enabled(After(s, steps), step)
    ensures IsRun(s, steps + [step]) && After(s, steps + [step]) == Do(After(s, steps), step)
    decreases |steps|
  {
    var longer := steps + [step];
    if steps == [] {
      assert longer[1..] == [];
    } else {
      assert longer[1..] == steps[1..] + [step];
      RunThenStep(Do(s, steps[0]), steps[1..], step);
    }
  }

  lemma Reach(s: State, step: Step) returns (s': State)
    requires Reachable(s) && Enabled(s, step)
    ensures s' == Do(s, step) && Reachable(s')
  {
    s' := Do(s, step);
    var steps :| IsRun(INIT, steps) && s == After(INIT, steps);
    RunThenStep(INIT, steps, step);
  }

  lemma StartIsReachable()
    ensures Reachable(INIT)
  {
    assert IsRun(INIT, []) && After(INIT, []) == INIT;
  }

  /** Write skew. Two batches in the unsafe mode each require the key that the other puts to be
      absent, and they are the only commits. Both are reported committed, although the second one
      finds its precondition false at its commit point, and although in neither order could both
      have met theirs: no serial execution explains this state. */
  lemma UnsafeModeBreaksSerializability() returns (s: State)
    ensures Reachable(s)
    ensures s.log == map[3 := 1, 4 := 2]
    ensures 1 in s.txns && s.txns[1].batch == Guarding(A, B) && s.txns[1].phase == Done(Committed(Some(3)))
    ensures 2 in s.txns && s.txns[2].batch == Guarding(B, A) && s.txns[2].phase == Done(Committed(Some(4)))
    ensures Precondition(B, None) in s.txns[2].batch.preconditions && !Holds(Precondition(B, None), Replay(s, 3))
    ensures !Holds(Precondition(B, None), Apply(Guarding(A, B), map[]))
    ensures !Holds(Precondition(A, None), Apply(Guarding(B, A), map[]))
  {
    KeysDiffer();
    s := BothRead();
    s := CommitAlone(s, 1, B);
    s := CommitAlone(s, 2, A);
    ApplyGuarding(A, B);
    ApplyGuarding(B, A);
    FirstCommitReplayed(s);
  }

  lemma FirstCommitReplayed(s: State)
    requires s.log == map[3 := 1, 4 := 2] && 1 in s.txns && s.txns[1].batch == Guarding(A, B)
    ensures Replay(s, 3) == map[B := V]
  {
    assert Replay(s, 0) == map[];
    assert Replay(s, 1) == map[];
    assert Replay(s, 2) == map[];
    ApplyGuarding(A, B);
  }

  lemma BothRead() returns (s: State)
    ensures Reachable(s)
    ensures s == State(2, map[], map[],
                       map[1 := Txn(OptimisticUnlocked, Guarding(A, B), map[B := Put(V)], Staging(1), {}, None),
                           2 := Txn(OptimisticUnlocked, Guarding(B, A), map[A := Put(V)], Staging(1), {}, None)],
                       map[], map[])
  {
    GuardingBuffer(OptimisticUnlocked, A, B);
    GuardingBuffer(OptimisticUnlocked, B, A);
    KeysDiffer();
    StartIsReachable();
    s := Reach(INIT, Begin(OptimisticUnlocked, Guarding(A, B)));
    s := Reach(s, SnapshotRead(1));
    s := Reach(s, Begin(OptimisticUnlocked, Guarding(B, A)));
    assert ValueAt(s.records, B, 2) == ValueAt(s.records, B, 1) == None;
    s := Reach(s, SnapshotRead(2));
  }

  lemma ApplyGuarding(read: Key, write: Key)
    ensures Apply(Guarding(read, write), map[]) == map[write := V]
  {
    var batch := Guarding(read, write);
    assert batch.puts[1..] == [];
    assert PutAll(map[], batch.puts) == map[write := V];
  }

  lemma PrewriteAlone(start: State, t: nat, key: Key) returns (s: State)
    requires Reachable(start) && t in start.txns && Staged(start.txns[t])
    requires start.txns[t].buffer == map[key := Put(V)]
    requires key !in start.locks && (forall slot :: slot in start.records ==> slot.key != key)
    ensures Reachable(s)
    ensures s == start.(locks := start.locks[key := Lock(t, true)],
                        txns := start.txns[t := start.txns[t].(phase := Prewriting, primary := Some(key))])
  {
    s := Reach(start, StartPrewrite(t, key));
    s := Reach(s, Prewrite(t, key));
  }

  /** The two-phase commit of a staged transaction with one key to send, undisturbed. */
  lemma CommitAlone(start: State, t: nat, key: Key) returns (s: State)
    requires Reachable(start) && t in start.txns && Staged(start.txns[t])
    requires start.txns[t].buffer == map[key := Put(V)]
    requires key !in start.locks && (forall slot :: slot in start.records ==> slot.key != key)
    requires start.clock + 1 !in start.log
    ensures Reachable(s) && OneCommitLater(start, s, t, key)
  {
    s := PrewriteAlone(start, t, key);
    assert HoldsPrewrite(s, t, key);
    s := Reach(s, TakeCommitTs(t));
    s := FinishAlone(s, t, key);
    assert s.locks == start.locks;
  }

  lemma FinishAlone(start: State, t: nat, key: Key) returns (s: State)
    requires Reachable(start) && InFlight(start, t) && start.txns[t].buffer == map[key := Put(V)]
    requires start.txns[t].primary == Some(key) && start.txns[t].phase.Committing? && HoldsPrewrite(start, t, key)
    ensures Reachable(s)
    ensures var c := start.txns[t].phase.at;
            && s.clock == start.clock && s.locks == start.locks - {key}
            && s.records == start.records[Slot(key, c) := Put(V)] && s.log == start.log[c := t]
            && s.txns == start.txns[t := start.txns[t].(phase := Done(Committed(Some(c))))]
  {
    var s1 := Reach(start, CommitPrimary(t));
    s := Reach(s1, ReportCommitted(t));
  }

  /** What one undisturbed commit leaves. */
  ghost predicate OneCommitLater(start: State, s: State, t: nat, key: Key)
    requires t in start.txns
  {
    && s.clock == start.clock + 1 && s.locks == start.locks
    && s.records == start.records[Slot(key, s.clock) := Put(V)]
    && s.log == start.log[s.clock := t]
    && s.txns.Keys == start.txns.Keys
    && (forall u :: u in s.txns && u != t ==> s.txns[u] == start.txns[u])
    && s.txns[t].phase == Done(Committed(Some(s.clock))) && s.txns[t].batch == start.txns[t].batch
  }

  // The states of one undisturbed commit in a safe mode that requires A and puts B.

  const BUFFER: Buffer := map[A := LockOnly, B := Put(V)]

  ghost function Alone(mode: LockMode, phase: Phase, pins: set<Key>, primary: Option<Key>): map<nat, Txn> {
    map[1 := Txn(mode, Guarding(A, B), BUFFER, phase, pins, primary)]
  }

  lemma KeysDiffer()
    ensures A != B
  {
    assert A[0] != B[0];
  }

  /** What staging leaves: a pinned key in the pessimistic mode, no lock yet in the optimistic. */
  ghost function Pins(mode: LockMode): set<Key> {
    if mode.Pessimistic? then {A} else {}
  }

  ghost function StagedLocks(mode: LockMode): map<Key, Lock> {
    if mode.Pessimistic? then map[A := Lock(1, false)] else map[]
  }

  lemma SafeStages(mode: LockMode) returns (s: State)
    requires IsSafe(mode)
    ensures Reachable(s)
    ensures s == State(1, map[], StagedLocks(mode), Alone(mode, Staging(1), Pins(mode), None), map[], map[])
  {
    KeysDiffer();
    GuardingBuffer(mode, A, B);
    StartIsReachable();
    s := Reach(INIT, Begin(mode, Guarding(A, B)));
    assert s.txns == Alone(mode, Staging(0), {}, None);
    assert ValueAt(s.records, A, 1) == None;
    if mode.Pessimistic? {
      var none: set<Key> := {};
      assert none + {A} == {A};
      s := Reach(s, LockingRead(1, 1));
    } else {
      s := Reach(s, SnapshotRead(1));
    }
    assert s.txns == Alone(mode, Staging(1), Pins(mode), None);
  }

  lemma SafePrewrites(mode: LockMode, start: State) returns (s: State)
    requires Reachable(start) && IsSafe(mode)
    requires start == State(1, map[], StagedLocks(mode), Alone(mode, Staging(1), Pins(mode), None), map[], map[])
    ensures Reachable(s)
    ensures s == State(1, map[], map[A := Lock(1, true), B := Lock(1, true)],
                       Alone(mode, Prewriting, Pins(mode), Some(B)), map[], map[])
  {
    KeysDiffer();
    s := Reach(start, StartPrewrite(1, B));
    assert s.txns == Alone(mode, Prewriting, Pins(mode), Some(B));
    s := Reach(s, Prewrite(1, A));
    s := Reach(s, Prewrite(1, B));
    assert s.locks == map[A := Lock(1, true), B := Lock(1, true)];
  }

  lemma SafeDecides(mode: LockMode, start: State) returns (s: State)
    requires Reachable(start)
    requires start == State(1, map[], map[A := Lock(1, true), B := Lock(1, true)],
                            Alone(mode, Prewriting, Pins(mode), Some(B)), map[], map[])
    ensures Reachable(s) && s.clock == 2 && s.log == map[2 := 1]
    ensures s.records == map[Slot(B, 2) := Put(V)] && s.locks == map[A := Lock(1, true)]
    ensures s.txns == Alone(mode, Committing(2), Pins(mode), Some(B))
  {
    KeysDiffer();
    s := Reach(start, TakeCommitTs(1));
    assert s.txns == Alone(mode, Committing(2), Pins(mode), Some(B));
    s := Reach(s, CommitPrimary(1));
    assert s.locks == map[A := Lock(1, true)];
  }

  /** The safe modes do commit, each of them: a batch that requires one key and puts another runs
      to `Committed`, leaving a lock record on the required key. */
  lemma SafeModesCommit(mode: LockMode) returns (s: State)
    requires IsSafe(mode)
    ensures Reachable(s)
    ensures s.txns == Alone(mode, Done(Committed(Some(2))), Pins(mode), Some(B)) && s.locks == map[] && s.log == map[2 := 1]
    ensures s.records == map[Slot(A, 2) := LockOnly, Slot(B, 2) := Put(V)]
  {
    KeysDiffer();
    s := SafeStages(mode);
    s := SafePrewrites(mode, s);
    s := SafeDecides(mode, s);
    s := Reach(s, ReportCommitted(1));
    assert s.txns == Alone(mode, Done(Committed(Some(2))), Pins(mode), Some(B));
    assert HoldsPrewrite(s, 1, A);
    s := Reach(s, CommitSecondary(1, A));
    assert s.locks == map[];
  }
}
