/** What the protocol guarantees to the callers of `commit`. */
module Serializability {
  import opened Wrappers
  import opened Batches
  import opened Mvcc
  import opened TwoPhase
  import opened TwoPhaseInvariant
  import opened TwoPhaseSteps

  // ---- The serial execution ----

  /** The data after applying, one whole batch at a time and in commit order, every batch
      committed up to `ts`. */
  ghost function Replay(s: State, ts: nat): Data {
    var before := if ts == 0 then map[] else Replay(s, ts - 1);
    if ts in s.log && s.log[ts] in s.txns then Apply(s.txns[s.log[ts]].batch, before) else before
  }

  /** The committed history is that serial execution, at every timestamp and on every key. */
  lemma {:induction false} HistoryIsReplay(s: State, key: Key, ts: nat)
    requires LogOk(s) && HistoryOk(s) && BuffersOk(s) && ClocksOk(s)
    ensures Lookup(Replay(s, ts), key) == ValueAt(s.history, key, ts)
  {
    var before := if ts == 0 then map[] else Replay(s, ts - 1);
    if ts == 0 {
    } else {
      HistoryIsReplay(s, key, ts - 1);
    }
    if ts in s.log {
      var x := s.txns[s.log[ts]];
      BufferMeansBatch(x.mode, x.batch, before, key);
      assert Slot(key, ts) in s.history <==> key in x.buffer;
    } else {
      assert Slot(key, ts) !in s.history;
    }
  }

  lemma LoggedBatchIsApplied(s: State, c: nat)
    requires ClocksOk(s) && LogOk(s) && c in s.log
    ensures s.log[c] in s.txns && c > 0
    ensures Replay(s, c) == Apply(s.txns[s.log[c]].batch, Replay(s, c - 1))
  {
    assert CommitTs(s.txns[s.log[c]].phase) == Some(c);
  }

  lemma PreconditionHoldsOfReplay(s: State, c: nat, pre: Precondition)
    requires LogOk(s) && HistoryOk(s) && BuffersOk(s) && ClocksOk(s) && PreconditionAt(s, c, pre)
    ensures Holds(pre, Replay(s, c - 1))
  {
    HistoryIsReplay(s, pre.key, c - 1);
  }

  /** Main theorem. In every reachable state, whatever batches ran at once and in whatever
      modes, each batch committed in a safe mode has a single point, its commit timestamp, at
      which all its preconditions hold of the data that every earlier commit and no later one
      has produced. The data after that point is what its puts and then its deletes make. */
  lemma CommittedBatchesAreSerial(s: State, c: nat, pre: Precondition)
    requires Reachable(s) && c in s.log
    ensures s.log[c] in s.txns
    ensures c > 0 && Replay(s, c) == Apply(s.txns[s.log[c]].batch, Replay(s, c - 1))
    ensures IsSafe(s.txns[s.log[c]].mode) && pre in s.txns[s.log[c]].batch.preconditions ==>
            Holds(pre, Replay(s, c - 1))
  {
    ReachableKeeps(s);
    LoggedBatchIsApplied(s, c);
    var x := s.txns[s.log[c]];
    if IsSafe(x.mode) && pre in x.batch.preconditions {
      var i :| 0 <= i < |x.batch.preconditions| && x.batch.preconditions[i] == pre;
      assert PreconditionAt(s, c, pre);
      PreconditionHoldsOfReplay(s, c, pre);
    }
  }

  /** The server stores what the serial execution computes: on every key that no prewritten
      transaction is about to change, its newest value is the replayed one. */
  lemma StoreIsReplay(s: State, key: Key)
    requires Reachable(s)
    requires !BlocksReads(s, key, s.clock + 1)
    ensures ValueAt(s.records, key, s.clock) == Lookup(Replay(s, s.clock), key)
  {
    ReachableKeeps(s);
    HistoryIsReplay(s, key, s.clock);
    forall k | 0 <= k <= s.clock
      ensures Visible(s.records, Slot(key, k)) == Visible(s.history, Slot(key, k))
    {
      if Slot(key, k) in s.history && !s.history[Slot(key, k)].LockOnly? {
        assert Changes(s.txns[s.log[k]], key) && !HoldsPrewrite(s, s.log[k], key);
      }
    }
    assert AgreeUpTo(s.records, s.history, key, s.clock);
    ValueIsLocal(s.records, s.history, key, s.clock);
  }

  // ---- Outcomes ----

  /** `Committed` means committed: the batch is in the serial execution, at a timestamp above
      its start and not in the future. With nothing to commit, the batch is the identity and,
      in a safe mode, required nothing. */
  lemma ReportedCommitIsInTheLog(s: State, t: nat)
    requires Reachable(s) && t in s.txns && s.txns[t].phase.Done? && s.txns[t].phase.outcome.Committed?
    ensures match s.txns[t].phase.outcome.at
            case Some(c) => c in s.log && s.log[c] == t && t < c <= s.clock
            case None => && (forall data, key :: Lookup(Apply(s.txns[t].batch, data), key) == Lookup(data, key))
                         && (IsSafe(s.txns[t].mode) ==> s.txns[t].batch.preconditions == [])
  {
    ReachableKeeps(s);
    var x := s.txns[t];
    match x.phase.outcome.at
    case Some(c) =>
      assert SameCommitTs(x.phase, s.txns[s.log[c]].phase);
    case None =>
      forall data, key
        ensures Lookup(Apply(x.batch, data), key) == Lookup(data, key)
      {
        BufferMeansBatch(x.mode, x.batch, data, key);
      }
      if IsSafe(x.mode) && x.batch.preconditions != [] {
        RequiredKeysAreBuffered(x.mode, x.batch, 0);
      }
  }

  /** A transaction keeps its identity, and its failure, report or lost answer is final. */
  ghost predicate Continues(x: Txn, y: Txn) {
    && y.mode == x.mode && y.batch == x.batch && y.buffer == x.buffer
    && (Failed(x.phase) ==> Failed(y.phase))
    && (x.phase.Undetermined? || x.phase.Done? ==> y.phase == x.phase)
  }

  /** One state is a later one of the same run. */
  ghost predicate Extends(s: State, s': State) {
    && s.clock <= s'.clock
    && (forall t :: t in s.txns ==> t in s'.txns && Continues(s.txns[t], s'.txns[t]))
    && (forall t :: t in s'.txns && t !in s.txns ==> t > s.clock)
    && (forall c :: c in s.log ==> c in s'.log && s'.log[c] == s.log[c])
  }

  lemma TxnExtends(s: State, s': State, t: nat)
    requires t in s.txns && t in s'.txns && s'.txns == s.txns[t := s'.txns[t]]
    requires Continues(s.txns[t], s'.txns[t])
    requires s.clock <= s'.clock && s'.log == s.log
    ensures Extends(s, s')
  {
  }

  lemma StagingExtends(s: State, step: Step)
    requires ClocksOk(s) && Enabled(s, step)
    requires step.Tick? || step.Begin? || step.LockingRead? || step.SnapshotRead? || step.PinWrite?
    ensures Extends(s, Do(s, step))
  {
    if !step.Tick? && !step.Begin? {
      TxnExtends(s, Do(s, step), step.t);
    }
  }

  lemma CommitExtends(s: State, step: Step)
    requires Enabled(s, step)
    requires step.StartPrewrite? || step.CommitNothing? || step.TakeCommitTs? || step.ReportCommitted?
             || step.ReportUndetermined?
    ensures Extends(s, Do(s, step))
  {
    TxnExtends(s, Do(s, step), step.t);
  }

  lemma FailureExtends(s: State, step: Step)
    requires Enabled(s, step) && (step.Fail? || step.FinishRollback?)
    ensures Extends(s, Do(s, step))
  {
    TxnExtends(s, Do(s, step), step.t);
  }

  lemma ServerExtends(s: State, step: Step)
    requires Enabled(s, step)
    requires step.Prewrite? || step.CommitPrimary? || step.CommitSecondary? || step.ReleaseLock?
    ensures Extends(s, Do(s, step))
  {
    assert Do(s, step).txns == s.txns;
  }

  lemma StepExtends(s: State, step: Step)
    requires ClocksOk(s) && Enabled(s, step)
    ensures Extends(s, Do(s, step))
  {
    if step.Tick? || step.Begin? || step.LockingRead? || step.SnapshotRead? || step.PinWrite? {
      StagingExtends(s, step);
    } else if step.Fail? || step.FinishRollback? {
      FailureExtends(s, step);
    } else if step.Prewrite? || step.CommitPrimary? || step.CommitSecondary? || step.ReleaseLock? {
      ServerExtends(s, step);
    } else {
      CommitExtends(s, step);
    }
  }

  lemma ExtendsIsTransitive(a: State, b: State, c: State)
    requires Extends(a, b) && Extends(b, c)
    ensures Extends(a, c)
  {
  }

  lemma ExtendsItself(s: State)
    ensures Extends(s, s)
  {
  }

  lemma {:induction false} RunExtends(s: State, steps: seq<Step>)
    requires Inv(s) && IsRun(s, steps)
    ensures Extends(s, After(s, steps))
    decreases |steps|
  {
    if steps == [] {
      ExtendsItself(s);
    } else {
      var s1 := Do(s, steps[0]);
      StepExtends(s, steps[0]);
      StepKeeps(s, steps[0]);
      RunExtends(s1, steps[1..]);
      ExtendsIsTransitive(s, s1, After(s1, steps[1..]));
    }
  }

  /** A failed transaction stays failed. */
  lemma StaysFailed(s: State, t: nat, steps: seq<Step>)
    requires Reachable(s) && t in s.txns && Failed(s.txns[t].phase) && IsRun(s, steps)
    ensures Inv(After(s, steps))
    ensures t in After(s, steps).txns && Failed(After(s, steps).txns[t].phase)
  {
    ReachableKeeps(s);
    RunExtends(s, steps);
    RunKeeps(s, steps);
    assert Continues(s.txns[t], After(s, steps).txns[t]);
  }

  /** Nothing of a failed transaction is committed. */
  ghost predicate NothingCommitted(s: State, t: nat) {
    && (forall c :: c in s.log ==> s.log[c] != t)
    && (forall slot :: slot in s.records ==> slot.ts in s.log && s.log[slot.ts] != t)
  }

  lemma FailedMeansNothingCommitted(s: State, t: nat)
    requires LogOk(s) && HistoryOk(s) && RecordsOk(s) && t in s.txns && Failed(s.txns[t].phase)
    ensures NothingCommitted(s, t)
  {
    NotInLog(s, t);
    RecordsAreLogged(s, t);
  }

  /** `Conflict`, like every failure before the commit point, changes nothing: now or at any
      later time, no commit timestamp and no record belongs to the batch, so the serial
      execution is the same as if it had never been submitted. */
  lemma FailedBatchesChangeNothing(s: State, t: nat, steps: seq<Step>)
    requires Reachable(s) && t in s.txns && Failed(s.txns[t].phase) && IsRun(s, steps)
    ensures t in After(s, steps).txns && Failed(After(s, steps).txns[t].phase)
    ensures NothingCommitted(After(s, steps), t)
  {
    StaysFailed(s, t, steps);
    FailedMeansNothingCommitted(After(s, steps), t);
  }

  lemma RecordsAreLogged(s: State, t: nat)
    requires HistoryOk(s) && RecordsOk(s) && forall c :: c in s.log ==> s.log[c] != t
    ensures forall slot :: slot in s.records ==> slot.ts in s.log && s.log[slot.ts] != t
  {
    assert forall slot :: slot in s.records ==> slot in s.history;
  }

  /** A commit whose answer was lost lands wholly or not at all, and is never rolled back: each
      key of the batch is, at every later time, still locked for it or written by it. */
  lemma UndeterminedIsAllOrNothing(s: State, t: nat, steps: seq<Step>)
    requires Reachable(s) && t in s.txns && s.txns[t].phase.Undetermined? && IsRun(s, steps)
    ensures var s' := After(s, steps);
            var c := s.txns[t].phase.at;
            && t in s'.txns && s'.txns[t].phase == Undetermined(c)
            && (if c in s'.log
                then s'.log[c] == t && forall key :: key in s.txns[t].buffer ==>
                       Slot(key, c) in s'.history && s'.history[Slot(key, c)] == s.txns[t].buffer[key]
                else forall slot :: slot in s'.history ==> slot.ts != c)
            && forall key :: key in s.txns[t].buffer ==>
                 HoldsPrewrite(s', t, key) || Slot(key, c) in s'.records
  {
    ReachableKeeps(s);
    RunExtends(s, steps);
    RunKeeps(s, steps);
    var s' := After(s, steps);
    var c := s.txns[t].phase.at;
    assert CommitTs(s'.txns[t].phase) == Some(c);
    if c in s'.log {
      assert SameCommitTs(s'.txns[t].phase, s'.txns[s'.log[c]].phase);
      forall key | key in s.txns[t].buffer
        ensures HoldsPrewrite(s', t, key) || Slot(key, c) in s'.records
      {
        assert Slot(key, c) in s'.history;
      }
    } else {
      assert InFlight(s', t);
    }
  }

  /** Commit order respects real time: a batch submitted after another was reported committed
      also commits after it. */
  lemma CommitOrderFollowsRealTime(s: State, t: nat, c: nat, steps: seq<Step>, u: nat)
    requires Reachable(s) && t in s.txns && s.txns[t].phase == Done(Committed(Some(c))) && IsRun(s, steps)
    requires u in After(s, steps).txns && u !in s.txns && CommitTs(After(s, steps).txns[u].phase).Some?
    ensures c < CommitTs(After(s, steps).txns[u].phase).value
  {
    ReachableKeeps(s);
    RunExtends(s, steps);
    RunKeeps(s, steps);
    assert CommitTs(s.txns[t].phase) == Some(c);
  }

  // ---- Compare-and-set races ----

  /** A value that comes back was put back by some commit in between. */
  lemma {:induction false} TakesTheValueAgain(s: State, key: Key, e: Option<Value>, low: nat, high: nat) returns (c: nat)
    requires low < high && Lookup(Replay(s, low), key) != e && Lookup(Replay(s, high), key) == e
    ensures low < c <= high && c in s.log
    ensures Lookup(Replay(s, c), key) == e && Lookup(Replay(s, c - 1), key) != e
    decreases high
  {
    if Lookup(Replay(s, high - 1), key) == e {
      c := TakesTheValueAgain(s, key, e, low, high - 1);
    } else {
      c := high;
    }
  }

  /** Exactly one winner. Of two committed batches of safe modes that require the same value on
      a key, the first of which leaves another value there, the second commits only after a
      commit in between has given the key the required value again. */
  lemma OneWinnerPerValue(s: State, c1: nat, c2: nat, key: Key, e: Option<Value>) returns (c: nat)
    requires Reachable(s) && c1 in s.log && c2 in s.log && c1 < c2
    requires s.log[c1] in s.txns && s.log[c2] in s.txns
    requires IsSafe(s.txns[s.log[c1]].mode) && IsSafe(s.txns[s.log[c2]].mode)
    requires Precondition(key, e) in s.txns[s.log[c1]].batch.preconditions
    requires Precondition(key, e) in s.txns[s.log[c2]].batch.preconditions
    requires Lookup(Replay(s, c1), key) != e
    ensures c1 < c < c2 && c in s.log
    ensures Lookup(Replay(s, c), key) == e && Lookup(Replay(s, c - 1), key) != e
  {
    CommittedBatchesAreSerial(s, c1, Precondition(key, e));
    CommittedBatchesAreSerial(s, c2, Precondition(key, e));
    c := TakesTheValueAgain(s, key, e, c1, c2 - 1);
  }

  /** A winner that puts `v` over the required value is what is stored, until some later commit
      changes the key. */
  lemma {:induction false} WinnerIsStored(s: State, c: nat, now: nat, key: Key)
    requires LogOk(s) && HistoryOk(s) && BuffersOk(s) && ClocksOk(s)
    requires c in s.log && s.log[c] in s.txns && c <= now && key in s.txns[s.log[c]].buffer
    requires forall d :: c < d <= now && d in s.log && s.log[d] in s.txns ==>
               key !in s.txns[s.log[d]].buffer || s.txns[s.log[d]].buffer[key] == LockOnly
    ensures match s.txns[s.log[c]].buffer[key]
            case Put(v) => Lookup(Replay(s, now), key) == Some(v)
            case Delete => Lookup(Replay(s, now), key) == None
            case LockOnly => true
  {
    HistoryIsReplay(s, key, now);
    ValueStays(s, c, now, key);
  }

  lemma {:induction false} ValueStays(s: State, c: nat, now: nat, key: Key)
    requires LogOk(s) && HistoryOk(s) && c <= now
    requires forall d :: c < d <= now && d in s.log && s.log[d] in s.txns ==>
               key !in s.txns[s.log[d]].buffer || s.txns[s.log[d]].buffer[key] == LockOnly
    ensures ValueAt(s.history, key, now) == ValueAt(s.history, key, c)
    decreases now
  {
    if c == now {
    } else {
      ValueStays(s, c, now - 1, key);
    }
  }

  // ---- Readers ----

  /** The commits that may still land are those in flight before, or later than the clock. */
  lemma StepsCommitLater(s: State, step: Step, u: nat)
    requires Enabled(s, step) && InFlight(Do(s, step), u)
    ensures Do(s, step).txns[u].phase.at > s.clock
            || (InFlight(s, u) && s.txns[u].phase.at == Do(s, step).txns[u].phase.at
                && s.txns[u].buffer == Do(s, step).txns[u].buffer)
  {
    if step.TakeCommitTs? && step.t == u {
    } else if step.ReportUndetermined? && step.t == u {
    } else if step.CommitPrimary? {
    } else {
      assert u in s.txns && s.txns[u].phase == Do(s, step).txns[u].phase;
    }
  }

  lemma StepKeepsSnapshot(s: State, step: Step, key: Key, ts: nat)
    requires Inv(s) && Enabled(s, step) && SnapshotSettled(s, key, ts) && ts <= s.clock
    ensures SnapshotSettled(Do(s, step), key, ts) && ts <= Do(s, step).clock
    ensures ValueAt(Do(s, step).history, key, ts) == ValueAt(s.history, key, ts)
  {
    var s' := Do(s, step);
    forall u | InFlight(s', u) && Changes(s'.txns[u], key)
      ensures s'.txns[u].phase.at > ts
    {
      StepsCommitLater(s, step, u);
    }
    if step.CommitPrimary? {
      assert s'.history == Decided(s, step.t).history;
      DecidedIsLocal(s, step.t, key, ts);
    } else {
      assert s'.history == s.history;
    }
    StepExtends(s, step);
  }

  lemma {:induction false} RunKeepsSnapshot(s: State, steps: seq<Step>, key: Key, ts: nat)
    requires Inv(s) && IsRun(s, steps) && SnapshotSettled(s, key, ts) && ts <= s.clock
    ensures ValueAt(After(s, steps).history, key, ts) == ValueAt(s.history, key, ts)
    decreases |steps|
  {
    if steps == [] {
    } else {
      StepKeepsSnapshot(s, steps[0], key, ts);
      StepKeeps(s, steps[0]);
      RunKeepsSnapshot(Do(s, steps[0]), steps[1..], key, ts);
    }
  }

  /** A snapshot read, as `get` and `scan` make it, returns the data of the serial execution at
      its timestamp; whatever commits later, that is what the execution holds there for good. */
  lemma SnapshotsReadTheReplay(s: State, key: Key, ts: nat, steps: seq<Step>)
    requires Reachable(s) && IsRun(s, steps) && ts <= s.clock
    requires Readable(s, key, s.clock + 1, ts)
    ensures ValueAt(s.records, key, ts) == Lookup(Replay(After(s, steps), ts), key)
  {
    ReachableKeeps(s);
    var nobody := s.clock + 1;
    assert nobody !in s.txns;
    SnapshotReadIsStable(s, key, nobody, ts);
    RunKeepsSnapshot(s, steps, key, ts);
    RunKeeps(s, steps);
    HistoryIsReplay(After(s, steps), key, ts);
  }
}
