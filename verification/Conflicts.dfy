/** What the answer `Conflict` says of the data that a batch was checked against. */
module Conflicts {
  import opened Wrappers
  import opened Batches
  import opened ErrorMapping
  import opened Mvcc
  import opened TwoPhase
  import opened TwoPhaseInvariant
  import opened TwoPhaseSteps
  import opened Serializability
  import opened TransactionStore
  import opened TransactionRuns

  /** At `ts` the precondition is false of the serial execution, and no commit can change that. */
  ghost predicate IsFalseAt(s: State, pre: Precondition, ts: nat) {
    ts <= s.clock && SnapshotSettled(s, pre.key, ts) && !Holds(pre, Replay(s, ts))
  }

  lemma StepKeepsFalse(s: State, step: Step, pre: Precondition, ts: nat)
    requires Inv(s) && Enabled(s, step) && IsFalseAt(s, pre, ts)
    ensures IsFalseAt(Do(s, step), pre, ts)
  {
    StepKeepsSnapshot(s, step, pre.key, ts);
    StepKeeps(s, step);
    HistoryIsReplay(s, pre.key, ts);
    HistoryIsReplay(Do(s, step), pre.key, ts);
  }

  /** A mismatch of a locking read is real at the instant of the read. */
  lemma LockingMismatchIsReal(s: State, t: nat, f: nat)
    requires Inv(s) && Enabled(s, LockingRead(t, f))
    requires ValueAt(s.records, Next(s.txns[t]).key, f) != Next(s.txns[t]).expected
    ensures IsFalseAt(s, Next(s.txns[t]), s.clock)
  {
    var key := Next(s.txns[t]).key;
    LockingReadIsCurrent(s, t, f);
    HistoryIsReplay(s, key, s.clock);
    assert forall u :: InFlight(s, u) && key in s.txns[u].buffer ==> HoldsPrewrite(s, u, key);
  }

  /** A mismatch of a plain read is real at the start timestamp. */
  lemma SnapshotMismatchIsReal(s: State, t: nat)
    requires Inv(s) && Enabled(s, SnapshotRead(t))
    requires ValueAt(s.records, Next(s.txns[t]).key, t) != Next(s.txns[t]).expected
    ensures IsFalseAt(s, Next(s.txns[t]), t)
  {
    SnapshotReadIsStable(s, Next(s.txns[t]).key, t, t);
    HistoryIsReplay(s, Next(s.txns[t]).key, t);
  }

  /** Some precondition was false at an instant from `t` on. */
  ghost predicate SomeWasFalse(s: State, t: nat, pres: seq<Precondition>) {
    exists i, ts :: 0 <= i < |pres| && t <= ts && IsFalseAt(s, pres[i], ts)
  }

  lemma StepKeepsSomeFalse(s: State, step: Step, t: nat, pres: seq<Precondition>)
    requires Inv(s) && Enabled(s, step) && SomeWasFalse(s, t, pres)
    ensures SomeWasFalse(Do(s, step), t, pres)
  {
    var i, ts :| 0 <= i < |pres| && t <= ts && IsFalseAt(s, pres[i], ts);
    StepKeepsFalse(s, step, pres[i], ts);
  }

  /** The transaction has failed only if some precondition of the batch was false. */
  ghost predicate FailsForCause(call: Call, t: nat, s: State) {
    && t in s.txns && t <= s.clock && s.txns[t].batch == call.batch
    && (Failed(s.txns[t].phase) ==> SomeWasFalse(s, t, call.batch.preconditions))
  }

  lemma ReadFindsFalse(call: Call, t: nat, s: State, step: Step)
    requires Inv(s) && Enabled(s, step) && FailsForCause(call, t, s)
    requires (step.LockingRead? || step.SnapshotRead?) && step.t == t
    ensures FailsForCause(call, t, Do(s, step))
  {
    var x := s.txns[t];
    var pres := call.batch.preconditions;
    assert Next(x) == pres[x.phase.checked];
    var ts := if step.LockingRead? then s.clock else t;
    if Failed(Do(s, step).txns[t].phase) {
      if step.LockingRead? {
        LockingMismatchIsReal(s, t, step.forUpdate);
      } else {
        SnapshotMismatchIsReal(s, t);
      }
      assert IsFalseAt(s, pres[x.phase.checked], ts);
      StepKeepsSomeFalse(s, step, t, pres);
    }
  }

  lemma StepFindsFalse(call: Call, t: nat, s: State, step: Step)
    requires Inv(s) && Enabled(s, step) && FailsForCause(call, t, s) && Takes(call, t, s, step)
    requires IsCall(call) && call.staged == Result.Ok(false)
    ensures FailsForCause(call, t, Do(s, step))
  {
    StepKeepsBatch(t, s, step);
    if (step.LockingRead? || step.SnapshotRead?) && step.t == t {
      ReadFindsFalse(call, t, s, step);
    } else if Failed(s.txns[t].phase) {
      StepKeepsSomeFalse(s, step, t, call.batch.preconditions);
    } else {
      OnlyErrorsFail(call, t, s, step);
    }
  }

  lemma OnlyErrorsFail(call: Call, t: nat, s: State, step: Step)
    requires Enabled(s, step) && Takes(call, t, s, step) && t in s.txns && t <= s.clock && !Failed(s.txns[t].phase)
    requires !((step.LockingRead? || step.SnapshotRead?) && step.t == t)
    requires IsCall(call) && call.staged == Result.Ok(false)
    ensures !Failed(Do(s, step).txns[t].phase)
  {
    if Do(s, step).txns[t].phase != s.txns[t].phase {
      assert step.t == t;
    }
  }

  lemma {:induction false} PlayFindsFalse(call: Call, t: nat, s: State, steps: seq<Step>)
    requires Inv(s) && IsRun(s, steps) && FailsForCause(call, t, s) && Plays(call, t, s, steps)
    requires IsCall(call) && call.staged == Result.Ok(false)
    ensures FailsForCause(call, t, After(s, steps))
    decreases |steps|
  {
    if steps == [] {
    } else {
      StepFindsFalse(call, t, s, steps[0]);
      StepKeeps(s, steps[0]);
      PlayFindsFalse(call, t, Do(s, steps[0]), steps[1..]);
    }
  }

  lemma NoneHasFailedYet(call: Call, t: nat, s0: State, s1: State)
    requires Reachable(s0) && t == s0.clock + 1 && s1 == Do(s0, Begin(call.mode, call.batch))
    ensures Inv(s1) && FailsForCause(call, t, s1)
  {
    ReachableKeeps(s0);
    StepKeeps(s0, Begin(call.mode, call.batch));
  }

  lemma InStepFindsFalse(call: Call, t: nat, s0: State, s1: State, steps: seq<Step>, s: State)
    requires WereInStep(call, t, s0, s1, steps, s) && IsCall(call) && call.staged == Result.Ok(false)
    ensures FailsForCause(call, t, s)
  {
    NoneHasFailedYet(call, t, s0, s1);
    PlayFindsFalse(call, t, s1, steps);
  }

  lemma MismatchedCallsFindFalse(call: Call, t: nat, s: State)
    requires IsTransactionOf(call, t, s) && call.staged == Result.Ok(false)
    ensures FailsForCause(call, t, s)
  {
    var s0, s1, steps :| WereInStep(call, t, s0, s1, steps, s);
    InStepFindsFalse(call, t, s0, s1, steps, s);
  }

  /** Told `Conflict`, the caller knows one of two things: some precondition of its batch was false
      of the serial execution at an instant between its call and its answer, or the call lost a race
      for a key. */
  lemma ConflictMeansFalseOrLostRace(call: Call, t: nat, s: State, r: Result<CommitOutcome, Error>)
    requires IsTransactionOf(call, t, s) && Returns(call.staged, call.commitAck, r)
    requires r == Result.Ok(TransactionStore.Conflict)
    ensures || (exists i, ts :: 0 <= i < |call.batch.preconditions| && t <= ts && IsFalseAt(s, call.batch.preconditions[i], ts))
            || (call.staged.Err? && IsLostRace(call.staged.error))
            || (IsCommitFailure(call.commitAck) && IsLostRace(call.commitAck.value.error))
  {
    TransactionAgrees(call, t, s);
    AnswersFixThePhase(call, s.txns[t]);
    if call.staged == Result.Ok(false) {
      MismatchedCallsFindFalse(call, t, s);
    }
  }

  /** The second needs no false precondition: for every batch that requires nothing but absent keys
      there is a call that is answered with a lost race, and so told `Conflict`, on an empty store,
      where all its preconditions hold at every instant. */
  lemma LostRaceNeedsNoFalsePrecondition(mode: LockMode, batch: WriteBatch) returns (call: Call, s: State)
    requires forall pre :: pre in batch.preconditions ==> pre.expected == None
    ensures call.mode == mode && call.batch == batch && IsTransactionOf(call, 1, s)
    ensures Returns(call.staged, call.commitAck, Result.Ok(TransactionStore.Conflict))
    ensures forall pre, ts :: pre in batch.preconditions ==> Holds(pre, Replay(s, ts))
  {
    var begin := Begin(mode, batch);
    var s1 := Do(INIT, begin);
    var steps := [Fail(1, true)];
    assert steps[1..] == [];
    assert IsRun(INIT, []) && After(INIT, []) == INIT;
    assert IsRun(Do(s1, Fail(1, true)), []);
    s := After(s1, steps);
    call := EveryTransactionIsACalls(INIT, mode, batch, steps);
    LostRaceIsToldConflict(call, s);
    forall pre, ts | pre in batch.preconditions
      ensures Holds(pre, Replay(s, ts))
    {
      NothingReplayed(s, ts);
    }
  }

  lemma LostRaceIsToldConflict(call: Call, s: State)
    requires IsTransactionOf(call, 1, s) && s.txns[1].phase == Cleaning(TwoPhase.Conflict)
    ensures Returns(call.staged, call.commitAck, Result.Ok(TransactionStore.Conflict))
  {
    TransactionAgrees(call, 1, s);
    AnswersFixThePhase(call, s.txns[1]);
  }

  lemma {:induction false} NothingReplayed(s: State, ts: nat)
    requires s.log == map[]
    ensures Replay(s, ts) == map[]
  {
    if ts == 0 {
    } else {
      NothingReplayed(s, ts - 1);
    }
  }
}
