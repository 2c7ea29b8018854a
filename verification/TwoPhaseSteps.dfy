/** Each step of the commit protocol keeps the invariant, and so does every run. */
module TwoPhaseSteps {
  import opened Wrappers
  import opened Batches
  import opened Mvcc
  import opened TwoPhase
  import opened TwoPhaseInvariant

  /** A transaction without a commit timestamp has no commit in the log. */
  lemma NotInLog(s: State, t: nat)
    requires LogOk(s) && t in s.txns && (CommitTs(s.txns[t].phase).None? || InFlight(s, t))
    ensures forall c :: c in s.log ==> s.log[c] != t
  {
  }

  lemma BeginKeeps(s: State, mode: LockMode, batch: WriteBatch)
    requires Inv(s)
    ensures Inv(Do(s, Begin(mode, batch)))
  {
    var s1 := s.(clock := s.clock + 1);
    var t := s1.clock;
    var x := Txn(mode, batch, Buffered(mode, batch), Staging(0), {}, None);
    ClockMoves(s);
    assert t !in s.txns;
    WithTxnKeeps(s1, t, x);
    assert Do(s, Begin(mode, batch)) == WithTxn(s1, t, x);
  }

  /** The locking read sees the newest committed value, and from then on nothing else can
      commit on the key. */
  lemma LockingReadIsCurrent(s: State, t: nat, f: nat)
    requires Inv(s) && Enabled(s, LockingRead(t, f))
    ensures ValueAt(s.records, Next(s.txns[t]).key, f) == ValueAt(s.history, Next(s.txns[t]).key, s.clock)
  {
    var key := Next(s.txns[t]).key;
    NotInLog(s, t);
    FreeKeyIsSettled(s, key, t, f);
    assert NoneBetween(s.history, key, f, s.clock);
    ValueCarries(s.history, key, f, s.clock);
  }

  /** A pessimistic lock is taken. */
  lemma PinKeeps(s: State, t: nat, key: Key)
    requires Inv(s) && t in s.txns && s.txns[t].phase.Staging? && FreeFor(s, key, t)
    ensures Inv(s.(locks := s.locks[key := Lock(t, false)]))
  {
    NotInLog(s, t);
    WithLockKeeps(s, t, key, Some(Lock(t, false)));
    assert s.(locks := s.locks[key := Lock(t, false)]) == WithLock(s, key, Some(Lock(t, false)));
  }

  /** The preconditions already checked stay guarded while a transaction goes on staging. */
  lemma StagedGuardsStay(s: State, t: nat, y: Txn, i: nat)
    requires GuardsOk(s) && t in s.txns && s.txns[t].phase.Staging? && y.phase.Staging?
    requires y.mode == s.txns[t].mode && y.batch == s.txns[t].batch && s.txns[t].pins <= y.pins
    requires i < Checked(s.txns[t]) && i < |y.batch.preconditions|
    ensures Guarded(WithTxn(s, t, y), t, y.batch.preconditions[i])
  {
    var s' := WithTxn(s, t, y);
    assert Undecided(s, t) && Guarded(s, t, s.txns[t].batch.preconditions[i]);
    assert forall u :: InFlight(s', u) ==> InFlight(s, u);
    GuardSurvives(s, s', t, y.batch.preconditions[i]);
  }

  /** All of them, and the next one if it has just been checked. */
  lemma StagingGuards(s: State, t: nat, y: Txn)
    requires GuardsOk(s) && t in s.txns && s.txns[t].phase.Staging? && y.phase.Staging?
    requires y.mode == s.txns[t].mode && y.batch == s.txns[t].batch && s.txns[t].pins <= y.pins
    requires Checked(y) <= Checked(s.txns[t])
             || (HasNext(s.txns[t]) && Checked(y) == Checked(s.txns[t]) + 1
                 && Guarded(WithTxn(s, t, y), t, Next(s.txns[t])))
    ensures GuardsItsChecks(s, t, y)
  {
    forall i | 0 <= i < Checked(y) && i < |y.batch.preconditions|
      ensures Guarded(WithTxn(s, t, y), t, y.batch.preconditions[i])
    {
      if i < Checked(s.txns[t]) {
        StagedGuardsStay(s, t, y, i);
      }
    }
  }

  /** Pins and judgement of a pessimistic transaction change together. */
  lemma PinnedTxnKeeps(s: State, t: nat, key: Key, phase: Phase)
    requires Inv(s) && t in s.txns && s.txns[t].phase.Staging? && s.txns[t].mode.Pessimistic?
    requires key in s.locks && s.locks[key].owner == t
    requires phase == s.txns[t].phase || phase == Cleaning(Conflict)
             || (HasNext(s.txns[t]) && phase == Staging(s.txns[t].phase.checked + 1)
                 && key == Next(s.txns[t]).key && ValueAt(s.history, key, s.clock) == Next(s.txns[t]).expected)
    ensures Inv(WithTxn(s, t, s.txns[t].(phase := phase, pins := s.txns[t].pins + {key})))
  {
    var y := s.txns[t].(phase := phase, pins := s.txns[t].pins + {key});
    PinnedTxnFits(s, t, key, y);
    if phase.Staging? {
      StagingGuards(s, t, y);
    }
    WithTxnKeeps(s, t, y);
  }

  lemma PinnedTxnFits(s: State, t: nat, key: Key, y: Txn)
    requires ServerOk(s) && BuffersOk(s) && t in s.txns && s.txns[t].phase.Staging? && s.txns[t].mode.Pessimistic?
    requires key in s.locks && s.locks[key].owner == t
    requires y == s.txns[t].(phase := y.phase, pins := s.txns[t].pins + {key})
    requires y.phase == s.txns[t].phase || y.phase == Cleaning(Conflict)
             || (HasNext(s.txns[t]) && y.phase == Staging(s.txns[t].phase.checked + 1))
    ensures SameIdentity(s, t, y) && FitsLog(s, t, y) && HoldsItsLocks(s, t, y)
  {
    NotInLog(s, t);
    assert Undecided(s, t);
  }

  lemma LockingReadKeeps(s: State, t: nat, f: nat)
    requires Inv(s) && Enabled(s, LockingRead(t, f))
    ensures Inv(Do(s, LockingRead(t, f)))
  {
    var x := s.txns[t];
    var key := Next(x).key;
    var phase := Judge(x, ValueAt(s.records, key, f));
    var s1 := s.(locks := s.locks[key := Lock(t, false)]);
    LockingReadIsCurrent(s, t, f);
    PinKeeps(s, t, key);
    PinnedTxnKeeps(s1, t, key, phase);
    assert Do(s, LockingRead(t, f)) == WithTxn(s1, t, x.(phase := phase, pins := x.pins + {key}));
  }

  lemma PinWriteKeeps(s: State, t: nat, key: Key, f: nat)
    requires Inv(s) && Enabled(s, PinWrite(t, key, f))
    ensures Inv(Do(s, PinWrite(t, key, f)))
  {
    var x := s.txns[t];
    var s1 := s.(locks := s.locks[key := Lock(t, false)]);
    PinKeeps(s, t, key);
    PinnedTxnKeeps(s1, t, key, x.phase);
    assert Do(s, PinWrite(t, key, f)) == WithTxn(s1, t, x.(phase := x.phase, pins := x.pins + {key}));
  }

  /** A plain read at `ts` that no lock blocks sees the committed history, and no commit can
      still change the key at or below `ts`. */
  lemma SnapshotReadIsStable(s: State, key: Key, t: nat, ts: nat)
    requires ServerOk(s) && Readable(s, key, t, ts)
    requires t in s.txns ==> s.txns[t].phase.Staging?
    ensures ValueAt(s.records, key, ts) == ValueAt(s.history, key, ts)
    ensures SnapshotSettled(s, key, ts)
  {
    forall k | 0 <= k <= ts
      ensures Visible(s.records, Slot(key, k)) == Visible(s.history, Slot(key, k))
    {
      if Slot(key, k) in s.history && !s.history[Slot(key, k)].LockOnly? {
        var u := s.log[k];
        assert CommitTs(s.txns[u].phase) == Some(k);
        assert Changes(s.txns[u], key) && !HoldsPrewrite(s, u, key);
      }
    }
    assert AgreeUpTo(s.records, s.history, key, ts);
    ValueIsLocal(s.records, s.history, key, ts);
    forall u | InFlight(s, u) && Changes(s.txns[u], key)
      ensures s.txns[u].phase.at > ts
    {
      assert HoldsPrewrite(s, u, key);
      assert CommitTs(s.txns[u].phase) == Some(s.txns[u].phase.at);
    }
  }

  lemma SnapshotReadGuardsNext(s: State, t: nat, y: Txn)
    requires ServerOk(s) && Enabled(s, SnapshotRead(t))
    requires y.mode == s.txns[t].mode && y.phase.Staging?
    requires ValueAt(s.records, Next(s.txns[t]).key, t) == Next(s.txns[t]).expected
    ensures Guarded(WithTxn(s, t, y), t, Next(s.txns[t]))
  {
    var pre := Next(s.txns[t]);
    SnapshotReadIsStable(s, pre.key, t, t);
    assert !HoldsPrewrite(s, t, pre.key);
    var s' := WithTxn(s, t, y);
    assert forall u :: InFlight(s', u) ==> InFlight(s, u) && u != t;
  }

  lemma SnapshotReadKeeps(s: State, t: nat)
    requires Inv(s) && Enabled(s, SnapshotRead(t))
    ensures Inv(Do(s, SnapshotRead(t)))
  {
    var y := s.txns[t].(phase := Judge(s.txns[t], ValueAt(s.records, Next(s.txns[t]).key, t)));
    NotInLog(s, t);
    if y.phase.Staging? {
      SnapshotReadGuardsNext(s, t, y);
      StagingGuards(s, t, y);
    }
    WithTxnKeeps(s, t, y);
  }

  /** A new label for a transaction, with the same claims or fewer. */
  lemma RelabelKeeps(s: State, t: nat, y: Txn)
    requires Inv(s) && t in s.txns && SameIdentity(s, t, y) && FitsLog(s, t, y)
    requires y.pins == s.txns[t].pins
    requires Undecided(WithTxn(s, t, y), t) ==> Undecided(s, t) && Checked(y) <= Checked(s.txns[t])
    requires InFlight(WithTxn(s, t, y), t) ==> InFlight(s, t) && y.phase.at == s.txns[t].phase.at
    ensures Inv(WithTxn(s, t, y))
  {
    var s' := WithTxn(s, t, y);
    if Undecided(s', t) {
      forall i | 0 <= i < Checked(y) && i < |y.batch.preconditions|
        ensures Guarded(s', t, y.batch.preconditions[i])
      {
        assert Guarded(s, t, s.txns[t].batch.preconditions[i]);
        assert forall u :: InFlight(s', u) ==> InFlight(s, u);
        GuardSurvives(s, s', t, y.batch.preconditions[i]);
      }
    }
    WithTxnKeeps(s, t, y);
  }

  lemma StartPrewriteKeeps(s: State, t: nat, primary: Key)
    requires Inv(s) && Enabled(s, StartPrewrite(t, primary))
    ensures Inv(Do(s, StartPrewrite(t, primary)))
  {
    NotInLog(s, t);
    RelabelKeeps(s, t, s.txns[t].(phase := Prewriting, primary := Some(primary)));
  }

  lemma CommitNothingKeeps(s: State, t: nat)
    requires Inv(s) && Enabled(s, CommitNothing(t))
    ensures Inv(Do(s, CommitNothing(t)))
  {
    NotInLog(s, t);
    RelabelKeeps(s, t, s.txns[t].(phase := Done(Committed(None))));
  }

  lemma PrewriteKeeps(s: State, t: nat, key: Key)
    requires Inv(s) && Enabled(s, Prewrite(t, key))
    ensures Inv(Do(s, Prewrite(t, key)))
  {
    NotInLog(s, t);
    FreeKeyIsSettled(s, key, t, t);
    WithLockKeeps(s, t, key, Some(Lock(t, true)));
    assert Do(s, Prewrite(t, key)) == WithLock(s, key, Some(Lock(t, true)));
  }

  lemma TakeCommitTsKeeps(s: State, t: nat)
    requires Inv(s) && Enabled(s, TakeCommitTs(t))
    ensures Inv(Do(s, TakeCommitTs(t)))
  {
    var s1 := s.(clock := s.clock + 1);
    var y := s.txns[t].(phase := Committing(s1.clock));
    ClockMoves(s);
    NotInLog(s, t);
    TakenTsKeeps(s1, t, y);
    assert Do(s, TakeCommitTs(t)) == WithTxn(s1, t, y);
  }

  lemma TakenTsKeeps(s: State, t: nat, y: Txn)
    requires Inv(s) && t in s.txns && s.txns[t].phase.Prewriting?
    requires forall key :: key in s.txns[t].buffer ==> HoldsPrewrite(s, t, key)
    requires y == s.txns[t].(phase := Committing(s.clock))
    requires forall u :: u in s.txns ==>
               u < s.clock && (CommitTs(s.txns[u].phase).Some? ==> CommitTs(s.txns[u].phase).value < s.clock)
    ensures Inv(WithTxn(s, t, y))
  {
    NotInLog(s, t);
    assert FitsLog(s, t, y);
    HistoryIsBehind(s);
    TakenTsGuards(s, t, y);
    WithTxnKeeps(s, t, y);
  }

  lemma HistoryIsBehind(s: State)
    requires LogOk(s) && HistoryOk(s)
    requires forall u :: u in s.txns && CommitTs(s.txns[u].phase).Some? ==> CommitTs(s.txns[u].phase).value < s.clock
    ensures forall key :: AllOlder(s.history, key, s.clock)
  {
    assert forall c :: c in s.log ==> CommitTs(s.txns[s.log[c]].phase) == Some(c);
  }

  lemma TakenTsGuards(s: State, t: nat, y: Txn)
    requires GuardsOk(s) && t in s.txns && s.txns[t].phase.Prewriting?
    requires y == s.txns[t].(phase := Committing(s.clock)) && t < s.clock
    ensures GuardsItsChecks(s, t, y)
  {
    var s' := WithTxn(s, t, y);
    forall i | 0 <= i < Checked(y) && i < |y.batch.preconditions|
      ensures Guarded(s', t, y.batch.preconditions[i])
    {
      assert Undecided(s, t) && Guarded(s, t, s.txns[t].batch.preconditions[i]);
      assert forall u :: u != t && InFlight(s', u) ==> InFlight(s, u);
      GuardSurvives(s, s', t, y.batch.preconditions[i]);
    }
  }

  lemma CommitPrimaryKeeps(s: State, t: nat)
    requires Inv(s) && Enabled(s, CommitPrimary(t))
    ensures Inv(Do(s, CommitPrimary(t)))
  {
    var s1 := Decided(s, t);
    var key, c := s.txns[t].primary.value, s.txns[t].phase.at;
    DecidedKeeps(s, t);
    assert HoldsPrewrite(s1, t, key);
    WrittenKeeps(s1, t, key, c);
    assert Do(s, CommitPrimary(t)) == Written(s1, t, key, c);
  }

  lemma CommitSecondaryKeeps(s: State, t: nat, key: Key)
    requires Inv(s) && Enabled(s, CommitSecondary(t, key))
    ensures Inv(Do(s, CommitSecondary(t, key)))
  {
    var c := CommitTs(s.txns[t].phase).value;
    assert SameCommitTs(s.txns[t].phase, s.txns[s.log[c]].phase);
    WrittenKeeps(s, t, key, c);
  }

  lemma ReportCommittedKeeps(s: State, t: nat)
    requires Inv(s) && Enabled(s, ReportCommitted(t))
    ensures Inv(Do(s, ReportCommitted(t)))
  {
    var y := s.txns[t].(phase := Done(Committed(Some(s.txns[t].phase.at))));
    assert CommitTs(s.txns[t].phase) == CommitTs(y.phase);
    SameTsFits(s, t, y);
    RelabelKeeps(s, t, y);
  }

  lemma ReportUndeterminedKeeps(s: State, t: nat)
    requires Inv(s) && Enabled(s, ReportUndetermined(t))
    ensures Inv(Do(s, ReportUndetermined(t)))
  {
    var y := s.txns[t].(phase := Undetermined(s.txns[t].phase.at));
    assert CommitTs(s.txns[t].phase) == CommitTs(y.phase);
    SameTsFits(s, t, y);
    RelabelKeeps(s, t, y);
  }

  lemma SameTsFits(s: State, t: nat, y: Txn)
    requires ClocksOk(s) && LogOk(s) && t in s.txns && CommitTs(y.phase) == CommitTs(s.txns[t].phase)
    requires y.phase.Done? && CommitTs(y.phase).Some? ==> CommitTs(y.phase).value in s.log
    ensures FitsLog(s, t, y)
  {
    forall u | u in s.txns && SameCommitTs(s.txns[u].phase, y.phase)
      ensures u == t
    {
      assert SameCommitTs(s.txns[u].phase, s.txns[t].phase);
    }
  }

  lemma FailKeeps(s: State, t: nat, lostRace: bool)
    requires Inv(s) && Enabled(s, Fail(t, lostRace))
    ensures Inv(Do(s, Fail(t, lostRace)))
  {
    NotInLog(s, t);
    RelabelKeeps(s, t, s.txns[t].(phase := Cleaning(if lostRace then Conflict else Fault)));
  }

  lemma ReleaseLockKeeps(s: State, t: nat, key: Key)
    requires Inv(s) && Enabled(s, ReleaseLock(t, key))
    ensures Inv(Do(s, ReleaseLock(t, key)))
  {
    NotInLog(s, t);
    WithLockKeeps(s, t, key, None);
    assert Do(s, ReleaseLock(t, key)) == WithLock(s, key, None);
  }

  lemma FinishRollbackKeeps(s: State, t: nat)
    requires Inv(s) && Enabled(s, FinishRollback(t))
    ensures Inv(Do(s, FinishRollback(t)))
  {
    NotInLog(s, t);
    RelabelKeeps(s, t, s.txns[t].(phase := Done(s.txns[t].phase.outcome)));
  }

  lemma StartStepKeeps(s: State, step: Step)
    requires Inv(s) && Enabled(s, step) && (step.Tick? || step.Begin?)
    ensures Inv(Do(s, step))
  {
    match step
    case Tick => ClockMoves(s);
    case Begin(mode, batch) => BeginKeeps(s, mode, batch);
  }

  lemma ReadStepKeeps(s: State, step: Step)
    requires Inv(s) && Enabled(s, step) && (step.LockingRead? || step.SnapshotRead? || step.PinWrite?)
    ensures Inv(Do(s, step))
  {
    match step
    case LockingRead(t, f) => LockingReadKeeps(s, t, f);
    case SnapshotRead(t) => SnapshotReadKeeps(s, t);
    case PinWrite(t, key, f) => PinWriteKeeps(s, t, key, f);
  }

  lemma PrewriteStepKeeps(s: State, step: Step)
    requires Inv(s) && Enabled(s, step) && (step.StartPrewrite? || step.CommitNothing? || step.Prewrite?)
    ensures Inv(Do(s, step))
  {
    match step
    case StartPrewrite(t, primary) => StartPrewriteKeeps(s, t, primary);
    case CommitNothing(t) => CommitNothingKeeps(s, t);
    case Prewrite(t, key) => PrewriteKeeps(s, t, key);
  }

  lemma CommitStepKeeps(s: State, step: Step)
    requires Inv(s) && Enabled(s, step) && (step.TakeCommitTs? || step.CommitPrimary? || step.CommitSecondary?)
    ensures Inv(Do(s, step))
  {
    match step
    case TakeCommitTs(t) => TakeCommitTsKeeps(s, t);
    case CommitPrimary(t) => CommitPrimaryKeeps(s, t);
    case CommitSecondary(t, key) => CommitSecondaryKeeps(s, t, key);
  }

  lemma ReportStepKeeps(s: State, step: Step)
    requires Inv(s) && Enabled(s, step) && (step.ReportCommitted? || step.ReportUndetermined?)
    ensures Inv(Do(s, step))
  {
    match step
    case ReportCommitted(t) => ReportCommittedKeeps(s, t);
    case ReportUndetermined(t) => ReportUndeterminedKeeps(s, t);
  }

  lemma RollbackStepKeeps(s: State, step: Step)
    requires Inv(s) && Enabled(s, step) && (step.Fail? || step.ReleaseLock? || step.FinishRollback?)
    ensures Inv(Do(s, step))
  {
    match step
    case Fail(t, lostRace) => FailKeeps(s, t, lostRace);
    case ReleaseLock(t, key) => ReleaseLockKeeps(s, t, key);
    case FinishRollback(t) => FinishRollbackKeeps(s, t);
  }

  /** Every step keeps the invariant, whichever transaction takes it and in whatever mode. */
  lemma StepKeeps(s: State, step: Step)
    requires Inv(s) && Enabled(s, step)
    ensures Inv(Do(s, step))
  {
    if step.Tick? || step.Begin? {
      StartStepKeeps(s, step);
    } else if step.LockingRead? || step.SnapshotRead? || step.PinWrite? {
      ReadStepKeeps(s, step);
    } else if step.ReportCommitted? || step.ReportUndetermined? {
      ReportStepKeeps(s, step);
    } else if step.Fail? || step.ReleaseLock? || step.FinishRollback? {
      RollbackStepKeeps(s, step);
    } else if step.StartPrewrite? || step.CommitNothing? || step.Prewrite? {
      PrewriteStepKeeps(s, step);
    } else {
      CommitStepKeeps(s, step);
    }
  }

  lemma {:induction false} RunKeeps(s: State, steps: seq<Step>)
    requires Inv(s) && IsRun(s, steps)
    ensures Inv(After(s, steps))
    decreases |steps|
  {
    if steps == [] {
    } else {
      StepKeeps(s, steps[0]);
      RunKeeps(Do(s, steps[0]), steps[1..]);
    }
  }

  lemma ReachableKeeps(s: State)
    requires Reachable(s)
    ensures Inv(s)
  {
    var steps :| IsRun(INIT, steps) && s == After(INIT, steps);
    InitHolds();
    RunKeeps(INIT, steps);
  }
}
