/** A call of `commit` as a run of the protocol, and what its answer tells the caller. */
module TransactionRuns {
  import opened Wrappers
  import opened Batches
  import opened ErrorMapping
  import opened Mvcc
  import opened TwoPhase
  import opened TwoPhaseInvariant
  import opened TwoPhaseSteps
  import opened Serializability
  import opened TransactionStore

  // ---- The steps that a call takes ----

  /** The call's next read was answered, with this value. */
  ghost predicate IsAnswered(call: Call, x: Txn, actual: Option<Value>)
    requires HasNext(x)
  {
    && call.cluster.read(ReadCall(call.mode, x.phase.checked), Next(x).key) == Result.Ok(actual)
    && (call.mode.OptimisticLocked? ==> call.cluster.ack(2 * x.phase.checked).Ok?)
  }

  ghost predicate IsLostAnswer(ack: Option<Result<(), Error>>) {
    ack.Some? && ack.value.Err? && ack.value.error.UndeterminedError?
  }

  ghost predicate IsCommitFailure(ack: Option<Result<(), Error>>) {
    ack.Some? && ack.value.Err? && !ack.value.error.UndeterminedError?
  }

  /** The call met an error in this phase: while staging, or in answer to its commit. */
  ghost predicate MeetsError(call: Call, phase: Phase, lostRace: bool) {
    || (phase.Staging? && call.staged.Err? && IsLostRace(call.staged.error) == lostRace)
    || (IsCommitFailure(call.commitAck) && IsLostRace(call.commitAck.value.error) == lostRace)
  }

  /** A step of transaction `t` is one of the call's: what it reads is what the call was
      answered, it prewrites when the call commits, and it ends as the call's commit was
      answered. The steps of other transactions are anyone's. */
  ghost predicate Takes(call: Call, t: nat, s: State, step: Step)
    requires Enabled(s, step)
  {
    match step
    case LockingRead(u, f) => u == t ==> IsAnswered(call, s.txns[t], ValueAt(s.records, Next(s.txns[t]).key, f))
    case SnapshotRead(u) => u == t ==> IsAnswered(call, s.txns[t], ValueAt(s.records, Next(s.txns[t]).key, t))
    case StartPrewrite(u, _) => u == t ==> call.commitAck.Some?
    case CommitNothing(u) => u == t ==> call.commitAck == Some(Result.Ok(()))
    case ReportCommitted(u) => u == t ==> call.commitAck == Some(Result.Ok(()))
    case ReportUndetermined(u) => u == t ==> IsLostAnswer(call.commitAck)
    case Fail(u, lostRace) => u == t ==> MeetsError(call, s.txns[t].phase, lostRace)
    case _ => true
  }

  ghost predicate Plays(call: Call, t: nat, s: State, steps: seq<Step>)
    decreases |steps|
  {
    steps == [] || (Enabled(s, steps[0]) && Takes(call, t, s, steps[0]) && Plays(call, t, Do(s, steps[0]), steps[1..]))
  }

  lemma {:induction false} PlayIsRun(call: Call, t: nat, s: State, steps: seq<Step>)
    requires Plays(call, t, s, steps)
    ensures IsRun(s, steps)
    decreases |steps|
  {
    if steps == [] {
    } else {
      PlayIsRun(call, t, Do(s, steps[0]), steps[1..]);
    }
  }

  // ---- The phase follows the answers ----

  /** The first `count` reads matched, and no lock before them was refused. */
  ghost predicate Matched(call: Call, count: nat)
    requires count <= |call.batch.preconditions|
  {
    && AllRead(call.cluster, call.mode, call.batch.preconditions[..count])
    && (call.mode.OptimisticLocked? ==> forall i :: 0 <= i < count ==> call.cluster.ack(2 * i).Ok?)
  }

  ghost predicate MismatchAt(call: Call, i: nat) {
    && i < |call.batch.preconditions| && Matched(call, i)
    && (call.mode.OptimisticLocked? ==> call.cluster.ack(2 * i).Ok?)
    && var answer := call.cluster.read(ReadCall(call.mode, i), call.batch.preconditions[i].key);
       answer.Ok? && answer.value != call.batch.preconditions[i].expected
  }

  ghost function OutcomeOf(e: Error): Outcome {
    if IsLostRace(e) then TwoPhase.Conflict else Fault
  }

  /** Why the transaction failed, in terms of the answers. */
  ghost predicate FailedFor(call: Call, outcome: Outcome) {
    || (outcome == TwoPhase.Conflict && exists i :: MismatchAt(call, i))
    || (call.staged.Err? && outcome == OutcomeOf(call.staged.error))
    || (IsCommitFailure(call.commitAck) && outcome == OutcomeOf(call.commitAck.value.error))
  }

  ghost predicate Agrees(call: Call, x: Txn) {
    && x.mode == call.mode && x.batch == call.batch
    && match x.phase
       case Staging(count) => count <= |call.batch.preconditions| && Matched(call, count)
       case Prewriting => call.commitAck.Some?
       case Committing(_) => call.commitAck.Some?
       case Undetermined(_) => IsLostAnswer(call.commitAck)
       case Cleaning(outcome) => !outcome.Committed? && FailedFor(call, outcome)
       case Done(outcome) =>
         if outcome.Committed? then call.commitAck == Some(Result.Ok(())) else FailedFor(call, outcome)
  }

  lemma JudgeAgrees(call: Call, x: Txn, actual: Option<Value>, y: Txn)
    requires Agrees(call, x) && HasNext(x) && IsAnswered(call, x, actual)
    requires y.mode == x.mode && y.batch == x.batch && y.phase == Judge(x, actual)
    ensures Agrees(call, y)
  {
    var i := x.phase.checked;
    var pres := call.batch.preconditions;
    if actual == Next(x).expected {
      assert forall j :: 0 <= j < i ==> pres[..i + 1][j] == pres[..i][j];
    } else {
      assert MismatchAt(call, i);
    }
  }

  lemma StepAgrees(call: Call, t: nat, s: State, step: Step)
    requires Enabled(s, step) && Takes(call, t, s, step)
    requires t in s.txns && t <= s.clock && Agrees(call, s.txns[t])
    ensures t in Do(s, step).txns && t <= Do(s, step).clock && Agrees(call, Do(s, step).txns[t])
  {
    var y := Do(s, step).txns[t];
    if step.LockingRead? && step.t == t {
      JudgeAgrees(call, s.txns[t], ValueAt(s.records, Next(s.txns[t]).key, step.forUpdate), y);
    } else if step.SnapshotRead? && step.t == t {
      JudgeAgrees(call, s.txns[t], ValueAt(s.records, Next(s.txns[t]).key, t), y);
    } else if y.phase != s.txns[t].phase {
      PhaseStepAgrees(call, t, s, step);
    }
  }

  lemma PhaseStepAgrees(call: Call, t: nat, s: State, step: Step)
    requires Enabled(s, step) && Takes(call, t, s, step) && !step.LockingRead? && !step.SnapshotRead?
    requires t in s.txns && t <= s.clock && Agrees(call, s.txns[t]) && Do(s, step).txns[t].phase != s.txns[t].phase
    ensures Agrees(call, Do(s, step).txns[t])
  {
  }

  lemma {:induction false} PlayAgrees(call: Call, t: nat, s: State, steps: seq<Step>)
    requires Plays(call, t, s, steps) && IsRun(s, steps)
    requires t in s.txns && t <= s.clock && Agrees(call, s.txns[t])
    ensures t in After(s, steps).txns && Agrees(call, After(s, steps).txns[t])
    decreases |steps|
  {
    if steps == [] {
    } else {
      StepAgrees(call, t, s, steps[0]);
      PlayAgrees(call, t, Do(s, steps[0]), steps[1..]);
    }
  }

  // ---- What the caller is told ----

  /** The transaction is through: committed, failed, or of unknown outcome. */
  ghost predicate IsOver(phase: Phase) {
    phase.Undetermined? || phase.Cleaning? || phase.Done?
  }

  /** A read that did not match is the first thing the call comes upon. */
  lemma MismatchMeansConflict(call: Call, i: nat)
    requires IsCall(call) && MismatchAt(call, i)
    ensures call.staged == Result.Ok(false)
  {
    var pres := call.batch.preconditions;
    assert forall j :: 0 <= j < i ==> pres[..i][j] == pres[j];
    forall k | i < k <= |pres|
      ensures !AllRead(call.cluster, call.mode, pres[..k])
    {
      assert pres[..k][i] == pres[i];
    }
    assert pres[..|pres|] == pres;
  }

  /** The phase at the end is the one that the call's answers stand for, as far as the caller
      can tell: committed, failed and why, or unknown. */
  lemma AnswersFixThePhase(call: Call, x: Txn)
    requires IsCall(call) && Agrees(call, x) && IsOver(x.phase)
    ensures var phase := PhaseOf(call.staged, call.commitAck, 0);
            && (Failed(x.phase) <==> Failed(phase))
            && (Failed(x.phase) ==> x.phase.outcome == phase.outcome)
            && (x.phase.Undetermined? <==> phase.Undetermined?)
  {
    if Failed(x.phase) && exists i :: MismatchAt(call, i) {
      var i :| MismatchAt(call, i);
      MismatchMeansConflict(call, i);
    }
  }

  /** From a reachable state on, transaction `t` began for the call's batch, and the two were in
      step until now. */
  ghost predicate WereInStep(call: Call, t: nat, s0: State, s1: State, steps: seq<Step>, s: State) {
    && Reachable(s0) && t == s0.clock + 1 && s1 == Do(s0, Begin(call.mode, call.batch))
    && Plays(call, t, s1, steps) && IsRun(s1, steps) && s == After(s1, steps)
  }

  /** Transaction `t` of a reachable state is the call's, and it is through. */
  ghost predicate IsTransactionOf(call: Call, t: nat, s: State) {
    && IsCall(call)
    && t in s.txns && IsOver(s.txns[t].phase)
    && exists s0, s1, steps :: WereInStep(call, t, s0, s1, steps, s)
  }

  lemma TransactionAgrees(call: Call, t: nat, s: State)
    requires IsTransactionOf(call, t, s)
    ensures Reachable(s) && Agrees(call, s.txns[t])
  {
    var s0, s1, steps :| WereInStep(call, t, s0, s1, steps, s);
    var begin := Begin(call.mode, call.batch);
    PlayAgrees(call, t, s1, steps);
    var before :| IsRun(INIT, before) && s0 == After(INIT, before);
    RunsJoin(INIT, before, [begin] + steps);
  }

  lemma {:induction false} RunsJoin(s: State, a: seq<Step>, b: seq<Step>)
    requires IsRun(s, a) && IsRun(After(s, a), b)
    ensures IsRun(s, a + b) && After(s, a + b) == After(After(s, a), b)
    decreases |a|
  {
    if a == [] {
      assert a + b == b;
    } else {
      assert (a + b)[1..] == a[1..] + b;
      RunsJoin(Do(s, a[0]), a[1..], b);
    }
  }

  /** The batch took effect at `c`: there all its preconditions held of the serial execution, and
      all its puts and then its deletes are what comes next. */
  ghost predicate TakesEffect(call: Call, t: nat, s: State, c: nat) {
    && c in s.log && s.log[c] == t && c > 0
    && Replay(s, c) == Apply(call.batch, Replay(s, c - 1))
    && (IsSafe(call.mode) ==> forall pre :: pre in call.batch.preconditions ==> Holds(pre, Replay(s, c - 1)))
  }

  lemma LoggedTakesEffect(call: Call, t: nat, s: State, c: nat)
    requires Reachable(s) && c in s.log && s.log[c] == t
    requires t in s.txns && s.txns[t].mode == call.mode && s.txns[t].batch == call.batch
    ensures TakesEffect(call, t, s, c)
  {
    ReachableKeeps(s);
    LoggedBatchIsApplied(s, c);
    forall pre | IsSafe(call.mode) && pre in call.batch.preconditions
      ensures Holds(pre, Replay(s, c - 1))
    {
      CommittedBatchesAreSerial(s, c, pre);
    }
  }

  /** Told `Committed`, the caller knows that its batch took effect at an instant between its
      call and its answer; a batch with nothing to send changes nothing and, in a safe mode,
      required nothing. */
  lemma CommittedMeansItTookEffect(call: Call, t: nat, s: State, r: Result<CommitOutcome, Error>)
    requires IsTransactionOf(call, t, s) && Returns(call.staged, call.commitAck, r)
    requires r == Result.Ok(TransactionStore.Committed)
    ensures || (exists c :: t < c <= s.clock && TakesEffect(call, t, s, c))
            || ((forall data, key :: Lookup(Apply(call.batch, data), key) == Lookup(data, key))
                && (IsSafe(call.mode) ==> call.batch.preconditions == []))
  {
    TransactionAgrees(call, t, s);
    AnswersFixThePhase(call, s.txns[t]);
    ReportedCommitIsInTheLog(s, t);
    if s.txns[t].phase.outcome.at.Some? {
      LoggedTakesEffect(call, t, s, s.txns[t].phase.outcome.at.value);
    }
  }

  /** Told `Conflict`, or an error other than that the answer to the commit was lost, the caller
      knows that nothing was written, and that nothing ever will be. */
  lemma FailureMeansNothingIsWritten(call: Call, t: nat, s: State, r: Result<CommitOutcome, Error>, more: seq<Step>)
    requires IsTransactionOf(call, t, s) && Returns(call.staged, call.commitAck, r)
    requires r == Result.Ok(TransactionStore.Conflict) || (r.Err? && !IsLostAnswer(call.commitAck))
    requires IsRun(s, more)
    ensures NothingCommitted(After(s, more), t)
  {
    TransactionAgrees(call, t, s);
    AnswersFixThePhase(call, s.txns[t]);
    FailedBatchesChangeNothing(s, t, more);
  }

  /** Told that the answer was lost, the caller knows that the batch takes effect wholly, at the
      one instant that it was sent for, or not at all: at every later time it is one of the two. */
  lemma LostAnswerMeansAllOrNothing(call: Call, t: nat, s: State, more: seq<Step>)
    requires IsTransactionOf(call, t, s) && IsLostAnswer(call.commitAck)
    requires IsRun(s, more)
    ensures s.txns[t].phase.Undetermined?
    ensures var c := s.txns[t].phase.at;
            TakesEffect(call, t, After(s, more), c) || NothingCommitted(After(s, more), t)
  {
    TransactionAgrees(call, t, s);
    AnswersFixThePhase(call, s.txns[t]);
    LaterIsReachable(s, more);
    StaysUndetermined(s, t, more);
    LandedOrNot(call, t, After(s, more));
  }

  lemma StaysUndetermined(s: State, t: nat, more: seq<Step>)
    requires Reachable(s) && t in s.txns && s.txns[t].phase.Undetermined? && IsRun(s, more)
    ensures t in After(s, more).txns && Continues(s.txns[t], After(s, more).txns[t])
  {
    ReachableKeeps(s);
    RunExtends(s, more);
  }

  lemma LandedOrNot(call: Call, t: nat, s: State)
    requires Reachable(s) && t in s.txns && s.txns[t].phase.Undetermined?
    requires s.txns[t].mode == call.mode && s.txns[t].batch == call.batch
    ensures TakesEffect(call, t, s, s.txns[t].phase.at) || NothingCommitted(s, t)
  {
    ReachableKeeps(s);
    var c := s.txns[t].phase.at;
    if c in s.log {
      assert SameCommitTs(s.txns[t].phase, s.txns[s.log[c]].phase);
      LoggedTakesEffect(call, t, s, c);
    } else {
      RecordsAreLogged(s, t);
    }
  }

  lemma LaterIsReachable(s: State, more: seq<Step>)
    requires Reachable(s) && IsRun(s, more)
    ensures Reachable(After(s, more))
  {
    var before :| IsRun(INIT, before) && s == After(INIT, before);
    RunsJoin(INIT, before, more);
  }

  // ---- Every transaction is a call's ----

  ghost function ReadBy(t: nat, s: State, step: Step): seq<Option<Value>>
    requires Enabled(s, step)
  {
    match step
    case LockingRead(u, f) => if u == t then [ValueAt(s.records, Next(s.txns[t]).key, f)] else []
    case SnapshotRead(u) => if u == t then [ValueAt(s.records, Next(s.txns[t]).key, t)] else []
    case _ => []
  }

  /** What the transaction reads along a run, in order. */
  ghost function ReadsAlong(t: nat, s: State, steps: seq<Step>): seq<Option<Value>>
    requires IsRun(s, steps)
    decreases |steps|
  {
    if steps == [] then [] else ReadBy(t, s, steps[0]) + ReadsAlong(t, Do(s, steps[0]), steps[1..])
  }

  ghost predicate AllMatch(seen: seq<Option<Value>>, pres: seq<Precondition>) {
    |seen| <= |pres| && forall i :: 0 <= i < |seen| ==> seen[i] == pres[i].expected
  }

  ghost predicate LastDiffers(seen: seq<Option<Value>>, pres: seq<Precondition>) {
    0 < |seen| <= |pres| && AllMatch(seen[..|seen| - 1], pres) && seen[|seen| - 1] != pres[|seen| - 1].expected
  }

  /** The phase of a transaction and what it has read fit together. */
  ghost predicate HasSeen(x: Txn, seen: seq<Option<Value>>) {
    var pres := x.batch.preconditions;
    match x.phase
    case Staging(count) => |seen| == count && AllMatch(seen, pres)
    case Cleaning(outcome) => HasFailedOn(outcome, seen, pres)
    case Done(outcome) =>
      if outcome.Committed? then |seen| == |pres| && AllMatch(seen, pres) else HasFailedOn(outcome, seen, pres)
    case _ => |seen| == |pres| && AllMatch(seen, pres)
  }

  ghost predicate HasFailedOn(outcome: Outcome, seen: seq<Option<Value>>, pres: seq<Precondition>) {
    !outcome.Committed? && (AllMatch(seen, pres) || (LastDiffers(seen, pres) && outcome == TwoPhase.Conflict))
  }

  lemma JudgeSees(x: Txn, actual: Option<Value>, y: Txn, seen: seq<Option<Value>>)
    requires HasNext(x) && HasSeen(x, seen) && y.batch == x.batch && y.phase == Judge(x, actual)
    ensures HasSeen(y, seen + [actual])
  {
    assert (seen + [actual])[..|seen|] == seen;
  }

  lemma PhaseStepSees(t: nat, s: State, step: Step, seen: seq<Option<Value>>)
    requires Enabled(s, step) && !step.LockingRead? && !step.SnapshotRead?
    requires t in s.txns && t <= s.clock && HasSeen(s.txns[t], seen)
    ensures HasSeen(Do(s, step).txns[t], seen)
  {
    if Do(s, step).txns[t].phase != s.txns[t].phase {
      assert step.t == t;
    }
  }

  lemma StepKeepsBatch(t: nat, s: State, step: Step)
    requires Enabled(s, step) && t in s.txns && t <= s.clock
    ensures t in Do(s, step).txns && t <= Do(s, step).clock
    ensures Do(s, step).txns[t].mode == s.txns[t].mode && Do(s, step).txns[t].batch == s.txns[t].batch
  {
  }

  lemma StepSees(t: nat, s: State, step: Step, seen: seq<Option<Value>>)
    requires Enabled(s, step) && t in s.txns && t <= s.clock && HasSeen(s.txns[t], seen)
    ensures t in Do(s, step).txns && HasSeen(Do(s, step).txns[t], seen + ReadBy(t, s, step))
  {
    StepKeepsBatch(t, s, step);
    if step.LockingRead? || step.SnapshotRead? {
      if step.t == t {
        JudgeSees(s.txns[t], ReadBy(t, s, step)[0], Do(s, step).txns[t], seen);
      } else {
        assert Do(s, step).txns[t] == s.txns[t] && seen + [] == seen;
      }
    } else {
      PhaseStepSees(t, s, step, seen);
      assert seen + [] == seen;
    }
  }

  lemma {:induction false} RunSees(t: nat, s: State, steps: seq<Step>, seen: seq<Option<Value>>)
    requires IsRun(s, steps) && t in s.txns && t <= s.clock && HasSeen(s.txns[t], seen)
    ensures t in After(s, steps).txns && HasSeen(After(s, steps).txns[t], seen + ReadsAlong(t, s, steps))
    ensures After(s, steps).txns[t].mode == s.txns[t].mode && After(s, steps).txns[t].batch == s.txns[t].batch
    decreases |steps|
  {
    if steps == [] {
      assert seen + [] == seen;
    } else {
      var now := ReadBy(t, s, steps[0]);
      var rest := ReadsAlong(t, Do(s, steps[0]), steps[1..]);
      StepKeepsBatch(t, s, steps[0]);
      StepSees(t, s, steps[0], seen);
      RunSees(t, Do(s, steps[0]), steps[1..], seen + now);
      assert (seen + now) + rest == seen + (now + rest);
    }
  }

  /** How one phase may go on: a failure keeps its outcome, and what is through stays. */
  ghost predicate GoesOn(x: Phase, y: Phase) {
    && (!x.Staging? ==> !y.Staging?)
    && (Failed(x) ==> Failed(y) && y.outcome == x.outcome)
    && (x.Undetermined? || x.Done? ==> y == x)
  }

  lemma StepGoesOn(t: nat, s: State, step: Step)
    requires Enabled(s, step) && t in s.txns && t <= s.clock
    ensures t in Do(s, step).txns && t <= Do(s, step).clock
    ensures GoesOn(s.txns[t].phase, Do(s, step).txns[t].phase)
    ensures !s.txns[t].phase.Staging? ==> ReadBy(t, s, step) == []
  {
    if Do(s, step).txns[t].phase != s.txns[t].phase {
      assert step.t == t;
    }
  }

  lemma {:induction false} RunGoesOn(t: nat, s: State, steps: seq<Step>)
    requires IsRun(s, steps) && t in s.txns && t <= s.clock
    ensures t in After(s, steps).txns && GoesOn(s.txns[t].phase, After(s, steps).txns[t].phase)
    ensures !s.txns[t].phase.Staging? ==> ReadsAlong(t, s, steps) == []
    decreases |steps|
  {
    if steps == [] {
    } else {
      StepGoesOn(t, s, steps[0]);
      RunGoesOn(t, Do(s, steps[0]), steps[1..]);
    }
  }

  ghost predicate LostRace(phase: Phase) {
    Failed(phase) && phase.outcome == TwoPhase.Conflict
  }

  ghost function ErrorWith(lostRace: bool): Error {
    if lostRace then Key(KeyError(true, false, false, false, false, false, false, false, "", "", "")) else TxnNotFoundError
  }

  ghost function ReadIndex(mode: LockMode, n: nat): nat {
    if mode.OptimisticLocked? then n / 2 else n
  }

  ghost function AckFor(phase: Phase): Result<(), Error> {
    if phase.Undetermined? then Err(UndeterminedError(Transport(GrpcAPI)))
    else if Failed(phase) then Err(ErrorWith(LostRace(phase)))
    else Result.Ok(())
  }

  /** Answers that lead a call to these reads and this end. */
  ghost function ClusterFor(mode: LockMode, batch: WriteBatch, seen: seq<Option<Value>>, phase: Phase): Cluster {
    Cluster(
      Result.Ok(()),
      (n: nat, key: Key) =>
        if ReadIndex(mode, n) < |seen| then Result.Ok(seen[ReadIndex(mode, n)])
        else Err(ErrorWith(LostRace(phase))),
      (n: nat) => if n == CommitCall(mode, batch) then AckFor(phase) else Result.Ok(()))
  }

  ghost function CallFor(mode: LockMode, batch: WriteBatch, seen: seq<Option<Value>>, phase: Phase): Call {
    var staged :=
      if |seen| == |batch.preconditions| && AllMatch(seen, batch.preconditions) then Result.Ok(true)
      else if LastDiffers(seen, batch.preconditions) then Result.Ok(false)
      else Err(ErrorWith(LostRace(phase)));
    Call(ClusterFor(mode, batch, seen, phase), mode, batch, staged,
         if staged == Result.Ok(true) then Some(AckFor(phase)) else None)
  }

  lemma ReadsAnswered(mode: LockMode, batch: WriteBatch, seen: seq<Option<Value>>, phase: Phase, i: nat)
    requires i < |batch.preconditions|
    ensures var cluster := ClusterFor(mode, batch, seen, phase);
            && cluster.read(ReadCall(mode, i), batch.preconditions[i].key)
               == (if i < |seen| then Result.Ok(seen[i]) else Err(ErrorWith(LostRace(phase))))
            && (mode.OptimisticLocked? ==> cluster.ack(2 * i).Ok?)
  {
    assert ReadIndex(mode, ReadCall(mode, i)) == i;
    assert mode.OptimisticLocked? ==> 2 * i < CommitCall(mode, batch);
  }

  lemma CallForIsCall(mode: LockMode, batch: WriteBatch, seen: seq<Option<Value>>, phase: Phase)
    requires AllMatch(seen, batch.preconditions) || LastDiffers(seen, batch.preconditions)
    ensures IsCall(CallFor(mode, batch, seen, phase))
  {
    var call := CallFor(mode, batch, seen, phase);
    var pres := batch.preconditions;
    forall i | 0 <= i < |pres|
      ensures call.cluster.read(ReadCall(mode, i), pres[i].key)
              == (if i < |seen| then Result.Ok(seen[i]) else Err(ErrorWith(LostRace(phase))))
    {
      ReadsAnswered(mode, batch, seen, phase, i);
    }
    if LastDiffers(seen, pres) {
      var i := |seen| - 1;
      assert forall j :: 0 <= j < i ==> seen[..i][j] == pres[j].expected;
      assert AllRead(call.cluster, mode, pres[..i]);
    } else if |seen| < |pres| {
      assert AllRead(call.cluster, mode, pres[..|seen|]);
    }
  }

  /** One step of the transaction is the call's that its whole run makes up. */
  lemma StepIsTaken(t: nat, s: State, step: Step, seen: seq<Option<Value>>, all: seq<Option<Value>>, phase: Phase)
    requires Enabled(s, step) && t in s.txns && t <= s.clock && HasSeen(s.txns[t], seen)
    requires seen + ReadBy(t, s, step) <= all
    requires HasSeen(s.txns[t].(phase := phase), all) && IsOver(phase)
    requires GoesOn(Do(s, step).txns[t].phase, phase)
    requires !Do(s, step).txns[t].phase.Staging? ==> all == seen + ReadBy(t, s, step)
    ensures Takes(CallFor(s.txns[t].mode, s.txns[t].batch, all, phase), t, s, step)
  {
    var x := s.txns[t];
    if (step.LockingRead? || step.SnapshotRead?) && step.t == t {
      ReadsAnswered(x.mode, x.batch, all, phase, x.phase.checked);
      assert all[x.phase.checked] == ReadBy(t, s, step)[0];
    } else if step.Fail? && step.t == t {
      assert all == seen;
    }
  }

  /** From here on, the run is all that remains of what the call was made up for. */
  ghost predicate IsMadeFor(call: Call, t: nat, s: State, steps: seq<Step>, seen: seq<Option<Value>>) {
    && IsRun(s, steps) && t in s.txns && t <= s.clock && HasSeen(s.txns[t], seen)
    && t in After(s, steps).txns && IsOver(After(s, steps).txns[t].phase)
    && call == CallFor(s.txns[t].mode, s.txns[t].batch, seen + ReadsAlong(t, s, steps), After(s, steps).txns[t].phase)
  }

  lemma {:induction false} RunIsPlayed(call: Call, t: nat, s: State, steps: seq<Step>, seen: seq<Option<Value>>)
    requires IsMadeFor(call, t, s, steps, seen)
    ensures Plays(call, t, s, steps)
    decreases |steps|
  {
    if steps == [] {
    } else {
      FirstStepIsTaken(call, t, s, steps, seen);
      RestIsMadeFor(call, t, s, steps, seen);
      RunIsPlayed(call, t, Do(s, steps[0]), steps[1..], seen + ReadBy(t, s, steps[0]));
    }
  }

  lemma RestIsMadeFor(call: Call, t: nat, s: State, steps: seq<Step>, seen: seq<Option<Value>>)
    requires steps != [] && IsMadeFor(call, t, s, steps, seen)
    ensures IsMadeFor(call, t, Do(s, steps[0]), steps[1..], seen + ReadBy(t, s, steps[0]))
  {
    var s1 := Do(s, steps[0]);
    var now := ReadBy(t, s, steps[0]);
    StepKeepsBatch(t, s, steps[0]);
    StepSees(t, s, steps[0], seen);
    assert (seen + now) + ReadsAlong(t, s1, steps[1..]) == seen + ReadsAlong(t, s, steps);
  }

  lemma FirstStepIsTaken(call: Call, t: nat, s: State, steps: seq<Step>, seen: seq<Option<Value>>)
    requires steps != [] && IsMadeFor(call, t, s, steps, seen)
    ensures Takes(call, t, s, steps[0])
  {
    var all := seen + ReadsAlong(t, s, steps);
    var s1 := Do(s, steps[0]);
    RunSees(t, s, steps, seen);
    StepGoesOn(t, s, steps[0]);
    RunGoesOn(t, s1, steps[1..]);
    assert all == seen + ReadBy(t, s, steps[0]) + ReadsAlong(t, s1, steps[1..]);
    StepIsTaken(t, s, steps[0], seen, all, After(s, steps).txns[t].phase);
  }

  /** The other direction: whatever a batch's transaction does on the server, in whatever company,
      until it is through, some answers make a call of `commit` do just that. */
  lemma EveryTransactionIsACalls(s0: State, mode: LockMode, batch: WriteBatch, steps: seq<Step>) returns (call: Call)
    requires Reachable(s0) && IsRun(Do(s0, Begin(mode, batch)), steps)
    requires var s := After(Do(s0, Begin(mode, batch)), steps);
             s0.clock + 1 in s.txns && IsOver(s.txns[s0.clock + 1].phase)
    ensures call.mode == mode && call.batch == batch
    ensures IsTransactionOf(call, s0.clock + 1, After(Do(s0, Begin(mode, batch)), steps))
  {
    var t := s0.clock + 1;
    var s1 := Do(s0, Begin(mode, batch));
    var s := After(s1, steps);
    var seen := ReadsAlong(t, s1, steps);
    assert [] + seen == seen;
    RunSees(t, s1, steps, []);
    CallForIsCall(mode, batch, seen, s.txns[t].phase);
    call := CallFor(mode, batch, seen, s.txns[t].phase);
    RunIsPlayed(call, t, s1, steps, []);
    assert WereInStep(call, t, s0, s1, steps, s);
  }
}
