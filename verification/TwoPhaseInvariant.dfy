/** What every step of every run keeps. */
module TwoPhaseInvariant {
  import opened Wrappers
  import opened Batches
  import opened Mvcc
  import opened TwoPhase

  ghost predicate SameCommitTs(a: Phase, b: Phase) {
    CommitTs(a).Some? && CommitTs(a) == CommitTs(b)
  }

  /** Timestamps are in the past, and no two transactions share a commit timestamp. */
  ghost predicate ClocksOk(s: State) {
    && (forall t :: t in s.txns ==> t <= s.clock)
    && (forall t :: t in s.txns && CommitTs(s.txns[t].phase).Some? ==> t < CommitTs(s.txns[t].phase).value <= s.clock)
    && (forall t, u :: t in s.txns && u in s.txns && SameCommitTs(s.txns[t].phase, s.txns[u].phase) ==> t == u)
  }

  /** The log names the transaction that took each commit timestamp, and every reported commit
      is in it. */
  ghost predicate LogOk(s: State) {
    && (forall c :: c in s.log ==> s.log[c] in s.txns && CommitTs(s.txns[s.log[c]].phase) == Some(c))
    && (forall t :: t in s.txns && s.txns[t].phase.Done? && CommitTs(s.txns[t].phase).Some? ==>
          CommitTs(s.txns[t].phase).value in s.log)
  }

  /** The history is exactly the logged buffers: whole, and nothing else. */
  ghost predicate HistoryOk(s: State) {
    forall slot :: (slot in s.history <==> slot.ts in s.log && s.log[slot.ts] in s.txns
                                           && slot.key in s.txns[s.log[slot.ts]].buffer)
                   && (slot in s.history ==> s.history[slot] == s.txns[s.log[slot.ts]].buffer[slot.key])
  }

  /** The server holds no record outside the history, and a missing one is still locked. */
  ghost predicate RecordsOk(s: State) {
    && (forall slot :: slot in s.records ==> slot in s.history && s.records[slot] == s.history[slot])
    && (forall slot :: slot in s.history && slot !in s.records ==>
          slot.ts in s.log && HoldsPrewrite(s, s.log[slot.ts], slot.key))
  }

  /** Not yet failed and not yet committed. */
  ghost predicate Undecided(s: State, t: nat) {
    t in s.txns && (s.txns[t].phase.Staging? || s.txns[t].phase.Prewriting? || InFlight(s, t))
  }

  /** A transaction in flight holds every key of its buffer, and an undecided one its pins. */
  ghost predicate LocksOk(s: State) {
    && (forall t, key :: InFlight(s, t) && key in s.txns[t].buffer ==> HoldsPrewrite(s, t, key))
    && (forall t, key :: Undecided(s, t) && key in s.txns[t].pins ==> key in s.locks && s.locks[key].owner == t)
  }

  ghost predicate AllOlder(records: Records, key: Key, ts: nat) {
    forall slot :: slot in records && slot.key == key ==> slot.ts < ts
  }

  /** Nothing newer is committed on the keys of a transaction in flight. */
  ghost predicate FreshOk(s: State) {
    forall t, key :: InFlight(s, t) && key in s.txns[t].buffer ==> AllOlder(s.history, key, s.txns[t].phase.at)
  }

  /** How many preconditions a transaction has found to hold. */
  ghost function Checked(x: Txn): nat {
    if x.phase.Staging? then x.phase.checked else |x.batch.preconditions|
  }

  /** What keeps a checked precondition true until the commit point. */
  ghost predicate Guarded(s: State, t: nat, pre: Precondition)
    requires t in s.txns
  {
    match s.txns[t].mode
    case Pessimistic =>
      pre.key in s.txns[t].pins && ValueAt(s.history, pre.key, s.clock) == pre.expected
    case OptimisticLocked =>
      && ValueAt(s.history, pre.key, t) == pre.expected
      && SnapshotSettled(s, pre.key, t)
      && (HoldsPrewrite(s, t, pre.key) ==> NoNewer(s.history, pre.key, t))
    case OptimisticUnlocked => true
  }

  /** No commit at or below `ts` can still change the key. */
  ghost predicate SnapshotSettled(s: State, key: Key, ts: nat) {
    forall u :: InFlight(s, u) && Changes(s.txns[u], key) ==> s.txns[u].phase.at > ts
  }

  ghost predicate GuardsOk(s: State) {
    forall t, i :: Undecided(s, t) && 0 <= i < Checked(s.txns[t]) && i < |s.txns[t].batch.preconditions| ==>
      Guarded(s, t, s.txns[t].batch.preconditions[i])
  }

  /** Only pessimistic transactions pin keys. */
  ghost predicate ShapeOk(s: State) {
    forall t :: t in s.txns ==>
      && Checked(s.txns[t]) <= |s.txns[t].batch.preconditions|
      && (!s.txns[t].mode.Pessimistic? ==> s.txns[t].pins == {})
      && (s.txns[t].phase.Cleaning? ==> !s.txns[t].phase.outcome.Committed?)
      && (s.txns[t].phase == Done(Committed(None)) ==> s.txns[t].buffer == map[])
  }

  /** No prewrite is sent while a transaction is still staging. */
  ghost predicate PrewritesOk(s: State) {
    forall key :: key in s.locks && s.locks[key].prewritten ==>
      s.locks[key].owner in s.txns && !s.txns[s.locks[key].owner].phase.Staging?
  }

  /** The goal: a committed batch of a safe mode found its preconditions true at the instant
      just before its commit timestamp, in the history as it is now. */
  ghost predicate SerialOk(s: State) {
    forall c, i :: c in s.log && s.log[c] in s.txns && IsSafe(s.txns[s.log[c]].mode)
                   && 0 <= i < |s.txns[s.log[c]].batch.preconditions| ==>
      PreconditionAt(s, c, s.txns[s.log[c]].batch.preconditions[i])
  }

  ghost predicate PreconditionAt(s: State, c: nat, pre: Precondition) {
    c > 0 && ValueAt(s.history, pre.key, c - 1) == pre.expected
  }

  ghost predicate BuffersOk(s: State) {
    forall t :: t in s.txns ==> s.txns[t].buffer == Buffered(s.txns[t].mode, s.txns[t].batch)
  }

  /** Everything but the preconditions. */
  ghost predicate ServerOk(s: State) {
    ClocksOk(s) && LogOk(s) && HistoryOk(s) && RecordsOk(s) && LocksOk(s) && FreshOk(s) && ShapeOk(s)
    && PrewritesOk(s)
  }

  ghost predicate Inv(s: State) {
    ServerOk(s) && BuffersOk(s) && GuardsOk(s) && SerialOk(s)
  }

  lemma InitHolds()
    ensures Inv(INIT)
  {
  }

  // ---- Consequences used by many steps ----

  /** Two transactions in flight never share a key. */
  lemma InFlightAreDisjoint(s: State, t: nat, u: nat, key: Key)
    requires LocksOk(s) && InFlight(s, t) && InFlight(s, u) && t != u
    requires key in s.txns[t].buffer
    ensures key !in s.txns[u].buffer
  {
    assert HoldsPrewrite(s, t, key);
  }

  /** On a key that no other transaction holds, the server's records are the whole history. */
  lemma FreeKeyIsSettled(s: State, key: Key, t: nat, ts: nat)
    requires LogOk(s) && HistoryOk(s) && RecordsOk(s) && FreeFor(s, key, t)
    requires forall c :: c in s.log ==> s.log[c] != t
    ensures ValueAt(s.records, key, ts) == ValueAt(s.history, key, ts)
    ensures forall b :: NoNewer(s.records, key, b) ==> NoNewer(s.history, key, b)
  {
    forall k: nat
      ensures Slot(key, k) in s.history ==> Slot(key, k) in s.records
    {
    }
    assert AgreeUpTo(s.records, s.history, key, ts);
    ValueIsLocal(s.records, s.history, key, ts);
    forall b | NoNewer(s.records, key, b)
      ensures NoNewer(s.history, key, b)
    {
      forall slot | slot in s.history && slot.key == key
        ensures slot.ts <= b
      {
        assert slot == Slot(key, slot.ts);
      }
    }
  }

  // ---- The parts steps are made of ----

  lemma NothingAfterTheClock(s: State, key: Key)
    requires ClocksOk(s) && LogOk(s) && HistoryOk(s)
    ensures ValueAt(s.history, key, s.clock + 1) == ValueAt(s.history, key, s.clock)
  {
    assert NoneBetween(s.history, key, s.clock, s.clock + 1);
    ValueCarries(s.history, key, s.clock, s.clock + 1);
  }

  /** A guard needs only what it mentions. */
  lemma GuardSurvives(s: State, s': State, t: nat, pre: Precondition)
    requires t in s.txns && t in s'.txns && Guarded(s, t, pre)
    requires s'.txns[t].mode == s.txns[t].mode && s.txns[t].pins <= s'.txns[t].pins
    requires s'.history == s.history
    requires ValueAt(s.history, pre.key, s'.clock) == ValueAt(s.history, pre.key, s.clock)
    requires SnapshotSettled(s, pre.key, t) ==> SnapshotSettled(s', pre.key, t)
    requires HoldsPrewrite(s', t, pre.key) ==> HoldsPrewrite(s, t, pre.key) || NoNewer(s.history, pre.key, t)
    ensures Guarded(s', t, pre)
  {
  }

  /** The committed past stays as it is while the history and its authors do. */
  lemma SerialSurvives(s: State, s': State)
    requires SerialOk(s) && LogOk(s) && s'.history == s.history && s'.log == s.log
    requires forall t :: t in s.txns ==>
               t in s'.txns && s'.txns[t].mode == s.txns[t].mode && s'.txns[t].batch == s.txns[t].batch
    ensures SerialOk(s')
  {
    forall c, i | c in s'.log && s'.log[c] in s'.txns && IsSafe(s'.txns[s'.log[c]].mode)
                  && 0 <= i < |s'.txns[s'.log[c]].batch.preconditions|
      ensures PreconditionAt(s', c, s'.txns[s'.log[c]].batch.preconditions[i])
    {
      assert PreconditionAt(s, c, s.txns[s.log[c]].batch.preconditions[i]);
    }
  }

  /** The clock moves. */
  lemma ClockMoves(s: State)
    requires Inv(s)
    ensures Inv(s.(clock := s.clock + 1))
  {
    var s' := s.(clock := s.clock + 1);
    ClockMovesServer(s);
    forall t, i | Undecided(s', t) && 0 <= i < Checked(s'.txns[t]) && i < |s'.txns[t].batch.preconditions|
      ensures Guarded(s', t, s'.txns[t].batch.preconditions[i])
    {
      var pre := s.txns[t].batch.preconditions[i];
      assert Undecided(s, t) && Guarded(s, t, pre);
      NothingAfterTheClock(s, pre.key);
      assert forall u :: InFlight(s', u) ==> InFlight(s, u);
      GuardSurvives(s, s', t, pre);
    }
    SerialSurvives(s, s');
  }

  lemma ClockMovesServer(s: State)
    requires ServerOk(s)
    ensures ServerOk(s.(clock := s.clock + 1))
  {
    ClockMovesLocks(s);
    ClockMovesRecords(s);
    ClockMovesLog(s);
  }

  lemma ClockMovesLog(s: State)
    requires ClocksOk(s) && LogOk(s) && HistoryOk(s)
    ensures ClocksOk(s.(clock := s.clock + 1)) && LogOk(s.(clock := s.clock + 1)) && HistoryOk(s.(clock := s.clock + 1))
  {
  }

  lemma ClockMovesRecords(s: State)
    requires RecordsOk(s)
    ensures RecordsOk(s.(clock := s.clock + 1))
  {
    var s' := s.(clock := s.clock + 1);
    assert forall t, key :: HoldsPrewrite(s', t, key) <==> HoldsPrewrite(s, t, key);
  }

  lemma ClockMovesLocks(s: State)
    requires LocksOk(s) && FreshOk(s)
    ensures LocksOk(s.(clock := s.clock + 1)) && FreshOk(s.(clock := s.clock + 1))
  {
    var s' := s.(clock := s.clock + 1);
    assert forall t :: InFlight(s', t) <==> InFlight(s, t);
    assert forall t :: Undecided(s', t) <==> Undecided(s, t);
  }

  // ---- One transaction changes, and nothing else ----

  ghost function WithTxn(s: State, t: nat, y: Txn): State {
    s.(txns := s.txns[t := y])
  }

  /** `y` may replace the transaction `t`, or be added as it. */
  ghost predicate SameIdentity(s: State, t: nat, y: Txn) {
    && t <= s.clock
    && (t in s.txns ==>
          y.mode == s.txns[t].mode && y.batch == s.txns[t].batch && y.buffer == s.txns[t].buffer)
    && (t !in s.txns ==> y.phase.Staging?)
    && y.buffer == Buffered(y.mode, y.batch)
    && Checked(y) <= |y.batch.preconditions| && (!y.mode.Pessimistic? ==> y.pins == {})
    && (y.phase.Cleaning? ==> !y.phase.outcome.Committed?)
    && (y.phase == Done(Committed(None)) ==> y.buffer == map[])
    && (y.phase.Staging? && t in s.txns ==> s.txns[t].phase.Staging?)
  }

  /** What `y` says about its commit timestamp fits the clock and the log. */
  ghost predicate FitsLog(s: State, t: nat, y: Txn) {
    && (CommitTs(y.phase).Some? ==> t < CommitTs(y.phase).value <= s.clock)
    && (forall u :: u in s.txns && SameCommitTs(s.txns[u].phase, y.phase) ==> u == t)
    && (forall c :: c in s.log && s.log[c] == t ==> CommitTs(y.phase) == Some(c))
    && (y.phase.Done? && CommitTs(y.phase).Some? ==> CommitTs(y.phase).value in s.log)
  }

  lemma WithTxnClocks(s: State, t: nat, y: Txn)
    requires ClocksOk(s) && t <= s.clock && FitsLog(s, t, y)
    ensures ClocksOk(WithTxn(s, t, y))
  {
  }

  lemma WithTxnLog(s: State, t: nat, y: Txn)
    requires LogOk(s) && FitsLog(s, t, y)
    ensures LogOk(WithTxn(s, t, y))
  {
  }

  lemma WithTxnHistory(s: State, t: nat, y: Txn)
    requires LogOk(s) && HistoryOk(s) && (t in s.txns ==> y.buffer == s.txns[t].buffer)
    ensures HistoryOk(WithTxn(s, t, y))
  {
    var s' := WithTxn(s, t, y);
    forall c | c in s.log
      ensures s.log[c] in s.txns && s'.txns[s.log[c]].buffer == s.txns[s.log[c]].buffer
    {
    }
  }

  lemma WithTxnRecords(s: State, t: nat, y: Txn)
    requires RecordsOk(s)
    ensures RecordsOk(WithTxn(s, t, y))
  {
    var s' := WithTxn(s, t, y);
    assert forall u, key :: HoldsPrewrite(s, u, key) <==> HoldsPrewrite(s', u, key);
  }

  /** What `y` must hold, by its phase. */
  ghost predicate HoldsItsLocks(s: State, t: nat, y: Txn) {
    var s' := WithTxn(s, t, y);
    && (InFlight(s', t) ==> forall key :: key in y.buffer ==> HoldsPrewrite(s, t, key) && AllOlder(s.history, key, y.phase.at))
    && (Undecided(s', t) ==> forall key :: key in y.pins ==> key in s.locks && s.locks[key].owner == t)
  }

  lemma WithTxnLocks(s: State, t: nat, y: Txn)
    requires LocksOk(s) && FreshOk(s) && HoldsItsLocks(s, t, y)
    ensures LocksOk(WithTxn(s, t, y)) && FreshOk(WithTxn(s, t, y))
  {
    var s' := WithTxn(s, t, y);
    assert forall u :: u != t ==> (InFlight(s', u) <==> InFlight(s, u));
    assert forall u :: u != t ==> (Undecided(s', u) <==> Undecided(s, u));
  }

  lemma WithTxnServer(s: State, t: nat, y: Txn)
    requires ServerOk(s) && BuffersOk(s) && SameIdentity(s, t, y) && FitsLog(s, t, y) && HoldsItsLocks(s, t, y)
    ensures ServerOk(WithTxn(s, t, y)) && BuffersOk(WithTxn(s, t, y))
  {
    WithTxnClocks(s, t, y);
    WithTxnLog(s, t, y);
    WithTxnHistory(s, t, y);
    WithTxnRecords(s, t, y);
    WithTxnLocks(s, t, y);
  }

  /** Every precondition `y` claims to have checked is guarded. */
  ghost predicate GuardsItsChecks(s: State, t: nat, y: Txn) {
    Undecided(WithTxn(s, t, y), t) ==>
      forall i :: 0 <= i < Checked(y) && i < |y.batch.preconditions| ==>
        Guarded(WithTxn(s, t, y), t, y.batch.preconditions[i])
  }

  /** A commit timestamp that `y` brings is above every snapshot in use. */
  ghost predicate SettlesSnapshots(s: State, t: nat, y: Txn) {
    InFlight(WithTxn(s, t, y), t) && !InFlight(s, t) ==> forall u :: u in s.txns ==> u < y.phase.at
  }

  lemma WithTxnGuards(s: State, t: nat, y: Txn)
    requires GuardsOk(s) && (t in s.txns ==> y.buffer == s.txns[t].buffer)
    requires t in s.txns && InFlight(s, t) && InFlight(WithTxn(s, t, y), t) ==> y.phase.at == s.txns[t].phase.at
    requires GuardsItsChecks(s, t, y) && SettlesSnapshots(s, t, y)
    ensures GuardsOk(WithTxn(s, t, y))
  {
    var s' := WithTxn(s, t, y);
    forall u, i | Undecided(s', u) && 0 <= i < Checked(s'.txns[u]) && i < |s'.txns[u].batch.preconditions|
      ensures Guarded(s', u, s'.txns[u].batch.preconditions[i])
    {
      if u != t {
        var pre := s.txns[u].batch.preconditions[i];
        assert Undecided(s, u) && Guarded(s, u, pre);
        assert forall v :: v != t && InFlight(s', v) ==> InFlight(s, v);
        GuardSurvives(s, s', u, pre);
      }
    }
  }

  /** The whole invariant survives a change of one transaction that these conditions allow. */
  lemma WithTxnKeeps(s: State, t: nat, y: Txn)
    requires Inv(s) && SameIdentity(s, t, y) && FitsLog(s, t, y) && HoldsItsLocks(s, t, y)
    requires t in s.txns && InFlight(s, t) && InFlight(WithTxn(s, t, y), t) ==> y.phase.at == s.txns[t].phase.at
    requires GuardsItsChecks(s, t, y) && SettlesSnapshots(s, t, y)
    ensures Inv(WithTxn(s, t, y))
  {
    WithTxnServer(s, t, y);
    WithTxnGuards(s, t, y);
    SerialSurvives(s, WithTxn(s, t, y));
  }

  // ---- One lock changes, and nothing else ----

  ghost function WithLock(s: State, key: Key, lock: Option<Lock>): State {
    s.(locks := if lock.Some? then s.locks[key := lock.value] else s.locks - {key})
  }

  /** `t` takes, strengthens or gives up its own lock, with no commit to its name. */
  ghost predicate OwnLock(s: State, t: nat, key: Key, lock: Option<Lock>) {
    && FreeFor(s, key, t)
    && (lock.Some? ==> lock.value.owner == t)
    && (lock.Some? && lock.value.prewritten ==> t in s.txns && !s.txns[t].phase.Staging?)
    && !InFlight(s, t)
    && (forall c :: c in s.log ==> s.log[c] != t)
    && (lock.None? ==> !Undecided(s, t))
  }

  /** The conflict check of an optimistic prewrite. */
  ghost predicate NeedsFreshKey(s: State, t: nat, key: Key, lock: Option<Lock>) {
    && lock == Some(Lock(t, true)) && !HoldsPrewrite(s, t, key)
    && t in s.txns && s.txns[t].mode.OptimisticLocked?
  }

  lemma WithLockServer(s: State, t: nat, key: Key, lock: Option<Lock>)
    requires ServerOk(s) && OwnLock(s, t, key, lock)
    ensures ServerOk(WithLock(s, key, lock))
  {
    var s' := WithLock(s, key, lock);
    assert forall u, k :: u != t && HoldsPrewrite(s, u, k) ==> HoldsPrewrite(s', u, k);
    WithLockRecords(s, t, key, lock);
    WithLockLocks(s, t, key, lock);
  }

  lemma WithLockRecords(s: State, t: nat, key: Key, lock: Option<Lock>)
    requires RecordsOk(s) && OwnLock(s, t, key, lock)
    ensures RecordsOk(WithLock(s, key, lock))
  {
    var s' := WithLock(s, key, lock);
    assert forall u, k :: u != t && HoldsPrewrite(s, u, k) ==> HoldsPrewrite(s', u, k);
  }

  lemma WithLockLocks(s: State, t: nat, key: Key, lock: Option<Lock>)
    requires LocksOk(s) && FreshOk(s) && OwnLock(s, t, key, lock)
    ensures LocksOk(WithLock(s, key, lock)) && FreshOk(WithLock(s, key, lock))
  {
    var s' := WithLock(s, key, lock);
    assert forall u :: InFlight(s', u) <==> InFlight(s, u);
    assert forall u :: Undecided(s', u) <==> Undecided(s, u);
    assert forall u, k :: u != t && HoldsPrewrite(s, u, k) ==> HoldsPrewrite(s', u, k);
  }

  lemma WithLockKeeps(s: State, t: nat, key: Key, lock: Option<Lock>)
    requires Inv(s) && OwnLock(s, t, key, lock)
    requires NeedsFreshKey(s, t, key, lock) ==> NoNewer(s.history, key, t)
    ensures Inv(WithLock(s, key, lock))
  {
    var s' := WithLock(s, key, lock);
    WithLockServer(s, t, key, lock);
    forall u, i | Undecided(s', u) && 0 <= i < Checked(s'.txns[u]) && i < |s'.txns[u].batch.preconditions|
      ensures Guarded(s', u, s'.txns[u].batch.preconditions[i])
    {
      var pre := s.txns[u].batch.preconditions[i];
      assert Undecided(s, u) && Guarded(s, u, pre);
      assert forall v :: InFlight(s', v) ==> InFlight(s, v);
      if !s.txns[u].mode.Pessimistic? {
        GuardUnderLock(s, t, key, lock, u, pre);
      }
    }
    SerialSurvives(s, s');
  }

  lemma GuardUnderLock(s: State, t: nat, key: Key, lock: Option<Lock>, u: nat, pre: Precondition)
    requires OwnLock(s, t, key, lock) && u in s.txns && Guarded(s, u, pre)
    requires NeedsFreshKey(s, t, key, lock) ==> NoNewer(s.history, key, t)
    ensures Guarded(WithLock(s, key, lock), u, pre)
  {
    var s' := WithLock(s, key, lock);
    assert forall v :: InFlight(s', v) ==> InFlight(s, v);
  }

  // ---- The commit point ----

  /** The commit of `t` is decided; the server still has all of its records to write. */
  ghost function Decided(s: State, t: nat): State
    requires t in s.txns && InFlight(s, t)
  {
    var x := s.txns[t];
    s.(log := s.log[x.phase.at := t], history := s.history + RecordsOf(x, x.phase.at))
  }

  lemma DecidedInFlight(s: State, t: nat, u: nat)
    requires ClocksOk(s) && t in s.txns && InFlight(s, t)
    ensures InFlight(Decided(s, t), u) <==> InFlight(s, u) && u != t
    ensures Undecided(Decided(s, t), u) <==> Undecided(s, u) && u != t
  {
    if InFlight(s, u) && u != t {
      assert !SameCommitTs(s.txns[u].phase, s.txns[t].phase);
    }
  }

  lemma RecordsOfSlots(x: Txn, c: nat, slot: Slot)
    ensures slot in RecordsOf(x, c) <==> slot.ts == c && slot.key in x.buffer
    ensures slot in RecordsOf(x, c) ==> RecordsOf(x, c)[slot] == x.buffer[slot.key]
  {
    if slot.ts == c {
      assert slot == Slot(slot.key, c);
    }
  }

  lemma DecidedHistory(s: State, t: nat)
    requires LogOk(s) && HistoryOk(s) && t in s.txns && InFlight(s, t)
    ensures LogOk(Decided(s, t)) && HistoryOk(Decided(s, t))
  {
    var s' := Decided(s, t);
    var c := s.txns[t].phase.at;
    forall slot
      ensures slot in s'.history <==> slot.ts in s'.log && s'.log[slot.ts] in s'.txns
                                      && slot.key in s'.txns[s'.log[slot.ts]].buffer
      ensures slot in s'.history ==> s'.history[slot] == s'.txns[s'.log[slot.ts]].buffer[slot.key]
    {
      RecordsOfSlots(s.txns[t], c, slot);
    }
  }

  lemma DecidedRecords(s: State, t: nat)
    requires HistoryOk(s) && RecordsOk(s) && LocksOk(s) && t in s.txns && InFlight(s, t)
    ensures RecordsOk(Decided(s, t))
  {
    var s' := Decided(s, t);
    var c := s.txns[t].phase.at;
    forall slot | slot in s'.history
      ensures slot in s'.records ==> s'.records[slot] == s'.history[slot]
      ensures slot !in s'.records ==> slot.ts in s'.log && HoldsPrewrite(s', s'.log[slot.ts], slot.key)
    {
      RecordsOfSlots(s.txns[t], c, slot);
    }
  }

  lemma DecidedLocks(s: State, t: nat)
    requires ClocksOk(s) && LocksOk(s) && FreshOk(s) && t in s.txns && InFlight(s, t)
    ensures LocksOk(Decided(s, t)) && FreshOk(Decided(s, t))
  {
    var s' := Decided(s, t);
    forall u
      ensures InFlight(s', u) <==> InFlight(s, u) && u != t
      ensures Undecided(s', u) <==> Undecided(s, u) && u != t
    {
      DecidedInFlight(s, t, u);
    }
    forall u, key | InFlight(s', u) && key in s'.txns[u].buffer
      ensures AllOlder(s'.history, key, s'.txns[u].phase.at)
    {
      InFlightAreDisjoint(s, u, t, key);
      assert AllOlder(s.history, key, s.txns[u].phase.at);
    }
  }

  /** The commit of `t` leaves the values of the keys that it does not change alone, and those of
      its own keys below its commit timestamp. */
  lemma DecidedIsLocal(s: State, t: nat, key: Key, ts: nat)
    requires t in s.txns && InFlight(s, t)
    requires ClocksOk(s) && LogOk(s) && HistoryOk(s)
    requires !Changes(s.txns[t], key) || ts < s.txns[t].phase.at
    ensures ValueAt(Decided(s, t).history, key, ts) == ValueAt(s.history, key, ts)
  {
    assert AgreeUpTo(s.history, Decided(s, t).history, key, ts);
    ValueIsLocal(s.history, Decided(s, t).history, key, ts);
  }

  lemma DecidedGuard(s: State, t: nat, u: nat, pre: Precondition)
    requires ClocksOk(s) && LogOk(s) && HistoryOk(s) && LocksOk(s)
    requires t in s.txns && InFlight(s, t) && Undecided(s, u) && u != t
    requires Guarded(s, u, pre)
    ensures Guarded(Decided(s, t), u, pre)
  {
    var s' := Decided(s, t);
    match s.txns[u].mode
    case Pessimistic =>
      assert pre.key in s.txns[t].buffer ==> HoldsPrewrite(s, t, pre.key);
      DecidedIsLocal(s, t, pre.key, s.clock);
    case OptimisticLocked =>
      DecidedIsLocal(s, t, pre.key, u);
      forall v
        ensures InFlight(s', v) ==> InFlight(s, v)
      {
        DecidedInFlight(s, t, v);
      }
      if HoldsPrewrite(s', u, pre.key) {
        assert HoldsPrewrite(s, u, pre.key) && NoNewer(s.history, pre.key, u);
        assert pre.key !in s.txns[t].buffer;
      }
    case OptimisticUnlocked =>
  }

  lemma PinnedUntilCommit(s: State, key: Key, c: nat)
    requires c > 0 && c - 1 <= s.clock && AllOlder(s.history, key, c)
    ensures ValueAt(s.history, key, c - 1) == ValueAt(s.history, key, s.clock)
  {
    assert NoneBetween(s.history, key, c - 1, s.clock);
    ValueCarries(s.history, key, c - 1, s.clock);
  }

  lemma SnapshotUntilCommit(s: State, key: Key, t: nat, c: nat)
    requires t < c && NoNewer(s.history, key, t)
    ensures ValueAt(s.history, key, c - 1) == ValueAt(s.history, key, t)
  {
    assert NoneBetween(s.history, key, t, c - 1);
    ValueCarries(s.history, key, t, c - 1);
  }

  /** The commit point of a safe batch: each precondition holds just below its timestamp. */
  lemma CommitPointIsGuarded(s: State, t: nat, i: nat)
    requires ClocksOk(s) && LocksOk(s) && FreshOk(s) && BuffersOk(s) && GuardsOk(s)
    requires t in s.txns && InFlight(s, t) && IsSafe(s.txns[t].mode)
    requires i < |s.txns[t].batch.preconditions|
    ensures PreconditionAt(s, s.txns[t].phase.at, s.txns[t].batch.preconditions[i])
  {
    var x := s.txns[t];
    var pre := x.batch.preconditions[i];
    var c := x.phase.at;
    assert Undecided(s, t) && Guarded(s, t, pre);
    RequiredKeysAreBuffered(x.mode, x.batch, i);
    assert pre.key in x.buffer && AllOlder(s.history, pre.key, c);
    assert CommitTs(x.phase) == Some(c);
    if x.mode.Pessimistic? {
      PinnedUntilCommit(s, pre.key, c);
    } else {
      assert HoldsPrewrite(s, t, pre.key);
      SnapshotUntilCommit(s, pre.key, t, c);
    }
  }

  /** A commit that lands late cannot slip under one already in the log. */
  lemma OlderCommitIsSafe(s: State, t: nat, c: nat, i: nat)
    requires LogOk(s) && HistoryOk(s) && FreshOk(s) && BuffersOk(s) && t in s.txns && InFlight(s, t)
    requires c in s.log && s.log[c] in s.txns && IsSafe(s.txns[s.log[c]].mode)
    requires i < |s.txns[s.log[c]].batch.preconditions|
    ensures s.txns[s.log[c]].batch.preconditions[i].key !in s.txns[t].buffer || c < s.txns[t].phase.at
  {
    var x := s.txns[s.log[c]];
    var key := x.batch.preconditions[i].key;
    RequiredKeysAreBuffered(x.mode, x.batch, i);
    assert Slot(key, c) in s.history;
    if key in s.txns[t].buffer {
      assert AllOlder(s.history, key, s.txns[t].phase.at);
    }
  }

  lemma PastSurvives(s: State, t: nat, c: nat, pre: Precondition)
    requires ClocksOk(s) && LogOk(s) && HistoryOk(s)
    requires t in s.txns && InFlight(s, t) && PreconditionAt(s, c, pre)
    requires pre.key !in s.txns[t].buffer || c <= s.txns[t].phase.at
    ensures PreconditionAt(Decided(s, t), c, pre)
  {
    DecidedIsLocal(s, t, pre.key, c - 1);
  }

  lemma DecidedMeetsPreconditions(s: State, t: nat, i: nat)
    requires Inv(s) && t in s.txns && InFlight(s, t) && IsSafe(s.txns[t].mode)
    requires i < |s.txns[t].batch.preconditions|
    ensures PreconditionAt(Decided(s, t), s.txns[t].phase.at, s.txns[t].batch.preconditions[i])
  {
    CommitPointIsGuarded(s, t, i);
    PastSurvives(s, t, s.txns[t].phase.at, s.txns[t].batch.preconditions[i]);
  }

  lemma DecidedSerial(s: State, t: nat)
    requires Inv(s) && t in s.txns && InFlight(s, t)
    ensures SerialOk(Decided(s, t))
  {
    var s' := Decided(s, t);
    forall c, i | c in s'.log && s'.log[c] in s'.txns && IsSafe(s'.txns[s'.log[c]].mode)
                  && 0 <= i < |s'.txns[s'.log[c]].batch.preconditions|
      ensures PreconditionAt(s', c, s'.txns[s'.log[c]].batch.preconditions[i])
    {
      if c == s.txns[t].phase.at {
        DecidedMeetsPreconditions(s, t, i);
      } else {
        assert PreconditionAt(s, c, s.txns[s.log[c]].batch.preconditions[i]);
        OlderCommitIsSafe(s, t, c, i);
        PastSurvives(s, t, c, s.txns[s.log[c]].batch.preconditions[i]);
      }
    }
  }

  lemma DecidedKeeps(s: State, t: nat)
    requires Inv(s) && t in s.txns && InFlight(s, t)
    ensures Inv(Decided(s, t))
  {
    var s' := Decided(s, t);
    DecidedHistory(s, t);
    DecidedRecords(s, t);
    DecidedLocks(s, t);
    forall u, i | Undecided(s', u) && 0 <= i < Checked(s'.txns[u]) && i < |s'.txns[u].batch.preconditions|
      ensures Guarded(s', u, s'.txns[u].batch.preconditions[i])
    {
      DecidedInFlight(s, t, u);
      assert Guarded(s, u, s.txns[u].batch.preconditions[i]);
      DecidedGuard(s, t, u, s.txns[u].batch.preconditions[i]);
    }
    DecidedSerial(s, t);
  }

  // ---- A decided record is written ----

  ghost function Written(s: State, t: nat, key: Key, c: nat): State
    requires t in s.txns && key in s.txns[t].buffer
  {
    s.(records := s.records[Slot(key, c) := s.txns[t].buffer[key]], locks := s.locks - {key})
  }

  lemma WrittenRecords(s: State, t: nat, key: Key, c: nat)
    requires LogOk(s) && HistoryOk(s) && RecordsOk(s) && t in s.txns && key in s.txns[t].buffer
    requires c in s.log && s.log[c] == t && HoldsPrewrite(s, t, key)
    ensures RecordsOk(Written(s, t, key, c))
  {
    var s' := Written(s, t, key, c);
    forall slot | slot in s'.history && slot !in s'.records
      ensures slot.ts in s'.log && HoldsPrewrite(s', s'.log[slot.ts], slot.key)
    {
      assert HoldsPrewrite(s, s.log[slot.ts], slot.key);
      assert s.log[slot.ts] == t ==> slot.ts == c;
      assert slot != Slot(key, c);
    }
  }

  lemma WrittenLocks(s: State, t: nat, key: Key, c: nat)
    requires LogOk(s) && LocksOk(s) && FreshOk(s) && t in s.txns && key in s.txns[t].buffer
    requires c in s.log && s.log[c] == t && HoldsPrewrite(s, t, key)
    ensures LocksOk(Written(s, t, key, c)) && FreshOk(Written(s, t, key, c))
  {
    var s' := Written(s, t, key, c);
    assert CommitTs(s.txns[t].phase) == Some(c);
    assert !InFlight(s, t) && !Undecided(s, t);
    assert forall u :: InFlight(s', u) <==> InFlight(s, u);
    assert forall u :: Undecided(s', u) <==> Undecided(s, u);
  }

  lemma WrittenKeeps(s: State, t: nat, key: Key, c: nat)
    requires Inv(s) && t in s.txns && key in s.txns[t].buffer
    requires c in s.log && s.log[c] == t && HoldsPrewrite(s, t, key)
    ensures Inv(Written(s, t, key, c))
  {
    var s' := Written(s, t, key, c);
    WrittenRecords(s, t, key, c);
    WrittenLocks(s, t, key, c);
    forall u, i | Undecided(s', u) && 0 <= i < Checked(s'.txns[u]) && i < |s'.txns[u].batch.preconditions|
      ensures Guarded(s', u, s'.txns[u].batch.preconditions[i])
    {
      assert Undecided(s, u) && Guarded(s, u, s.txns[u].batch.preconditions[i]);
      assert forall v :: InFlight(s', v) ==> InFlight(s, v);
      GuardSurvives(s, s', u, s.txns[u].batch.preconditions[i]);
    }
    SerialSurvives(s, s');
  }
}
