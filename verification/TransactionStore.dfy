/** `commit` and `stage` of the metadata store: one client transaction, driven step by step. */
module TransactionStore {
  import opened Wrappers
  import opened Batches
  import opened ErrorMapping
  import TwoPhase

  datatype CommitOutcome = Committed | Conflict

  /** The cluster's answers, indexed by the transaction's own calls. */
  datatype Cluster = Cluster(
    begin: Result<(), Error>,
    read: (nat, Key) -> Result<Option<Value>, Error>,
    ack: nat -> Result<(), Error>)

  /** A client transaction: what it has buffered, and what became of it. */
  class Transaction {
    const cluster: Cluster
    var calls: nat
    var buffer: Buffer
    var commitAck: Option<Result<(), Error>>
    var rollbacks: nat

    constructor (cluster: Cluster)
      ensures this.cluster == cluster && calls == 0 && buffer == map[] && commitAck == None && rollbacks == 0
    {
      this.cluster := cluster;
      calls, buffer, commitAck, rollbacks := 0, map[], None, 0;
    }

    /** Pins the key and reads its newest committed value. */
    method GetForUpdate(key: Key) returns (r: Result<Option<Value>, Error>)
      modifies this`calls, this`buffer
      ensures calls == old(calls) + 1 && r == cluster.read(old(calls), key)
      ensures buffer == if r.Ok? then old(buffer)[key := LockOnly] else old(buffer)
    {
      r := cluster.read(calls, key);
      calls := calls + 1;
      if r.Ok? {
        buffer := buffer[key := LockOnly];
      }
    }

    method LockKey(key: Key) returns (r: Result<(), Error>)
      modifies this`calls, this`buffer
      ensures calls == old(calls) + 1 && r == cluster.ack(old(calls))
      ensures buffer == if r.Ok? then old(buffer)[key := LockOnly] else old(buffer)
    {
      r := cluster.ack(calls);
      calls := calls + 1;
      if r.Ok? {
        buffer := buffer[key := LockOnly];
      }
    }

    method Get(key: Key) returns (r: Result<Option<Value>, Error>)
      modifies this`calls
      ensures calls == old(calls) + 1 && r == cluster.read(old(calls), key)
    {
      r := cluster.read(calls, key);
      calls := calls + 1;
    }

    method Buffer(key: Key, mutation: Mutation) returns (r: Result<(), Error>)
      modifies this`calls, this`buffer
      ensures calls == old(calls) + 1 && r == cluster.ack(old(calls))
      ensures buffer == if r.Ok? then old(buffer)[key := mutation] else old(buffer)
    {
      r := cluster.ack(calls);
      calls := calls + 1;
      if r.Ok? {
        buffer := buffer[key := mutation];
      }
    }

    method Commit() returns (r: Result<(), Error>)
      modifies this`calls, this`commitAck
      ensures calls == old(calls) + 1 && r == cluster.ack(old(calls)) && commitAck == Some(r)
    {
      r := cluster.ack(calls);
      calls := calls + 1;
      commitAck := Some(r);
    }

    /** A failed rollback is only logged. */
    method RollbackQuietly()
      modifies this`calls, this`rollbacks
      ensures rollbacks == old(rollbacks) + 1 && calls == old(calls) + 1
    {
      calls := calls + 1;
      rollbacks := rollbacks + 1;
    }

    /** The read of one precondition key under a mode's locking discipline. */
    method ReadUnder(mode: LockMode, key: Key) returns (r: Result<Option<Value>, Error>)
      modifies this`calls, this`buffer
      ensures calls <= old(calls) + CallsPerRead(mode)
      ensures r.Ok? ==> calls == old(calls) + CallsPerRead(mode)
      ensures r.Ok? ==> r == cluster.read(calls - 1, key)
      ensures r.Err? ==>
                || r == cluster.read(old(calls) + CallsPerRead(mode) - 1, key)
                || (mode.OptimisticLocked? && cluster.ack(old(calls)) == Err(r.error))
      ensures r.Ok? ==> buffer == if IsSafe(mode) then old(buffer)[key := LockOnly] else old(buffer)
    {
      match mode
      case Pessimistic =>
        r := GetForUpdate(key);
      case OptimisticLocked =>
        var locked := LockKey(key);
        if locked.Err? {
          return Err(locked.error);
        }
        r := Get(key);
      case OptimisticUnlocked =>
        r := Get(key);
    }

    /** Checks the preconditions in order, up to the first that does not hold. */
    method CheckAll(mode: LockMode, pres: seq<Precondition>) returns (r: Result<bool, Error>, checked: nat)
      requires calls == 0 && buffer == map[]
      modifies this`calls, this`buffer
      ensures checked <= |pres|
      ensures forall i :: 0 <= i < checked ==> cluster.read(ReadCall(mode, i), pres[i].key) == Result.Ok(pres[i].expected)
      ensures r.Ok? ==> (r.value <==> checked == |pres|)
      ensures r == Result.Ok(true) ==> buffer == LockSet(mode, pres) && calls == CallsFor(mode, |pres|)
      ensures r == Result.Ok(false) ==>
                var answer := cluster.read(ReadCall(mode, checked), pres[checked].key);
                answer.Ok? && answer.value != pres[checked].expected
      ensures r.Err? ==> checked < |pres| && ReadFails(cluster, mode, checked, pres[checked].key, r.error)
    {
      checked := 0;
      ghost var locks := LockSet(mode, pres);
      assert pres[0..] == pres;
      while checked < |pres|
        invariant checked <= |pres| && calls == CallsFor(mode, checked)
        invariant forall i :: 0 <= i < checked ==> cluster.read(ReadCall(mode, i), pres[i].key) == Result.Ok(pres[i].expected)
        invariant (if IsSafe(mode) then BufferLocks(buffer, pres[checked..]) else buffer) == locks
      {
        assert pres[checked..][1..] == pres[checked + 1..];
        var actual := ReadUnder(mode, pres[checked].key);
        if actual.Err? {
          return Err(actual.error), checked;
        }
        if actual.value != pres[checked].expected {
          return Result.Ok(false), checked;
        }
        checked := checked + 1;
      }
      r := Result.Ok(true);
    }

    method BufferAllPuts(puts: seq<(Key, Value)>) returns (r: Result<(), Error>)
      modifies this`calls, this`buffer
      ensures r.Ok? ==> buffer == BufferPuts(old(buffer), puts) && calls == old(calls) + |puts|
      ensures r.Err? ==> old(calls) < calls <= old(calls) + |puts| && cluster.ack(calls - 1) == r
    {
      ghost var all := BufferPuts(buffer, puts);
      assert puts[0..] == puts;
      for i := 0 to |puts|
        invariant BufferPuts(buffer, puts[i..]) == all && calls == old(calls) + i
      {
        assert puts[i..][1..] == puts[i + 1..];
        var done := Buffer(puts[i].0, Put(puts[i].1));
        if done.Err? {
          return done;
        }
      }
      r := Result.Ok(());
    }

    method BufferAllDeletes(deletes: seq<Key>) returns (r: Result<(), Error>)
      modifies this`calls, this`buffer
      ensures r.Ok? ==> buffer == BufferDeletes(old(buffer), deletes) && calls == old(calls) + |deletes|
      ensures r.Err? ==> old(calls) < calls <= old(calls) + |deletes| && cluster.ack(calls - 1) == r
    {
      ghost var all := BufferDeletes(buffer, deletes);
      assert deletes[0..] == deletes;
      for i := 0 to |deletes|
        invariant BufferDeletes(buffer, deletes[i..]) == all && calls == old(calls) + i
      {
        assert deletes[i..][1..] == deletes[i + 1..];
        var done := Buffer(deletes[i], Delete);
        if done.Err? {
          return done;
        }
      }
      r := Result.Ok(());
    }

    /** Checks every precondition under the mode's discipline and buffers all mutations. Only
        when all reads matched is anything buffered to be written, and then all of it is. */
    method Stage(mode: LockMode, batch: WriteBatch) returns (r: Result<bool, Error>)
      requires calls == 0 && buffer == map[]
      modifies this`calls, this`buffer
      ensures r == Result.Ok(true) ==> buffer == Buffered(mode, batch) && calls == CommitCall(mode, batch)
      ensures IsStaged(cluster, mode, batch, r)
    {
      var held, checked := CheckAll(mode, batch.preconditions);
      if held.Err? || !held.value {
        return held;
      }
      var puts := BufferAllPuts(batch.puts);
      if puts.Err? {
        return Err(puts.error);
      }
      var deletes := BufferAllDeletes(batch.deletes);
      if deletes.Err? {
        return Err(deletes.error);
      }
      r := Result.Ok(true);
    }
  }

  ghost function CallsPerRead(mode: LockMode): nat {
    if mode.OptimisticLocked? then 2 else 1
  }

  ghost function CallsFor(mode: LockMode, count: nat): nat {
    if mode.OptimisticLocked? then 2 * count else count
  }

  /** The call that reads the `i`-th precondition key. */
  ghost function ReadCall(mode: LockMode, i: nat): nat {
    if mode.OptimisticLocked? then 2 * i + 1 else i
  }

  /** The call that commits, after every read and every mutation. */
  ghost function CommitCall(mode: LockMode, batch: WriteBatch): nat {
    CallsFor(mode, |batch.preconditions|) + |batch.puts| + |batch.deletes|
  }

  /** Every precondition was read as required. */
  ghost predicate AllRead(cluster: Cluster, mode: LockMode, pres: seq<Precondition>) {
    forall i :: 0 <= i < |pres| ==> cluster.read(ReadCall(mode, i), pres[i].key) == Result.Ok(pres[i].expected)
  }

  /** Some precondition was read as something else, after all before it had matched. */
  ghost predicate SomeMismatch(cluster: Cluster, mode: LockMode, pres: seq<Precondition>) {
    exists i :: 0 <= i < |pres|
      && AllRead(cluster, mode, pres[..i])
      && cluster.read(ReadCall(mode, i), pres[i].key).Ok?
      && cluster.read(ReadCall(mode, i), pres[i].key).value != pres[i].expected
  }

  /** The i-th read, or the locking of its key before it, was answered with an error. */
  ghost predicate ReadFails(cluster: Cluster, mode: LockMode, i: nat, key: Key, e: Error) {
    || cluster.read(ReadCall(mode, i), key) == Err(e)
    || (mode.OptimisticLocked? && cluster.ack(2 * i) == Err(e))
  }

  /** Staging met an error, at the first read not to succeed or, all having matched, at the
      buffering of a mutation. */
  ghost predicate StagingFails(cluster: Cluster, mode: LockMode, batch: WriteBatch, e: Error) {
    var pres := batch.preconditions;
    || (exists i :: 0 <= i < |pres| && AllRead(cluster, mode, pres[..i]) && ReadFails(cluster, mode, i, pres[i].key, e))
    || (AllRead(cluster, mode, pres)
        && exists n :: CallsFor(mode, |pres|) <= n < CommitCall(mode, batch) && cluster.ack(n) == Err(e))
  }

  ghost predicate IsStaged(cluster: Cluster, mode: LockMode, batch: WriteBatch, staged: Result<bool, Error>) {
    match staged
    case Ok(true) => AllRead(cluster, mode, batch.preconditions)
    case Ok(false) => SomeMismatch(cluster, mode, batch.preconditions)
    case Err(e) => StagingFails(cluster, mode, batch, e)
  }

  /** The phase of the commit protocol that the answers put the transaction in. */
  ghost function PhaseOf(staged: Result<bool, Error>, commitAck: Option<Result<(), Error>>, at: nat): TwoPhase.Phase {
    match staged
    case Err(e) => TwoPhase.Cleaning(if IsLostRace(e) then TwoPhase.Conflict else TwoPhase.Fault)
    case Ok(false) => TwoPhase.Cleaning(TwoPhase.Conflict)
    case Ok(true) =>
      match commitAck
      case None => TwoPhase.Prewriting
      case Some(Ok(_)) => TwoPhase.Done(TwoPhase.Committed(Some(at)))
      case Some(Err(e)) =>
        if e.UndeterminedError? then TwoPhase.Undetermined(at)
        else TwoPhase.Cleaning(if IsLostRace(e) then TwoPhase.Conflict else TwoPhase.Fault)
  }

  /** One call of `commit` that began a transaction: the answers at hand, what staging came to,
      and the answer to the commit if one was sent. */
  datatype Call = Call(
    cluster: Cluster,
    mode: LockMode,
    batch: WriteBatch,
    staged: Result<bool, Error>,
    commitAck: Option<Result<(), Error>>)

  /** Staging came to what the answers say, and exactly a staged batch was sent to commit. */
  ghost predicate IsCall(call: Call) {
    && IsStaged(call.cluster, call.mode, call.batch, call.staged)
    && call.commitAck == if call.staged == Result.Ok(true)
                         then Some(call.cluster.ack(CommitCall(call.mode, call.batch)))
                         else None
  }

  /** What the caller is told. */
  ghost predicate Returns(staged: Result<bool, Error>, commitAck: Option<Result<(), Error>>, r: Result<CommitOutcome, Error>) {
    var phase := PhaseOf(staged, commitAck, 0);
    && (r == Result.Ok(Committed) <==> commitAck.Some? && commitAck.value.Ok?)
    && (r == Result.Ok(Conflict) <==> TwoPhase.Failed(phase) && phase.outcome == TwoPhase.Conflict)
    && (r.Err? ==> staged == Err(r.error) || commitAck == Some(Err(r.error)))
  }

  /** One batch, one transaction. The outcome is `Committed` exactly when the commit was
      acknowledged, which takes matching reads and the whole batch buffered; it is `Conflict`
      exactly when the protocol failed with a conflict; and the transaction is rolled back
      exactly when it failed before its commit point, so never when the answer to its commit
      was lost. */
  method Commit(cluster: Cluster, mode: LockMode, batch: WriteBatch)
    returns (r: Result<CommitOutcome, Error>, txn: Transaction?, staged: Result<bool, Error>)
    ensures cluster.begin.Err? ==> txn == null && r == Err(cluster.begin.error)
    ensures cluster.begin.Ok? ==> txn != null && fresh(txn)
    ensures txn != null ==> IsCall(Call(cluster, mode, batch, staged, txn.commitAck)) && Returns(staged, txn.commitAck, r)
    ensures txn != null && txn.commitAck.Some? ==> txn.buffer == Buffered(mode, batch)
    ensures txn != null ==>
              txn.rollbacks == (if TwoPhase.Failed(PhaseOf(staged, txn.commitAck, 0)) then 1 else 0)
  {
    staged := Result.Ok(false);
    if cluster.begin.Err? {
      return Err(cluster.begin.error), null, staged;
    }
    txn := new Transaction(cluster);
    staged := txn.Stage(mode, batch);
    match staged
    case Ok(true) =>
      var ack := txn.Commit();
      match ack {
        case Ok(_) =>
          r := Result.Ok(Committed);
        case Err(e) =>
          if e.UndeterminedError? {
            r := Err(e);
          } else {
            txn.RollbackQuietly();
            r := if IsLostRace(e) then Result.Ok(Conflict) else Err(e);
          }
      }
    case Ok(false) =>
      txn.RollbackQuietly();
      r := Result.Ok(Conflict);
    case Err(e) =>
      txn.RollbackQuietly();
      r := if IsLostRace(e) then Result.Ok(Conflict) else Err(e);
  }
}
