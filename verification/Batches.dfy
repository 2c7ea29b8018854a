/** Write batches: what a client asks the metadata store to apply as one atomic mutation. */
module Batches {
  import opened Wrappers
  import opened ByteStrings

  type Key = Bytes
  type Value = Bytes
  type Data = map<Key, Value>

  datatype Precondition = Precondition(key: Key, expected: Option<Value>)

  datatype WriteBatch = WriteBatch(preconditions: seq<Precondition>, puts: seq<(Key, Value)>, deletes: seq<Key>)

  datatype LockMode = Pessimistic | OptimisticLocked | OptimisticUnlocked

  predicate IsSafe(mode: LockMode) {
    !mode.OptimisticUnlocked?
  }

  /** One buffered mutation, and the record it leaves: a value, a deletion, or a bare lock. */
  datatype Mutation = Put(value: Value) | Delete | LockOnly

  type Buffer = map<Key, Mutation>

  // ---- The meaning of a batch ----

  function Lookup(data: Data, key: Key): Option<Value> {
    if key in data then Some(data[key]) else None
  }

  predicate Holds(pre: Precondition, data: Data) {
    Lookup(data, pre.key) == pre.expected
  }

  function PutAll(data: Data, puts: seq<(Key, Value)>): Data
    decreases |puts|
  {
    if puts == [] then data else PutAll(data[puts[0].0 := puts[0].1], puts[1..])
  }

  function DeleteAll(data: Data, deletes: seq<Key>): Data
    decreases |deletes|
  {
    if deletes == [] then data else DeleteAll(data - {deletes[0]}, deletes[1..])
  }

  /** All puts, then all deletes. */
  function Apply(batch: WriteBatch, data: Data): Data {
    DeleteAll(PutAll(data, batch.puts), batch.deletes)
  }

  // ---- The mutations a transaction buffers for it ----

  function BufferLocks(buffer: Buffer, pres: seq<Precondition>): Buffer
    decreases |pres|
  {
    if pres == [] then buffer else BufferLocks(buffer[pres[0].key := LockOnly], pres[1..])
  }

  /** In the safe modes every precondition key joins the lock set. */
  function LockSet(mode: LockMode, pres: seq<Precondition>): Buffer {
    if IsSafe(mode) then BufferLocks(map[], pres) else map[]
  }

  function BufferPuts(buffer: Buffer, puts: seq<(Key, Value)>): Buffer
    decreases |puts|
  {
    if puts == [] then buffer else BufferPuts(buffer[puts[0].0 := Put(puts[0].1)], puts[1..])
  }

  function BufferDeletes(buffer: Buffer, deletes: seq<Key>): Buffer
    decreases |deletes|
  {
    if deletes == [] then buffer else BufferDeletes(buffer[deletes[0] := Delete], deletes[1..])
  }

  function Buffered(mode: LockMode, batch: WriteBatch): Buffer {
    BufferDeletes(BufferPuts(LockSet(mode, batch.preconditions), batch.puts), batch.deletes)
  }

  /** What a buffer does to the value of one key. */
  function Effect(buffer: Buffer, key: Key, before: Option<Value>): Option<Value> {
    if key !in buffer then before
    else match buffer[key]
      case Put(v) => Some(v)
      case Delete => None
      case LockOnly => before
  }

  lemma {:induction false} PutsAgree(buffer: Buffer, start: Data, data: Data, puts: seq<(Key, Value)>, key: Key)
    requires Effect(buffer, key, Lookup(start, key)) == Lookup(data, key)
    ensures Effect(BufferPuts(buffer, puts), key, Lookup(start, key)) == Lookup(PutAll(data, puts), key)
    decreases |puts|
  {
    if puts == [] {
    } else {
      var (k, v) := puts[0];
      PutsAgree(buffer[k := Put(v)], start, data[k := v], puts[1..], key);
    }
  }

  lemma {:induction false} DeletesAgree(buffer: Buffer, start: Data, data: Data, deletes: seq<Key>, key: Key)
    requires Effect(buffer, key, Lookup(start, key)) == Lookup(data, key)
    ensures Effect(BufferDeletes(buffer, deletes), key, Lookup(start, key)) == Lookup(DeleteAll(data, deletes), key)
    decreases |deletes|
  {
    if deletes == [] {
    } else {
      var k := deletes[0];
      DeletesAgree(buffer[k := Delete], start, data - {k}, deletes[1..], key);
    }
  }

  lemma {:induction false} LocksChangeNothing(buffer: Buffer, pres: seq<Precondition>, key: Key)
    requires key in buffer ==> buffer[key] == LockOnly
    ensures key in BufferLocks(buffer, pres) ==> BufferLocks(buffer, pres)[key] == LockOnly
    decreases |pres|
  {
    if pres == [] {
    } else {
      LocksChangeNothing(buffer[pres[0].key := LockOnly], pres[1..], key);
    }
  }

  lemma {:induction false} LocksKeepKeys(buffer: Buffer, pres: seq<Precondition>, key: Key)
    requires key in buffer || exists i :: 0 <= i < |pres| && pres[i].key == key
    ensures key in BufferLocks(buffer, pres)
    decreases |pres|
  {
    if pres == [] {
    } else {
      assert forall i :: 0 < i < |pres| ==> pres[i] == pres[1..][i - 1];
      LocksKeepKeys(buffer[pres[0].key := LockOnly], pres[1..], key);
    }
  }

  /** Committing the buffer means applying the batch: its puts and then its deletes, the last
      word on a key winning, and locks changing nothing. */
  lemma BufferMeansBatch(mode: LockMode, batch: WriteBatch, data: Data, key: Key)
    ensures Effect(Buffered(mode, batch), key, Lookup(data, key)) == Lookup(Apply(batch, data), key)
  {
    var locks := LockSet(mode, batch.preconditions);
    LocksChangeNothing(map[], batch.preconditions, key);
    PutsAgree(locks, data, data, batch.puts, key);
    DeletesAgree(BufferPuts(locks, batch.puts), data, PutAll(data, batch.puts), batch.deletes, key);
  }

  lemma {:induction false} PutsKeepKeys(buffer: Buffer, puts: seq<(Key, Value)>, key: Key)
    requires key in buffer
    ensures key in BufferPuts(buffer, puts)
    decreases |puts|
  {
    if puts == [] {
    } else {
      PutsKeepKeys(buffer[puts[0].0 := Put(puts[0].1)], puts[1..], key);
    }
  }

  lemma {:induction false} DeletesKeepKeys(buffer: Buffer, deletes: seq<Key>, key: Key)
    requires key in buffer
    ensures key in BufferDeletes(buffer, deletes)
    decreases |deletes|
  {
    if deletes == [] {
    } else {
      DeletesKeepKeys(buffer[deletes[0] := Delete], deletes[1..], key);
    }
  }

  /** In the safe modes a batch takes part in the conflict check of each key it requires. */
  lemma RequiredKeysAreBuffered(mode: LockMode, batch: WriteBatch, i: nat)
    requires IsSafe(mode) && i < |batch.preconditions|
    ensures batch.preconditions[i].key in Buffered(mode, batch)
  {
    var key := batch.preconditions[i].key;
    LocksKeepKeys(map[], batch.preconditions, key);
    PutsKeepKeys(LockSet(mode, batch.preconditions), batch.puts, key);
    DeletesKeepKeys(BufferPuts(LockSet(mode, batch.preconditions), batch.puts), batch.deletes, key);
  }
}
