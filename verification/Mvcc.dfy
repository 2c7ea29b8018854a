/** Versioned records: what a key's committed history says at each timestamp. */
module Mvcc {
  import opened Wrappers
  import opened Batches

  datatype Slot = Slot(key: Key, ts: nat)

  type Records = map<Slot, Mutation>

  /** The value of a key at a timestamp: the newest record at or below it, lock records apart. */
  function ValueAt(records: Records, key: Key, ts: nat): Option<Value> {
    var slot := Slot(key, ts);
    if slot in records && !records[slot].LockOnly? then
      if records[slot].Put? then Some(records[slot].value) else None
    else if ts == 0 then None
    else ValueAt(records, key, ts - 1)
  }

  ghost predicate NoneBetween(records: Records, key: Key, low: nat, high: nat) {
    forall ts :: low < ts <= high ==> Slot(key, ts) !in records
  }

  /** A stretch without records changes nothing. */
  lemma {:induction false} ValueCarries(records: Records, key: Key, low: nat, high: nat)
    requires low <= high && NoneBetween(records, key, low, high)
    ensures ValueAt(records, key, low) == ValueAt(records, key, high)
    decreases high
  {
    if low == high {
    } else {
      assert Slot(key, high) !in records;
      ValueCarries(records, key, low, high - 1);
    }
  }

  /** The record at a slot that a read takes account of: a lock record is none. */
  function Visible(records: Records, slot: Slot): Option<Mutation> {
    if slot in records && !records[slot].LockOnly? then Some(records[slot]) else None
  }

  ghost predicate AgreeUpTo(a: Records, b: Records, key: Key, ts: nat) {
    forall t :: 0 <= t <= ts ==> Visible(a, Slot(key, t)) == Visible(b, Slot(key, t))
  }

  /** Only the visible records of the key itself, up to the timestamp, matter. */
  lemma {:induction false} ValueIsLocal(a: Records, b: Records, key: Key, ts: nat)
    requires AgreeUpTo(a, b, key, ts)
    ensures ValueAt(a, key, ts) == ValueAt(b, key, ts)
    decreases ts
  {
    assert Visible(a, Slot(key, ts)) == Visible(b, Slot(key, ts));
    if ts == 0 {
    } else {
      ValueIsLocal(a, b, key, ts - 1);
    }
  }

  /** A value that comes to differ was written in between. */
  lemma {:induction false} ChangeHasAWriter(records: Records, key: Key, low: nat, high: nat) returns (ts: nat)
    requires low <= high && ValueAt(records, key, low) != ValueAt(records, key, high)
    ensures low < ts <= high && Slot(key, ts) in records && !records[Slot(key, ts)].LockOnly?
    ensures ValueAt(records, key, ts) == ValueAt(records, key, high)
    decreases high
  {
    var slot := Slot(key, high);
    if slot in records && !records[slot].LockOnly? {
      ts := high;
    } else {
      ts := ChangeHasAWriter(records, key, low, high - 1);
    }
  }
}
