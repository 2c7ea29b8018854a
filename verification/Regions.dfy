/** PD's region layout as ground truth: which region holds a key, and whether two keys are
    separated by a region boundary. */
module Regions {
  import opened Wrappers
  import opened ByteStrings
  import opened MemComparable

  /** Bounds are memcomparable; an empty bound means unbounded. */
  datatype RegionInfo = RegionInfo(id: nat, start: Bytes, end: Bytes) {
    predicate Contains(encoded: Bytes) {
      && (start == [] || AtMost(start, encoded))
      && (end == [] || Less(encoded, end))
    }
  }

  /** The region holding the raw key `key`: the first in the snapshot that contains it. */
  function Locate(snapshot: seq<RegionInfo>, key: Bytes): Option<RegionInfo> {
    if snapshot == [] then None
    else if snapshot[0].Contains(Encoded(key)) then Some(snapshot[0])
    else Locate(snapshot[1..], key)
  }

  predicate CrossRegion(snapshot: seq<RegionInfo>, a: Bytes, b: Bytes) {
    var ra, rb := Locate(snapshot, a), Locate(snapshot, b);
    ra.Some? && rb.Some? && ra.value.id != rb.value.id
  }

  /** Both keys are located, in regions with different ids. */
  lemma CrossRegionMeans(snapshot: seq<RegionInfo>, a: Bytes, b: Bytes)
    ensures CrossRegion(snapshot, a, b) <==>
            exists ra, rb :: Locate(snapshot, a) == Some(ra) && Locate(snapshot, b) == Some(rb) && ra.id != rb.id
  {
  }

  /** Regions listed in key order that cover the key space without gap or overlap. */
  ghost predicate Tiles(chain: seq<RegionInfo>) {
    && chain != []
    && chain[0].start == [] && chain[|chain| - 1].end == []
    && (forall i, j :: 0 <= i && j == i + 1 && j < |chain| ==> Meets(chain[i], chain[j]))
    && (forall i :: 0 <= i < |chain| ==> NonEmpty(chain[i]))
    && (forall i, j :: 0 <= i < j < |chain| ==> chain[i].id != chain[j].id)
  }

  ghost predicate Meets(left: RegionInfo, right: RegionInfo) {
    left.end == right.start != []
  }

  ghost predicate NonEmpty(r: RegionInfo) {
    r.start == [] || r.end == [] || Less(r.start, r.end)
  }

  /** A snapshot of a tiling layout, in whatever order PD lists the regions. */
  ghost predicate SnapshotOf(snapshot: seq<RegionInfo>, chain: seq<RegionInfo>) {
    Tiles(chain) && forall r :: r in snapshot <==> r in chain
  }

  /** One region over all keys is a tiling, and so is what any splits make of it. */
  lemma OneRegionTiles(id: nat)
    ensures Tiles([RegionInfo(id, [], [])])
  {
  }

  /** In a tiling, an earlier region ends at or before the start of a later one. */
  lemma {:induction false} EarlierEndsFirst(chain: seq<RegionInfo>, i: nat, j: nat)
    requires Tiles(chain) && i < j < |chain|
    ensures chain[i].end != [] && AtMost(chain[i].end, chain[j].start)
  {
    assert Meets(chain[j - 1], chain[j]);
    if i + 1 == j {
    } else {
      EarlierEndsFirst(chain, i, j - 1);
      assert Meets(chain[j - 2], chain[j - 1]) && NonEmpty(chain[j - 1]);
      AtMostThenLess(chain[i].end, chain[j - 1].start, chain[j - 1].end);
    }
  }

  lemma HoldersAreUnique(chain: seq<RegionInfo>, i: nat, j: nat, e: Bytes)
    requires Tiles(chain) && i < |chain| && j < |chain|
    requires chain[i].Contains(e) && chain[j].Contains(e)
    ensures i == j
  {
    if i != j {
      var lo, hi := if i < j then i else j, if i < j then j else i;
      EarlierEndsFirst(chain, lo, hi);
      AtMostThenLess(e, chain[lo].end, chain[hi].start);
      AtMostThenLess(e, chain[hi].start, e);
      LessIrreflexive(e);
    }
  }

  /** Searching from region `i` on for a key at or above its start finds its holder. */
  lemma {:induction false} HolderFrom(chain: seq<RegionInfo>, i: nat, e: Bytes) returns (h: nat)
    requires Tiles(chain) && i < |chain|
    requires chain[i].start == [] || AtMost(chain[i].start, e)
    ensures i <= h < |chain| && chain[h].Contains(e)
    decreases |chain| - i
  {
    h := i;
    if chain[i].Contains(e) {
    } else {
      LessTrichotomy(e, chain[i].end);
      assert Meets(chain[i], chain[i + 1]);
      h := HolderFrom(chain, i + 1, e);
    }
  }

  lemma {:induction false} LocateFindsFirst(snapshot: seq<RegionInfo>, key: Bytes)
    ensures match Locate(snapshot, key)
            case Some(r) => r in snapshot && r.Contains(Encoded(key))
            case None => forall r :: r in snapshot ==> !r.Contains(Encoded(key))
  {
    if snapshot == [] {
    } else {
      LocateFindsFirst(snapshot[1..], key);
    }
  }

  /** Every raw key is held by exactly one region of a snapshot, and `Locate` returns it. */
  lemma LocateIsTotalAndExact(snapshot: seq<RegionInfo>, chain: seq<RegionInfo>, key: Bytes)
    requires SnapshotOf(snapshot, chain)
    ensures Locate(snapshot, key).Some?
    ensures forall r :: r in snapshot ==> (r.Contains(Encoded(key)) <==> r == Locate(snapshot, key).value)
  {
    var e := Encoded(key);
    LocateFindsFirst(snapshot, key);
    var h := HolderFrom(chain, 0, e);
    assert chain[h] in snapshot;
    var found := Locate(snapshot, key).value;
    forall r | r in snapshot && r.Contains(e)
      ensures r == found
    {
      var i :| 0 <= i < |chain| && chain[i] == r;
      var j :| 0 <= j < |chain| && chain[j] == found;
      HoldersAreUnique(chain, i, j, e);
    }
  }

  /** The precondition the cross-region tests wait for, characterised: two keys lie in
      different regions exactly when some region starts strictly above the lower key and at
      or below the higher one. */
  lemma CrossRegionIffBoundaryBetween(snapshot: seq<RegionInfo>, chain: seq<RegionInfo>, lo: Bytes, hi: Bytes)
    requires SnapshotOf(snapshot, chain) && Less(lo, hi)
    ensures CrossRegion(snapshot, lo, hi) <==>
            exists r :: r in snapshot && Less(Encoded(lo), r.start) && AtMost(r.start, Encoded(hi))
  {
    var el, eh := Encoded(lo), Encoded(hi);
    EncodingPreservesOrder(lo, hi);
    LocateIsTotalAndExact(snapshot, chain, lo);
    LocateIsTotalAndExact(snapshot, chain, hi);
    var rl, rh := Locate(snapshot, lo).value, Locate(snapshot, hi).value;
    LocateFindsFirst(snapshot, lo);
    LocateFindsFirst(snapshot, hi);
    var i :| 0 <= i < |chain| && chain[i] == rl;
    var j :| 0 <= j < |chain| && chain[j] == rh;
    if i == j {
      forall r | r in snapshot
        ensures !(Less(el, r.start) && AtMost(r.start, eh))
      {
        NoBoundaryInside(chain, i, r, el, eh);
      }
    } else if j < i {
      EarlierEndsFirst(chain, j, i);
      AtMostThenLess(eh, chain[j].end, chain[i].start);
      AtMostThenLess(eh, chain[i].start, el);
      LessTransitive(eh, el, eh);
      LessIrreflexive(eh);
    } else {
      EarlierEndsFirst(chain, i, j);
      AtMostThenLess(el, chain[i].end, chain[j].start);
      assert rh in snapshot && Less(el, rh.start) && AtMost(rh.start, eh);
    }
  }

  /** No region of a tiling starts between two keys that share a region. */
  lemma NoBoundaryInside(chain: seq<RegionInfo>, i: nat, r: RegionInfo, el: Bytes, eh: Bytes)
    requires Tiles(chain) && i < |chain| && chain[i].Contains(el) && chain[i].Contains(eh)
    requires r in chain
    ensures !(Less(el, r.start) && AtMost(r.start, eh))
  {
    if Less(el, r.start) && AtMost(r.start, eh) {
      var q := chain[i];
      var m :| 0 <= m < |chain| && chain[m] == r;
      assert NonEmpty(r);
      if q.start != [] {
        AtMostThenLess(q.start, el, r.start);
      }
      if q.end != [] {
        AtMostThenLess(r.start, eh, q.end);
      }
      HoldersAreUnique(chain, i, m, r.start);
      AtMostThenLess(q.start, el, q.start);
      LessIrreflexive(q.start);
    }
  }

  /** A boundary at the encoding of `splitAt` separates every `lo < splitAt <= hi`. */
  lemma BoundaryAtSplitSeparates(snapshot: seq<RegionInfo>, chain: seq<RegionInfo>, lo: Bytes, hi: Bytes, splitAt: Bytes)
    requires SnapshotOf(snapshot, chain) && Less(lo, splitAt) && AtMost(splitAt, hi)
    requires exists r :: r in snapshot && r.start == Encoded(splitAt)
    ensures CrossRegion(snapshot, lo, hi)
  {
    EncodingPreservesOrder(lo, splitAt);
    EncodingPreservesOrder(splitAt, hi);
    AtMostThenLess(lo, splitAt, hi);
    CrossRegionIffBoundaryBetween(snapshot, chain, lo, hi);
  }

  /** What PD does when it accepts a split of region `i` at an encoded key inside it. */
  ghost function SplitChain(chain: seq<RegionInfo>, i: nat, at: Bytes, newId: nat): seq<RegionInfo>
    requires i < |chain|
  {
    chain[..i]
    + [RegionInfo(chain[i].id, chain[i].start, at), RegionInfo(newId, at, chain[i].end)]
    + chain[i + 1..]
  }

  /** While the two keys share a region, the split the harness requests is well formed: the
      key it names lies strictly inside the region that holds `lo`. If PD accepts it and
      nothing is merged before the next snapshot, that snapshot meets the precondition. */
  lemma AcceptedSplitMeetsPrecondition(chain: seq<RegionInfo>, i: nat, lo: Bytes, hi: Bytes, splitAt: Bytes, newId: nat)
    requires Tiles(chain) && i < |chain|
    requires chain[i].Contains(Encoded(lo)) && chain[i].Contains(Encoded(hi))
    requires Less(lo, splitAt) && AtMost(splitAt, hi)
    requires forall r :: r in chain ==> r.id != newId
    ensures var at, q := Encoded(splitAt), chain[i];
            && (q.start == [] || Less(q.start, at)) && (q.end == [] || Less(at, q.end))
            && Tiles(SplitChain(chain, i, at, newId))
            && CrossRegion(SplitChain(chain, i, at, newId), lo, hi)
  {
    var at, q := Encoded(splitAt), chain[i];
    EncodingPreservesOrder(lo, splitAt);
    EncodingPreservesOrder(splitAt, hi);
    EncodedLength(splitAt);
    if q.start != [] {
      AtMostThenLess(q.start, Encoded(lo), at);
    }
    if q.end != [] {
      AtMostThenLess(at, Encoded(hi), q.end);
    }
    var split := SplitChain(chain, i, at, newId);
    SplitTiles(chain, i, at, newId);
    assert split[i + 1] in split && split[i + 1].start == at;
    BoundaryAtSplitSeparates(split, split, lo, hi, splitAt);
  }

  /** Where an entry of the split chain comes from. */
  ghost function Origin(i: nat, j: int): int {
    if j <= i then j else j - 1
  }

  lemma SplitTiles(chain: seq<RegionInfo>, i: nat, at: Bytes, newId: nat)
    requires Tiles(chain) && i < |chain| && at != []
    requires chain[i].start == [] || Less(chain[i].start, at)
    requires chain[i].end == [] || Less(at, chain[i].end)
    requires forall r :: r in chain ==> r.id != newId
    ensures Tiles(SplitChain(chain, i, at, newId))
  {
    var split := SplitChain(chain, i, at, newId);
    assert forall j :: 0 <= j < |split| && j != i && j != i + 1 ==> split[j] == chain[Origin(i, j)];
    forall j, k | 0 <= j && k == j + 1 && k < |split|
      ensures Meets(split[j], split[k])
    {
      if j != i {
        assert Meets(chain[Origin(i, j)], chain[Origin(i, k)]);
      }
    }
    forall j | 0 <= j < |split|
      ensures NonEmpty(split[j])
    {
      assert NonEmpty(chain[Origin(i, j)]);
    }
    forall j, k | 0 <= j < k < |split|
      ensures split[j].id != split[k].id
    {
      assert chain[Origin(i, j)] in chain && chain[Origin(i, k)] in chain;
    }
  }

  const TIMEOUT_MS: int := 45000
  const SLEEP_MS: int := 500

  datatype Ensured =
    | BadSplitPoint
    | Met(attempts: nat)
    | PreconditionFailed(attempts: nat)

  /** Waits until one PD snapshot shows the two keys in different regions, asking PD to split
      the region that holds `lo` before each retry.

      `pd(n)` is the snapshot the n-th pass fetches and `clock(n)` the time in milliseconds
      at which that pass compares the deadline; each pass ends with a 500 ms sleep.
      `requests` lists the splits asked for: of which region, and where. */
  method EnsureCrossRegion(lo: Bytes, hi: Bytes, splitAt: Bytes, began: int,
                           pd: nat -> seq<RegionInfo>, clock: nat -> int)
    returns (outcome: Ensured, requests: seq<(nat, Bytes)>)
    requires began <= clock(0)
    requires forall n: nat :: clock(n) + SLEEP_MS <= clock(n + 1)
    ensures outcome.BadSplitPoint? <==> !(Less(lo, splitAt) && AtMost(splitAt, hi))
    ensures outcome.Met? ==> CrossRegion(pd(outcome.attempts), lo, hi)
    ensures !outcome.BadSplitPoint? ==>
              forall m :: 0 <= m < outcome.attempts ==> !CrossRegion(pd(m), lo, hi) && clock(m) < began + TIMEOUT_MS
    ensures outcome.PreconditionFailed? ==>
              !CrossRegion(pd(outcome.attempts), lo, hi) && began + TIMEOUT_MS <= clock(outcome.attempts)
    ensures !outcome.BadSplitPoint? ==> outcome.attempts <= TIMEOUT_MS / SLEEP_MS
    ensures !outcome.BadSplitPoint? ==> requests == SplitsAsked(pd, lo, splitAt, outcome.attempts)
  {
    requests := [];
    if !(Less(lo, splitAt) && AtMost(splitAt, hi)) {
      return BadSplitPoint, requests;
    }
    var deadline := began + TIMEOUT_MS;
    var attempts := 0;
    while true
      invariant forall m :: 0 <= m < attempts ==> !CrossRegion(pd(m), lo, hi) && clock(m) < deadline
      invariant began + SLEEP_MS * attempts <= clock(attempts)
      invariant attempts <= TIMEOUT_MS / SLEEP_MS
      invariant requests == SplitsAsked(pd, lo, splitAt, attempts)
      decreases deadline - SLEEP_MS * attempts - began
    {
      var snapshot := pd(attempts);
      if CrossRegion(snapshot, lo, hi) {
        return Met(attempts), requests;
      }
      if clock(attempts) >= deadline {
        return PreconditionFailed(attempts), requests;
      }
      var holder := Locate(snapshot, lo);
      if holder.Some? {
        requests := requests + [(holder.value.id, splitAt)];
      }
      attempts := attempts + 1;
    }
  }

  /** The split requests of the first `n` passes: one, at the split key, for the region holding
      `lo`, in each snapshot that shows such a region. */
  ghost function SplitsAsked(pd: nat -> seq<RegionInfo>, lo: Bytes, splitAt: Bytes, n: nat): seq<(nat, Bytes)> {
    if n == 0 then []
    else
      var holder := Locate(pd(n - 1), lo);
      SplitsAsked(pd, lo, splitAt, n - 1) + (if holder.Some? then [(holder.value.id, splitAt)] else [])
  }
}
