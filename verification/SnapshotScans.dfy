/** A paged scan of the metadata store while batches commit. */
module SnapshotScans {
  import opened Wrappers
  import opened ByteStrings
  import opened SortedKeys
  import opened Batches
  import opened Mvcc
  import opened TwoPhase
  import opened TwoPhaseInvariant
  import opened TwoPhaseSteps
  import opened Serializability
  import opened PrefixScan

  type Listing = seq<Keyed<Bytes>>

  /** The ascending listing of some data. */
  ghost predicate Lists(all: Listing, data: Data) {
    Ascending(all) && forall x: Keyed<Bytes> :: x in all <==> Lookup(data, x.key) == Some(x.data)
  }

  lemma {:induction false} EveryDataIsListed(data: Data) returns (all: Listing)
    ensures Lists(all, data)
    decreases |data|
  {
    if data == map[] {
      all := [];
    } else {
      var key :| key in data;
      var x := Keyed(key, data[key]);
      var rest := EveryDataIsListed(data - {key});
      all := InsertByKey(x, rest);
      InsertKeepsOrder(x, rest);
      forall y: Keyed<Bytes>
        ensures y in all <==> Lookup(data, y.key) == Some(y.data)
      {
        InsertMember(x, rest, y);
      }
    }
  }

  // ---- One page ----

  /** How far a page looks: to its last key if it is full, and else to the end of the range. */
  ghost function SeenUpTo(page: Listing, hi: Option<Bytes>): Option<Bytes> {
    if page != [] && |page| == SCAN_PAGE then Some(page[|page| - 1].key + [0]) else hi
  }

  /** What a request for the first pairs of a range at `ts` returns in a state of the server. As far
      as it looks no key is blocked, and the page lists, in order, what is stored there at `ts`. */
  ghost predicate IsServed(s: State, ts: nat, lo: Bytes, hi: Option<Bytes>, page: Listing) {
    && Ascending(page) && |page| <= SCAN_PAGE
    && (forall key: Key :: InRange(key, lo, SeenUpTo(page, hi)) ==> Readable(s, key, s.clock + 1, ts))
    && (forall x: Keyed<Bytes> :: x in page <==>
          InRange(x.key, lo, SeenUpTo(page, hi)) && ValueAt(s.records, x.key, ts) == Some(x.data))
    && (forall x :: x in page ==> InRange(x.key, lo, hi))
  }

  /** As far as it looks, a page holds the data of the serial execution at its timestamp. */
  lemma ServedIsReplayed(s: State, ts: nat, lo: Bytes, hi: Option<Bytes>, page: Listing, later: seq<Step>, all: Listing)
    requires Reachable(s) && IsRun(s, later) && ts <= s.clock && IsServed(s, ts, lo, hi, page)
    requires Lists(all, Replay(After(s, later), ts))
    ensures page == Within(all, lo, SeenUpTo(page, hi))
  {
    var end := SeenUpTo(page, hi);
    WithinAscends(all, lo, end);
    forall x: Keyed<Bytes>
      ensures x in page <==> x in Within(all, lo, end)
    {
      WithinMember(all, lo, end, x);
      if InRange(x.key, lo, end) {
        SnapshotsReadTheReplay(s, x.key, ts, later);
      }
    }
    AscendingIsCanonical(page, Within(all, lo, end));
  }

  /** The pairs of a range up to its `i`-th are those below the key just above that. */
  lemma UpToIsTake(all: Listing, lo: Bytes, hi: Option<Bytes>, i: nat)
    requires Ascending(all) && i < |Within(all, lo, hi)|
    ensures Within(all, lo, Some(Within(all, lo, hi)[i].key + [0])) == Within(all, lo, hi)[..i + 1]
  {
    var whole := Within(all, lo, hi);
    var last := whole[i];
    var end := Some(last.key + [0]);
    WithinAscends(all, lo, hi);
    WithinAscends(all, lo, end);
    WithinMember(all, lo, hi, last);
    forall x: Keyed<Bytes>
      ensures x in whole[..i + 1] <==> x in Within(all, lo, end)
    {
      WithinMember(all, lo, hi, x);
      WithinMember(all, lo, end, x);
      TakenUpTo(whole, i, x);
      ZeroByteIsSuccessor(last.key, x.key);
      LessTrichotomy(x.key, last.key + [0]);
      LessTrichotomy(last.key, x.key);
      if hi.Some? && AtMost(x.key, last.key) {
        AtMostThenLess(x.key, last.key, hi.value);
      }
    }
    AscendingIsCanonical(whole[..i + 1], Within(all, lo, end));
  }

  lemma TakenUpTo(s: Listing, i: nat, x: Keyed<Bytes>)
    requires Ascending(s) && i < |s|
    ensures x in s[..i + 1] <==> x in s && !Less(s[i].key, x.key)
  {
    AboveIsTail(s, i, x);
    assert s == s[..i + 1] + s[i + 1..];
    if x in s[..i + 1] {
      var k :| 0 <= k <= i && s[k] == x;
      LessTrichotomy(s[k].key, s[i].key);
      LessIrreflexive(x.key);
    }
  }

  /** So it is the page of the serial execution. */
  lemma ServedIsThePage(s: State, ts: nat, lo: Bytes, hi: Option<Bytes>, page: Listing, later: seq<Step>, all: Listing)
    requires Reachable(s) && IsRun(s, later) && ts <= s.clock && IsServed(s, ts, lo, hi, page)
    requires Lists(all, Replay(After(s, later), ts))
    ensures page == Page(all, lo, hi, SCAN_PAGE)
  {
    ServedIsReplayed(s, ts, lo, hi, page, later, all);
    if |page| == SCAN_PAGE {
      var last := page[|page| - 1];
      WithinMember(all, lo, SeenUpTo(page, hi), last);
      WithinMember(all, lo, hi, last);
      var i :| 0 <= i < |Within(all, lo, hi)| && Within(all, lo, hi)[i] == last;
      UpToIsTake(all, lo, hi, i);
    }
  }

  // ---- The whole scan ----

  /** The n-th request is served by the server as it is then, and that is on the way to `final`. */
  ghost predicate ServesAt(s: State, later: seq<Step>, ts: nat, final: State) {
    Reachable(s) && IsRun(s, later) && ts <= s.clock && final == After(s, later)
  }

  ghost predicate AllServed(read: Reader, prefix: Bytes, ts: nat, at: nat -> State, final: State) {
    forall n: nat :: IsAsked(read, prefix, n) ==>
      && (exists later :: ServesAt(at(n), later, ts, final))
      && IsServed(at(n), ts, CursorOf(read, prefix, n), UpperBound(prefix), PageOf(read, prefix, n))
  }

  lemma ServedPagesAreRead(read: Reader, prefix: Bytes, ts: nat, at: nat -> State, final: State, all: Listing)
    requires AllServed(read, prefix, ts, at, final) && Lists(all, Replay(final, ts))
    ensures AreRead(read, prefix, all)
  {
    forall n: nat | IsAsked(read, prefix, n)
      ensures PageOf(read, prefix, n) == Page(all, CursorOf(read, prefix, n), UpperBound(prefix), SCAN_PAGE)
    {
      var later :| ServesAt(at(n), later, ts, final);
      ServedIsThePage(at(n), ts, CursorOf(read, prefix, n), UpperBound(prefix), PageOf(read, prefix, n), later, all);
    }
  }

  lemma MatchingMember(all: Listing, prefix: Bytes, x: Keyed<Bytes>)
    ensures x in Matching(all, prefix) <==> x in all && StartsWith(x.key, prefix)
  {
    MatchingIsTheRange(all, prefix);
    WithinMember(all, prefix, UpperBound(prefix), x);
    RangeIsExactlyThePrefix(prefix, x.key);
  }

  /** Main theorem: whatever commits between its pages, a scan at a timestamp returns every pair
      under the prefix that the serial execution holds at that timestamp, and nothing else, each
      once and in key order. */
  method ScanWhileCommitting(read: Reader, prefix: Bytes, ghost ts: nat, ghost at: nat -> State, ghost final: State)
    returns (out: Listing, asked: nat)
    requires AllServed(read, prefix, ts, at, final)
    ensures Ascending(out)
    ensures forall x: Keyed<Bytes> :: x in out <==>
              StartsWith(x.key, prefix) && Lookup(Replay(final, ts), x.key) == Some(x.data)
    ensures asked == |out| / 256 + 1
  {
    ghost var all := EveryDataIsListed(Replay(final, ts));
    ServedPagesAreRead(read, prefix, ts, at, final, all);
    out, asked := Scan(read, prefix, all);
    MatchingIsTheRange(all, prefix);
    WithinAscends(all, prefix, UpperBound(prefix));
    forall x: Keyed<Bytes>
      ensures x in out <==> StartsWith(x.key, prefix) && Lookup(Replay(final, ts), x.key) == Some(x.data)
    {
      MatchingMember(all, prefix, x);
    }
  }
}
