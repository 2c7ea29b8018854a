/** The paged prefix scan of the metadata store. */
module PrefixScan {
  import opened Wrappers
  import opened ByteStrings
  import opened SortedKeys

  const SCAN_PAGE: nat := 256

  /** The bound by structure: drop trailing 0xFF bytes and increment the byte before them. */
  function UpperBound(prefix: Bytes): Option<Bytes> {
    if prefix == [] then None
    else
      var n := |prefix| - 1;
      if prefix[n] == 255 then UpperBound(prefix[..n]) else Some(prefix[..n] + [prefix[n] + 1])
  }

  method PrefixUpperBound(prefix: Bytes) returns (bound: Option<Bytes>)
    ensures bound == UpperBound(prefix)
  {
    var upper := prefix;
    while upper != []
      invariant UpperBound(upper) == UpperBound(prefix)
      decreases |upper|
    {
      var n := |upper| - 1;
      var last := upper[n];
      if last == 255 {
        upper := upper[..n];
        continue;
      }
      assert upper[n := last + 1] == upper[..n] + [last + 1];
      upper := upper[n := last + 1];
      return Some(upper);
    }
    bound := None;
  }

  /** The bound seen from the first byte instead of the last. */
  lemma {:induction false} UpperBoundByHead(a: Byte, rest: Bytes)
    ensures UpperBound([a] + rest) ==
            match UpperBound(rest)
            case Some(u) => Some([a] + u)
            case None => if a == 255 then None else Some([a + 1])
  {
    var p := [a] + rest;
    if rest == [] {
      assert p[..0] == [];
      assert [] + [a + 1] == [a + 1];
    } else {
      var n := |rest| - 1;
      assert p[..n + 1] == [a] + rest[..n];
      assert p[n + 1] == rest[n];
      if rest[n] == 255 {
        UpperBoundByHead(a, rest[..n]);
      } else {
        assert p[..n + 1] + [rest[n] + 1] == [a] + (rest[..n] + [rest[n] + 1]);
      }
    }
  }

  /** The scan range is exactly the prefix: a key lies at or above the prefix, and below the
      bound if there is one, precisely when it starts with the prefix. */
  lemma {:induction false} RangeIsExactlyThePrefix(prefix: Bytes, key: Bytes)
    ensures InRange(key, prefix, UpperBound(prefix)) <==> StartsWith(key, prefix)
  {
    if prefix == [] {
      assert key[..0] == [];
    } else if key != [] {
      var p, k := prefix[1..], key[1..];
      assert prefix == [prefix[0]] + p && key == [key[0]] + k;
      UpperBoundByHead(prefix[0], p);
      RangeIsExactlyThePrefix(p, k);
      StartsWithByHead(key, prefix);
      var u := UpperBound(prefix);
      if prefix[0] == key[0] {
        LessCancelsPrefix([key[0]], p, k);
        if UpperBound(p).Some? {
          LessCancelsPrefix([key[0]], k, UpperBound(p).value);
        } else {
          assert u.Some? ==> Less(key, u.value);
        }
      } else if prefix[0] < key[0] && u.Some? {
        assert u.value[0] <= key[0];
        assert u.value[0] == key[0] ==> u.value[1..] == [];
        assert !Less(k, []);
      }
    }
  }

  lemma StartsWithByHead(key: Bytes, prefix: Bytes)
    requires key != [] && prefix != []
    ensures StartsWith(key, prefix) <==> key[0] == prefix[0] && StartsWith(key[1..], prefix[1..])
  {
    if |prefix| <= |key| {
      assert key[..|prefix|] == [key[0]] + key[1..][..|prefix| - 1];
      assert prefix == [prefix[0]] + prefix[1..];
    }
  }

  /** The bound is the least key above every key with the prefix; when there is none, no key
      is above all of them. */
  lemma {:induction false} BoundIsLeast(prefix: Bytes, x: Bytes)
    ensures match UpperBound(prefix)
            case Some(u) => (forall k: Bytes :: StartsWith(k, prefix) ==> Less(k, x)) <==> AtMost(u, x)
            case None => exists k: Bytes :: StartsWith(k, prefix) && !Less(k, x)
  {
    var u := UpperBound(prefix);
    if u.Some? && AtMost(u.value, x) {
      forall k: Bytes | StartsWith(k, prefix)
        ensures Less(k, x)
      {
        RangeIsExactlyThePrefix(prefix, k);
        AtMostThenLess(k, u.value, x);
      }
    } else {
      // `x` itself, or the bare prefix if `x` lies below it, escapes.
      LessTrichotomy(x, prefix);
      var k := if Less(x, prefix) then prefix else x;
      if u.Some? {
        LessTrichotomy(x, u.value);
        UpperBoundIsAbove(prefix);
      }
      RangeIsExactlyThePrefix(prefix, k);
      LessTrichotomy(k, x);
      assert StartsWith(k, prefix) && !Less(k, x);
    }
  }

  lemma UpperBoundIsAbove(prefix: Bytes)
    requires UpperBound(prefix).Some?
    ensures Less(prefix, UpperBound(prefix).value)
  {
    RangeIsExactlyThePrefix(prefix, prefix);
  }

  /** What one snapshot read of a range returns: the first `limit` pairs, ascending. */
  function Page(snapshot: seq<Keyed<Bytes>>, lo: Bytes, hi: Option<Bytes>, limit: nat): seq<Keyed<Bytes>> {
    var all := Within(snapshot, lo, hi);
    if |all| <= limit then all else all[..limit]
  }

  /** Every pair of the snapshot whose key starts with the prefix, in order. */
  function Matching(snapshot: seq<Keyed<Bytes>>, prefix: Bytes): (r: seq<Keyed<Bytes>>)
  {
    if snapshot == [] then []
    else (if StartsWith(snapshot[0].key, prefix) then [snapshot[0]] else []) + Matching(snapshot[1..], prefix)
  }

  lemma {:induction false} MatchingIsTheRange(snapshot: seq<Keyed<Bytes>>, prefix: Bytes)
    ensures Matching(snapshot, prefix) == Within(snapshot, prefix, UpperBound(prefix))
  {
    if snapshot == [] {
    } else {
      RangeIsExactlyThePrefix(prefix, snapshot[0].key);
      MatchingIsTheRange(snapshot[1..], prefix);
    }
  }

  /** `out` is the start of the matching pairs, and the cursor is where the rest begins. */
  ghost predicate Resumes(snapshot: seq<Keyed<Bytes>>, prefix: Bytes, upper: Option<Bytes>,
                          out: seq<Keyed<Bytes>>, cursor: Bytes) {
    out + Within(snapshot, cursor, upper) == Within(snapshot, prefix, upper)
  }

  /** One page, appended. */
  method TakePage(page: seq<Keyed<Bytes>>, out: seq<Keyed<Bytes>>, ghost snapshot: seq<Keyed<Bytes>>,
                  ghost prefix: Bytes, ghost upper: Option<Bytes>, ghost cursor: Bytes)
    returns (longer: seq<Keyed<Bytes>>, fullPage: bool)
    requires page == Page(snapshot, cursor, upper, SCAN_PAGE) && Resumes(snapshot, prefix, upper, out, cursor)
    ensures fullPage <==> |page| == SCAN_PAGE
    ensures fullPage ==> longer != [] && page != [] && longer[|longer| - 1] == page[|page| - 1]
    ensures fullPage ==> |longer| == |out| + SCAN_PAGE && longer <= Within(snapshot, prefix, upper)
    ensures !fullPage ==> |longer| < |out| + SCAN_PAGE && longer == Within(snapshot, prefix, upper)
  {
    fullPage := |page| == SCAN_PAGE;
    longer := out + page;
    ghost var rest := Within(snapshot, cursor, upper);
    assert page <= rest;
  }

  lemma PrefixAndRest(out: seq<Keyed<Bytes>>, all: seq<Keyed<Bytes>>)
    requires out != [] && out <= all
    ensures out[|out| - 1] == all[|out| - 1] && out + all[|out|..] == all
  {
  }

  lemma ResumesAfterLast(snapshot: seq<Keyed<Bytes>>, prefix: Bytes, upper: Option<Bytes>, out: seq<Keyed<Bytes>>)
    requires Ascending(snapshot) && out != [] && out <= Within(snapshot, prefix, upper)
    ensures Resumes(snapshot, prefix, upper, out, out[|out| - 1].key + [0])
  {
    var all := Within(snapshot, prefix, upper);
    var n := |out| - 1;
    PrefixAndRest(out, all);
    WithinAfter(snapshot, prefix, upper, n);
  }

  /** What answers the n-th request, for a range of keys. */
  type Reader = (nat, Bytes, Option<Bytes>) -> seq<Keyed<Bytes>>

  /** The n-th request starts at the prefix, or just above the last key of the page before. */
  function CursorOf(read: Reader, prefix: Bytes, n: nat): Bytes {
    if n == 0 then prefix
    else
      var page := read(n - 1, CursorOf(read, prefix, n - 1), UpperBound(prefix));
      if page == [] then prefix else page[|page| - 1].key + [0]
  }

  function PageOf(read: Reader, prefix: Bytes, n: nat): seq<Keyed<Bytes>> {
    read(n, CursorOf(read, prefix, n), UpperBound(prefix))
  }

  /** The n-th page is asked for only when all before it were full. */
  ghost predicate IsAsked(read: Reader, prefix: Bytes, n: nat) {
    forall m :: 0 <= m < n ==> |PageOf(read, prefix, m)| == SCAN_PAGE
  }

  /** Every page that is asked for is what the snapshot has there. */
  ghost predicate AreRead(read: Reader, prefix: Bytes, snapshot: seq<Keyed<Bytes>>) {
    forall n: nat :: IsAsked(read, prefix, n) ==>
      PageOf(read, prefix, n) == Page(snapshot, CursorOf(read, prefix, n), UpperBound(prefix), SCAN_PAGE)
  }

  /** So many full pages are in, and the cursor is where the next request starts. */
  ghost predicate HasScanned(read: Reader, prefix: Bytes, snapshot: seq<Keyed<Bytes>>, n: nat,
                             out: seq<Keyed<Bytes>>, cursor: Bytes) {
    && IsAsked(read, prefix, n) && cursor == CursorOf(read, prefix, n)
    && |out| == SCAN_PAGE * n && Resumes(snapshot, prefix, UpperBound(prefix), out, cursor)
  }

  /** One request of the loop. */
  method ScanPage(read: Reader, ghost prefix: Bytes, upper: Option<Bytes>, ghost snapshot: seq<Keyed<Bytes>>,
                  n: nat, out: seq<Keyed<Bytes>>, cursor: Bytes)
    returns (longer: seq<Keyed<Bytes>>, next: Bytes, more: bool)
    requires Ascending(snapshot) && AreRead(read, prefix, snapshot) && upper == UpperBound(prefix)
    requires HasScanned(read, prefix, snapshot, n, out, cursor)
    ensures more ==> HasScanned(read, prefix, snapshot, n + 1, longer, next) && longer <= Within(snapshot, prefix, upper)
    ensures !more ==> longer == Within(snapshot, prefix, upper) && |longer| / SCAN_PAGE == n
  {
    var page := read(n, cursor, upper);
    next := cursor;
    assert page == PageOf(read, prefix, n);
    longer, more := TakePage(page, out, snapshot, prefix, upper, cursor);
    if more {
      next := longer[|longer| - 1].key + [0];
      ResumesAfterLast(snapshot, prefix, upper, longer);
    }
  }

  /** The paged loop returns every pair under the prefix exactly once, in key order, in one
      more page than the full pages it takes. The snapshot is the store at one timestamp. */
  method Scan(read: Reader, prefix: Bytes, ghost snapshot: seq<Keyed<Bytes>>)
    returns (out: seq<Keyed<Bytes>>, asked: nat)
    requires Ascending(snapshot) && AreRead(read, prefix, snapshot)
    ensures out == Matching(snapshot, prefix)
    ensures asked == |out| / 256 + 1
  {
    MatchingIsTheRange(snapshot, prefix);
    var upper := PrefixUpperBound(prefix);
    var cursor, more := prefix, true;
    out, asked := [], 0;
    while more
      invariant more ==> HasScanned(read, prefix, snapshot, asked, out, cursor)
      invariant !more ==> out == Within(snapshot, prefix, upper) && asked == |out| / SCAN_PAGE + 1
      decreases more, |Within(snapshot, prefix, upper)| - |out|
    {
      out, cursor, more := ScanPage(read, prefix, upper, snapshot, asked, out, cursor);
      asked := asked + 1;
    }
  }
}
