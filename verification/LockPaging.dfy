/** The `ScanLocks` loop: paging a scan whose pages merge per-region results, each region
    capped at the batch size. */
module LockPaging {
  import opened Wrappers
  import opened ByteStrings
  import opened SortedKeys

  datatype LockInfo = LockInfo(primary: Bytes, kind: int, ttlMs: nat, txnStartTs: nat)

  type Lock = Keyed<LockInfo>

  /** A layout of keys over `regions` regions, numbered from 0. */
  datatype Layout = Layout(regions: nat, region: Bytes -> nat) {
    ghost predicate Covers() {
      forall k :: region(k) < regions
    }
  }

  /** The locks of `s` that region `r` holds under a layout of keys over regions. */
  function HeldBy(s: seq<Lock>, layout: Layout, r: nat): seq<Lock> {
    if s == [] then []
    else (if layout.region(s[0].key) == r then [s[0]] else []) + HeldBy(s[1..], layout, r)
  }

  /** A region answers with its lowest `batch` locks. */
  function Share(s: seq<Lock>, layout: Layout, r: nat, batch: nat): (share: seq<Lock>)
    ensures |share| <= batch
  {
    var held := HeldBy(s, layout, r);
    if |held| <= batch then held else held[..batch]
  }

  function Shares(s: seq<Lock>, layout: Layout, batch: nat): (shares: seq<seq<Lock>>)
    ensures |shares| == layout.regions
  {
    seq(layout.regions, r requires 0 <= r < layout.regions => Share(s, layout, r, batch))
  }

  function Flatten(parts: seq<seq<Lock>>): seq<Lock> {
    if parts == [] then [] else Flatten(parts[..|parts| - 1]) + parts[|parts| - 1]
  }

  /** What one multi-region request returns: the shares of all regions, collected. */
  function Response(s: seq<Lock>, layout: Layout, batch: nat): seq<Lock> {
    Flatten(Shares(s, layout, batch))
  }

  /** The cut of a sorted page: the `batch`-th smallest key, or nothing when no region can
      have been truncated. */
  function PageCut(keys: seq<Bytes>, batch: nat): Option<Bytes> {
    if batch == 0 || |keys| < batch then None else Some(keys[batch - 1])
  }

  function NextCursor(cut: Bytes): Bytes {
    cut + [0]
  }

  function Keys(s: seq<Lock>): (k: seq<Bytes>)
    ensures |k| == |s|
    ensures forall i :: 0 <= i < |s| ==> k[i] == s[i].key
  {
    if s == [] then [] else [s[0].key] + Keys(s[1..])
  }

  /** The records of a page at or below the cut. */
  function UpTo(page: seq<Lock>, cut: Bytes): seq<Lock> {
    if page == [] then []
    else (if AtMost(page[0].key, cut) then [page[0]] else []) + UpTo(page[1..], cut)
  }

  lemma {:induction false} HeldByMember(s: seq<Lock>, layout: Layout, r: nat, x: Lock)
    ensures x in HeldBy(s, layout, r) <==> x in s && layout.region(x.key) == r
  {
    if s == [] {
    } else {
      assert s == [s[0]] + s[1..];
      HeldByMember(s[1..], layout, r, x);
    }
  }

  lemma {:induction false} HeldByAscends(s: seq<Lock>, layout: Layout, r: nat)
    requires Ascending(s)
    ensures Ascending(HeldBy(s, layout, r))
  {
    if s == [] {
    } else {
      HeldByAscends(s[1..], layout, r);
      var rest := HeldBy(s[1..], layout, r);
      forall j | 0 <= j < |rest|
        ensures Less(s[0].key, rest[j].key)
      {
        HeldByMember(s[1..], layout, r, rest[j]);
        TailDropsHead(s, rest[j]);
        AboveIsTail(s, 0, rest[j]);
      }
    }
  }

  /** A lock that stands at position `i` of the range stands no later in its region. */
  lemma {:induction false} PositionInRegion(s: seq<Lock>, layout: Layout, i: nat)
    requires i < |s|
    ensures s[i] in HeldBy(s, layout, layout.region(s[i].key))[..Smaller(i + 1, |HeldBy(s, layout, layout.region(s[i].key))|)]
  {
    var r := layout.region(s[i].key);
    var held, rest := HeldBy(s, layout, r), HeldBy(s[1..], layout, r);
    if i > 0 {
      PositionInRegion(s[1..], layout, i - 1);
      var k :| 0 <= k < Smaller(i, |rest|) && rest[k] == s[i];
      if layout.region(s[0].key) == r {
        assert held[k + 1] == s[i];
      } else {
        assert held[k] == s[i];
      }
    } else {
      assert held[0] == s[i];
    }
  }

  function Smaller(a: nat, b: nat): nat {
    if a <= b then a else b
  }

  lemma {:induction false} FlattenMember(parts: seq<seq<Lock>>, x: Lock)
    ensures x in Flatten(parts) <==> exists r :: 0 <= r < |parts| && x in parts[r]
  {
    if parts == [] {
    } else {
      var n := |parts| - 1;
      FlattenMember(parts[..n], x);
      assert forall r :: 0 <= r < n ==> parts[..n][r] == parts[r];
    }
  }

  /** The hazard cannot reach the lowest `batch` locks of the range: whatever the layout,
      their regions return them. */
  lemma LowestAreReturned(s: seq<Lock>, layout: Layout, batch: nat, i: nat)
    requires i < |s| && i < batch && layout.region(s[i].key) < layout.regions
    ensures s[i] in Response(s, layout, batch)
  {
    var r := layout.region(s[i].key);
    var held := HeldBy(s, layout, r);
    PositionInRegion(s, layout, i);
    var k :| 0 <= k < Smaller(i + 1, |held|) && held[k] == s[i];
    assert Share(s, layout, r, batch)[k] == s[i];
    assert s[i] in Shares(s, layout, batch)[r];
    FlattenMember(Shares(s, layout, batch), s[i]);
  }

  /** Every lock of a response is one of the range. */
  lemma ResponseMember(s: seq<Lock>, layout: Layout, batch: nat, x: Lock)
    requires x in Response(s, layout, batch)
    ensures x in s
  {
    FlattenMember(Shares(s, layout, batch), x);
    var r :| 0 <= r < layout.regions && x in Shares(s, layout, batch)[r];
    ShareMember(s, layout, r, batch, x);
  }

  /** Parts that are distinct each and from each other are distinct together. */
  lemma {:induction false} FlattenIsDistinct(parts: seq<seq<Lock>>)
    requires forall r :: 0 <= r < |parts| ==> DistinctKeys(parts[r])
    requires forall q, r :: 0 <= q < r < |parts| ==> NoCommonKey(parts[q], parts[r])
    ensures DistinctKeys(Flatten(parts))
  {
    if parts == [] {
    } else {
      var n := |parts| - 1;
      var before := parts[..n];
      FlattenIsDistinct(before);
      forall i, j | 0 <= i < |Flatten(before)| && 0 <= j < |parts[n]|
        ensures Flatten(before)[i].key != parts[n][j].key
      {
        var x := Flatten(before)[i];
        FlattenMember(before, x);
        var r :| 0 <= r < n && x in before[r];
        assert NoCommonKey(parts[r], parts[n]);
      }
      DistinctConcat(Flatten(before), parts[n]);
    }
  }

  lemma ResponseIsDistinct(s: seq<Lock>, layout: Layout, batch: nat)
    requires Ascending(s)
    ensures DistinctKeys(Response(s, layout, batch))
  {
    var shares := Shares(s, layout, batch);
    forall r | 0 <= r < |shares|
      ensures DistinctKeys(shares[r])
    {
      ShareIsDistinct(s, layout, r, batch);
    }
    forall q, r | 0 <= q < r < |shares|
      ensures NoCommonKey(shares[q], shares[r])
    {
      RegionsAreDisjoint(s, layout, q, r, batch);
    }
    FlattenIsDistinct(shares);
  }

  lemma RegionsAreDisjoint(s: seq<Lock>, layout: Layout, q: nat, r: nat, batch: nat)
    requires q != r
    ensures NoCommonKey(Share(s, layout, q, batch), Share(s, layout, r, batch))
  {
    var a, b := Share(s, layout, q, batch), Share(s, layout, r, batch);
    forall i, j | 0 <= i < |a| && 0 <= j < |b|
      ensures a[i].key != b[j].key
    {
      ShareMember(s, layout, q, batch, a[i]);
      ShareMember(s, layout, r, batch, b[j]);
    }
  }

  lemma ShareMember(s: seq<Lock>, layout: Layout, r: nat, batch: nat, x: Lock)
    requires x in Share(s, layout, r, batch)
    ensures x in s && layout.region(x.key) == r
  {
    assert x in HeldBy(s, layout, r);
    HeldByMember(s, layout, r, x);
  }

  lemma ShareIsDistinct(s: seq<Lock>, layout: Layout, r: nat, batch: nat)
    requires Ascending(s)
    ensures DistinctKeys(Share(s, layout, r, batch))
  {
    HeldByAscends(s, layout, r);
    AscendingIsDistinct(HeldBy(s, layout, r));
  }

  lemma AscendingIsDistinct(s: seq<Lock>)
    requires Ascending(s)
    ensures DistinctKeys(s)
  {
    forall i, j | 0 <= i < j < |s|
      ensures s[i].key != s[j].key
    {
      LessIrreflexive(s[i].key);
    }
  }

  ghost predicate NoCommonKey(a: seq<Lock>, b: seq<Lock>) {
    forall i, j :: 0 <= i < |a| && 0 <= j < |b| ==> a[i].key != b[j].key
  }

  lemma DistinctConcat(a: seq<Lock>, b: seq<Lock>)
    requires DistinctKeys(a) && DistinctKeys(b)
    requires NoCommonKey(a, b)
    ensures DistinctKeys(a + b)
  {
  }

  /** An ascending selection from an ascending listing that misses none of its first `n`
      records begins with them. */
  lemma {:induction false} SelectionBegins(sel: seq<Lock>, all: seq<Lock>, n: nat)
    requires Ascending(sel) && Ascending(all) && n <= |all|
    requires forall x :: x in sel ==> x in all
    requires forall i :: 0 <= i < n ==> all[i] in sel
    ensures n <= |sel| && sel[..n] == all[..n]
  {
    if n == 0 {
    } else {
      SelectionBegins(sel, all, n - 1);
      var x := all[n - 1];
      var k :| 0 <= k < |sel| && sel[k] == x;
      if k < n - 1 {
        assert sel[..n - 1][k] == all[..n - 1][k];
        LessIrreflexive(x.key);
      }
      var y := sel[n - 1];
      assert y in all;
      var m :| 0 <= m < |all| && all[m] == y;
      if m < n - 1 {
        assert sel[..n - 1][m] == all[..n - 1][m];
        LessIrreflexive(y.key);
      }
      LessTrichotomy(x.key, y.key);
      assert sel[..n] == sel[..n - 1] + [sel[n - 1]] && all[..n] == all[..n - 1] + [all[n - 1]];
    }
  }

  /** The sorted page of one scan: complete when it is short, and otherwise complete up to
      its `batch`-th lock, even if some region was truncated below the greatest key. */
  lemma PageIsCompleteUpToCut(s: seq<Lock>, layout: Layout, batch: nat)
    requires Ascending(s) && batch > 0
    requires layout.Covers()
    ensures var page := SortByKey(Response(s, layout, batch));
            && Ascending(page)
            && (|s| < batch <==> |page| < batch)
            && (if |s| < batch then page == s else page[..batch] == s[..batch])
  {
    var response := Response(s, layout, batch);
    var page := SortByKey(response);
    ResponseIsDistinct(s, layout, batch);
    SortAscends(response);
    forall x | x in page
      ensures x in s
    {
      SortMember(response, x);
      ResponseMember(s, layout, batch, x);
    }
    var n := Smaller(batch, |s|);
    forall i | 0 <= i < n
      ensures s[i] in page
    {
      LowestAreReturned(s, layout, batch, i);
      SortMember(response, s[i]);
    }
    SelectionBegins(page, s, n);
    if |s| < batch {
      assert s[..n] == s;
      AscendingIsCanonical(page, s);
    }
  }

  lemma {:induction false} UpToIsPrefix(page: seq<Lock>, i: nat)
    requires Ascending(page) && i < |page|
    ensures UpTo(page, page[i].key) == page[..i + 1]
  {
    var cut, rest := page[i].key, page[1..];
    assert page == [page[0]] + rest;
    assert forall k :: 0 <= k < |rest| ==> rest[k] == page[k + 1];
    if i == 0 {
      NothingUpTo(rest, cut);
    } else {
      UpToIsPrefix(rest, i - 1);
      assert page[..i + 1] == [page[0]] + rest[..i];
    }
  }

  lemma {:induction false} NothingUpTo(page: seq<Lock>, cut: Bytes)
    requires forall i :: 0 <= i < |page| ==> Less(cut, page[i].key)
    ensures UpTo(page, cut) == []
  {
    if page == [] {
    } else {
      LessTrichotomy(cut, page[0].key);
      NothingUpTo(page[1..], cut);
    }
  }

  datatype Scanned =
    | DriverError
    | Locks(locks: seq<Lock>)
    | Failed(scan: nat)

  /** One full page moves exactly `batch` locks from those still to be seen to those
      collected, and leaves the cursor just above the last of them. */
  lemma FullPageAdvances(locks: seq<Lock>, start: Bytes, end: Bytes, got: seq<Lock>, left: seq<Lock>, batch: nat, page: seq<Lock>)
    requires Ascending(locks) && batch > 0
    requires got + left == Within(locks, start, Some(end))
    requires Ascending(page) && batch <= |page| && batch <= |left| && page[..batch] == left[..batch]
    ensures var cut := page[batch - 1].key;
            var more := Within(locks, NextCursor(cut), Some(end));
            && got + UpTo(page, cut) + more == Within(locks, start, Some(end))
            && |UpTo(page, cut)| == batch && |more| == |left| - batch
  {
    var all := got + left;
    var n := |got| + batch;
    UpToIsPrefix(page, batch - 1);
    assert page[batch - 1] == page[..batch][batch - 1] == left[..batch][batch - 1] == all[n - 1];
    WithinAfter(locks, start, Some(end), n - 1);
    assert all[n..] == left[batch..];
    assert got + left[..batch] + left[batch..] == all;
  }

  /** One request and the sort of what it returned. */
  method FetchPage(left: seq<Lock>, layout: Layout, batch: nat) returns (page: seq<Lock>)
    requires Ascending(left) && batch > 0 && layout.Covers()
    ensures Ascending(page)
    ensures |left| < batch ==> page == left
    ensures batch <= |left| ==> batch <= |page| && page[..batch] == left[..batch]
  {
    PageIsCompleteUpToCut(left, layout, batch);
    page := SortByKey(Response(left, layout, batch));
  }

  /** One pass of the loop: fetch a page, keep it up to its cut, and move the cursor past the
      cut; or keep all of it and stop when nothing can have been truncated. */
  method ScanPage(locks: seq<Lock>, start: Bytes, end: Bytes, batch: nat, cursor: Bytes, got: seq<Lock>, layout: Layout)
    returns (next: Bytes, more: seq<Lock>, done: bool)
    requires Ascending(locks) && batch > 0 && layout.Covers()
    requires got + Within(locks, cursor, Some(end)) == Within(locks, start, Some(end))
    ensures done ==> more == Within(locks, start, Some(end))
    ensures !done ==> more + Within(locks, next, Some(end)) == Within(locks, start, Some(end))
    ensures !done ==> |more| == |got| + batch
  {
    next, more, done := cursor, got, true;
    var left := Within(locks, cursor, Some(end));
    WithinAscends(locks, cursor, Some(end));
    var page := FetchPage(left, layout, batch);
    if page == [] {
      return;
    }
    var cut := PageCut(Keys(page), batch);
    if cut.None? {
      more := got + page;
      return;
    }
    FullPageAdvances(locks, start, end, got, left, batch, page);
    more := got + UpTo(page, cut.value);
    next := NextCursor(cut.value);
    done := AtMost(end, next);
    if done {
      NothingBeyond(locks, next, end);
    }
  }

  /** The first `n` requests all succeed. */
  ghost predicate AllAnswered(fault: nat -> bool, n: nat) {
    n == 0 || (!fault(n - 1) && AllAnswered(fault, n - 1))
  }

  /** Collects the locks of `[start, end)`, page by page.

      `locks` is the table of locks at the scan's timestamp. The `n`-th request meets the
      region layout `layout(n)`, so regions may split, merge or move between pages, and
      fails when `fault(n)`. */
  method ScanLocks(locks: seq<Lock>, start: Bytes, end: Bytes, batch: nat,
                   layout: nat -> Layout, fault: nat -> bool)
    returns (outcome: Scanned, scans: nat)
    requires Ascending(locks)
    requires forall n :: layout(n).Covers()
    ensures outcome.DriverError? <==> batch == 0
    ensures outcome.Locks? ==> ExactlyWithin(outcome.locks, locks, start, Some(end))
    ensures outcome.Locks? ==> AllAnswered(fault, scans)
    ensures outcome.Failed? ==> outcome.scan == scans - 1 && fault(outcome.scan) && AllAnswered(fault, outcome.scan)
    ensures batch > 0 ==> scans <= |Within(locks, start, Some(end))| / batch + 1
  {
    scans := 0;
    if batch == 0 {
      return DriverError, scans;
    }
    ghost var total := |Within(locks, start, Some(end))|;
    var cursor := start;
    var got: seq<Lock> := [];
    var done := false;
    while !done
      invariant !done ==> got + Within(locks, cursor, Some(end)) == Within(locks, start, Some(end))
      invariant done ==> got == Within(locks, start, Some(end))
      invariant !done ==> |got| == Taken(batch, scans)
      invariant done ==> scans > 0 && Taken(batch, scans - 1) <= total
      invariant AllAnswered(fault, scans)
      decreases !done, total - |got|
    {
      var n := scans;
      scans := scans + 1;
      if fault(n) {
        FullPagesFit(total, batch, n);
        return Failed(n), scans;
      }
      cursor, got, done := ScanPage(locks, start, end, batch, cursor, got, layout(n));
    }
    FullPagesFit(total, batch, scans - 1);
    WithinIsExact(locks, start, Some(end));
    return Locks(got), scans;
  }

  /** How many locks `n` full pages take. */
  ghost function Taken(batch: nat, n: nat): nat {
    if n == 0 then 0 else Taken(batch, n - 1) + batch
  }

  lemma {:induction false} TakenIsProduct(batch: nat, n: nat)
    ensures Taken(batch, n) == batch * n
  {
    if n == 0 {
    } else {
      TakenIsProduct(batch, n - 1);
    }
  }

  /** `n` full pages fit in `total` locks, so one more scan stays within the bound. */
  lemma FullPagesFit(total: nat, batch: nat, n: nat)
    requires batch > 0 && Taken(batch, n) <= total
    ensures n + 1 <= total / batch + 1
  {
    var q := total / batch;
    TakenIsProduct(batch, n);
    assert batch * (q + 1) == batch * q + batch;
    if q < n {
      ProductGrows(batch, q + 1, n);
    }
  }

  lemma {:induction false} ProductGrows(c: nat, a: nat, b: nat)
    requires a <= b
    ensures c * a <= c * b
  {
    if a >= b {
    } else {
      ProductGrows(c, a, b - 1);
    }
  }

  lemma {:induction false} NothingBeyond(locks: seq<Lock>, cursor: Bytes, end: Bytes)
    requires AtMost(end, cursor)
    ensures Within(locks, cursor, Some(end)) == []
  {
    if locks == [] {
    } else {
      NothingBeyond(locks[1..], cursor, end);
      if InRange(locks[0].key, cursor, Some(end)) {
        AtMostTransitive(end, cursor, locks[0].key);
        LessTrichotomy(locks[0].key, end);
      }
    }
  }
}
