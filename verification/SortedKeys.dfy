/** Strictly ascending sequences of keyed records: the canonical listing of a finite table. */
module SortedKeys {
  import opened Wrappers
  import opened ByteStrings

  /** A record with the key it is filed under. */
  datatype Keyed<T> = Keyed(key: Bytes, data: T)

  ghost predicate Ascending<T>(s: seq<Keyed<T>>) {
    forall i, j :: 0 <= i < j < |s| ==> Less(s[i].key, s[j].key)
  }

  /** Membership of the half-open range `[lo, hi)`; no `hi` means unbounded. */
  predicate InRange(key: Bytes, lo: Bytes, hi: Option<Bytes>) {
    AtMost(lo, key) && (hi.Some? ==> Less(key, hi.value))
  }

  /** The records of `s` whose keys lie in the range, in order. */
  function Within<T>(s: seq<Keyed<T>>, lo: Bytes, hi: Option<Bytes>): (r: seq<Keyed<T>>)
    ensures |r| <= |s|
  {
    if s == [] then []
    else (if InRange(s[0].key, lo, hi) then [s[0]] else []) + Within(s[1..], lo, hi)
  }

  lemma {:induction false} WithinMember<T>(s: seq<Keyed<T>>, lo: Bytes, hi: Option<Bytes>, x: Keyed<T>)
    ensures x in Within(s, lo, hi) <==> x in s && InRange(x.key, lo, hi)
  {
    if s == [] {
    } else {
      WithinMember(s[1..], lo, hi, x);
      assert s == [s[0]] + s[1..];
    }
  }

  lemma {:induction false} WithinAscends<T>(s: seq<Keyed<T>>, lo: Bytes, hi: Option<Bytes>)
    requires Ascending(s)
    ensures Ascending(Within(s, lo, hi))
  {
    if s == [] {
    } else {
      WithinAscends(s[1..], lo, hi);
      var rest := Within(s[1..], lo, hi);
      forall j | 0 <= j < |rest|
        ensures Less(s[0].key, rest[j].key)
      {
        WithinMember(s[1..], lo, hi, rest[j]);
        var m :| 0 <= m < |s[1..]| && s[1..][m] == rest[j];
        assert s[m + 1] == rest[j];
      }
    }
  }

  /** `r` lists the records of `s` in the range: all of them, nothing else, each once and in
      ascending key order. */
  ghost predicate ExactlyWithin<T(!new)>(r: seq<Keyed<T>>, s: seq<Keyed<T>>, lo: Bytes, hi: Option<Bytes>) {
    Ascending(r) && forall x :: x in r <==> x in s && InRange(x.key, lo, hi)
  }

  lemma WithinIsExact<T(!new)>(s: seq<Keyed<T>>, lo: Bytes, hi: Option<Bytes>)
    requires Ascending(s)
    ensures ExactlyWithin(Within(s, lo, hi), s, lo, hi)
  {
    WithinAscends(s, lo, hi);
    forall x
      ensures x in Within(s, lo, hi) <==> x in s && InRange(x.key, lo, hi)
    {
      WithinMember(s, lo, hi, x);
    }
  }

  /** Ascending listings of the same records are equal. */
  lemma {:induction false} AscendingIsCanonical<T>(s: seq<Keyed<T>>, t: seq<Keyed<T>>)
    requires Ascending(s) && Ascending(t)
    requires forall x :: x in s <==> x in t
    ensures s == t
  {
    if s == [] {
      assert forall k :: 0 <= k < |t| ==> t[k] in s;
    } else {
      assert s[0] in s;
      var i :| 0 <= i < |t| && t[i] == s[0];
      assert t[0] in t;
      var j :| 0 <= j < |s| && s[j] == t[0];
      if i > 0 && j > 0 {
        LessTransitive(s[0].key, t[0].key, s[0].key);
        LessIrreflexive(s[0].key);
      }
      assert s[0] == t[0];
      forall x
        ensures x in s[1..] <==> x in t[1..]
      {
        TailDropsHead(s, x);
        TailDropsHead(t, x);
      }
      AscendingIsCanonical(s[1..], t[1..]);
      assert s == [s[0]] + s[1..] && t == [t[0]] + t[1..];
    }
  }

  lemma TailDropsHead<T>(s: seq<Keyed<T>>, x: Keyed<T>)
    requires s != [] && Ascending(s)
    ensures x in s[1..] <==> x in s && x != s[0]
  {
    if x in s[1..] {
      var k :| 0 <= k < |s[1..]| && s[1..][k] == x;
      assert s[k + 1] == x;
      LessIrreflexive(x.key);
    }
    assert s == [s[0]] + s[1..];
  }

  /** What lies above the `i`-th record of an ascending listing is exactly its tail. */
  lemma AboveIsTail<T>(all: seq<Keyed<T>>, i: nat, x: Keyed<T>)
    requires Ascending(all) && i < |all|
    ensures x in all[i + 1..] <==> x in all && Less(all[i].key, x.key)
  {
    if x in all {
      var k :| 0 <= k < |all| && all[k] == x;
      if k > i {
        assert all[i + 1..][k - i - 1] == x;
      } else {
        assert AtMost(x.key, all[i].key);
        LessTrichotomy(all[i].key, x.key);
        LessTrichotomy(x.key, all[i].key);
      }
    }
  }

  /** The part of a range that a cursor just above its `i`-th record still has to see. */
  lemma WithinAfter<T>(s: seq<Keyed<T>>, lo: Bytes, hi: Option<Bytes>, i: nat)
    requires Ascending(s) && i < |Within(s, lo, hi)|
    ensures Within(s, Within(s, lo, hi)[i].key + [0], hi) == Within(s, lo, hi)[i + 1..]
  {
    var all := Within(s, lo, hi);
    var cursor := all[i].key + [0];
    var left := Within(s, cursor, hi);
    WithinAscends(s, lo, hi);
    WithinAscends(s, cursor, hi);
    WithinMember(s, lo, hi, all[i]);
    forall x
      ensures x in left <==> x in all[i + 1..]
    {
      WithinMember(s, lo, hi, x);
      WithinMember(s, cursor, hi, x);
      AboveIsTail(all, i, x);
      ZeroByteIsSuccessor(all[i].key, x.key);
      if x in left {
        AtMostThenLess(lo, all[i].key, x.key);
      }
    }
    AscendingIsCanonical(left, all[i + 1..]);
  }

  ghost predicate DistinctKeys<T>(s: seq<Keyed<T>>) {
    forall i, j :: 0 <= i < j < |s| ==> s[i].key != s[j].key
  }

  function InsertByKey<T>(x: Keyed<T>, s: seq<Keyed<T>>): seq<Keyed<T>> {
    if s == [] || AtMost(x.key, s[0].key) then [x] + s
    else [s[0]] + InsertByKey(x, s[1..])
  }

  /** A stable sort by key. */
  function SortByKey<T>(s: seq<Keyed<T>>): seq<Keyed<T>> {
    if s == [] then [] else InsertByKey(s[0], SortByKey(s[1..]))
  }

  lemma {:induction false} InsertMember<T>(x: Keyed<T>, s: seq<Keyed<T>>, y: Keyed<T>)
    ensures y in InsertByKey(x, s) <==> y == x || y in s
  {
    if s == [] {
    } else {
      assert s == [s[0]] + s[1..];
      InsertMember(x, s[1..], y);
    }
  }

  lemma {:induction false} SortMember<T>(s: seq<Keyed<T>>, y: Keyed<T>)
    ensures y in SortByKey(s) <==> y in s
  {
    if s == [] {
    } else {
      assert s == [s[0]] + s[1..];
      SortMember(s[1..], y);
      InsertMember(s[0], SortByKey(s[1..]), y);
    }
  }

  lemma {:induction false} InsertKeepsOrder<T>(x: Keyed<T>, s: seq<Keyed<T>>)
    requires Ascending(s) && forall y :: y in s ==> y.key != x.key
    ensures Ascending(InsertByKey(x, s))
  {
    if s == [] {
    } else {
      assert s[0] in s;
      LessTrichotomy(x.key, s[0].key);
      LessTrichotomy(s[0].key, x.key);
      if AtMost(x.key, s[0].key) {
        forall j | 0 <= j < |s|
          ensures Less(x.key, s[j].key)
        {
          if j > 0 {
            LessTransitive(x.key, s[0].key, s[j].key);
          }
        }
      } else {
        assert forall y :: y in s[1..] ==> y in s;
        InsertKeepsOrder(x, s[1..]);
        var rest := InsertByKey(x, s[1..]);
        forall j | 0 <= j < |rest|
          ensures Less(s[0].key, rest[j].key)
        {
          InsertMember(x, s[1..], rest[j]);
          TailDropsHead(s, rest[j]);
          if rest[j] in s[1..] {
            AboveIsTail(s, 0, rest[j]);
          }
        }
      }
    }
  }

  /** Sorting records with distinct keys gives their canonical listing. */
  lemma {:induction false} SortAscends<T>(s: seq<Keyed<T>>)
    requires DistinctKeys(s)
    ensures Ascending(SortByKey(s))
  {
    if s == [] {
    } else {
      SortAscends(s[1..]);
      forall y | y in SortByKey(s[1..])
        ensures y.key != s[0].key
      {
        SortMember(s[1..], y);
        var k :| 0 <= k < |s[1..]| && s[1..][k] == y;
        assert s[k + 1] == y;
      }
      InsertKeepsOrder(s[0], SortByKey(s[1..]));
    }
  }
}
