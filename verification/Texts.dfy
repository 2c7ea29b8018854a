/** Text as sequences of code points: its order, sorting, and sorted listings of sets of text. */
module Texts {
  import opened ByteStrings

  function Codes(s: string): (c: seq<int>)
    ensures |c| == |s|
  {
    seq(|s|, i requires 0 <= i < |s| => s[i] as int)
  }

  lemma CodesAreInjective(s: string, t: string)
    ensures Codes(s) == Codes(t) <==> s == t
  {
    if Codes(s) == Codes(t) {
      forall i | 0 <= i < |s|
        ensures s[i] == t[i]
      {
        assert Codes(s)[i] == Codes(t)[i];
      }
    }
  }

  /** The order of `String` and of `BTreeMap<String, _>`. */
  predicate Before(s: string, t: string) {
    Less(Codes(s), Codes(t))
  }

  lemma BeforeIsStrictTotal(s: string, t: string)
    ensures s == t ==> !Before(s, t)
    ensures s != t ==> (Before(s, t) <==> !Before(t, s))
  {
    CodesAreInjective(s, t);
    LessTrichotomy(Codes(s), Codes(t));
  }

  lemma BeforeIsTransitive(s: string, t: string, u: string)
    requires Before(s, t) && Before(t, u)
    ensures Before(s, u)
  {
    LessTransitive(Codes(s), Codes(t), Codes(u));
  }

  // ---- Sorting ----

  function Inserted(x: string, s: seq<string>): seq<string> {
    if s == [] || !Before(s[0], x) then [x] + s else [s[0]] + Inserted(x, s[1..])
  }

  function Sorted(s: seq<string>): seq<string> {
    if s == [] then [] else Inserted(s[0], Sorted(s[1..]))
  }

  ghost predicate NonDecreasing(s: seq<string>) {
    forall i, j :: 0 <= i < j < |s| ==> !Before(s[j], s[i])
  }

  lemma {:induction false} InsertedKeeps(x: string, s: seq<string>)
    ensures multiset(Inserted(x, s)) == multiset{x} + multiset(s)
  {
    if s == [] || !Before(s[0], x) {
    } else {
      InsertedKeeps(x, s[1..]);
      assert s == [s[0]] + s[1..];
    }
  }

  lemma {:induction false} InsertedIsOrdered(x: string, s: seq<string>)
    requires NonDecreasing(s)
    ensures NonDecreasing(Inserted(x, s))
  {
    if s == [] {
    } else {
      var rest := s[1..];
      if Before(s[0], x) {
        InsertedIsOrdered(x, rest);
        InsertedKeeps(x, rest);
        forall y | y in Inserted(x, rest)
          ensures !Before(y, s[0])
        {
          assert y in multiset(Inserted(x, rest));
          BeforeIsStrictTotal(s[0], x);
          if y != x {
            assert y in rest;
          }
        }
        var r := Inserted(x, rest);
        assert forall j :: 0 <= j < |r| ==> r[j] in r;
      } else {
        forall j | 0 <= j < |s|
          ensures !Before(s[j], x)
        {
          StepsDown(s[j], s[0], x);
        }
      }
    }
  }

  lemma StepsDown(y: string, s: string, x: string)
    requires !Before(s, x) && (y == s || !Before(y, s))
    ensures !Before(y, x)
  {
    BeforeIsStrictTotal(y, s);
    if y != s && Before(y, x) {
      BeforeIsTransitive(s, y, x);
    }
  }

  /** Sorting returns the same texts, in order. */
  lemma {:induction false} SortedIsASort(s: seq<string>)
    ensures multiset(Sorted(s)) == multiset(s) && NonDecreasing(Sorted(s)) && |Sorted(s)| == |s|
  {
    if s == [] {
    } else {
      SortedIsASort(s[1..]);
      InsertedKeeps(s[0], Sorted(s[1..]));
      InsertedIsOrdered(s[0], Sorted(s[1..]));
      assert s == [s[0]] + s[1..];
    }
    assert |multiset(Sorted(s))| == |multiset(s)|;
  }

  lemma {:induction false} InsertionsCommute(x: string, y: string, s: seq<string>)
    ensures Inserted(x, Inserted(y, s)) == Inserted(y, Inserted(x, s))
  {
    BeforeIsStrictTotal(x, y);
    if s == [] {
    } else {
      BeforeIsStrictTotal(s[0], x);
      BeforeIsStrictTotal(s[0], y);
      if Before(s[0], x) && Before(s[0], y) {
        InsertionsCommute(x, y, s[1..]);
      } else if Before(s[0], x) {
        StepsDown(x, s[0], y);
      } else if Before(s[0], y) {
        StepsDown(y, s[0], x);
      }
    }
  }

  /** Any element may be inserted last. */
  lemma {:induction false} SortedFromAnywhere(s: seq<string>, i: nat)
    requires i < |s|
    ensures Sorted(s) == Inserted(s[i], Sorted(s[..i] + s[i + 1..]))
  {
    var rest := s[..i] + s[i + 1..];
    if i == 0 {
      assert rest == s[1..];
    } else {
      assert rest[0] == s[0] && rest[1..] == s[1..][..i - 1] + s[1..][i..];
      SortedFromAnywhere(s[1..], i - 1);
      InsertionsCommute(s[0], s[i], Sorted(rest[1..]));
    }
  }

  /** Of two sequences with the same elements, the second has the head of the first somewhere,
      and the rest of it is the rest of the first in some order. */
  lemma FindHead<T>(s: seq<T>, t: seq<T>) returns (i: nat)
    requires multiset(s) == multiset(t) && s != []
    ensures i < |t| && t[i] == s[0] && multiset(s[1..]) == multiset(t[..i] + t[i + 1..])
  {
    assert s == [s[0]] + s[1..];
    assert s[0] in multiset(t);
    i :| 0 <= i < |t| && t[i] == s[0];
    assert t == t[..i] + [t[i]] + t[i + 1..];
    assert multiset(t[..i] + t[i + 1..]) == multiset(t) - multiset{s[0]} == multiset(s[1..]);
  }

  /** The result of a sort does not depend on the order its input came in. */
  lemma {:induction false} SortForgetsOrder(s: seq<string>, t: seq<string>)
    requires multiset(s) == multiset(t)
    ensures Sorted(s) == Sorted(t)
  {
    if s == [] {
      assert |multiset(t)| == 0;
    } else {
      var i := FindHead(s, t);
      SortForgetsOrder(s[1..], t[..i] + t[i + 1..]);
      SortedFromAnywhere(t, i);
    }
  }

  // ---- Sorted listings of sets ----

  ghost predicate Ascending(s: seq<string>) {
    forall i, j :: 0 <= i < j < |s| ==> Before(s[i], s[j])
  }

  predicate IsLeast(x: string, s: set<string>) {
    x in s && forall y :: y in s && y != x ==> Before(x, y)
  }

  lemma {:induction false} LeastExists(s: set<string>)
    requires s != {}
    ensures exists x :: IsLeast(x, s)
    decreases |s|
  {
    var a :| a in s;
    var rest := s - {a};
    if rest == {} {
      assert s == {a};
      assert IsLeast(a, s);
    } else {
      LeastExists(rest);
      var b :| IsLeast(b, rest);
      BeforeIsStrictTotal(a, b);
      if Before(b, a) {
        assert IsLeast(b, s);
      } else {
        forall y | y in s && y != a
          ensures Before(a, y)
        {
          if y != b {
            BeforeIsTransitive(a, b, y);
          }
        }
        assert IsLeast(a, s);
      }
    }
  }

  lemma LeastIsUnique(s: set<string>, x: string, y: string)
    requires IsLeast(x, s) && IsLeast(y, s)
    ensures x == y
  {
    BeforeIsStrictTotal(x, y);
  }

  function Least(s: set<string>): (x: string)
    requires s != {}
    ensures IsLeast(x, s)
  {
    LeastExists(s);
    assert forall x, y :: IsLeast(x, s) && IsLeast(y, s) ==> x == y by {
      forall x, y | IsLeast(x, s) && IsLeast(y, s)
        ensures x == y
      {
        LeastIsUnique(s, x, y);
      }
    }
    var x :| IsLeast(x, s);
    x
  }

  /** The elements of a set in ascending order: how an ordered map iterates over its keys. */
  function Listing(s: set<string>): (r: seq<string>)
    ensures forall x :: x in r <==> x in s
    decreases |s|
  {
    if s == {} then []
    else
      var x := Least(s);
      assert s == {x} + (s - {x});
      [x] + Listing(s - {x})
  }

  lemma {:induction false} ListingAscends(s: set<string>)
    ensures Ascending(Listing(s))
    decreases |s|
  {
    if s == {} {
    } else {
      var x := Least(s);
      ListingAscends(s - {x});
      var rest := Listing(s - {x});
      assert forall j :: 0 <= j < |rest| ==> rest[j] in rest;
    }
  }

  /** There is one ascending listing of given texts. */
  lemma {:induction false} AscendingIsListing(r: seq<string>, s: set<string>)
    requires Ascending(r) && forall x :: x in r <==> x in s
    ensures r == Listing(s)
    decreases |r|
  {
    if r == [] {
      assert s == {};
    } else {
      assert r[0] in r;
      var x := Least(s);
      assert x in r;
      var i :| 0 <= i < |r| && r[i] == x;
      BeforeIsStrictTotal(x, r[0]);
      assert i == 0;
      forall y
        ensures y in r[1..] <==> y in s - {x}
      {
        BeforeIsStrictTotal(x, x);
        assert r == [x] + r[1..];
        assert forall j :: 0 <= j < |r[1..]| ==> r[1..][j] == r[j + 1];
      }
      AscendingIsListing(r[1..], s - {x});
      assert r == [x] + r[1..];
    }
  }

  /** Drops each text that repeats the one before it. */
  function Dedup(s: seq<string>): seq<string> {
    if |s| <= 1 then s
    else if s[0] == s[1] then Dedup(s[1..])
    else [s[0]] + Dedup(s[1..])
  }

  lemma {:induction false} DedupMembers(s: seq<string>, x: string)
    ensures x in Dedup(s) <==> x in s
  {
    if |s| <= 1 {
    } else {
      DedupMembers(s[1..], x);
      assert s == [s[0]] + s[1..];
    }
  }

  lemma {:induction false} DedupAscends(s: seq<string>)
    requires NonDecreasing(s)
    ensures Ascending(Dedup(s))
  {
    if |s| <= 1 {
    } else {
      DedupAscends(s[1..]);
      if s[0] != s[1] {
        var rest := Dedup(s[1..]);
        forall j | 0 <= j < |rest|
          ensures Before(s[0], rest[j])
        {
          DedupMembers(s[1..], rest[j]);
          var k :| 0 <= k < |s[1..]| && s[1..][k] == rest[j];
          assert s[k + 1] == rest[j];
          BeforeIsStrictTotal(s[0], s[1]);
          BeforeIsStrictTotal(s[1], rest[j]);
          if s[1] != rest[j] {
            assert k > 0 && !Before(s[k + 1], s[1]);
            BeforeIsTransitive(s[0], s[1], rest[j]);
          }
        }
      }
    }
  }

  /** Chaining two key lists, sorting and deduplicating lists the union of the keys. */
  lemma ChainedKeysAreTheUnion(a: set<string>, b: set<string>)
    ensures Dedup(Sorted(Listing(a) + Listing(b))) == Listing(a + b)
  {
    var chained := Listing(a) + Listing(b);
    SortedIsASort(chained);
    DedupAscends(Sorted(chained));
    forall x
      ensures x in Dedup(Sorted(chained)) <==> x in a + b
    {
      DedupMembers(Sorted(chained), x);
      assert x in Sorted(chained) <==> x in multiset(Sorted(chained));
      assert x in chained <==> x in multiset(chained);
    }
    AscendingIsListing(Dedup(Sorted(chained)), a + b);
  }

  function Joined(parts: seq<string>, separator: string): string {
    if parts == [] then ""
    else if |parts| == 1 then parts[0]
    else parts[0] + separator + Joined(parts[1..], separator)
  }

  /** Joining puts one separator between any two neighbours. */
  lemma {:induction false} JoinedOfTwo(a: seq<string>, b: seq<string>, separator: string)
    ensures Joined([], separator) == "" && (|a| == 1 ==> Joined(a, separator) == a[0])
    ensures a != [] && b != [] ==> Joined(a + b, separator) == Joined(a, separator) + separator + Joined(b, separator)
    decreases |a|
  {
    if a == [] {
    } else {
      JoinedOfTwo(a[1..], b, separator);
      assert (a + b)[1..] == a[1..] + b;
    }
  }

  /** The text before the first `c`. */
  function UpTo(text: string, c: char): string {
    if text == "" || text[0] == c then "" else [text[0]] + UpTo(text[1..], c)
  }

  lemma {:induction false} UpToIsTheHead(head: string, c: char, rest: string)
    requires c !in head
    ensures UpTo(head + [c] + rest, c) == head && UpTo(head, c) == head
  {
    var text := head + [c] + rest;
    if head == "" {
    } else {
      assert text[1..] == head[1..] + [c] + rest && head[0] in head;
      UpToIsTheHead(head[1..], c, rest);
    }
  }

  /** Texts without `c` and not empty. */
  predicate AreWords(parts: seq<string>, c: char) {
    forall i :: 0 <= i < |parts| ==> parts[i] != "" && c !in parts[i]
  }

  lemma JoinedWords(parts: seq<string>, c: char)
    requires parts != [] && AreWords(parts, c)
    ensures Joined(parts, [c]) != "" && UpTo(Joined(parts, [c]), c) == parts[0]
    ensures |parts| == 1 <==> Joined(parts, [c]) == parts[0]
    ensures |parts| > 1 ==> Joined(parts, [c])[|parts[0]| + 1..] == Joined(parts[1..], [c])
  {
    if |parts| == 1 {
      UpToIsTheHead(parts[0], c, "");
    } else {
      UpToIsTheHead(parts[0], c, Joined(parts[1..], [c]));
    }
  }

  /** Joined words can be told apart. */
  lemma {:induction false} JoinedWordsAreInjective(a: seq<string>, b: seq<string>, c: char)
    requires AreWords(a, c) && AreWords(b, c)
    ensures Joined(a, [c]) == Joined(b, [c]) <==> a == b
    decreases |a|
  {
    if a == [] || b == [] {
      if a != [] { JoinedWords(a, c); }
      if b != [] { JoinedWords(b, c); }
    } else {
      JoinedWords(a, c);
      JoinedWords(b, c);
      JoinedWordsAreInjective(a[1..], b[1..], c);
      assert a == [a[0]] + a[1..] && b == [b[0]] + b[1..];
    }
  }

  /** The number that a text of digits stands for. */
  function ReadDecimal(s: string): int {
    if s == "" then 0 else 10 * ReadDecimal(s[..|s| - 1]) + (s[|s| - 1] as int - '0' as int)
  }

  lemma {:induction false} DecimalReadsBack(n: nat)
    ensures ReadDecimal(Decimal(n)) == n && forall c :: c in Decimal(n) ==> '0' <= c <= '9'
  {
    DigitReadsBack(n % 10);
    if n < 10 {
      assert Decimal(n)[..0] == "";
    } else {
      DecimalReadsBack(n / 10);
      assert Decimal(n)[..|Decimal(n)| - 1] == Decimal(n / 10);
    }
  }

  lemma DigitReadsBack(d: nat)
    requires d < 10
    ensures Digit(d) as int - '0' as int == d
  {
  }

  function Digit(d: nat): char
    requires d < 10
  {
    "0123456789"[d]
  }

  function Decimal(n: nat): (s: string)
    ensures s != []
  {
    if n < 10 then [Digit(n)] else Decimal(n / 10) + [Digit(n % 10)]
  }

  lemma {:induction false} DecimalIsInjective(m: nat, n: nat)
    ensures Decimal(m) == Decimal(n) <==> m == n
    decreases m + n
  {
    if m >= 10 && n >= 10 {
      DecimalIsInjective(m / 10, n / 10);
      DecimalDigits(m, n);
    } else if m >= 10 {
      assert |Decimal(m)| > 1;
    } else if n >= 10 {
      assert |Decimal(n)| > 1;
    } else {
      DigitIsInjective(m, n);
    }
  }

  lemma DigitIsInjective(m: nat, n: nat)
    requires m < 10 && n < 10
    ensures Digit(m) == Digit(n) <==> m == n
  {
  }

  lemma DecimalDigits(m: nat, n: nat)
    requires m >= 10 && n >= 10
    ensures Decimal(m) == Decimal(n) <==> Decimal(m / 10) == Decimal(n / 10) && m % 10 == n % 10
  {
    var a, b := Decimal(m), Decimal(n);
    assert a[..|a| - 1] == Decimal(m / 10) && b[..|b| - 1] == Decimal(n / 10);
    assert a[|a| - 1] == Digit(m % 10) && b[|b| - 1] == Digit(n % 10);
    DigitIsInjective(m % 10, n % 10);
  }
}
