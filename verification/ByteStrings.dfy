/** Byte strings under the lexicographic order that TiKV, PD and Rust's slices use for keys. */
module ByteStrings {
  type Byte = x: int | 0 <= x < 256
  type Bytes = seq<Byte>

  /** Strict lexicographic order. It is stated on integer sequences so that text, as a
      sequence of code points, is ordered by the same definition as bytes. */
  predicate Less(a: seq<int>, b: seq<int>) {
    b != [] && (a == [] || a[0] < b[0] || (a[0] == b[0] && Less(a[1..], b[1..])))
  }

  predicate AtMost(a: seq<int>, b: seq<int>) {
    a == b || Less(a, b)
  }

  predicate StartsWith(s: seq<int>, prefix: seq<int>) {
    |prefix| <= |s| && s[..|prefix|] == prefix
  }

  /** A common prefix never decides a comparison. */
  lemma {:induction false} LessCancelsPrefix(p: seq<int>, a: seq<int>, b: seq<int>)
    ensures Less(p + a, p + b) <==> Less(a, b)
  {
    if p == [] {
      assert p + a == a && p + b == b;
    } else {
      assert (p + a)[1..] == p[1..] + a && (p + b)[1..] == p[1..] + b;
      LessCancelsPrefix(p[1..], a, b);
    }
  }

  /** Two strings that agree up to `i` compare as their remainders do. */
  lemma LessAfter(a: seq<int>, b: seq<int>, i: nat)
    requires i <= |a| && i <= |b| && a[..i] == b[..i]
    ensures Less(a, b) <==> Less(a[i..], b[i..])
  {
    assert a == a[..i] + a[i..] && b == b[..i] + b[i..];
    LessCancelsPrefix(a[..i], a[i..], b[i..]);
  }

  lemma {:induction false} LessIrreflexive(a: seq<int>)
    ensures !Less(a, a)
  {
    if a == [] {
    } else {
      LessIrreflexive(a[1..]);
    }
  }

  lemma {:induction false} LessTransitive(a: seq<int>, b: seq<int>, c: seq<int>)
    requires Less(a, b) && Less(b, c)
    ensures Less(a, c)
  {
    if a == [] || !(a[0] == b[0] == c[0]) {
    } else {
      LessTransitive(a[1..], b[1..], c[1..]);
    }
  }

  lemma {:induction false} LessTotal(a: seq<int>, b: seq<int>)
    ensures a == b || Less(a, b) || Less(b, a)
  {
    if a == [] || b == [] || a[0] != b[0] {
    } else {
      LessTotal(a[1..], b[1..]);
      assert a == [a[0]] + a[1..] && b == [b[0]] + b[1..];
    }
  }

  /** The order is strict and total, so exactly one of the three relations holds. */
  lemma LessTrichotomy(a: seq<int>, b: seq<int>)
    ensures a == b ==> !Less(a, b) && !Less(b, a)
    ensures a != b ==> (Less(a, b) <==> !Less(b, a))
    ensures !Less(a, b) <==> AtMost(b, a)
  {
    LessTotal(a, b);
    LessIrreflexive(a);
    if Less(a, b) && Less(b, a) {
      LessTransitive(a, b, a);
    }
  }

  lemma AtMostThenLess(a: seq<int>, b: seq<int>, c: seq<int>)
    requires (AtMost(a, b) && Less(b, c)) || (Less(a, b) && AtMost(b, c))
    ensures Less(a, c)
  {
    if a != b && b != c {
      LessTransitive(a, b, c);
    }
  }

  lemma AtMostTransitive(a: seq<int>, b: seq<int>, c: seq<int>)
    requires AtMost(a, b) && AtMost(b, c)
    ensures AtMost(a, c)
  {
    if a != b {
      AtMostThenLess(a, b, c);
    }
  }

  /** Appending a zero byte gives the immediate successor: a byte string lies above `k`
      exactly when it is at least `k` followed by 0. */
  lemma {:induction false} ZeroByteIsSuccessor(k: Bytes, x: Bytes)
    ensures Less(k, x) <==> AtMost(k + [0], x)
  {
    if k != [] && x != [] {
      assert (k + [0])[1..] == k[1..] + [0];
      if k[0] == x[0] {
        ZeroByteIsSuccessor(k[1..], x[1..]);
        assert x == [x[0]] + x[1..];
        assert k + [0] == [k[0]] + (k[1..] + [0]);
      }
    } else if x != [] {
      assert k + [0] == [0];
      assert Less([0], x) <==> 0 < x[0] || (0 == x[0] && Less([0][1..], x[1..]));
      assert Less([0][1..], x[1..]) <==> x[1..] != [];
      assert x == [x[0]] + x[1..];
    }
  }
}
