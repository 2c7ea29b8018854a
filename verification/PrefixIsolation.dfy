/** When two runs on one cluster keep out of each other's keys. */
module PrefixIsolation {
  import opened Wrappers
  import opened ByteStrings
  import opened Replacing
  import opened Namespacing
  import opened SortedKeys
  import PrefixScan

  // ---- Two prefixes that cannot overlap ----

  /** `q`, placed at offset `d` from the start of `p`, agrees with `p` wherever both are. */
  ghost predicate AgreeAt(p: Bytes, q: Bytes, d: int) {
    forall j :: 0 <= j < |p| && 0 <= j - d < |q| ==> p[j] == q[j - d]
  }

  /** No occurrence of the one can overlap an occurrence of the other, or lie inside it. */
  ghost predicate Apart(p: Bytes, q: Bytes) {
    forall d: int :: -|q| < d < |p| ==> !AgreeAt(p, q, d)
  }

  lemma AgreeIsSymmetric(p: Bytes, q: Bytes, d: int)
    ensures AgreeAt(p, q, d) <==> AgreeAt(q, p, -d)
  {
    if AgreeAt(p, q, d) {
      forall j | 0 <= j < |q| && 0 <= j + d < |p|
        ensures q[j] == p[j + d]
      {
        assert p[j + d] == q[j + d - d];
      }
    }
    if AgreeAt(q, p, -d) {
      forall j | 0 <= j < |p| && 0 <= j - d < |q|
        ensures p[j] == q[j - d]
      {
        assert q[j - d] == p[j - d + d];
      }
    }
  }

  /** An occurrence in three parts lies in the first, in the last, or overlaps the middle. */
  lemma PlaceOfOccurrence(x: Bytes, q: Bytes, rest: Bytes, p: Bytes, i: nat)
    requires OccursAt(x + q + rest, p, i)
    ensures || OccursAt(x, p, i)
            || (i >= |x| + |q| && OccursAt(rest, p, i - |x| - |q|))
            || (-|q| < |x| - i < |p| && AgreeAt(p, q, |x| - i))
  {
    var s := x + q + rest;
    if i + |p| <= |x| {
      assert x[i..i + |p|] == s[i..i + |p|];
    } else if i >= |x| + |q| {
      var k := i - |x| - |q|;
      assert rest[k..k + |p|] == s[i..i + |p|];
    } else {
      var d := |x| - i;
      forall j | 0 <= j < |p| && 0 <= j - d < |q|
        ensures p[j] == q[j - d]
      {
        assert p[j] == s[i..i + |p|][j] == s[i + j];
        assert q[j - d] == s[|x| + (j - d)];
      }
    }
  }

  /** Joining clean pieces with one of two such prefixes makes no occurrence of the other. */
  lemma {:induction false} NoneInJoin(pieces: seq<Bytes>, q: Bytes, p: Bytes)
    requires pieces != [] && Apart(p, q) && NoPieceContains(pieces, p)
    ensures !Contains(Join(pieces, q), p)
  {
    if |pieces| == 1 {
    } else {
      var rest := pieces[1..];
      assert forall i :: 0 <= i < |rest| ==> rest[i] == pieces[i + 1];
      NoneInJoin(rest, q, p);
      var x, tail := pieces[0], Join(rest, q);
      assert Join(pieces, q) == x + q + tail;
      forall i | 0 <= i <= |Join(pieces, q)|
        ensures !OccursAt(Join(pieces, q), p, i)
      {
        if OccursAt(x + q + tail, p, i) {
          PlaceOfOccurrence(x, q, tail, p, i);
        }
        assert !OccursAt(x, p, i) || i > |x|;
        assert i >= |x| + |q| ==> !OccursAt(tail, p, i - |x| - |q|) || i - |x| - |q| > |tail|;
      }
    }
  }

  /** What the harness asks of key arguments: no literal piece spells a run prefix. */
  ghost predicate Clean(arg: KeyArg, p: Bytes, q: Bytes) {
    NoPieceContains(arg.KeyPieces(), p) && NoPieceContains(arg.KeyPieces(), q)
  }

  /** No key of the one run is any key of the other. */
  ghost predicate Isolated(p: Bytes, q: Bytes) {
    forall a: KeyArg, b: KeyArg :: Clean(a, p, q) && Clean(b, p, q) ==> a.AsKey(p).Raw() != b.AsKey(q).Raw()
  }

  lemma KeyContainsItsPrefix(arg: KeyArg, p: Bytes)
    ensures Contains(arg.AsKey(p).Raw(), p)
  {
    KeyIsPiecesJoined(arg, p);
    var first, rest := arg.KeyPieces()[0], Join(arg.KeyPieces()[1..], p);
    var key := first + p + rest;
    assert key[|first|..|first| + |p|] == p;
    assert OccursAt(key, p, |first|);
  }

  lemma ApartMeansIsolated(p: Bytes, q: Bytes)
    requires Apart(p, q)
    ensures Isolated(p, q)
  {
    forall a: KeyArg, b: KeyArg | Clean(a, p, q) && Clean(b, p, q)
      ensures a.AsKey(p).Raw() != b.AsKey(q).Raw()
    {
      KeyContainsItsPrefix(a, p);
      KeyIsPiecesJoined(b, q);
      NoneInJoin(b.KeyPieces(), q, p);
    }
  }

  // ---- Generated prefixes ----

  /** The first name ends in `gate` and the first time spells the second name: then the end of the
      first prefix is the start of the second. */
  ghost predicate Overlaps(name: Bytes, nanos: Bytes, name': Bytes) {
    |name| >= 4 && name[|name| - 4..] == GATE && nanos == name'
  }

  /** Shifted to the right by anything but the first name and a slash, a generated prefix disagrees
      with another: its first slash falls on a letter or a digit, or its `gate` on a digit, or the
      other's last slash on its `gate`. */
  lemma ShiftedPrefixesDisagree(name: Bytes, nanos: Bytes, name': Bytes, nanos': Bytes, d: nat)
    requires IsPlainName(name) && IsNumber(nanos) && IsPlainName(name') && IsNumber(nanos')
    requires 0 < d < |UniquePrefix(name, nanos)| && d != |name| + 1
    ensures !AgreeAt(UniquePrefix(name, nanos), UniquePrefix(name', nanos'), d)
  {
    var p, q := UniquePrefix(name, nanos), UniquePrefix(name', nanos');
    var n, m, last := |name|, |nanos|, |p| - 1;
    if d + 4 > last {
      SlashesAt(name, nanos, last);
      SlashesAt(name', nanos', last - d);
      assert p[last] != q[last - d];
    } else if d == n + m + 2 {
      assert p[d + 3] == nanos[m - 1] && nanos[m - 1] in nanos;
      assert p[d + 3] != q[d + 3 - d];
    } else {
      SlashesAt(name, nanos, d + 4);
      assert p[d + 4] != q[d + 4 - d];
    }
  }

  /** At that one shift, the time of the first prefix runs along the name of the second. */
  lemma TimeRunsAlongName(name: Bytes, nanos: Bytes, name': Bytes, nanos': Bytes)
    requires IsPlainName(name) && IsNumber(nanos) && IsPlainName(name') && IsNumber(nanos')
    requires nanos != name'
    ensures !AgreeAt(UniquePrefix(name, nanos), UniquePrefix(name', nanos'), |name| + 1)
  {
    var p, q, d := UniquePrefix(name, nanos), UniquePrefix(name', nanos'), |name| + 1;
    var m, n' := |nanos|, |name'|;
    if m < n' {
      SlashesAt(name, nanos, d + 5 + m);
      SlashesAt(name', nanos', 5 + m);
      assert p[d + 5 + m] != q[d + 5 + m - d];
    } else if n' < m {
      SlashesAt(name, nanos, d + 5 + n');
      SlashesAt(name', nanos', 5 + n');
      assert p[d + 5 + n'] != q[d + 5 + n' - d];
    } else {
      var i :| 0 <= i < m && nanos[i] != name'[i];
      assert p[d + 5 + i] != q[d + 5 + i - d];
    }
  }

  /** And its `gate` falls on the end of the first name. */
  lemma GateFallsOnName(name: Bytes, nanos: Bytes, name': Bytes, nanos': Bytes)
    requires IsPlainName(name) && IsNumber(nanos)
    requires !(|name| >= 4 && name[|name| - 4..] == GATE)
    ensures !AgreeAt(UniquePrefix(name, nanos), UniquePrefix(name', nanos'), |name| + 1)
  {
    var p, q, n, d := UniquePrefix(name, nanos), UniquePrefix(name', nanos'), |name|, |name| + 1;
    if n < 4 {
      assert p[4] == SLASH && q[4 - d] == GATE[4 - d];
      assert p[4] != q[4 - d];
    } else {
      var i :| 0 <= i < 4 && name[n - 4..][i] != GATE[i];
      assert p[d + i] == name[n - 4 + i] && q[d + i - d] == GATE[i];
      assert p[d + i] != q[d + i - d];
    }
  }

  lemma AgreeMeansOverlaps(name: Bytes, nanos: Bytes, name': Bytes, nanos': Bytes, d: nat)
    requires IsPlainName(name) && IsNumber(nanos) && IsPlainName(name') && IsNumber(nanos')
    requires 0 < d < |UniquePrefix(name, nanos)|
    ensures AgreeAt(UniquePrefix(name, nanos), UniquePrefix(name', nanos'), d) ==> Overlaps(name, nanos, name')
  {
    if d != |name| + 1 {
      ShiftedPrefixesDisagree(name, nanos, name', nanos', d);
    } else if nanos != name' {
      TimeRunsAlongName(name, nanos, name', nanos');
    } else if !(|name| >= 4 && name[|name| - 4..] == GATE) {
      GateFallsOnName(name, nanos, name', nanos');
    }
  }

  /** Exactly which generated prefixes are apart. */
  lemma ApartUnlessOverlapping(name: Bytes, nanos: Bytes, name': Bytes, nanos': Bytes)
    requires IsPlainName(name) && IsNumber(nanos) && IsPlainName(name') && IsNumber(nanos')
    requires UniquePrefix(name, nanos) != UniquePrefix(name', nanos')
    requires !Overlaps(name, nanos, name') && !Overlaps(name', nanos', name)
    ensures Apart(UniquePrefix(name, nanos), UniquePrefix(name', nanos'))
  {
    var p, q := UniquePrefix(name, nanos), UniquePrefix(name', nanos');
    forall d: int | -|q| < d < |p|
      ensures !AgreeAt(p, q, d)
    {
      if d > 0 {
        AgreeMeansOverlaps(name, nanos, name', nanos', d);
      } else if d < 0 {
        AgreeIsSymmetric(p, q, d);
        AgreeMeansOverlaps(name', nanos', name, nanos, -d);
      } else {
        DifferSomewhere(name, nanos, name', nanos');
      }
    }
  }

  lemma DifferSomewhere(name: Bytes, nanos: Bytes, name': Bytes, nanos': Bytes)
    requires IsPlainName(name) && IsNumber(nanos) && IsPlainName(name') && IsNumber(nanos')
    requires UniquePrefix(name, nanos) != UniquePrefix(name', nanos')
    ensures !AgreeAt(UniquePrefix(name, nanos), UniquePrefix(name', nanos'), 0)
  {
    var p, q := UniquePrefix(name, nanos), UniquePrefix(name', nanos');
    if |p| <= |q| {
      ShorterIsNoPrefix(name, nanos, name', nanos');
      var j :| 0 <= j < |p| && q[..|p|][j] != p[j];
      assert q[j - 0] != p[j];
    } else {
      ShorterIsNoPrefix(name', nanos', name, nanos);
      var j :| 0 <= j < |q| && p[..|q|][j] != q[j];
      assert q[j - 0] != p[j];
    }
  }

  // ---- Overlapping prefixes do collide ----

  /** Text without an opening brace, then a token, then such text, has these two pieces. */
  lemma {:induction false} SplitAroundToken(x: Bytes, y: Bytes)
    requires 123 !in x && 123 !in y
    ensures Split(x + TOKEN + y, TOKEN) == [x, y] && Contains(x + TOKEN + y, TOKEN)
  {
    var s := x + TOKEN + y;
    assert s[|x|..|x| + 3] == TOKEN;
    assert OccursAt(s, TOKEN, |x|);
    if x == [] {
      assert s[..3] == TOKEN && s[3..] == y;
      NoTokenWithoutBrace(y);
      SplitWithout(y, TOKEN);
    } else {
      assert s[1..] == x[1..] + TOKEN + y;
      SplitAroundToken(x[1..], y);
      assert s[0] == x[0] && x[0] in x;
      assert s[..3][0] == s[0] && TOKEN[0] == 123;
      assert [x[0]] + x[1..] == x;
    }
  }

  lemma NoTokenWithoutBrace(y: Bytes)
    requires 123 !in y
    ensures !Contains(y, TOKEN)
  {
    forall i | 0 <= i <= |y|
      ensures !OccursAt(y, TOKEN, i)
    {
      if i + 3 <= |y| {
        assert y[i..i + 3][0] == y[i] && y[i] in y;
      }
    }
  }

  /** A text with at most one slash contains no generated prefix. */
  lemma NoPrefixInside(x: Bytes, name: Bytes, nanos: Bytes)
    requires forall i, j :: 0 <= i < j < |x| ==> x[i] != SLASH || x[j] != SLASH
    ensures !Contains(x, UniquePrefix(name, nanos))
  {
    var p := UniquePrefix(name, nanos);
    assert p[4] == SLASH && p[|p| - 1] == SLASH;
    forall i | 0 <= i <= |x|
      ensures !OccursAt(x, p, i)
    {
      if i + |p| <= |x| {
        assert x[i..i + |p|][4] == x[i + 4] && x[i..i + |p|][|p| - 1] == x[i + |p| - 1];
      }
    }
  }

  /** What is left of two overlapping prefixes on either side. */
  ghost function Before(name: Bytes): Bytes
    requires |name| >= 4
  {
    GATE + [SLASH] + name[..|name| - 4]
  }

  ghost function After(nanos': Bytes): Bytes {
    nanos' + [SLASH]
  }

  lemma LeftoversAreClean(name: Bytes, nanos: Bytes, name': Bytes, nanos': Bytes, x: Bytes)
    requires IsPlainName(name) && IsNumber(nanos) && IsPlainName(name') && IsNumber(nanos') && |name| >= 4
    requires x == Before(name) || x == After(nanos') || x == []
    ensures !Contains(x, UniquePrefix(name, nanos)) && !Contains(x, UniquePrefix(name', nanos'))
    ensures 123 !in x
  {
    if x == Before(name) {
      forall i | 0 <= i < |x|
        ensures (x[i] == SLASH ==> i == 4) && x[i] != 123
      {
        if i > 4 {
          assert x[i] == name[i - 5] && name[i - 5] in name;
        }
      }
    } else if x == After(nanos') {
      forall i | 0 <= i < |x|
        ensures (x[i] == SLASH ==> i == |x| - 1) && x[i] != 123
      {
        if i < |nanos'| {
          assert x[i] == nanos'[i] && nanos'[i] in nanos';
        }
      }
    }
    NoPrefixInside(x, name, nanos);
    NoPrefixInside(x, name', nanos');
  }

  lemma KeyOfTwoPieces(x: Bytes, y: Bytes, p: Bytes)
    requires 123 !in x && 123 !in y
    ensures Utf8(x + TOKEN + y).KeyPieces() == [x, y]
    ensures Utf8(x + TOKEN + y).AsKey(p).Raw() == x + p + y
  {
    SplitAroundToken(x, y);
    KeyIsPiecesJoined(Utf8(x + TOKEN + y), p);
    JoinOfTwo(x, y, p);
  }

  lemma TwoCleanPieces(arg: KeyArg, x: Bytes, y: Bytes, p: Bytes, q: Bytes)
    requires arg.KeyPieces() == [x, y]
    requires !Contains(x, p) && !Contains(y, p) && !Contains(x, q) && !Contains(y, q)
    ensures Clean(arg, p, q)
  {
  }

  lemma MeetInTheMiddle(name: Bytes, nanos: Bytes, name': Bytes, nanos': Bytes)
    requires Overlaps(name, nanos, name')
    ensures UniquePrefix(name, nanos) + After(nanos') == Before(name) + UniquePrefix(name', nanos')
  {
    assert name == name[..|name| - 4] + GATE;
  }

  lemma FirstOfTheTwo(name: Bytes, nanos: Bytes, name': Bytes, nanos': Bytes) returns (a: KeyArg)
    requires IsPlainName(name) && IsNumber(nanos) && IsPlainName(name') && IsNumber(nanos') && |name| >= 4
    ensures Clean(a, UniquePrefix(name, nanos), UniquePrefix(name', nanos'))
    ensures a.AsKey(UniquePrefix(name, nanos)).Raw() == UniquePrefix(name, nanos) + After(nanos')
  {
    var p, q, none, after := UniquePrefix(name, nanos), UniquePrefix(name', nanos'), [], After(nanos');
    a := Utf8(none + TOKEN + after);
    LeftoversAreClean(name, nanos, name', nanos', after);
    LeftoversAreClean(name, nanos, name', nanos', none);
    KeyOfTwoPieces(none, after, p);
    TwoCleanPieces(a, none, after, p, q);
    assert none + p + after == p + after;
  }

  lemma SecondOfTheTwo(name: Bytes, nanos: Bytes, name': Bytes, nanos': Bytes) returns (b: KeyArg)
    requires IsPlainName(name) && IsNumber(nanos) && IsPlainName(name') && IsNumber(nanos') && |name| >= 4
    ensures Clean(b, UniquePrefix(name, nanos), UniquePrefix(name', nanos'))
    ensures b.AsKey(UniquePrefix(name', nanos')).Raw() == Before(name) + UniquePrefix(name', nanos')
  {
    var p, q, none, before := UniquePrefix(name, nanos), UniquePrefix(name', nanos'), [], Before(name);
    b := Utf8(before + TOKEN + none);
    LeftoversAreClean(name, nanos, name', nanos', before);
    LeftoversAreClean(name, nanos, name', nanos', none);
    KeyOfTwoPieces(before, none, q);
    TwoCleanPieces(b, before, none, p, q);
    assert before + q + none == before + q;
  }

  /** If the end of one prefix is the start of the other, then some key of the one run is a key of
      the other. */
  lemma OverlappingRunsCollide(name: Bytes, nanos: Bytes, name': Bytes, nanos': Bytes)
    requires IsPlainName(name) && IsNumber(nanos) && IsPlainName(name') && IsNumber(nanos')
    requires Overlaps(name, nanos, name')
    ensures !Isolated(UniquePrefix(name, nanos), UniquePrefix(name', nanos'))
  {
    var a := FirstOfTheTwo(name, nanos, name', nanos');
    var b := SecondOfTheTwo(name, nanos, name', nanos');
    MeetInTheMiddle(name, nanos, name', nanos');
  }

  lemma IsolationIsSymmetric(p: Bytes, q: Bytes)
    requires Isolated(p, q)
    ensures Isolated(q, p)
  {
    forall a: KeyArg, b: KeyArg | Clean(a, q, p) && Clean(b, q, p)
      ensures a.AsKey(q).Raw() != b.AsKey(p).Raw()
    {
      assert Clean(b, p, q) && Clean(a, p, q);
    }
  }

  /** Main theorem: two runs with different generated prefixes never share a key, whatever clean
      arguments either uses, exactly unless the name of one ends in `gate` while its time spells
      the name of the other. */
  lemma RunsAreIsolatedIff(name: Bytes, nanos: Bytes, name': Bytes, nanos': Bytes)
    requires IsPlainName(name) && IsNumber(nanos) && IsPlainName(name') && IsNumber(nanos')
    requires UniquePrefix(name, nanos) != UniquePrefix(name', nanos')
    ensures Isolated(UniquePrefix(name, nanos), UniquePrefix(name', nanos')) <==>
            !Overlaps(name, nanos, name') && !Overlaps(name', nanos', name)
  {
    var p, q := UniquePrefix(name, nanos), UniquePrefix(name', nanos');
    if !Overlaps(name, nanos, name') && !Overlaps(name', nanos', name) {
      ApartUnlessOverlapping(name, nanos, name', nanos');
      ApartMeansIsolated(p, q);
    } else if Overlaps(name, nanos, name') {
      OverlappingRunsCollide(name, nanos, name', nanos');
    } else {
      OverlappingRunsCollide(name', nanos', name, nanos);
      if Isolated(p, q) {
        IsolationIsSymmetric(p, q);
      }
    }
  }

  /** In particular the runs of one scenario, which differ in their times alone, are isolated. */
  lemma RunsOfOneScenarioAreIsolated(name: Bytes, nanos: Bytes, nanos': Bytes)
    requires IsPlainName(name) && IsNumber(nanos) && IsNumber(nanos') && nanos != nanos'
    ensures Isolated(UniquePrefix(name, nanos), UniquePrefix(name, nanos'))
  {
    var p, q := UniquePrefix(name, nanos), UniquePrefix(name, nanos');
    assert p[6 + |name|..|p| - 1] == nanos && q[6 + |name|..|q| - 1] == nanos';
    if |name| >= 4 && name[|name| - 4..] == GATE {
      assert name[|name| - 1] == GATE[3] && name[|name| - 1] in name;
    }
    RunsAreIsolatedIff(name, nanos, name, nanos');
  }

  // ---- Ranges ----

  /** Every key of the range starts with the prefix. */
  ghost predicate IsBracketed(lo: Bytes, hi: Bytes, p: Bytes) {
    forall key: Bytes :: InRange(key, lo, Some(hi)) ==> StartsWith(key, p)
  }

  /** The upper end is no higher than the keys with the prefix go. */
  ghost predicate EndsWithPrefix(hi: Bytes, p: Bytes) {
    var u := PrefixScan.UpperBound(p);
    u.Some? ==> AtMost(hi, u.value)
  }

  lemma BracketedKey(lo: Bytes, hi: Bytes, p: Bytes, key: Bytes)
    requires StartsWith(lo, p) && EndsWithPrefix(hi, p) && InRange(key, lo, Some(hi))
    ensures StartsWith(key, p)
  {
    PrefixScan.RangeIsExactlyThePrefix(p, lo);
    PrefixScan.RangeIsExactlyThePrefix(p, key);
    AtMostTransitive(p, lo, key);
    if PrefixScan.UpperBound(p).Some? {
      AtMostThenLess(key, hi, PrefixScan.UpperBound(p).value);
    }
  }

  /** Exactly which ranges that hold a key stay under a prefix. */
  lemma BracketedIff(lo: Bytes, hi: Bytes, p: Bytes)
    requires Less(lo, hi)
    ensures IsBracketed(lo, hi, p) <==> StartsWith(lo, p) && EndsWithPrefix(hi, p)
  {
    if StartsWith(lo, p) && EndsWithPrefix(hi, p) {
      forall key: Bytes | InRange(key, lo, Some(hi))
        ensures StartsWith(key, p)
      {
        BracketedKey(lo, hi, p, key);
      }
    }
    if StartsWith(lo, p) && !EndsWithPrefix(hi, p) {
      var u := PrefixScan.UpperBound(p).value;
      PrefixScan.RangeIsExactlyThePrefix(p, lo);
      PrefixScan.RangeIsExactlyThePrefix(p, u);
      LessTrichotomy(hi, u);
      LessTrichotomy(u, hi);
      LessIrreflexive(u);
      assert InRange(u, lo, Some(hi)) && !StartsWith(u, p);
    }
    assert InRange(lo, lo, Some(hi));
  }

  /** A range between two keys with a prefix holds keys with that prefix only. */
  lemma RangeStaysUnderPrefix(lo: Bytes, hi: Bytes, p: Bytes, key: Bytes)
    requires StartsWith(lo, p) && StartsWith(hi, p) && InRange(key, lo, Some(hi))
    ensures StartsWith(key, p)
  {
    PrefixScan.RangeIsExactlyThePrefix(p, hi);
    BracketedKey(lo, hi, p, key);
  }

  /** Exactly which scans bracket their run. The start must lead with the token, have none, or spell
      the prefix out; the end must not lie above the run's keys. */
  lemma ScanIsBracketedIff(start: KeyArg, end: KeyArg, p: Bytes)
    requires Admissible(p) && Less(start.AsKey(p).Raw(), end.AsKey(p).Raw())
    ensures IsBracketed(start.AsKey(p).Raw(), end.AsKey(p).Raw(), p) <==>
            && (start.KeyPieces()[0] == [] || StartsWith(start.KeyPieces()[0], p))
            && EndsWithPrefix(end.AsKey(p).Raw(), p)
  {
    BracketedIff(start.AsKey(p).Raw(), end.AsKey(p).Raw(), p);
    KeyIsUnderPrefixIff(start, p);
  }

  /** A scan with a token in the middle of its bounds can see every key of every run. */
  lemma MiddleTokenScansSeeEveryRun(p: Bytes, name: Bytes, nanos: Bytes, key: Bytes) returns (start: KeyArg, end: KeyArg)
    requires StartsWith(key, UniquePrefix(name, nanos))
    ensures start == Utf8([97] + TOKEN) && end == Utf8([104] + TOKEN)
    ensures InRange(key, start.AsKey(p).Raw(), Some(end.AsKey(p).Raw()))
  {
    start, end := Utf8([97] + TOKEN), Utf8([104] + TOKEN);
    assert [97] + TOKEN + [] == [97] + TOKEN && [104] + TOKEN + [] == [104] + TOKEN;
    KeyOfTwoPieces([97], [], p);
    KeyOfTwoPieces([104], [], p);
    assert key[0] == key[..|UniquePrefix(name, nanos)|][0] == 103;
  }

  /** A scan whose two bounds lead with the token, or have none, brackets its own run: every key
      it can see starts with the run's prefix, and none starts with another run's. */
  lemma ScansBracketTheirRun(start: KeyArg, end: KeyArg, key: Bytes, name: Bytes, nanos: Bytes, name': Bytes, nanos': Bytes)
    requires IsPlainName(name) && IsNumber(nanos) && IsPlainName(name') && IsNumber(nanos')
    requires start.KeyPieces()[0] == [] && end.KeyPieces()[0] == []
    requires var p := UniquePrefix(name, nanos); InRange(key, start.AsKey(p).Raw(), Some(end.AsKey(p).Raw()))
    ensures StartsWith(key, UniquePrefix(name, nanos))
    ensures UniquePrefix(name, nanos) != UniquePrefix(name', nanos') ==> !StartsWith(key, UniquePrefix(name', nanos'))
  {
    var p := UniquePrefix(name, nanos);
    GeneratedPrefixIsAdmissible(name, nanos);
    KeyIsUnderPrefixIff(start, p);
    KeyIsUnderPrefixIff(end, p);
    RangeStaysUnderPrefix(start.AsKey(p).Raw(), end.AsKey(p).Raw(), p, key);
    if p != UniquePrefix(name', nanos') {
      GeneratedPrefixesAreDisjoint(key, name, nanos, name', nanos');
    }
  }
}
