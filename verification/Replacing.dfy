/** Find and replace on byte strings, and the strings for which it can be undone. */
module Replacing {
  import opened ByteStrings

  /** Every leftmost, non-overlapping occurrence of the needle replaced. */
  function Substituted(hay: Bytes, needle: Bytes, with: Bytes): Bytes
    requires needle != []
    decreases |hay|
  {
    if hay == [] then []
    else if StartsWith(hay, needle) then with + Substituted(hay[|needle|..], needle, with)
    else [hay[0]] + Substituted(hay[1..], needle, with)
  }

  /** The same for any needle: an empty one, or one longer than the text, changes nothing. */
  function Replaced(hay: Bytes, needle: Bytes, with: Bytes): Bytes {
    if needle == [] || |hay| < |needle| then hay else Substituted(hay, needle, with)
  }

  method ReplaceBytes(hay: Bytes, needle: Bytes, with: Bytes) returns (out: Bytes)
    ensures out == Replaced(hay, needle, with)
  {
    if needle == [] || |hay| < |needle| {
      return hay;
    }
    out := [];
    var i := 0;
    while i < |hay|
      invariant i <= |hay|
      invariant out + Substituted(hay[i..], needle, with) == Substituted(hay, needle, with)
    {
      ghost var rest := Substituted(hay[i..], needle, with);
      assert i + |needle| <= |hay| ==> hay[i..i + |needle|] == hay[i..][..|needle|];
      if i + |needle| <= |hay| && hay[i..i + |needle|] == needle {
        assert hay[i..][|needle|..] == hay[i + |needle|..];
        assert out + rest == (out + with) + Substituted(hay[i + |needle|..], needle, with);
        out := out + with;
        i := i + |needle|;
      } else {
        assert hay[i..][1..] == hay[i + 1..];
        assert out + rest == (out + [hay[i]]) + Substituted(hay[i + 1..], needle, with);
        out := out + [hay[i]];
        i := i + 1;
      }
    }
  }

  predicate OccursAt(hay: Bytes, needle: Bytes, i: nat) {
    i + |needle| <= |hay| && hay[i..i + |needle|] == needle
  }

  predicate Contains(hay: Bytes, needle: Bytes) {
    exists i :: 0 <= i <= |hay| && OccursAt(hay, needle, i)
  }

  lemma ContainsByHead(hay: Bytes, needle: Bytes)
    requires hay != []
    ensures Contains(hay, needle) <==> StartsWith(hay, needle) || Contains(hay[1..], needle)
  {
    if StartsWith(hay, needle) {
      assert OccursAt(hay, needle, 0);
    }
    if i :| 0 <= i <= |hay| && OccursAt(hay, needle, i) {
      if i == 0 {
        assert hay[0..|needle|] == hay[..|needle|];
      } else {
        assert hay[1..][i - 1..i - 1 + |needle|] == hay[i..i + |needle|];
        assert OccursAt(hay[1..], needle, i - 1);
      }
    }
    if i :| 0 <= i <= |hay[1..]| && OccursAt(hay[1..], needle, i) {
      assert hay[1..][i..i + |needle|] == hay[i + 1..i + 1 + |needle|];
      assert OccursAt(hay, needle, i + 1);
    }
  }

  lemma {:induction false} SubstitutedShort(hay: Bytes, needle: Bytes, with: Bytes)
    requires needle != [] && |hay| < |needle|
    ensures Substituted(hay, needle, with) == hay
    decreases |hay|
  {
    if hay == [] {
    } else {
      SubstitutedShort(hay[1..], needle, with);
    }
  }

  /** For a needle that is not empty, the shortcut for short texts makes no difference. */
  lemma ReplacedIsSubstituted(hay: Bytes, needle: Bytes, with: Bytes)
    requires needle != []
    ensures Replaced(hay, needle, with) == Substituted(hay, needle, with)
  {
    if |hay| < |needle| {
      SubstitutedShort(hay, needle, with);
    }
  }

  /** With a shorter replacement, the text keeps its length exactly when the needle is not in
      it, and is then unchanged. */
  lemma {:induction false} ShrinksIffContains(hay: Bytes, needle: Bytes, with: Bytes)
    requires |with| < |needle|
    ensures |Substituted(hay, needle, with)| <= |hay|
    ensures |Substituted(hay, needle, with)| == |hay| <==> !Contains(hay, needle)
    ensures !Contains(hay, needle) ==> Substituted(hay, needle, with) == hay
    decreases |hay|
  {
    if hay == [] {
    } else {
      ContainsByHead(hay, needle);
      if StartsWith(hay, needle) {
        ShrinksIffContains(hay[|needle|..], needle, with);
      } else {
        ShrinksIffContains(hay[1..], needle, with);
      }
    }
  }

  /** No proper non-empty prefix of `p` is also a suffix of it. */
  ghost predicate Borderless(p: Bytes) {
    forall k :: 0 < k < |p| ==> p[..k] != p[|p| - k..]
  }

  /** A borderless string is found where it was put: no occurrence straddles its start. */
  lemma NoStraddling(a: Bytes, p: Bytes, b: Bytes)
    requires Borderless(p) && a != [] && |a| < |p|
    ensures !StartsWith(a + p + b, p)
  {
    var s := a + p + b;
    var k := |p| - |a|;
    assert s[|a|..|p|] == p[..k];
    assert s[..|p|][|a|..] == s[|a|..|p|];
    assert p[..k] != p[|p| - k..];
  }

  /** Whether the needle stands at the start is decided by what precedes its known occurrence. */
  lemma StartIsDecidedBefore(a: Bytes, p: Bytes, b: Bytes)
    requires Borderless(p) && a != []
    ensures StartsWith(a + p + b, p) <==> StartsWith(a, p)
  {
    if |p| <= |a| {
      assert (a + p + b)[..|p|] == a[..|p|];
    } else {
      NoStraddling(a, p, b);
    }
  }

  /** Replacing a borderless string acts on the two sides of an occurrence separately. */
  lemma {:induction false} ReplaceSplitsAtNeedle(a: Bytes, p: Bytes, b: Bytes, with: Bytes)
    requires p != [] && Borderless(p)
    ensures Substituted(a + p + b, p, with) == Substituted(a, p, with) + with + Substituted(b, p, with)
    decreases |a|
  {
    var s := a + p + b;
    if a == [] {
      assert s == p + b && s[..|p|] == p && s[|p|..] == b;
    } else {
      StartIsDecidedBefore(a, p, b);
      if StartsWith(a, p) {
        assert s[|p|..] == a[|p|..] + p + b;
        ReplaceSplitsAtNeedle(a[|p|..], p, b, with);
      } else {
        assert s[1..] == a[1..] + p + b;
        ReplaceSplitsAtNeedle(a[1..], p, b, with);
      }
    }
  }

  /** The literal pieces between the occurrences of a separator. */
  function Split(s: Bytes, sep: Bytes): (pieces: seq<Bytes>)
    requires sep != []
    ensures pieces != []
    decreases |s|
  {
    if s == [] then [[]]
    else if StartsWith(s, sep) then [[]] + Split(s[|sep|..], sep)
    else
      var rest := Split(s[1..], sep);
      [[s[0]] + rest[0]] + rest[1..]
  }

  function Join(pieces: seq<Bytes>, sep: Bytes): Bytes {
    if pieces == [] then []
    else if |pieces| == 1 then pieces[0]
    else pieces[0] + sep + Join(pieces[1..], sep)
  }

  lemma JoinPrependToFirst(c: Bytes, pieces: seq<Bytes>, sep: Bytes)
    requires pieces != []
    ensures Join([c + pieces[0]] + pieces[1..], sep) == c + Join(pieces, sep)
  {
    var longer := [c + pieces[0]] + pieces[1..];
    assert longer[1..] == pieces[1..];
    if |pieces| > 1 {
      assert c + (pieces[0] + sep + Join(pieces[1..], sep)) == (c + pieces[0]) + sep + Join(pieces[1..], sep);
    }
  }

  /** Replacing is splitting at the needle and joining with the replacement. */
  lemma {:induction false} SubstitutedIsSplitJoin(s: Bytes, needle: Bytes, with: Bytes)
    requires needle != []
    ensures Substituted(s, needle, with) == Join(Split(s, needle), with)
    decreases |s|
  {
    if s == [] {
    } else if StartsWith(s, needle) {
      SubstitutedIsSplitJoin(s[|needle|..], needle, with);
      assert Split(s, needle)[1..] == Split(s[|needle|..], needle);
    } else {
      SubstitutedIsSplitJoin(s[1..], needle, with);
      JoinPrependToFirst([s[0]], Split(s[1..], needle), with);
    }
  }

  /** Replacing a needle by itself changes nothing, so joining undoes splitting. */
  lemma {:induction false} JoinInvertsSplit(s: Bytes, sep: Bytes)
    requires sep != []
    ensures Join(Split(s, sep), sep) == s
    decreases |s|
  {
    if s == [] {
    } else if StartsWith(s, sep) {
      var rest := Split(s[|sep|..], sep);
      JoinInvertsSplit(s[|sep|..], sep);
      assert Split(s, sep) == [[]] + rest && ([[]] + rest)[1..] == rest;
      assert s == [] + sep + s[|sep|..];
    } else {
      JoinInvertsSplit(s[1..], sep);
      JoinPrependToFirst([s[0]], Split(s[1..], sep), sep);
    }
  }

  /** A text that lacks the separator is one piece. */
  lemma {:induction false} SplitWithout(s: Bytes, sep: Bytes)
    requires sep != []
    ensures |Split(s, sep)| == 1 <==> !Contains(s, sep)
    ensures !Contains(s, sep) ==> Split(s, sep) == [s]
    decreases |s|
  {
    if s != [] {
      ContainsByHead(s, sep);
      if StartsWith(s, sep) {
      } else {
        SplitWithout(s[1..], sep);
        assert [s[0]] + s[1..] == s;
      }
    } else {
      assert !OccursAt(s, sep, 0);
    }
  }

  ghost predicate NoPieceContains(pieces: seq<Bytes>, p: Bytes) {
    forall i :: 0 <= i < |pieces| ==> !Contains(pieces[i], p)
  }

  /** Replacing `p` in pieces joined by a borderless `p` gives back exactly those joints, and
      touches nothing else, when and only when no piece contains `p` itself. */
  lemma {:induction false} ReplaceUndoesJoin(pieces: seq<Bytes>, p: Bytes, token: Bytes)
    requires pieces != [] && Borderless(p) && |token| < |p|
    ensures |Substituted(Join(pieces, p), p, token)| <= |Join(pieces, token)|
    ensures Substituted(Join(pieces, p), p, token) == Join(pieces, token) <==> NoPieceContains(pieces, p)
    ensures |Substituted(Join(pieces, p), p, token)| == |Join(pieces, token)| ==> NoPieceContains(pieces, p)
    decreases |pieces|
  {
    ShrinksIffContains(pieces[0], p, token);
    if |pieces| == 1 {
      assert NoPieceContains(pieces, p) <==> !Contains(pieces[0], p);
    } else {
      var rest := pieces[1..];
      ReplaceSplitsAtNeedle(pieces[0], p, Join(rest, p), token);
      ReplaceUndoesJoin(rest, p, token);
      assert NoPieceContains(pieces, p) <==> !Contains(pieces[0], p) && NoPieceContains(rest, p) by {
        assert pieces == [pieces[0]] + rest;
        assert forall i :: 0 <= i < |rest| ==> rest[i] == pieces[i + 1];
      }
    }
  }
}
