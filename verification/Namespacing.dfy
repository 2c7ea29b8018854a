/** The run prefix: where it is put into keys and values, and how the comparison takes it out. */
module Namespacing {
  import opened Wrappers
  import opened ByteStrings
  import opened Replacing
  import Base64

  /** The token `{P}`. */
  const TOKEN: Bytes := [123, 80, 125]

  /** How the token is spelled. */
  lemma TokenSpells()
    ensures |TOKEN| == 3 && TOKEN[0] == '{' as int && TOKEN[1] == 'P' as int && TOKEN[2] == '}' as int
  {
  }

  /** A byte-string argument of a command: text, given by its UTF-8 bytes, or base64. */
  datatype KeyArg = Utf8(s: Bytes) | B64(b64: string) {

    predicate Valid() {
      Utf8? || Base64.Decode(b64).Some?
    }

    /** Malformed base64 stands for the empty byte string. */
    function Raw(): Bytes {
      match this
      case Utf8(s) => s
      case B64(b64) => match Base64.Decode(b64) case Some(x) => x case None => []
    }

    function AsKey(prefix: Bytes): KeyArg {
      match this
      case Utf8(s) => Utf8(if Contains(s, TOKEN) then Replaced(s, TOKEN, prefix) else prefix + s)
      case B64(_) => B64(Base64.Encode(prefix + Raw()))
    }

    function AsValue(prefix: Bytes): KeyArg {
      match this
      case Utf8(s) => Utf8(Replaced(s, TOKEN, prefix))
      case B64(_) => this
    }

    /** The argument as a template: its bytes with a token wherever the prefix goes. */
    function KeyTemplate(): Bytes {
      match this
      case Utf8(s) => if Contains(s, TOKEN) then s else TOKEN + s
      case B64(_) => TOKEN + Raw()
    }

    /** The literal pieces of a key around the prefix. Binary keys hold no tokens. */
    function KeyPieces(): (pieces: seq<Bytes>)
      ensures pieces != []
    {
      match this
      case Utf8(s) => if Contains(s, TOKEN) then Split(s, TOKEN) else [[], s]
      case B64(_) => [[], Raw()]
    }

    function ValuePieces(): (pieces: seq<Bytes>)
      ensures pieces != []
    {
      match this
      case Utf8(s) => Split(s, TOKEN)
      case B64(_) => [Raw()]
    }
  }

  /** What the comparison sees of a key or a value: the bytes with the run prefix replaced. */
  function Redact(raw: Bytes, prefix: Bytes): Bytes {
    Replaced(raw, prefix, TOKEN)
  }

  /** An argument accepted at load time denotes the bytes it encodes, and no malformed one is
      accepted. */
  lemma ValidArgumentsAreExact(arg: KeyArg)
    ensures arg.Valid() <==> arg.Utf8? || exists x :: arg.b64 == Base64.Encode(x)
    ensures arg.Valid() && arg.B64? ==> arg.b64 == Base64.Encode(arg.Raw())
  {
    if arg.B64? {
      if arg.Valid() {
        Base64.DecodeInvertsEncode(arg.b64, arg.Raw());
      }
      if x :| arg.b64 == Base64.Encode(x) {
        Base64.DecodeInvertsEncode(arg.b64, x);
      }
    }
  }

  /** Text stays text and binary stays binary and well formed; a binary value is untouched. */
  lemma NamespacingKeepsTheForm(arg: KeyArg, prefix: Bytes)
    ensures (arg.AsKey(prefix).Utf8? <==> arg.Utf8?) && (arg.AsValue(prefix).Utf8? <==> arg.Utf8?)
    ensures arg.AsKey(prefix).Valid() && (arg.B64? ==> arg.AsValue(prefix) == arg)
  {
    if arg.B64? {
      Base64.RoundTrip(prefix + arg.Raw());
    }
  }

  lemma JoinOfTwo(a: Bytes, b: Bytes, sep: Bytes)
    ensures Join([a, b], sep) == a + sep + b
  {
    assert [a, b][1..] == [b];
  }

  lemma TokenedIsPiecesJoined(s: Bytes, prefix: Bytes)
    ensures Replaced(s, TOKEN, prefix) == Join(Split(s, TOKEN), prefix)
    ensures s == Join(Split(s, TOKEN), TOKEN)
  {
    ReplacedIsSubstituted(s, TOKEN, prefix);
    SubstitutedIsSplitJoin(s, TOKEN, prefix);
    JoinInvertsSplit(s, TOKEN);
  }

  lemma BinaryKeyIsPrefixed(arg: KeyArg, prefix: Bytes)
    requires arg.B64?
    ensures arg.AsKey(prefix).Raw() == prefix + arg.Raw()
  {
    Base64.RoundTrip(prefix + arg.Raw());
  }

  lemma PrefixedIsPiecesJoined(raw: Bytes, prefix: Bytes)
    ensures Join([[], raw], prefix) == prefix + raw
  {
    JoinOfTwo([], raw, prefix);
    assert [] + prefix == prefix;
  }

  /** A namespaced key is its literal pieces joined by the prefix, and there is at least one
      joint: the prefix always goes in. */
  lemma KeyIsPiecesJoined(arg: KeyArg, prefix: Bytes)
    ensures |arg.KeyPieces()| >= 2
    ensures arg.AsKey(prefix).Raw() == Join(arg.KeyPieces(), prefix)
    ensures arg.KeyTemplate() == Join(arg.KeyPieces(), TOKEN)
  {
    if arg.Utf8? && Contains(arg.s, TOKEN) {
      TokenedIsPiecesJoined(arg.s, prefix);
      SplitWithout(arg.s, TOKEN);
    } else {
      var raw := arg.Raw();
      assert arg.KeyPieces() == [[], raw];
      PrefixedIsPiecesJoined(raw, prefix);
      PrefixedIsPiecesJoined(raw, TOKEN);
      if arg.B64? {
        BinaryKeyIsPrefixed(arg, prefix);
      }
    }
  }

  lemma ValueIsPiecesJoined(arg: KeyArg, prefix: Bytes)
    ensures arg.AsValue(prefix).Raw() == Join(arg.ValuePieces(), prefix)
    ensures arg.Raw() == Join(arg.ValuePieces(), TOKEN)
  {
    if arg.Utf8? {
      TokenedIsPiecesJoined(arg.s, prefix);
    }
  }

  /** A prefix whose redaction can be exact: longer than the token, without a border. */
  ghost predicate Admissible(prefix: Bytes) {
    |prefix| > |TOKEN| && Borderless(prefix)
  }

  /** Redacting a namespaced key gives back its template, exactly when no literal piece of it
      contains the prefix. */
  lemma RedactionUndoesKeyNamespacing(arg: KeyArg, prefix: Bytes)
    requires Admissible(prefix)
    ensures Redact(arg.AsKey(prefix).Raw(), prefix) == arg.KeyTemplate()
            <==> NoPieceContains(arg.KeyPieces(), prefix)
  {
    KeyIsPiecesJoined(arg, prefix);
    ReplacedIsSubstituted(arg.AsKey(prefix).Raw(), prefix, TOKEN);
    ReplaceUndoesJoin(arg.KeyPieces(), prefix, TOKEN);
  }

  /** Redacting a namespaced value gives back the value as written, binary ones included,
      exactly when no literal piece of it contains the prefix. */
  lemma RedactionUndoesValueNamespacing(arg: KeyArg, prefix: Bytes)
    requires Admissible(prefix)
    ensures Redact(arg.AsValue(prefix).Raw(), prefix) == arg.Raw()
            <==> NoPieceContains(arg.ValuePieces(), prefix)
  {
    ValueIsPiecesJoined(arg, prefix);
    ReplacedIsSubstituted(arg.AsValue(prefix).Raw(), prefix, TOKEN);
    ReplaceUndoesJoin(arg.ValuePieces(), prefix, TOKEN);
  }

  lemma {:induction false} JoinSeparatesPrefixes(pieces: seq<Bytes>, p: Bytes, q: Bytes)
    requires |pieces| >= 2 && p != q
    ensures Join(pieces, p) != Join(pieces, q)
  {
    var a, b := pieces[0] + p + Join(pieces[1..], p), pieces[0] + q + Join(pieces[1..], q);
    if |p| == |q| {
      assert a[|pieces[0]|..][..|p|] == p;
      assert b[|pieces[0]|..][..|p|] == q;
    } else {
      JoinLength(pieces, p);
      JoinLength(pieces, q);
      LengthsDiffer(|pieces| - 1, |p|, |q|);
    }
  }

  lemma LengthsDiffer(n: nat, x: nat, y: nat)
    requires n > 0 && x != y
    ensures n * x != n * y
  {
    if x < y {
      assert n * y == n * x + n * (y - x);
      assert n * (y - x) >= 1;
    } else {
      assert n * x == n * y + n * (x - y);
      assert n * (x - y) >= 1;
    }
  }

  function TotalLength(pieces: seq<Bytes>): nat {
    if pieces == [] then 0 else |pieces[0]| + TotalLength(pieces[1..])
  }

  lemma {:induction false} JoinLength(pieces: seq<Bytes>, sep: Bytes)
    requires pieces != []
    ensures |Join(pieces, sep)| == TotalLength(pieces) + (|pieces| - 1) * |sep|
  {
    if |pieces| == 1 {
      assert TotalLength(pieces[1..]) == 0;
    } else {
      JoinLength(pieces[1..], sep);
      assert (|pieces| - 1) * |sep| == |sep| + (|pieces| - 2) * |sep|;
    }
  }

  /** One argument lands on different keys under different prefixes. */
  lemma RunsDoNotShareKeys(arg: KeyArg, p: Bytes, q: Bytes)
    requires p != q
    ensures arg.AsKey(p).Raw() != arg.AsKey(q).Raw()
  {
    KeyIsPiecesJoined(arg, p);
    KeyIsPiecesJoined(arg, q);
    JoinSeparatesPrefixes(arg.KeyPieces(), p, q);
  }

  /** A key starts with the run prefix exactly when its template starts with the token, or its
      first literal piece spells the prefix out. */
  lemma KeyIsUnderPrefixIff(arg: KeyArg, prefix: Bytes)
    requires Admissible(prefix)
    ensures StartsWith(arg.AsKey(prefix).Raw(), prefix)
            <==> arg.KeyPieces()[0] == [] || StartsWith(arg.KeyPieces()[0], prefix)
  {
    KeyIsPiecesJoined(arg, prefix);
    var pieces := arg.KeyPieces();
    JoinStartsIff(pieces[0], prefix, Join(pieces[1..], prefix));
  }

  lemma JoinStartsIff(first: Bytes, prefix: Bytes, rest: Bytes)
    requires Borderless(prefix) && prefix != []
    ensures StartsWith(first + prefix + rest, prefix) <==> first == [] || StartsWith(first, prefix)
  {
    var key := first + prefix + rest;
    if first == [] {
      assert key == prefix + rest && key[..|prefix|] == prefix;
    } else {
      StartIsDecidedBefore(first, prefix, rest);
    }
  }

  /** A token in the middle of a text key leaves the key outside the run's own range. */
  lemma MiddleTokenLeavesThePrefix(prefix: Bytes)
    requires Admissible(prefix)
    ensures !StartsWith(Utf8([120] + TOKEN).AsKey(prefix).Raw(), prefix)
  {
    var s := [120] + TOKEN;
    assert s[1..] == TOKEN;
    assert TOKEN[..3] == TOKEN && TOKEN[3..] == [];
    assert OccursAt(s, TOKEN, 1);
    assert Split(s[1..], TOKEN) == [[]] + Split([], TOKEN);
    assert Utf8(s).KeyPieces()[0] == [120];
    KeyIsUnderPrefixIff(Utf8(s), prefix);
  }

  // ---- The prefixes the harness generates ----

  const SLASH: Byte := 47
  const GATE: Bytes := [103, 97, 116, 101]

  ghost predicate IsDigit(c: Byte) { 48 <= c <= 57 }

  /** Lower-case letters, digits and `-`, not starting with `-`. */
  ghost predicate IsPlainName(name: Bytes) {
    name != [] && name[0] != 45 && forall c :: c in name ==> 97 <= c <= 122 || IsDigit(c) || c == 45
  }

  ghost predicate IsNumber(n: Bytes) {
    n != [] && forall c :: c in n ==> IsDigit(c)
  }

  /** `gate/<name>/<nanoseconds>/`. */
  function UniquePrefix(name: Bytes, nanos: Bytes): Bytes {
    GATE + [SLASH] + name + [SLASH] + nanos + [SLASH]
  }

  /** How a generated prefix is spelled. */
  lemma PrefixSpells(name: Bytes, nanos: Bytes)
    ensures var p, n := UniquePrefix(name, nanos), |name|;
            && |p| == n + |nanos| + 7
            && p[0] == 'g' as int && p[1] == 'a' as int && p[2] == 't' as int && p[3] == 'e' as int
            && p[4] == p[n + 5] == p[|p| - 1] == '/' as int && p[5..n + 5] == name && p[n + 6..|p| - 1] == nanos
  {
  }

  /** The slashes of a generated prefix stand at three known places. */
  lemma SlashesAt(name: Bytes, nanos: Bytes, i: nat)
    requires IsPlainName(name) && IsNumber(nanos)
    requires i < |UniquePrefix(name, nanos)|
    ensures UniquePrefix(name, nanos)[i] == SLASH
            <==> i == 4 || i == 5 + |name| || i == 6 + |name| + |nanos|
  {
    var p := UniquePrefix(name, nanos);
    if 4 < i < 5 + |name| {
      assert p[i] == name[i - 5] && name[i - 5] in name;
    } else if 5 + |name| < i < 6 + |name| + |nanos| {
      assert p[i] == nanos[i - 6 - |name|] && nanos[i - 6 - |name|] in nanos;
    }
  }

  /** Every prefix the harness generates from a plain name can be redacted exactly. */
  lemma GeneratedPrefixIsAdmissible(name: Bytes, nanos: Bytes)
    requires IsPlainName(name) && IsNumber(nanos)
    ensures Admissible(UniquePrefix(name, nanos))
  {
    var p := UniquePrefix(name, nanos);
    var n, m := |name|, |nanos|;
    assert |p| == n + m + 7;
    forall k | 0 < k < |p|
      ensures p[..k] != p[|p| - k..]
    {
      BorderEndsInSlash(name, nanos, k);
    }
  }

  lemma BorderEndsInSlash(name: Bytes, nanos: Bytes, k: nat)
    requires IsPlainName(name) && IsNumber(nanos)
    requires 0 < k < |UniquePrefix(name, nanos)|
    ensures var p := UniquePrefix(name, nanos); p[..k] != p[|p| - k..]
  {
    var p := UniquePrefix(name, nanos);
    var n, m := |name|, |nanos|;
    var head, tail := p[..k], p[|p| - k..];
    SlashesAt(name, nanos, k - 1);
    if k != 5 && k != n + 6 {
      assert head[k - 1] != tail[k - 1];
    } else if k == 5 {
      // The prefix has an `e` where the nanoseconds have a digit.
      assert tail[3] == nanos[m - 1] && nanos[m - 1] in nanos;
      assert head[3] != tail[3];
    } else if m != n {
      SlashesAt(name, nanos, m + 5);
      assert head[4] == SLASH && tail[4] == p[m + 5];
      assert head[4] != tail[4];
    } else {
      // The name would have to end in `e` and be equal to the nanoseconds.
      assert tail[3] == p[n + 4] == name[n - 1];
      assert head[n + 4] == name[n - 1];
      assert tail[n + 4] == p[n + 5 + n] == nanos[n - 1];
      assert nanos[n - 1] in nanos;
      assert head[3] != tail[3] || head[n + 4] != tail[n + 4];
    }
  }

  /** Main theorem for keys: under a generated prefix a text key comes back with its tokens,
      one prepended if it had none, and a binary key as a token and its raw bytes. */
  lemma GeneratedPrefixesRoundTripKeys(arg: KeyArg, name: Bytes, nanos: Bytes)
    requires IsPlainName(name) && IsNumber(nanos)
    ensures var p := UniquePrefix(name, nanos);
            Redact(arg.AsKey(p).Raw(), p) == arg.KeyTemplate() <==> NoPieceContains(arg.KeyPieces(), p)
    ensures var p := UniquePrefix(name, nanos);
            Redact(arg.AsValue(p).Raw(), p) == arg.Raw() <==> NoPieceContains(arg.ValuePieces(), p)
  {
    GeneratedPrefixIsAdmissible(name, nanos);
    RedactionUndoesKeyNamespacing(arg, UniquePrefix(name, nanos));
    RedactionUndoesValueNamespacing(arg, UniquePrefix(name, nanos));
  }

  /** Two runs of one scenario: no key that starts with one run's prefix starts with the
      other's. */
  lemma GeneratedPrefixesAreDisjoint(key: Bytes, name: Bytes, nanos: Bytes, name': Bytes, nanos': Bytes)
    requires IsPlainName(name) && IsNumber(nanos) && IsPlainName(name') && IsNumber(nanos')
    requires UniquePrefix(name, nanos) != UniquePrefix(name', nanos')
    ensures !(StartsWith(key, UniquePrefix(name, nanos)) && StartsWith(key, UniquePrefix(name', nanos')))
  {
    var p, q := UniquePrefix(name, nanos), UniquePrefix(name', nanos');
    if |p| <= |q| {
      ShorterIsNoPrefix(name, nanos, name', nanos');
      assert StartsWith(key, q) ==> key[..|p|] == q[..|p|];
    } else {
      ShorterIsNoPrefix(name', nanos', name, nanos);
      assert StartsWith(key, p) ==> key[..|q|] == p[..|q|];
    }
  }

  lemma ShorterIsNoPrefix(name: Bytes, nanos: Bytes, name': Bytes, nanos': Bytes)
    requires IsPlainName(name) && IsNumber(nanos) && IsPlainName(name') && IsNumber(nanos')
    requires UniquePrefix(name, nanos) != UniquePrefix(name', nanos')
    requires |UniquePrefix(name, nanos)| <= |UniquePrefix(name', nanos')|
    ensures UniquePrefix(name', nanos')[..|UniquePrefix(name, nanos)|] != UniquePrefix(name, nanos)
  {
    var p, q := UniquePrefix(name, nanos), UniquePrefix(name', nanos');
    var cut := q[..|p|];
    var i, j := 5 + |name|, |p| - 1;
    SlashesAt(name, nanos, i);
    SlashesAt(name, nanos, j);
    SlashesAt(name', nanos', i);
    SlashesAt(name', nanos', j);
    assert cut[i] == q[i] && cut[j] == q[j];
    // Equal cuts would put the last slash of `p` on the last slash of `q`.
    assert cut[i] == SLASH && cut[j] == SLASH ==> |p| == |q|;
    assert |p| == |q| ==> cut == q;
  }
}
