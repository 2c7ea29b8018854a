/** Strict base64: section 4 of RFC 4648, with the canonical encoding of its section 3.5. */
module Base64 {
  import opened Wrappers
  import opened ByteStrings

  type Sextet = x: int | 0 <= x < 64

  const PAD: char := '='
  const TWO_32: int := 0x1_0000_0000

  /** The symbol at a position of the alphabet: A-Z, a-z, 0-9, `+`, `/`. */
  function Symbol(v: Sextet): (c: char)
    ensures c != PAD && Position(c) == Some(v)
  {
    if v < 26 then (v + 65) as char
    else if v < 52 then (v + 71) as char
    else if v < 62 then (v - 4) as char
    else if v == 62 then '+'
    else '/'
  }

  /** The position of a character in the alphabet. */
  function Position(c: char): Option<Sextet> {
    var k := c as int;
    if 65 <= k < 91 then Some(k - 65)
    else if 97 <= k < 123 then Some(k - 71)
    else if 48 <= k < 58 then Some(k + 4)
    else if c == '+' then Some(62)
    else if c == '/' then Some(63)
    else None
  }

  lemma SymbolOfPosition(c: char)
    requires Position(c).Some?
    ensures Symbol(Position(c).value) == c
  {
  }

  // ---- Encoding ----

  function ByteAt(chunk: Bytes, i: nat): Byte {
    if i < |chunk| then chunk[i] else 0
  }

  /** The four characters of a chunk of one to three bytes. */
  function Quartet(chunk: Bytes): (q: string)
    requires 1 <= |chunk| <= 3
    ensures |q| == 4
  {
    var n := ByteAt(chunk, 0) * 65536 + ByteAt(chunk, 1) * 256 + ByteAt(chunk, 2);
    [ Symbol(n / 262144 % 64),
      Symbol(n / 4096 % 64),
      if |chunk| > 1 then Symbol(n / 64 % 64) else PAD,
      if |chunk| > 2 then Symbol(n % 64) else PAD ]
  }

  function ChunkSize(input: Bytes): (k: nat)
    requires input != []
    ensures 1 <= k <= 3 && k <= |input|
  {
    if |input| < 3 then |input| else 3
  }

  function Encode(input: Bytes): string {
    if input == [] then ""
    else var k := ChunkSize(input); Quartet(input[..k]) + Encode(input[k..])
  }

  lemma EncodeFrom(input: Bytes, i: nat, done: string)
    requires i < |input|
    ensures var k := ChunkSize(input[i..]);
            done + Encode(input[i..]) == (done + Quartet(input[i..i + k])) + Encode(input[i + k..])
  {
    var rest := input[i..];
    var k := ChunkSize(rest);
    assert rest[..k] == input[i..i + k] && rest[k..] == input[i + k..];
  }

  method B64Encode(input: Bytes) returns (out: string)
    ensures out == Encode(input)
  {
    out := "";
    var i := 0;
    assert input[0..] == input;
    while i < |input|
      invariant 0 <= i <= |input|
      invariant out + Encode(input[i..]) == Encode(input)
    {
      var k := ChunkSize(input[i..]);
      EncodeFrom(input, i, out);
      out := out + Quartet(input[i..i + k]);
      i := i + k;
    }
  }

  // ---- Decoding ----

  /** How many undelivered bits the decoder can hold between characters, and their range. */
  function Held(bits: nat): (p: nat)
    requires bits in {0, 2, 4, 6}
    ensures p > 0
  {
    if bits == 0 then 1 else if bits == 2 then 4 else if bits == 4 then 16 else 64
  }

  /** The permissive decoder on unbounded integers: `carry` is the value of the `bits`
      undelivered bits. It stops at the first padding character. */
  function Read(s: string, carry: nat, bits: nat): Option<Bytes>
    requires bits in {0, 2, 4, 6} && carry < Held(bits)
  {
    if s == "" || s[0] == PAD then Some([])
    else
      match Position(s[0])
      case None => None
      case Some(v) =>
        if bits == 0 then Read(s[1..], v, 6)
        else
          var n := carry * 64 + v;
          match Read(s[1..], n % Held(bits - 2), bits - 2)
          case None => None
          case Some(rest) => Some([Delivered(n, bits)] + rest)
  }

  function Delivered(n: nat, bits: nat): Byte
    requires bits in {2, 4, 6} && n < 64 * Held(bits)
  {
    n / Held(bits - 2)
  }

  /** The decoding loop: a 32-bit accumulator that drops its high bits. */
  method B64DecodePermissive(input: string) returns (r: Option<Bytes>)
    ensures r == Read(input, 0, 0)
  {
    var buf: int, bits: nat := 0, 0;
    var out: Bytes := [];
    var i := 0;
    assert input[0..] == input;
    PrependNothing(Read(input, 0, 0));
    while i < |input|
      invariant 0 <= i <= |input|
      invariant bits in {0, 2, 4, 6} && 0 <= buf < TWO_32
      invariant Read(input, 0, 0) == Prepend(out, Read(input[i..], buf % Held(bits), bits))
    {
      var c := input[i];
      assert input[i..][0] == c && input[i..][1..] == input[i + 1..];
      if c == PAD {
        assert out + [] == out;
        return Some(out);
      }
      var v := Position(c);
      if v.None? {
        return None;
      }
      ghost var carry, before := buf % Held(bits), out;
      AccumulatorKeepsLowBits(buf, v.value, bits);
      buf := buf * 64 % TWO_32 + v.value;
      bits := bits + 6;
      if bits >= 8 {
        bits := bits - 8;
        var byte := buf / Held(bits) % 256;
        out := out + [byte];
        PrependTwice(before, byte, Read(input[i + 1..], buf % Held(bits), bits));
      }
      i := i + 1;
    }
    assert input[i..] == "" && out + [] == out;
    return Some(out);
  }

  function Prepend(a: Bytes, r: Option<Bytes>): Option<Bytes> {
    match r
    case None => None
    case Some(b) => Some(a + b)
  }

  lemma PrependNothing(r: Option<Bytes>)
    ensures Prepend([], r) == r
  {
    if r.Some? {
      assert [] + r.value == r.value;
    }
  }

  lemma PrependTwice(a: Bytes, b: Byte, r: Option<Bytes>)
    ensures Prepend(a + [b], r) == Prepend(a, Prepend([b], r))
  {
    if r.Some? {
      assert a + [b] + r.value == a + ([b] + r.value);
    }
  }

  /** Dropping bits above the 32nd changes neither the byte delivered nor the bits kept. */
  lemma AccumulatorKeepsLowBits(buf: nat, v: Sextet, bits: nat)
    requires bits in {0, 2, 4, 6} && buf < TWO_32
    ensures 0 <= buf * 64 % TWO_32 + v < TWO_32
    ensures bits == 0 ==> (buf * 64 % TWO_32 + v) % Held(6) == v
    ensures bits > 0 ==>
              var next, n := buf * 64 % TWO_32 + v, buf % Held(bits) * 64 + v;
              next / Held(bits - 2) % 256 == Delivered(n, bits) && next % Held(bits - 2) == n % Held(bits - 2)
  {
    var q := buf * 64 / TWO_32;
    var next := buf * 64 % TWO_32 + v;
    assert next == buf * 64 - TWO_32 * q + v;
    if bits == 0 {
      assert next == 64 * (buf - 67108864 * q) + v;
    } else if bits == 2 {
      LowByte(buf / 4 - 16777216 * q, next, buf % 4 * 64 + v);
    } else if bits == 4 {
      LowBytePlus2(buf / 16 - 4194304 * q, next, buf % 16 * 64 + v);
    } else {
      LowBytePlus4(buf / 64 - 1048576 * q, next, buf % 64 * 64 + v);
    }
  }

  lemma LowByte(t: int, next: int, n: nat)
    requires next == 256 * t + n && n < 256
    ensures next % 256 == n
  {
  }

  lemma LowBytePlus2(t: int, next: int, n: nat)
    requires next == 1024 * t + n && n < 1024
    ensures next / 4 % 256 == n / 4 && next % 4 == n % 4
  {
    assert next / 4 == 256 * t + n / 4;
  }

  lemma LowBytePlus4(t: int, next: int, n: nat)
    requires next == 4096 * t + n && n < 4096
    ensures next / 16 % 256 == n / 16 && next % 16 == n % 16
  {
    assert next / 16 == 256 * t + n / 16;
  }

  /** Strict decoding: decode permissively, then insist that re-encoding gives the input. */
  function Decode(input: string): Option<Bytes> {
    match Read(input, 0, 0)
    case None => None
    case Some(x) => if Encode(x) == input then Some(x) else None
  }

  method B64Decode(input: string) returns (r: Option<Bytes>)
    ensures r == Decode(input)
  {
    var decoded := B64DecodePermissive(input);
    if decoded.None? {
      return None;
    }
    var again := B64Encode(decoded.value);
    if again != input {
      return None;
    }
    return decoded;
  }

  // ---- Round trip and canonicity ----

  /** The characters of a chunk are the base-64 digits of its big-endian value. */
  lemma QuartetIsBase64Digits(chunk: Bytes)
    requires 1 <= |chunk| <= 3
    ensures var q := Quartet(chunk);
            && Position(q[0]).Some? && Position(q[1]).Some?
            && (|chunk| > 1 <==> q[2] != PAD) && (|chunk| > 2 <==> q[3] != PAD)
            && ByteAt(chunk, 0) * 65536 + ByteAt(chunk, 1) * 256 + ByteAt(chunk, 2) ==
               Position(q[0]).value * 262144 + Position(q[1]).value * 4096 + Digit(q[2]) * 64 + Digit(q[3])
  {
    var b0: int, b1: int, b2: int := ByteAt(chunk, 0), ByteAt(chunk, 1), ByteAt(chunk, 2);
    var n := b0 * 65536 + b1 * 256 + b2;
    assert n < 0x100_0000;
    DigitsAddUp(n);
    MissingBytesAreZeroDigits(b0, b1);
  }

  lemma MissingBytesAreZeroDigits(b0: int, b1: int)
    ensures (b0 * 65536 + b1 * 256) % 64 == 0
    ensures b0 * 65536 / 64 % 64 == 0
  {
    assert b0 * 65536 + b1 * 256 == 64 * (b0 * 1024 + b1 * 4);
    assert b0 * 65536 / 64 == 64 * (b0 * 16);
  }

  lemma DigitsAddUp(n: nat)
    requires n < 0x100_0000
    ensures n / 262144 % 64 == n / 262144
    ensures n == n / 262144 % 64 * 262144 + n / 4096 % 64 * 4096 + n / 64 % 64 * 64 + n % 64
  {
    assert n / 4096 / 64 == n / 262144;
    assert n / 64 / 64 == n / 4096;
  }

  /** The digit a character stands for; padding stands for zero bits. */
  function Digit(c: char): (d: int)
    ensures 0 <= d < 64
  {
    if Position(c).Some? then Position(c).value else 0
  }

  /** Three full bytes come back out of their quartet, leaving nothing undelivered. */
  lemma ReadFullQuartet(chunk: Bytes, rest: string)
    requires |chunk| == 3
    ensures Read(Quartet(chunk) + rest, 0, 0) == Prepend(chunk, Read(rest, 0, 0))
  {
    var q := Quartet(chunk);
    QuartetIsBase64Digits(chunk);
    var v0: int, v1: int, v2: int, v3: int := Digit(q[0]), Digit(q[1]), Digit(q[2]), Digit(q[3]);
    ReadQuartet(q, rest, v0, v1, v2, v3);
    FullDigits(chunk[0], chunk[1], chunk[2], v0, v1, v2, v3);
    assert chunk == [v0 * 4 + v1 / 16, v1 % 16 * 16 + v2 / 4, v2 % 4 * 64 + v3];
  }

  lemma FullDigits(b0: Byte, b1: Byte, b2: Byte, v0: int, v1: int, v2: int, v3: int)
    requires 0 <= v0 < 64 && 0 <= v1 < 64 && 0 <= v2 < 64 && 0 <= v3 < 64
    requires b0 * 65536 + b1 * 256 + b2 == v0 * 262144 + v1 * 4096 + v2 * 64 + v3
    ensures b0 == v0 * 4 + v1 / 16 && b1 == v1 % 16 * 16 + v2 / 4 && b2 == v2 % 4 * 64 + v3
  {
    assert v1 == v1 / 16 * 16 + v1 % 16 && v2 == v2 / 4 * 4 + v2 % 4;
  }

  /** Reading one more symbol when no bits are held, and when some are. */
  lemma ReadFirst(c: char, rest: string, v: int)
    requires Position(c) == Some(v)
    ensures Read([c] + rest, 0, 0) == Read(rest, v, 6)
  {
    assert ([c] + rest)[1..] == rest;
  }

  lemma ReadNext(c: char, rest: string, v: int, carry: nat, bits: nat)
    requires Position(c) == Some(v) && bits in {2, 4, 6} && carry < Held(bits)
    ensures var n := carry * 64 + v;
            Read([c] + rest, carry, bits) == Prepend([Delivered(n, bits)], Read(rest, n % Held(bits - 2), bits - 2))
  {
    assert ([c] + rest)[1..] == rest;
  }

  lemma PrependThrice(a: Byte, b: Byte, c: Byte, r: Option<Bytes>)
    ensures Prepend([a], Prepend([b], Prepend([c], r))) == Prepend([a, b, c], r)
  {
    if r.Some? {
      assert [a] + ([b] + ([c] + r.value)) == [a, b, c] + r.value;
    }
  }

  /** Reading four symbols delivers three bytes. */
  lemma ReadQuartet(q: string, rest: string, v0: int, v1: int, v2: int, v3: int)
    requires |q| == 4
    requires Position(q[0]) == Some(v0) && Position(q[1]) == Some(v1)
    requires Position(q[2]) == Some(v2) && Position(q[3]) == Some(v3)
    ensures Read(q + rest, 0, 0) ==
            Prepend([v0 * 4 + v1 / 16, v1 % 16 * 16 + v2 / 4, v2 % 4 * 64 + v3], Read(rest, 0, 0))
  {
    var r3 := [q[3]] + rest;
    var r2 := [q[2]] + r3;
    var r1 := [q[1]] + r2;
    assert q + rest == [q[0]] + r1;
    ReadFirst(q[0], r1, v0);
    ReadNext(q[1], r2, v1, v0, 6);
    ReadNext(q[2], r3, v2, v1 % 16, 4);
    ReadNext(q[3], rest, v3, v2 % 4, 2);
    Regroup(v0, v1, 16);
    Regroup(v1 % 16, v2, 4);
    PrependThrice(v0 * 4 + v1 / 16, v1 % 16 * 16 + v2 / 4, v2 % 4 * 64 + v3, Read(rest, 0, 0));
  }

  lemma Regroup(u: nat, v: int, p: nat)
    requires 0 <= v < 64 && p in {4, 16}
    ensures (u * 64 + v) % p == v % p
    ensures (u * 64 + v) / p == u * (64 / p) + v / p
  {
  }

  /** A padded quartet ends the input and gives back its one or two bytes. */
  lemma ReadLastQuartet(chunk: Bytes)
    requires 1 <= |chunk| <= 2
    ensures Read(Quartet(chunk), 0, 0) == Some(chunk)
  {
    var q := Quartet(chunk);
    QuartetIsBase64Digits(chunk);
    var v0, v1, v2 := Digit(q[0]), Digit(q[1]), Digit(q[2]);
    FullDigits(chunk[0], ByteAt(chunk, 1), 0, v0, v1, v2, 0);
    var r2 := [q[2]] + [q[3]];
    var r1 := [q[1]] + r2;
    assert q == [q[0]] + r1;
    ReadFirst(q[0], r1, v0);
    ReadNext(q[1], r2, v1, v0, 6);
    Regroup(v0, v1, 16);
    if |chunk| == 1 {
      assert chunk == [chunk[0]] + [];
    } else {
      ReadNext(q[2], [q[3]], v2, v1 % 16, 4);
      Regroup(v1 % 16, v2, 4);
      assert chunk == [chunk[0]] + ([chunk[1]] + []);
    }
  }

  /** Decoding an encoding gives back the bytes, whatever their number. */
  lemma {:induction false} RoundTrip(x: Bytes)
    ensures Read(Encode(x), 0, 0) == Some(x) && Decode(Encode(x)) == Some(x)
  {
    if x == [] {
    } else {
      var k := ChunkSize(x);
      if k == 3 {
        RoundTrip(x[3..]);
        ReadFullQuartet(x[..3], Encode(x[3..]));
        assert x == x[..3] + x[3..];
      } else {
        ReadLastQuartet(x);
        assert x[..k] == x && x[k..] == [];
        assert Encode(x) == Quartet(x) + "" == Quartet(x);
      }
    }
  }

  /** Strict decoding inverts encoding exactly: it accepts the encodings and nothing else. */
  lemma DecodeInvertsEncode(s: string, x: Bytes)
    ensures Decode(s) == Some(x) <==> s == Encode(x)
  {
    RoundTrip(x);
  }

  /** Canonical base64 by its grammar: quartets of symbols, of which only the last may end in
      one or two padding characters, and then with zero residual bits. */
  predicate Canonical(s: string) {
    s == "" ||
    ( && |s| >= 4 && Position(s[0]).Some? && Position(s[1]).Some?
      && if s[2] == PAD then |s| == 4 && s[3] == PAD && Position(s[1]).value % 16 == 0
         else Position(s[2]).Some? &&
              if s[3] == PAD then |s| == 4 && Position(s[2]).value % 4 == 0
              else Position(s[3]).Some? && Canonical(s[4..]) )
  }

  /** A string survives decoding and re-encoding exactly when the grammar admits it. */
  lemma StrictMeansCanonical(s: string)
    ensures Decode(s).Some? <==> Canonical(s)
  {
    if Canonical(s) {
      var x := BytesOf(s);
      CanonicalIsEncoding(s);
      RoundTrip(x);
    }
    if Decode(s).Some? {
      EncodingIsCanonical(Decode(s).value);
    }
  }

  lemma {:induction false} EncodingIsCanonical(x: Bytes)
    ensures Canonical(Encode(x))
  {
    if x == [] {
    } else {
      var k := ChunkSize(x);
      var q := Quartet(x[..k]);
      QuartetIsBase64Digits(x[..k]);
      assert Encode(x) == q + Encode(x[k..]);
      if k == 3 {
        EncodingIsCanonical(x[3..]);
        assert (q + Encode(x[3..]))[4..] == Encode(x[3..]);
      } else {
        assert x[k..] == [] && q + "" == q;
        FullDigits(x[0], ByteAt(x[..k], 1), 0, Position(q[0]).value, Position(q[1]).value, Digit(q[2]), 0);
      }
    }
  }

  /** The bytes a canonical string stands for, quartet by quartet. */
  ghost function BytesOf(s: string): Bytes
    requires Canonical(s)
  {
    if s == "" then []
    else
      var v0, v1, v2, v3 := Digit(s[0]), Digit(s[1]), Digit(s[2]), Digit(s[3]);
      var b0, b1, b2 := v0 * 4 + v1 / 16, v1 % 16 * 16 + v2 / 4, v2 % 4 * 64 + v3;
      if s[2] == PAD then [b0]
      else if s[3] == PAD then [b0, b1]
      else [b0, b1, b2] + BytesOf(s[4..])
  }

  lemma {:induction false} CanonicalIsEncoding(s: string)
    requires Canonical(s)
    ensures Encode(BytesOf(s)) == s
  {
    if s == "" {
    } else {
      var x := BytesOf(s);
      var k := ChunkSize(x);
      QuartetOfDigits(x[..k], s[0], s[1], s[2], s[3]);
      assert Quartet(x[..k]) == s[..4];
      if k == 3 {
        assert x[3..] == BytesOf(s[4..]);
        CanonicalIsEncoding(s[4..]);
      } else {
        assert x[k..] == [] && s[4..] == "";
      }
      assert s == s[..4] + s[4..];
    }
  }

  /** Encoding the bytes of one quartet gives its characters back. */
  lemma QuartetOfDigits(chunk: Bytes, c0: char, c1: char, c2: char, c3: char)
    requires 1 <= |chunk| <= 3
    requires Position(c0).Some? && Position(c1).Some?
    requires |chunk| > 1 ==> Position(c2).Some?
    requires |chunk| > 2 ==> Position(c3).Some?
    requires |chunk| <= 1 ==> c2 == PAD && Digit(c1) % 16 == 0
    requires |chunk| <= 2 ==> c3 == PAD && Digit(c2) % 4 == 0
    requires chunk[0] == Digit(c0) * 4 + Digit(c1) / 16
    requires |chunk| > 1 ==> chunk[1] == Digit(c1) % 16 * 16 + Digit(c2) / 4
    requires |chunk| > 2 ==> chunk[2] == Digit(c2) % 4 * 64 + Digit(c3)
    ensures Quartet(chunk) == [c0, c1, c2, c3]
  {
    var v0, v1, v2, v3 := Digit(c0), Digit(c1), Digit(c2), Digit(c3);
    var n := ByteAt(chunk, 0) * 65536 + ByteAt(chunk, 1) * 256 + ByteAt(chunk, 2);
    assert v1 == v1 / 16 * 16 + v1 % 16 && v2 == v2 / 4 * 4 + v2 % 4;
    assert n == v0 * 262144 + v1 * 4096 + v2 * 64 + v3;
    DigitsAreUnique(n, v0, v1, v2, v3);
    SymbolOfPosition(c0);
    SymbolOfPosition(c1);
  }

  lemma DigitsAreUnique(n: nat, v0: int, v1: int, v2: int, v3: int)
    requires 0 <= v0 < 64 && 0 <= v1 < 64 && 0 <= v2 < 64 && 0 <= v3 < 64
    requires n == v0 * 262144 + v1 * 4096 + v2 * 64 + v3
    ensures n / 262144 % 64 == v0 && n / 4096 % 64 == v1 && n / 64 % 64 == v2 && n % 64 == v3
  {
    assert n / 262144 == v0;
    assert n / 4096 == v0 * 64 + v1;
    assert n / 64 == v0 * 4096 + v1 * 64 + v2;
  }
}
