/** TiKV's memcomparable key encoding: the form in which PD reports region bounds. */
module MemComparable {
  import opened ByteStrings

  const GROUP: nat := 8

  function Zeros(n: nat): (z: Bytes)
    ensures |z| == n && forall i :: 0 <= i < n ==> z[i] == 0
  {
    if n == 0 then [] else [0] + Zeros(n - 1)
  }

  /** A chunk padded with zeros to `width`, then a marker byte. */
  function Padded(chunk: Bytes, width: nat, marker: Byte): (g: Bytes)
    requires |chunk| <= width
    ensures |g| == width + 1
  {
    chunk + Zeros(width - |chunk|) + [marker]
  }

  /** One encoded group: the marker is 0xFF less the number of padding bytes. */
  function Group(chunk: Bytes): (g: Bytes)
    requires |chunk| <= GROUP
    ensures |g| == GROUP + 1
  {
    Padded(chunk, GROUP, 255 - (GROUP - |chunk|))
  }

  /** The encoding by structure: full groups, then exactly one group with padding. */
  function Encoded(key: Bytes): (out: Bytes)
  {
    if |key| < GROUP then Group(key) else Group(key[..GROUP]) + Encoded(key[GROUP..])
  }

  /** Index of the end of the chunk that starts at `i`. */
  function ChunkEnd(key: Bytes, i: nat): (end: nat)
    requires i < |key|
    ensures i < end <= |key| && end <= i + GROUP
  {
    if i + GROUP <= |key| then i + GROUP else |key|
  }

  lemma EncodedFrom(key: Bytes, i: nat)
    requires i < |key|
    ensures var end := ChunkEnd(key, i);
            Encoded(key[i..]) == Group(key[i..end]) + (if end == i + GROUP then Encoded(key[end..]) else [])
  {
    var end := ChunkEnd(key, i);
    if end == i + GROUP {
      assert key[i..][..GROUP] == key[i..end] && key[i..][GROUP..] == key[end..];
    } else {
      assert key[i..] == key[i..end];
    }
  }

  /** Appends one chunk, its zero padding and its marker. */
  method AppendGroup(out: Bytes, chunk: Bytes) returns (longer: Bytes)
    requires |chunk| <= GROUP
    ensures longer == out + Group(chunk)
  {
    var pad := GROUP - |chunk|;
    longer := out + chunk;
    longer := longer + Zeros(pad);
    longer := longer + [255 - pad];
    assert longer == out + Group(chunk);
  }

  /** The encoder, chunk by chunk, with the extra all-padding group for a key whose length
      is a multiple of 8. */
  method EncodeKey(key: Bytes) returns (out: Bytes)
    ensures out == Encoded(key)
  {
    out := [];
    var i := 0;
    assert key[0..] == key;
    while i < |key|
      invariant 0 <= i <= |key| && (i % 8 == 0 || i == |key|)
      invariant out + Remaining(key, i) == Encoded(key)
    {
      var end := ChunkEnd(key, i);
      RemainingAfter(key, i, out);
      out := AppendGroup(out, key[i..end]);
      i := end;
    }
    if |key| % 8 == 0 {
      assert key[i..] == [];
      out := AppendGroup(out, []);
    }
  }

  /** What is still to be appended when `i` bytes are done: nothing after a short last chunk. */
  function Remaining(key: Bytes, i: nat): Bytes
    requires i <= |key|
  {
    if i % 8 == 0 then Encoded(key[i..]) else []
  }

  lemma RemainingAfter(key: Bytes, i: nat, done: Bytes)
    requires i < |key| && i % 8 == 0
    ensures var end := ChunkEnd(key, i);
            done + Remaining(key, i) == (done + Group(key[i..end])) + Remaining(key, end)
  {
    var end := ChunkEnd(key, i);
    EncodedFrom(key, i);
    ConcatAssociates(done, Group(key[i..end]), Remaining(key, end));
  }

  lemma ConcatAssociates(a: Bytes, b: Bytes, c: Bytes)
    ensures a + (b + c) == (a + b) + c
  {
  }

  lemma {:induction false} EncodedLength(key: Bytes)
    ensures |Encoded(key)| == 9 * (|key| / 8 + 1)
  {
    if |key| < GROUP {
    } else {
      EncodedLength(key[GROUP..]);
    }
  }

  /** How many bytes the `g`-th group lacks. */
  function Lacking(length: nat, g: nat): nat {
    if 8 * g + 8 <= length then 0 else if 8 * g <= length then 8 * g + 8 - length else 8
  }

  lemma GroupByPosition(chunk: Bytes, i: nat)
    requires |chunk| <= GROUP && i < 9
    ensures Group(chunk)[i] == if i == 8 then 255 - (8 - |chunk|) else if i < |chunk| then chunk[i] else 0
  {
    var zeros := Zeros(GROUP - |chunk|);
    assert |chunk| <= i < 8 ==> zeros[i - |chunk|] == 0;
  }

  /** The encoding byte by byte: groups of nine, in each the next eight bytes of the key, or zeros
      where there are none left, and then 255 less the number of bytes that the group lacks. */
  lemma {:induction false} EncodedByPosition(key: Bytes, g: nat, i: nat)
    requires i < 9 && 9 * g + i < |Encoded(key)|
    ensures Encoded(key)[9 * g + i] ==
            if i == 8 then 255 - Lacking(|key|, g) else if 8 * g + i < |key| then key[8 * g + i] else 0
  {
    EncodedLength(key);
    if g == 0 {
      GroupByPosition(Chunk(key), i);
    } else {
      var rest := key[GROUP..];
      assert |key| >= GROUP && Encoded(key)[9 * g + i] == Encoded(rest)[9 * (g - 1) + i];
      EncodedByPosition(rest, g - 1, i);
    }
  }

  /** Zero padding with the smaller marker sorts below any chunk with the larger one. */
  lemma {:induction false} PaddingSortsFirst(n: nat, b: Bytes, ma: Byte, mb: Byte, x: Bytes, y: Bytes)
    requires |b| <= n && ma < mb
    ensures Less(Padded([], n, ma) + x, Padded(b, n, mb) + y)
  {
    var l, r := Padded([], n, ma) + x, Padded(b, n, mb) + y;
    if n == 0 {
    } else {
      var rest := if b == [] then [] else b[1..];
      PaddingSortsFirst(n - 1, rest, ma, mb, x, y);
      assert l[0] == 0 && l[1..] == Padded([], n - 1, ma) + x;
      assert r[1..] == Padded(rest, n - 1, mb) + y;
    }
  }

  /** Padded groups of different chunks compare as the chunks do, provided that a longer
      chunk carries the larger marker. */
  lemma {:induction false} PaddedOrder(a: Bytes, b: Bytes, n: nat, ma: Byte, mb: Byte, x: Bytes, y: Bytes)
    requires |a| <= n && |b| <= n && a != b
    requires |a| < |b| ==> ma < mb
    requires |b| < |a| ==> mb < ma
    ensures Less(Padded(a, n, ma) + x, Padded(b, n, mb) + y) <==> Less(a, b)
  {
    var l, r := Padded(a, n, ma) + x, Padded(b, n, mb) + y;
    if a == [] {
      PaddingSortsFirst(n, b, ma, mb, x, y);
    } else if b == [] {
      PaddingSortsFirst(n, a, mb, ma, y, x);
      LessTrichotomy(l, r);
    } else {
      assert l[0] == a[0] && r[0] == b[0];
      if a[0] == b[0] {
        assert a == [a[0]] + a[1..] && b == [b[0]] + b[1..];
        PaddedOrder(a[1..], b[1..], n - 1, ma, mb, x, y);
        assert l[1..] == Padded(a[1..], n - 1, ma) + x;
        assert r[1..] == Padded(b[1..], n - 1, mb) + y;
      }
    }
  }

  /** The leading group of an encoding, and what follows it. */
  function Chunk(key: Bytes): (c: Bytes)
    ensures |c| <= GROUP && StartsWith(key, c)
  {
    if |key| < GROUP then key else key[..GROUP]
  }

  function Follow(key: Bytes): Bytes {
    if |key| < GROUP then [] else Encoded(key[GROUP..])
  }

  /** Keys with different leading chunks compare as those chunks do: a chunk that is not
      full ends its key. */
  lemma ChunksDecide(a: Bytes, b: Bytes)
    requires Chunk(a) != Chunk(b)
    ensures Less(a, b) <==> Less(Chunk(a), Chunk(b))
  {
    var ca, cb := Chunk(a), Chunk(b);
    var ra, rb := a[|ca|..], b[|cb|..];
    assert a == ca + ra && b == cb + rb;
    FirstDifferenceDecides(ca, cb, ra, rb);
  }

  lemma {:induction false} FirstDifferenceDecides(ca: Bytes, cb: Bytes, ra: Bytes, rb: Bytes)
    requires ca != cb
    requires |ca| < |cb| ==> ra == []
    requires |cb| < |ca| ==> rb == []
    ensures Less(ca + ra, cb + rb) <==> Less(ca, cb)
  {
    if ca == [] || cb == [] || ca[0] != cb[0] {
    } else {
      assert ca == [ca[0]] + ca[1..] && cb == [cb[0]] + cb[1..];
      FirstDifferenceDecides(ca[1..], cb[1..], ra, rb);
      assert (ca + ra)[1..] == ca[1..] + ra && (cb + rb)[1..] == cb[1..] + rb;
    }
  }

  /** The point of the encoding: it preserves the order of raw keys in both directions,
      including keys whose length is a multiple of 8 and keys that extend one another. */
  lemma {:induction false} EncodingPreservesOrder(a: Bytes, b: Bytes)
    ensures Less(Encoded(a), Encoded(b)) <==> Less(a, b)
  {
    var ca, cb := Chunk(a), Chunk(b);
    assert Encoded(a) == Group(ca) + Follow(a) && Encoded(b) == Group(cb) + Follow(b);
    if ca != cb {
      ChunksDecide(a, b);
      PaddedOrder(ca, cb, GROUP, 255 - (GROUP - |ca|), 255 - (GROUP - |cb|), Follow(a), Follow(b));
    } else if |a| < GROUP || |b| < GROUP {
      LessCancelsPrefix(Group(ca), Follow(a), Follow(b));
      LessAfter(a, b, |ca|);
      ShortKeysEnd(a, b);
    } else {
      LessCancelsPrefix(Group(ca), Follow(a), Follow(b));
      LessAfter(a, b, GROUP);
      EncodingPreservesOrder(a[GROUP..], b[GROUP..]);
    }
  }

  lemma ShortKeysEnd(a: Bytes, b: Bytes)
    requires Chunk(a) == Chunk(b) && (|a| < GROUP || |b| < GROUP)
    ensures a == b
  {
  }

  /** Different keys have different encodings. */
  lemma EncodingIsInjective(a: Bytes, b: Bytes)
    ensures Encoded(a) == Encoded(b) <==> a == b
  {
    if a != b {
      EncodingPreservesOrder(a, b);
      EncodingPreservesOrder(b, a);
      LessTrichotomy(a, b);
      LessIrreflexive(Encoded(a));
    }
  }
}
