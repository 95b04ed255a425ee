/** The streaming SHA-1 context. */
module Sha1 {
  import opened HashStream
  import opened Sha1Block

  const INITIAL := Regs(0x67452301, 0xEFCDAB89, 0x98BADCFE, 0x10325476, 0xC3D2E1F0)

  function WordBytes(w: bv32): (b: seq<byte>)
    ensures |b| == 4
  {
    [ByteOf(w >> 24), ByteOf(w >> 16), ByteOf(w >> 8), ByteOf(w)]
  }

  /** The four bytes that are taken from a word make up the word. */
  lemma WordBytesCover(w: bv32)
    ensures BigEndianWord((w >> 24) & 255, (w >> 16) & 255, (w >> 8) & 255, w & 255) == w
  {
    assert (((w >> 24) & 255) << 24) | (((w >> 16) & 255) << 16) | (((w >> 8) & 255) << 8) | (w & 255) == w;
  }

  /** Reading the four bytes of a word as a message word gives back the word. */
  lemma WordBytesHold(w: bv32)
    ensures var b := WordBytes(w); BigEndianWord(b[0] as bv32, b[1] as bv32, b[2] as bv32, b[3] as bv32) == w
  {
    hide ByteOf, BigEndianWord;
    ByteOfBits(w);
    ByteOfBits(w >> 8);
    ByteOfBits(w >> 16);
    ByteOfBits(w >> 24);
    WordBytesCover(w);
  }

  function DigestBytes(h: Regs): (b: seq<byte>)
    ensures |b| == 20
  {
    WordBytes(h.a) + WordBytes(h.b) + WordBytes(h.c) + WordBytes(h.d) + WordBytes(h.e)
  }

  /** The bit length, high-order word first. */
  ghost function LengthBytes(m: seq<byte>): (b: seq<byte>)
    ensures |b| == 8
  {
    BigEndian32(BitLength(m) / 0x1_0000_0000) + BigEndian32(BitLength(m) % 0x1_0000_0000)
  }

  /** The hash of a whole message (sections 5.1.1 and 6.1.2 of FIPS 180-4). */
  ghost function Hash(m: seq<byte>): (d: seq<byte>)
    ensures |d| == 20
  {
    DigestBytes(Absorb(Compress, INITIAL, Padded(m, LengthBytes(m))).state)
  }

  class Context {
    const buffer: array<byte>
    var state: Regs
    var count0: word
    var count1: word
    ghost var msg: seq<byte>       // everything hashed so far

    ghost predicate Valid()
      reads this, buffer
    {
      buffer.Length == BLOCK && Counts(count0, count1, |msg|) && Holds(Absorb(Compress, INITIAL, msg))
    }

    ghost predicate Holds(x: Absorbed<Regs>)
      reads this, buffer
    {
      buffer.Length == BLOCK && |x.rest| <= BLOCK && state == x.state && buffer[..|x.rest|] == x.rest
    }

    constructor ()
      ensures Valid() && fresh(buffer) && msg == []
    {
      buffer := new byte[BLOCK](_ => 0);
      state, count0, count1, msg := INITIAL, 0, 0, [];
    }

    /** memcpy(&buffer[j], &data[i], n) */
    method Copy(j: nat, data: seq<byte>, i: nat, n: nat)
      requires j + n <= buffer.Length && i + n <= |data|
      modifies buffer
      ensures buffer[..j + n] == old(buffer[..j]) + data[i..i + n]
    {
      forall k | 0 <= k < n {
        buffer[j + k] := data[i + k];
      }
    }

    /** The blocks after the one that was begun; they are compressed where they are. The index is a
        32-bit one; it does not wrap, because whole blocks were read up to it, counted from the block
        that was begun with `j` bytes. */
    method UpdateBlocks(data: seq<byte>, i0: nat, ghost m: seq<byte>, ghost j: nat) returns (i: nat)
      requires i0 <= |data| && i0 + j == 64 && j + |data| < 0x1_0000_0000
      requires Absorb(Compress, INITIAL, m + data[..i0]) == Absorbed(state, [])
      modifies this`state
      ensures i0 <= i <= |data| < i + 64 && Absorb(Compress, INITIAL, m + data[..i]) == Absorbed(state, [])
    {
      hide Absorb, Compress;
      i := i0;
      ghost var q := 1;
      IndexFits(i, j, q, |data|);
      while (i + 63) % 0x1_0000_0000 < |data|
        invariant i0 <= i <= |data| && i + j == 64 * q
        invariant (i + 63) % 0x1_0000_0000 == i + 63
        invariant Absorb(Compress, INITIAL, m + data[..i]) == Absorbed(state, [])
        decreases |data| - i
      {
        Regroup(m, data, i, i + 64);
        CompleteBlock(Compress, INITIAL, m + data[..i], data[i..i + 64]);
        assert [] + data[i..i + 64] == data[i..i + 64];
        state := Transform(state, data[i..i + 64]);
        i, q := i + 64, q + 1;
        IndexFits(i, j, q, |data|);
      }
    }

    /** Completes the block that was begun, and compresses it. */
    method FillBlock(j: nat, data: seq<byte>, i: nat, ghost m: seq<byte>)
      requires Holds(Absorb(Compress, INITIAL, m)) && j == |Absorb(Compress, INITIAL, m).rest|
      requires i == 64 - j && i <= |data|
      modifies this`state, buffer
      ensures Absorb(Compress, INITIAL, m + data[..i]) == Absorbed(state, [])
    {
      hide Absorb, Compress;
      assert data[0..i] == data[..i];
      CompleteBlock(Compress, INITIAL, m, data[..i]);
      Copy(j, data, 0, i);
      assert buffer[..] == buffer[..j + i];
      state := Transform(state, buffer[..]);
    }

    /** The whole blocks of what the context holds and the data, and then the rest. */
    method AbsorbData(j0: nat, data: seq<byte>, ghost m: seq<byte>)
      requires Holds(Absorb(Compress, INITIAL, m)) && j0 == |Absorb(Compress, INITIAL, m).rest|
      requires j0 + |data| < 0x1_0000_0000
      modifies this`state, buffer
      ensures Holds(Absorb(Compress, INITIAL, m + data))
    {
      hide Absorb, Compress;
      var i, j := 0, j0;
      WrapOnce(j + |data|);
      if (j + |data|) % 0x1_0000_0000 > 63 {
        i := 64 - j;
        FillBlock(j, data, i, m);
        i := UpdateBlocks(data, i, m, j);
        j := 0;
      } else {
        assert m + data[..0] == m;
      }
      Regroup(m, data, i, |data|);
      assert data[..|data|] == data;
      AppendShort(Compress, INITIAL, m + data[..i], data[i..|data|]);
      Copy(j, data, i, |data| - i);
    }

    /** Up to 2^32 - 1 bytes, together with those of the block that was begun; by UpdateGuardIff the
        code takes the wrong branch beyond that. */
    method Update(data: seq<byte>)
      requires Valid() && |msg| % BLOCK + |data| < 0x1_0000_0000
      modifies this`state, this`count0, this`count1, this`msg, buffer
      ensures Valid() && msg == old(msg) + data
    {
      hide Absorb, Compress, Counts;
      ghost var m := msg;
      RestLength(Compress, INITIAL, m);
      PositionFromCount(count0, count1, |m|);
      AddedCounts(count0, count1, |m|, |data|);
      var j := count0;
      count1, count0 := AddHigh(count0, count1, |data|), AddLow(count0, |data|);
      msg := m + data;
      AbsorbData(j / 8 % 64, data, m);
    }

    /** 0x80, and then zero bytes one at a time up to the place of the length. */
    method Pad()
      requires Valid()
      modifies this`state, this`count0, this`count1, this`msg, buffer
      ensures Valid() && msg == old(msg) + ([0x80] + Zeros(ZeroCount(|old(msg)|)))
    {
      hide Absorb, Counts, ZeroCount;
      ghost var m := msg;
      Update([0x80]);
      ghost var j: nat := 0;
      PaddingGrows(m, j, count0, count1);
      while count0 / 8 % 64 != 56
        invariant Valid() && msg == m + ([0x80] + Zeros(j)) && j <= ZeroCount(|m|)
        invariant count0 / 8 % 64 == 56 <==> j == ZeroCount(|m|)
        decreases ZeroCount(|m|) - j
      {
        Update([0]);
        j := j + 1;
        PaddingGrows(m, j, count0, count1);
      }
    }

    /** Finishes the hash; the context is wiped and must not be used any more. */
    method Final() returns (digest: seq<byte>)
      requires Valid()
      modifies this, buffer
      ensures digest == Hash(old(msg))
      ensures state == Regs(0, 0, 0, 0, 0) && count0 == count1 == 0
      ensures forall k | 0 <= k < buffer.Length :: buffer[k] == 0
    {
      hide Absorb, Counts, Padded;
      ghost var m := msg;
      LengthFromCount(count0, count1, m);
      var finalCount := BigEndian32(count1) + BigEndian32(count0);
      Pad();
      Update(finalCount);
      PaddedIs(m, finalCount);
      digest := DigestBytes(state);
      forall k | 0 <= k < buffer.Length {
        buffer[k] := 0;
      }
      state, count0, count1, msg := Regs(0, 0, 0, 0, 0), 0, 0, [];
    }
  }

  /** The 32-bit sum decides rightly whether a block is completed if and only if it does not wrap. */
  lemma UpdateGuardIff(j: nat, len: nat)
    requires j < BLOCK && len < 0x1_0000_0000
    ensures ((j + len) % 0x1_0000_0000 > 63 <==> j + len > 63) <==> j + len < 0x1_0000_0000
  {
    if j + len >= 0x1_0000_0000 {
      WrapOnce(j + len);
    }
  }

  /** The index after `q` blocks leaves room for the 63 that are added to it. */
  lemma IndexFits(i: nat, j: nat, q: nat, n: nat)
    requires i + j == 64 * q && i <= n && j + n < 0x1_0000_0000
    ensures (i + 63) % 0x1_0000_0000 == i + 63
  {
    assert q <= 0x3FF_FFFF;
  }

  /** One more zero: the text of the padding, and whether it is long enough. */
  lemma PaddingGrows(m: seq<byte>, j: nat, low: word, high: word)
    requires j <= ZeroCount(|m|) && Counts(low, high, |m| + 1 + j)
    ensures Zeros(0) == [] && (j > 0 ==> Zeros(j) == Zeros(j - 1) + [0])
    ensures |m + ([0x80] + Zeros(j))| == |m| + 1 + j
    ensures low / 8 % 64 == 56 <==> j == ZeroCount(|m|)
  {
    hide Counts, ZeroCount;
    PositionFromCount(low, high, |m| + 1 + j);
    ZeroCountIsRight(|m|);
    if (|m| + 1 + j) % BLOCK == 56 {
      LeastZeros(|m|, j);
    }
  }

  lemma ZeroCountIsRight(n: nat)
    ensures (n + 1 + ZeroCount(n)) % BLOCK == 56
  {
  }

  lemma PaddedIs(m: seq<byte>, length: seq<byte>)
    requires |length| == 8
    ensures Padded(m, length) == (m + ([0x80] + Zeros(ZeroCount(|m|)))) + length
  {
  }

  /** The number of zeros is the least that leads to position 56. */
  lemma LeastZeros(n: nat, j: nat)
    requires j <= ZeroCount(n) && (n + 1 + j) % BLOCK == 56
    ensures j == ZeroCount(n)
  {
  }

  lemma LengthFromCount(low: word, high: word, m: seq<byte>)
    requires Counts(low, high, |m|)
    ensures LengthBytes(m) == BigEndian32(high) + BigEndian32(low)
  {
    hide BigEndian32;
    assert BitLength(m) == low + high * 0x1_0000_0000;
    hide Counts, BitLength;
    SplitWords(low, high);
  }
}
