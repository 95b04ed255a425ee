/** The streaming MD5 context. */
module Md5 {
  import opened HashStream
  import opened Md5Block

  const INITIAL := Words(0x67452301, 0xefcdab89, 0x98badcfe, 0x10325476)

  /** A word as four bytes, low-order byte first. */
  function WordBytes(w: bv32): (b: seq<byte>)
    ensures |b| == 4
  {
    [ByteOf(w), ByteOf(w >> 8), ByteOf(w >> 16), ByteOf(w >> 24)]
  }

  /** The four bytes that are taken from a word make up the word. */
  lemma WordBytesCover(w: bv32)
    ensures LittleEndianWord(w & 255, (w >> 8) & 255, (w >> 16) & 255, (w >> 24) & 255) == w
  {
    assert (w & 255) | (((w >> 8) & 255) << 8) | (((w >> 16) & 255) << 16) | (((w >> 24) & 255) << 24) == w;
  }

  /** Reading the four bytes of a word as a message word gives back the word. */
  lemma WordBytesHold(w: bv32)
    ensures var b := WordBytes(w); LittleEndianWord(b[0] as bv32, b[1] as bv32, b[2] as bv32, b[3] as bv32) == w
  {
    hide ByteOf, LittleEndianWord;
    ByteOfBits(w);
    ByteOfBits(w >> 8);
    ByteOfBits(w >> 16);
    ByteOfBits(w >> 24);
    WordBytesCover(w);
  }

  function DigestBytes(h: Words): (b: seq<byte>)
    ensures |b| == 16
  {
    WordBytes(h.a) + WordBytes(h.b) + WordBytes(h.c) + WordBytes(h.d)
  }

  /** The bit length, low-order word first. */
  ghost function LengthBytes(m: seq<byte>): (b: seq<byte>)
    ensures |b| == 8
  {
    LittleEndian32(BitLength(m) % 0x1_0000_0000) + LittleEndian32(BitLength(m) / 0x1_0000_0000)
  }

  /** The hash of a whole message (sections 3.1 to 3.5 of RFC 1321). */
  ghost function Hash(m: seq<byte>): (d: seq<byte>)
    ensures |d| == 16
  {
    DigestBytes(Absorb(Compress, INITIAL, Padded(m, LengthBytes(m))).state)
  }

  class Context {
    const input: array<byte>
    var buf: Words
    var bits0: word
    var bits1: word
    ghost var msg: seq<byte>       // everything hashed so far

    ghost predicate Valid()
      reads this, input
    {
      && input.Length == BLOCK
      && Counts(bits0, bits1, |msg|)
      && Holds(Absorb(Compress, INITIAL, msg))
    }

    ghost predicate Holds(x: Absorbed<Words>)
      reads this, input
    {
      input.Length == BLOCK && |x.rest| <= BLOCK && buf == x.state && input[..|x.rest|] == x.rest
    }

    constructor ()
      ensures Valid() && fresh(input) && msg == []
    {
      input := new byte[BLOCK](_ => 0);
      buf, bits0, bits1, msg := INITIAL, 0, 0, [];
    }

    /** memcpy(in + p, data + i, n) */
    method Copy(p: nat, data: seq<byte>, i: nat, n: nat)
      requires p + n <= input.Length && i + n <= |data|
      modifies input
      ensures input[..p + n] == old(input[..p]) + data[i..i + n]
    {
      forall k | 0 <= k < n {
        input[p + k] := data[i + k];
      }
    }

    /** Completes the block that was begun, and compresses it. */
    method CopyAndTransform(p: nat, data: seq<byte>, i: nat, n: nat, ghost m: seq<byte>)
      requires Holds(Absorb(Compress, INITIAL, m)) && p == |Absorb(Compress, INITIAL, m).rest|
      requires p + n == BLOCK && i + n <= |data|
      modifies this`buf, input
      ensures Absorb(Compress, INITIAL, m + data[i..i + n]) == Absorbed(buf, [])
    {
      hide Compress, Absorb;
      CompleteBlock(Compress, INITIAL, m, data[i..i + n]);
      Copy(p, data, i, n);
      assert input[..] == input[..p + n];
      buf := Transform(buf, input[..]);
    }

    /** Keeps bytes that do not complete a block. */
    method CopyOnly(p: nat, data: seq<byte>, i: nat, n: nat, ghost m: seq<byte>)
      requires Holds(Absorb(Compress, INITIAL, m)) && p == |Absorb(Compress, INITIAL, m).rest|
      requires p + n < BLOCK && i + n <= |data|
      modifies input
      ensures Holds(Absorb(Compress, INITIAL, m + data[i..i + n]))
    {
      hide Compress, Absorb;
      AppendShort(Compress, INITIAL, m, data[i..i + n]);
      Copy(p, data, i, n);
    }

    /** The blocks after the first `i` bytes, and then the rest. */
    method UpdateBlocks(data: seq<byte>, i0: nat, ghost m: seq<byte>)
      requires input.Length == BLOCK && i0 <= |data| && Absorb(Compress, INITIAL, m + data[..i0]) == Absorbed(buf, [])
      modifies this`buf, input
      ensures Holds(Absorb(Compress, INITIAL, m + data))
    {
      hide Compress, Absorb;
      var i := i0;
      while |data| - i >= 64
        invariant 0 <= i <= |data|
        invariant Absorb(Compress, INITIAL, m + data[..i]) == Absorbed(buf, [])
      {
        Regroup(m, data, i, i + 64);
        CopyAndTransform(0, data, i, 64, m + data[..i]);
        i := i + 64;
      }
      Regroup(m, data, i, |data|);
      assert data[..|data|] == data;
      CopyOnly(0, data, i, |data| - i, m + data[..i]);
    }

    method Update(data: seq<byte>)
      requires Valid() && |data| < 0x1_0000_0000
      modifies this`buf, this`bits0, this`bits1, this`msg, input
      ensures Valid() && msg == old(msg) + data
    {
      hide Compress, Absorb, Counts;
      ghost var m := msg;
      RestLength(Compress, INITIAL, m);
      PositionFromCount(bits0, bits1, |m|);
      AddedCounts(bits0, bits1, |m|, |data|);
      var t := bits0;
      bits1, bits0 := AddHigh(bits0, bits1, |data|), AddLow(bits0, |data|);
      msg := m + data;
      t := t / 8 % 64;

      if t != 0 {
        var p := t;
        t := 64 - t;
        if |data| < t {
          assert data[0..|data|] == data;
          CopyOnly(p, data, 0, |data|, m);
          return;
        }
        assert data[0..t] == data[..t];
        CopyAndTransform(p, data, 0, t, m);
      } else {
        assert m + data[..0] == m;
      }
      UpdateBlocks(data, t, m);
    }
  
    /** memset(in + p, 0, n) */
    method Clear(p: nat, n: nat)
      requires p + n <= input.Length
      modifies input
      ensures input[..p + n] == old(input[..p]) + Zeros(n)
    {
      forall k | p <= k < p + n {
        input[k] := 0;
      }
    }

    /** Appends 0x80 and zeros up to the place of the length, going over to another block if need be. */
    method Pad(ghost length: seq<byte>) returns (ghost m: seq<byte>, ghost last: seq<byte>)
      requires Valid() && |length| == 8
      modifies this`buf, input
      ensures bits0 == old(bits0) && m + (last + length) == Padded(msg, length)
      ensures var x := Absorb(Compress, INITIAL, m); x.state == buf && input[..56] == x.rest + last
    {
      hide Compress, Absorb, Counts, Padded;
      m, last := msg, [];
      RestLength(Compress, INITIAL, m);
      PositionFromCount(bits0, bits1, |m|);
      PaddingShape(m, length);
      var count := bits0 / 8 % 64;
      Copy(count, [0x80], 0, 1);
      var p := count + 1;
      count := 64 - 1 - count;
      if count < 8 {
        Clear(p, count);
        ghost var first := [0x80] + Zeros(count);
        assert input[..] == input[..p + count] == Absorb(Compress, INITIAL, m).rest + first;
        CompleteBlock(Compress, INITIAL, m, first);
        buf := Transform(buf, input[..]);
        Clear(0, 56);
        m, last := m + first, Zeros(56);
      } else {
        Clear(p, count - 8);
        last := [0x80] + Zeros(count - 8);
      }
    }

    /** Appends the length, and compresses the last block. */
    method CompressLast(ghost m: seq<byte>, ghost last: seq<byte>)
      requires input.Length == BLOCK
      requires var x := Absorb(Compress, INITIAL, m); x.state == buf && input[..56] == x.rest + last
      modifies this`buf, input
      ensures Absorb(Compress, INITIAL, m + (last + (LittleEndian32(bits0) + LittleEndian32(bits1))))
           == Absorbed(buf, [])
    {
      hide Compress, Absorb, LittleEndian32;
      var length := LittleEndian32(bits0) + LittleEndian32(bits1);
      Copy(56, length, 0, 8);
      assert length[0..8] == length;
      assert input[..] == input[..64] == Absorb(Compress, INITIAL, m).rest + (last + length);
      CompleteBlock(Compress, INITIAL, m, last + length);
      buf := Transform(buf, input[..]);
    }

    /** Finishes the hash; the context is wiped and must not be used any more. */
    method Final() returns (digest: seq<byte>)
      requires Valid()
      modifies this`buf, this`bits0, this`bits1, input
      ensures digest == Hash(msg)
      ensures buf == Words(0, 0, 0, 0) && bits0 == bits1 == 0
      ensures input[..] == Zeros(64)
    {
      hide Compress, Absorb, Counts, Padded, LengthBytes, LittleEndian32;
      LengthFromCount(bits0, bits1, msg);
      ghost var m, last := Pad(LengthBytes(msg));
      CompressLast(m, last);
      digest := DigestBytes(buf);
      Clear(0, 64);
      assert input[..] == input[..64];
      buf, bits0, bits1 := Words(0, 0, 0, 0), 0, 0;
    }
  }

  lemma LengthFromCount(low: word, high: word, m: seq<byte>)
    requires Counts(low, high, |m|)
    ensures LengthBytes(m) == LittleEndian32(low) + LittleEndian32(high)
  {
    hide LittleEndian32;
    assert BitLength(m) == low + high * 0x1_0000_0000;
    hide Counts, BitLength;
    SplitWords(low, high);
  }

  /** The padding in one block, or across two. */
  lemma PaddingShape(m: seq<byte>, length: seq<byte>)
    requires |length| == 8
    ensures var room := 63 - |m| % BLOCK;
      if room < 8 then Padded(m, length) == (m + ([0x80] + Zeros(room))) + (Zeros(56) + length)
      else Padded(m, length) == m + (([0x80] + Zeros(room - 8)) + length)
  {
    var room := 63 - |m| % BLOCK;
    if room < 8 {
      assert Zeros(ZeroCount(|m|)) == Zeros(room) + Zeros(56);
    } else {
      assert ZeroCount(|m|) == room - 8;
    }
  }

  // ---------------------------------------------------------------------------------------------
  // The hash of a list of strings, as hexadecimal digits
  // ---------------------------------------------------------------------------------------------

  function Flatten(ss: seq<seq<byte>>): seq<byte> {
    if ss == [] then [] else Flatten(ss[..|ss| - 1]) + ss[|ss| - 1]
  }

  const HEX := "0123456789abcdef"

  function HexOf(p: seq<byte>): (s: string)
    ensures |s| == 2 * |p|
    ensures forall k | 0 <= k < |p| :: s[2 * k] == HEX[p[k] as int / 16] && s[2 * k + 1] == HEX[p[k] as int % 16]
  {
    if p == [] then []
    else HexOf(p[..|p| - 1]) + [HEX[p[|p| - 1] as int / 16], HEX[p[|p| - 1] as int % 16]]
  }

  method Bin2Str(p: seq<byte>) returns (s: string)
    ensures s == HexOf(p) + ['\0']
  {
    s := [];
    var i := 0;
    while i < |p|
      invariant 0 <= i <= |p| && s == HexOf(p[..i])
    {
      assert p[..i + 1][..i] == p[..i];
      s := s + [HEX[p[i] as int / 16], HEX[p[i] as int % 16]];
      i := i + 1;
    }
    assert p[..|p|] == p;
    s := s + ['\0'];
  }

  /** The hash of the concatenation, however it is split into strings. */
  method MgMd5(strings: seq<seq<byte>>) returns (buf: string)
    requires forall k | 0 <= k < |strings| :: |strings[k]| < 0x1_0000_0000
    ensures buf == HexOf(Hash(Flatten(strings))) + ['\0'] && |buf| == 33
  {
    hide Hash;
    var ctx := new Context();
    var i := 0;
    while i < |strings|
      invariant 0 <= i <= |strings| && ctx.Valid() && fresh(ctx) && fresh(ctx.input)
      invariant ctx.msg == Flatten(strings[..i])
    {
      assert strings[..i + 1][..i] == strings[..i];
      ctx.Update(strings[i]);
      i := i + 1;
    }
    assert strings[..|strings|] == strings;
    var hash := ctx.Final();
    buf := Bin2Str(hash);
  }
}
