/** What MD5 and SHA-1 have in common: a compression function folded over 64-byte blocks, a padding
    that ends in the bit length, and a bit count kept in two 32-bit words. */
module HashStream {

  newtype byte = x: int | 0 <= x < 256
  type word = x: int | 0 <= x < 0x1_0000_0000

  const BLOCK := 64

  /** A state, and the bytes of a block that is not yet complete. */
  datatype Absorbed<S> = Absorbed(state: S, rest: seq<byte>)

  /** The compression function folded over the complete blocks of a message. */
  ghost function Absorb<S>(f: (S, seq<byte>) -> S, h: S, m: seq<byte>): (r: Absorbed<S>)
    ensures |r.rest| < BLOCK
    decreases |m|
  {
    if |m| < BLOCK then Absorbed(h, m) else Absorb(f, f(h, m[..BLOCK]), m[BLOCK..])
  }

  lemma {:induction false} AbsorbAppend<S>(f: (S, seq<byte>) -> S, h: S, a: seq<byte>, b: seq<byte>)
    ensures var x := Absorb(f, h, a); Absorb(f, h, a + b) == Absorb(f, x.state, x.rest + b)
    decreases |a|
  {
    if |a| >= BLOCK {
      assert (a + b)[..BLOCK] == a[..BLOCK];
      assert (a + b)[BLOCK..] == a[BLOCK..] + b;
      AbsorbAppend(f, f(h, a[..BLOCK]), a[BLOCK..], b);
    }
  }

  lemma {:induction false} RestLength<S>(f: (S, seq<byte>) -> S, h: S, m: seq<byte>)
    ensures |Absorb(f, h, m).rest| == |m| % BLOCK
    decreases |m|
  {
    if |m| >= BLOCK {
      RestLength(f, f(h, m[..BLOCK]), m[BLOCK..]);
    }
  }

  /** Appending without completing a block. */
  lemma AppendShort<S>(f: (S, seq<byte>) -> S, h: S, m: seq<byte>, d: seq<byte>)
    requires |Absorb(f, h, m).rest| + |d| < BLOCK
    ensures var x := Absorb(f, h, m); Absorb(f, h, m + d) == Absorbed(x.state, x.rest + d)
  {
    AbsorbAppend(f, h, m, d);
  }

  /** Completing the block that the rest began. */
  lemma CompleteBlock<S>(f: (S, seq<byte>) -> S, h: S, m: seq<byte>, d: seq<byte>)
    requires |Absorb(f, h, m).rest| + |d| == BLOCK
    ensures var x := Absorb(f, h, m); Absorb(f, h, m + d) == Absorbed(f(x.state, x.rest + d), [])
  {
    AbsorbAppend(f, h, m, d);
    var b := Absorb(f, h, m).rest + d;
    assert b[..BLOCK] == b && b[BLOCK..] == [];
  }

  // ---------------------------------------------------------------------------------------------
  // Words of 32 bits
  // ---------------------------------------------------------------------------------------------

  function Rol(x: bv32, n: bv6): bv32
    requires 0 < n < 32
  {
    (x << n) | (x >> (32 - n))
  }

  function LittleEndianWord(b0: bv32, b1: bv32, b2: bv32, b3: bv32): bv32 {
    b0 | (b1 << 8) | (b2 << 16) | (b3 << 24)
  }

  function ByteOf(x: bv32): byte { (x & 255) as byte }

  /** Bit k, counted from the low-order end. */
  predicate Bit(x: bv32, k: bv6)
    requires k < 32
  {
    (x >> k) & 1 == 1
  }

  /** Rotating to the left by n moves bit k to bit k + n, modulo 32. */
  lemma RolMovesBits(x: bv32, n: bv6, k: bv6)
    requires 0 < n < 32 && k < 32
    ensures Bit(Rol(x, n), (k + n) & 31) <==> Bit(x, k)
  {
    assert (((x << n) | (x >> (32 - n))) >> ((k + n) & 31)) & 1 == (x >> k) & 1;
  }

  /** The byte of a word, as bits again. */
  lemma ByteOfBits(x: bv32)
    ensures ByteOf(x) as bv32 == x & 255
  {
    ByteBits(x & 255);
  }

  lemma ByteBits(y: bv32)
    requires y <= 255
    ensures (y as byte) as bv32 == y
  {
  }

  lemma ByteIsSmall(b: byte)
    ensures (b as bv32) <= 0xFF
  {
  }

  // ---------------------------------------------------------------------------------------------
  // Padding
  // ---------------------------------------------------------------------------------------------

  function Zeros(n: nat): (z: seq<byte>)
    ensures |z| == n && forall k | 0 <= k < n :: z[k] == 0
  {
    seq(n, _ => 0)
  }

  function BigEndian32(w: word): (b: seq<byte>)
    ensures |b| == 4
  {
    [(w / 0x100_0000) as byte, (w / 0x1_0000 % 256) as byte, (w / 0x100 % 256) as byte, (w % 256) as byte]
  }

  function LittleEndian32(w: word): (b: seq<byte>)
    ensures |b| == 4
  {
    [(w % 256) as byte, (w / 0x100 % 256) as byte, (w / 0x1_0000 % 256) as byte, (w / 0x100_0000) as byte]
  }

  /** Both encodings hold the whole word. */
  lemma EndianValues(w: word)
    ensures var b := BigEndian32(w); w == ((b[0] as int * 256 + b[1] as int) * 256 + b[2] as int) * 256 + b[3] as int
    ensures var b := LittleEndian32(w); w == ((b[3] as int * 256 + b[2] as int) * 256 + b[1] as int) * 256 + b[0] as int
  {
    assert w / 0x100 / 0x100 == w / 0x1_0000 && w / 0x1_0000 / 0x100 == w / 0x100_0000;
  }

  /** The length of a message in bits, modulo 2^64. */
  function BitLength(m: seq<byte>): int {
    8 * |m| % 0x1_0000_0000_0000_0000
  }

  /** Number of zero bytes after the 0x80 that leave room for the 8-byte length in the last block. */
  function ZeroCount(n: nat): (k: nat)
    ensures (n + 1 + k + 8) % BLOCK == 0 && k < BLOCK
  {
    (119 - n % BLOCK) % BLOCK
  }

  /** A message with its padding; `length` is the 8-byte encoding of the bit length. */
  ghost function Padded(m: seq<byte>, length: seq<byte>): (p: seq<byte>)
    requires |length| == 8
    ensures |p| % BLOCK == 0
  {
    m + ([0x80] + Zeros(ZeroCount(|m|)) + length)
  }

  // ---------------------------------------------------------------------------------------------
  // The bit count
  // ---------------------------------------------------------------------------------------------

  /** The count words hold 8 * n modulo 2^64. */
  ghost predicate Counts(low: word, high: word, n: nat) {
    low + high * 0x1_0000_0000 == 8 * n % 0x1_0000_0000_0000_0000
  }

  /** The byte position inside the current block, as read off the low count word. */
  lemma PositionFromCount(low: word, high: word, n: nat)
    requires Counts(low, high, n)
    ensures low % 8 == 0 && low / 8 % BLOCK == n % BLOCK
  {
    var q := 8 * n / 0x1_0000_0000_0000_0000;
    assert 8 * n == q * 0x1_0000_0000_0000_0000 + high * 0x1_0000_0000 + low;
    assert low == 8 * (n - q * 0x2000_0000_0000_0000 - high * 0x2000_0000);
    var x := low / 8;
    assert n == x + BLOCK * (q * 0x80_0000_0000_0000 + high * 0x80_0000);
    ModShift(x, q * 0x80_0000_0000_0000 + high * 0x80_0000);
  }

  lemma ModShift(x: int, y: int)
    ensures (x + BLOCK * y) % BLOCK == x % BLOCK
  {
  }

  /** Adding a length to the count words: a carry out of the low word shows as the low word falling. */
  function AddLow(low: word, len: word): word { (low + len * 8 % 0x1_0000_0000) % 0x1_0000_0000 }

  function AddHigh(low: word, high: word, len: word): word {
    var carried := if AddLow(low, len) < low then (high + 1) % 0x1_0000_0000 else high;
    (carried + len / 0x2000_0000) % 0x1_0000_0000
  }

  lemma AddedCounts(low: word, high: word, n: nat, len: word)
    requires Counts(low, high, n)
    ensures Counts(AddLow(low, len), AddHigh(low, high, len), n + len)
  {
    var B := 0x1_0000_0000;
    var c, d := AddedWords(low, high, len);
    var q := 8 * n / 0x1_0000_0000_0000_0000;
    assert 8 * n == q * 0x1_0000_0000_0000_0000 + high * B + low;
    ModUnique(8 * (n + len), q + d, AddHigh(low, high, len) * B + AddLow(low, len));
  }

  /** The two sums and their carries. */
  lemma AddedWords(low: word, high: word, len: word) returns (c: int, d: int)
    ensures AddLow(low, len) == low + len * 8 % 0x1_0000_0000 - c * 0x1_0000_0000
    ensures AddHigh(low, high, len) == high + c + len / 0x2000_0000 - d * 0x1_0000_0000
    ensures len * 8 == len / 0x2000_0000 * 0x1_0000_0000 + len * 8 % 0x1_0000_0000
  {
    ShiftSplits(len);
    var x := len * 8 % 0x1_0000_0000;
    WrapOnce(low + x);
    c := if low + x >= 0x1_0000_0000 then 1 else 0;
    WrapOnce(high + 1);
    var carried := if c == 1 then (high + 1) % 0x1_0000_0000 else high;
    WrapOnce(carried + len / 0x2000_0000);
    d := (if c == 1 && high == 0xFFFF_FFFF then 1 else 0)
         + (if carried + len / 0x2000_0000 >= 0x1_0000_0000 then 1 else 0);
  }

  lemma ShiftSplits(len: word)
    ensures len * 8 == len / 0x2000_0000 * 0x1_0000_0000 + len * 8 % 0x1_0000_0000
    ensures 0 <= len / 0x2000_0000 < 8
  {
  }

  lemma WrapOnce(x: int)
    requires 0 <= x < 0x2_0000_0000
    ensures x % 0x1_0000_0000 == if x < 0x1_0000_0000 then x else x - 0x1_0000_0000
  {
  }

  lemma ModUnique(x: int, q: int, r: int)
    requires 0 <= r < 0x1_0000_0000_0000_0000 && x == q * 0x1_0000_0000_0000_0000 + r
    ensures x % 0x1_0000_0000_0000_0000 == r
  {
  }

  lemma SplitWords(low: word, high: word)
    ensures (low + high * 0x1_0000_0000) % 0x1_0000_0000 == low
    ensures (low + high * 0x1_0000_0000) / 0x1_0000_0000 == high
  {
  }

  lemma Regroup(m: seq<byte>, data: seq<byte>, i: nat, j: nat)
    requires i <= j <= |data|
    ensures (m + data[..i]) + data[i..j] == m + data[..j]
  {
  }
}
