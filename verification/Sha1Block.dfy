/** The SHA-1 compression function: the 16-word circular schedule with renamed registers, against the
    80-word schedule with shifting registers of section 6.1.2 of FIPS 180-4. */
module Sha1Block {
  import opened HashStream

  // ---------------------------------------------------------------------------------------------
  // The standard
  // ---------------------------------------------------------------------------------------------

  /** The five working variables, or the five words of the hash value. */
  datatype Regs = Regs(a: bv32, b: bv32, c: bv32, d: bv32, e: bv32)

  function BigEndianWord(b0: bv32, b1: bv32, b2: bv32, b3: bv32): bv32 {
    (b0 << 24) | (b1 << 16) | (b2 << 8) | b3
  }

  /** The words of a block. */
  function MessageWord(block: seq<byte>, t: nat): bv32
    requires |block| == BLOCK && t < 16
  {
    BigEndianWord(block[4 * t] as bv32, block[4 * t + 1] as bv32, block[4 * t + 2] as bv32, block[4 * t + 3] as bv32)
  }

  function Mix(x: bv32, y: bv32, z: bv32, u: bv32): bv32 { Rol(x ^ y ^ z ^ u, 1) }

  /** The message schedule. */
  function W(block: seq<byte>, t: nat): bv32
    requires |block| == BLOCK
  {
    if t < 16 then MessageWord(block, t)
    else Mix(W(block, t - 3), W(block, t - 8), W(block, t - 14), W(block, t - 16))
  }

  function Ch(x: bv32, y: bv32, z: bv32): bv32 { (x & y) ^ (!x & z) }

  function Parity(x: bv32, y: bv32, z: bv32): bv32 { x ^ y ^ z }

  function Maj(x: bv32, y: bv32, z: bv32): bv32 { (x & y) ^ (x & z) ^ (y & z) }

  function F(t: nat, x: bv32, y: bv32, z: bv32): bv32 {
    if t < 20 then Ch(x, y, z) else if t < 40 then Parity(x, y, z) else if t < 60 then Maj(x, y, z) else Parity(x, y, z)
  }

  function K(t: nat): bv32 {
    if t < 20 then 0x5a827999 else if t < 40 then 0x6ed9eba1 else if t < 60 then 0x8f1bbcdc else 0xca62c1d6
  }

  function Sum(r: bv32, f: bv32, e: bv32, k: bv32, w: bv32): bv32 { r + f + e + k + w }

  function Shift(r: Regs, t: nat, w: bv32): Regs {
    Regs(Sum(Rol(r.a, 5), F(t, r.b, r.c, r.d), r.e, K(t), w), r.a, Rol(r.b, 30), r.c, r.d)
  }

  /** The working variables after `t` steps. */
  function Rounds(block: seq<byte>, h: Regs, t: nat): Regs
    requires |block| == BLOCK
  {
    if t == 0 then h else Shift(Rounds(block, h, t - 1), t - 1, W(block, t - 1))
  }

  function Add(x: Regs, y: Regs): Regs {
    Regs(x.a + y.a, x.b + y.b, x.c + y.c, x.d + y.d, x.e + y.e)
  }

  /** One block of the hash computation; anything but a block is left alone. */
  function Compress(h: Regs, block: seq<byte>): Regs {
    if |block| != BLOCK then h else Add(h, Rounds(block, h, 80))
  }

  // ---------------------------------------------------------------------------------------------
  // The macros
  // ---------------------------------------------------------------------------------------------

  /** blk0 on a little-endian machine */
  function Swap(l: bv32): bv32 {
    (((l << 24) | (l >> 8)) & 0xFF00FF00) | (((l << 8) | (l >> 24)) & 0x00FF00FF)
  }

  function MacroCh(w: bv32, x: bv32, y: bv32): bv32 { (w & (x ^ y)) ^ y }

  function MacroParity(w: bv32, x: bv32, y: bv32): bv32 { w ^ x ^ y }

  function MacroMaj(w: bv32, x: bv32, y: bv32): bv32 { ((w | x) & y) | (w & x) }

  function MacroSum(z: bv32, f: bv32, b: bv32, k: bv32, r: bv32): bv32 { z + (f + b + k + r) }

  /** Swapping the bytes of a word that was loaded in little-endian order gives the message word. */
  lemma SwapBits(b0: bv32, b1: bv32, b2: bv32, b3: bv32)
    requires b0 <= 0xFF && b1 <= 0xFF && b2 <= 0xFF && b3 <= 0xFF
    ensures Swap(LittleEndianWord(b0, b1, b2, b3)) == BigEndianWord(b0, b1, b2, b3)
  {
    hide Swap, LittleEndianWord, BigEndianWord;
    SwapRaw(b0, b1, b2, b3);
    LittleEndianRaw(b0, b1, b2, b3);
    BigEndianRaw(b0, b1, b2, b3);
  }

  lemma SwapRaw(b0: bv32, b1: bv32, b2: bv32, b3: bv32)
    requires b0 <= 0xFF && b1 <= 0xFF && b2 <= 0xFF && b3 <= 0xFF
    ensures Swap(b0 | (b1 << 8) | (b2 << 16) | (b3 << 24)) == (b0 << 24) | (b1 << 16) | (b2 << 8) | b3
  {
    RotatedBytes(b0, b1, b2, b3);
  }

  lemma RotatedBytes(b0: bv32, b1: bv32, b2: bv32, b3: bv32)
    requires b0 <= 0xFF && b1 <= 0xFF && b2 <= 0xFF && b3 <= 0xFF
    ensures var l := b0 | (b1 << 8) | (b2 << 16) | (b3 << 24);
      (((l << 24) | (l >> 8)) & 0xFF00FF00) | (((l << 8) | (l >> 24)) & 0x00FF00FF)
      == (b0 << 24) | (b1 << 16) | (b2 << 8) | b3
  {
  }

  lemma LittleEndianRaw(b0: bv32, b1: bv32, b2: bv32, b3: bv32)
    ensures LittleEndianWord(b0, b1, b2, b3) == b0 | (b1 << 8) | (b2 << 16) | (b3 << 24)
  {
  }

  lemma BigEndianRaw(b0: bv32, b1: bv32, b2: bv32, b3: bv32)
    ensures BigEndianWord(b0, b1, b2, b3) == (b0 << 24) | (b1 << 16) | (b2 << 8) | b3
  {
  }

  lemma ChooseBits(w: bv32, x: bv32, y: bv32)
    ensures MacroCh(w, x, y) == Ch(w, x, y)
  {
    assert ((w & (x ^ y)) ^ y) == (w & x) ^ (!w & y);
  }

  lemma MajorityBits(w: bv32, x: bv32, y: bv32)
    ensures MacroMaj(w, x, y) == Maj(w, x, y)
  {
    assert (((w | x) & y) | (w & x)) == (w & x) ^ (w & y) ^ (x & y);
  }

  lemma SumBits(z: bv32, f: bv32, b: bv32, k: bv32, r: bv32)
    ensures MacroSum(z, f, b, k, r) == Sum(r, f, z, k, b)
  {
  }

  /** A macro step, with its registers renamed instead of shifted, is a step of the standard. */
  lemma MacroIsShift(v: bv32, w: bv32, x: bv32, y: bv32, z: bv32, i: nat, f: bv32, b: bv32, k: bv32)
    requires f == F(i, w, x, y) && k == K(i)
    ensures Regs(MacroSum(z, f, b, k, Rol(v, 5)), v, Rol(w, 30), x, y) == Shift(Regs(v, w, x, y, z), i, b)
  {
    hide Rol, F, K, MacroSum, Sum;
    SumBits(z, f, b, k, Rol(v, 5));
  }

  /** The round functions, as the macros write them. */
  lemma RoundFunction(i: nat, w: bv32, x: bv32, y: bv32)
    ensures i < 20 ==> F(i, w, x, y) == MacroCh(w, x, y)
    ensures 20 <= i < 40 || 60 <= i ==> F(i, w, x, y) == MacroParity(w, x, y)
    ensures 40 <= i < 60 ==> F(i, w, x, y) == MacroMaj(w, x, y)
  {
    hide Ch, Maj, MacroCh, MacroMaj;
    ChooseBits(w, x, y);
    MajorityBits(w, x, y);
  }

  lemma UnfoldRounds(block: seq<byte>, h: Regs, t: nat)
    requires |block| == BLOCK
    ensures Rounds(block, h, t + 1) == Shift(Rounds(block, h, t), t, W(block, t))
  {
    hide Shift, W;
  }

  /** What the 16 words of the circular buffer hold before step t. */
  ghost predicate Circular(words: array<bv32>, block: seq<byte>, t: nat)
    reads words
  {
    && words.Length == 16 && |block| == BLOCK
    && (forall u: nat | u < t <= u + 16 :: words[u % 16] == W(block, u))
    && (forall k: nat | t <= k < 16 :: Swap(words[k]) == MessageWord(block, k))
  }

  method Blk0(words: array<bv32>, i: nat, ghost block: seq<byte>) returns (w: bv32)
    requires i < 16 && Circular(words, block, i)
    modifies words
    ensures w == W(block, i) && Circular(words, block, i + 1)
  {
    hide Swap, MessageWord, Mix;
    words[i] := Swap(words[i]);
    w := words[i];
  }

  method Blk(words: array<bv32>, i: nat, ghost block: seq<byte>) returns (w: bv32)
    requires 16 <= i && Circular(words, block, i)
    modifies words
    ensures w == W(block, i) && Circular(words, block, i + 1)
  {
    hide Swap, Mix, MessageWord;
    SlotsDiffer(i);
    words[i % 16] := Mix(words[(i + 13) % 16], words[(i + 8) % 16], words[(i + 2) % 16], words[i % 16]);
    w := words[i % 16];
  }

  /** Slot i & 15 holds word i - 16, and no later one. */
  lemma SlotsDiffer(i: nat)
    requires 16 <= i
    ensures (i + 13) % 16 == (i - 3) % 16 && (i + 8) % 16 == (i - 8) % 16 && (i + 2) % 16 == (i - 14) % 16
    ensures i % 16 == (i - 16) % 16
    ensures forall u: nat | i - 16 < u < i :: u % 16 != i % 16
  {
  }

  /** The registers v, w, x, y, z play a, b, c, d, e before step i, and the buffer is up to date. */
  ghost predicate Before(words: array<bv32>, block: seq<byte>, h: Regs, i: nat, r: Regs)
    reads words
  {
    |block| == BLOCK && Circular(words, block, i) && r == Rounds(block, h, i)
  }

  method R0(words: array<bv32>, v: bv32, w: bv32, x: bv32, y: bv32, z: bv32, i: nat, ghost block: seq<byte>,
          ghost h: Regs)
      returns (z': bv32, w': bv32)
    requires i < 16 && Before(words, block, h, i, Regs(v, w, x, y, z))
    modifies words
    ensures Before(words, block, h, i + 1, Regs(z', v, w', x, y))
  {
    hide Circular, Rol, Shift, Rounds, W, F, MacroCh, MacroMaj, MacroParity, MacroSum;
    UnfoldRounds(block, h, i);
    RoundFunction(i, w, x, y);
    var b := Blk0(words, i, block);
    z' := MacroSum(z, MacroCh(w, x, y), b, 0x5A827999, Rol(v, 5));
    w' := Rol(w, 30);
    MacroIsShift(v, w, x, y, z, i, MacroCh(w, x, y), b, 0x5A827999);
  }

  method R1(words: array<bv32>, v: bv32, w: bv32, x: bv32, y: bv32, z: bv32, i: nat, ghost block: seq<byte>,
          ghost h: Regs)
      returns (z': bv32, w': bv32)
    requires 16 <= i < 20 && Before(words, block, h, i, Regs(v, w, x, y, z))
    modifies words
    ensures Before(words, block, h, i + 1, Regs(z', v, w', x, y))
  {
    hide Circular, Rol, Shift, Rounds, W, F, MacroCh, MacroMaj, MacroParity, MacroSum;
    UnfoldRounds(block, h, i);
    RoundFunction(i, w, x, y);
    var b := Blk(words, i, block);
    z' := MacroSum(z, MacroCh(w, x, y), b, 0x5A827999, Rol(v, 5));
    w' := Rol(w, 30);
    MacroIsShift(v, w, x, y, z, i, MacroCh(w, x, y), b, 0x5A827999);
  }

  method R2(words: array<bv32>, v: bv32, w: bv32, x: bv32, y: bv32, z: bv32, i: nat, ghost block: seq<byte>,
          ghost h: Regs)
      returns (z': bv32, w': bv32)
    requires 20 <= i < 40 && Before(words, block, h, i, Regs(v, w, x, y, z))
    modifies words
    ensures Before(words, block, h, i + 1, Regs(z', v, w', x, y))
  {
    hide Circular, Rol, Shift, Rounds, W, F, MacroCh, MacroMaj, MacroParity, MacroSum;
    UnfoldRounds(block, h, i);
    RoundFunction(i, w, x, y);
    var b := Blk(words, i, block);
    z' := MacroSum(z, MacroParity(w, x, y), b, 0x6ED9EBA1, Rol(v, 5));
    w' := Rol(w, 30);
    MacroIsShift(v, w, x, y, z, i, MacroParity(w, x, y), b, 0x6ED9EBA1);
  }

  method R3(words: array<bv32>, v: bv32, w: bv32, x: bv32, y: bv32, z: bv32, i: nat, ghost block: seq<byte>,
          ghost h: Regs)
      returns (z': bv32, w': bv32)
    requires 40 <= i < 60 && Before(words, block, h, i, Regs(v, w, x, y, z))
    modifies words
    ensures Before(words, block, h, i + 1, Regs(z', v, w', x, y))
  {
    hide Circular, Rol, Shift, Rounds, W, F, MacroCh, MacroMaj, MacroParity, MacroSum;
    UnfoldRounds(block, h, i);
    RoundFunction(i, w, x, y);
    var b := Blk(words, i, block);
    z' := MacroSum(z, MacroMaj(w, x, y), b, 0x8F1BBCDC, Rol(v, 5));
    w' := Rol(w, 30);
    MacroIsShift(v, w, x, y, z, i, MacroMaj(w, x, y), b, 0x8F1BBCDC);
  }

  method R4(words: array<bv32>, v: bv32, w: bv32, x: bv32, y: bv32, z: bv32, i: nat, ghost block: seq<byte>,
          ghost h: Regs)
      returns (z': bv32, w': bv32)
    requires 60 <= i < 80 && Before(words, block, h, i, Regs(v, w, x, y, z))
    modifies words
    ensures Before(words, block, h, i + 1, Regs(z', v, w', x, y))
  {
    hide Circular, Rol, Shift, Rounds, W, F, MacroCh, MacroMaj, MacroParity, MacroSum;
    UnfoldRounds(block, h, i);
    RoundFunction(i, w, x, y);
    var b := Blk(words, i, block);
    z' := MacroSum(z, MacroParity(w, x, y), b, 0xCA62C1D6, Rol(v, 5));
    w' := Rol(w, 30);
    MacroIsShift(v, w, x, y, z, i, MacroParity(w, x, y), b, 0xCA62C1D6);
  }

  // ---------------------------------------------------------------------------------------------
  // The transform
  // ---------------------------------------------------------------------------------------------

  /** memcpy(block, buffer, 64), seen as 16 words on a little-endian machine */
  method Load(words: array<bv32>, block: seq<byte>)
    requires words.Length == 16 && |block| == BLOCK
    modifies words
    ensures Circular(words, block, 0)
  {
    hide Swap, LittleEndianWord, BigEndianWord;
    for i := 0 to 16
      invariant forall k: nat | k < i :: Swap(words[k]) == MessageWord(block, k)
    {
      var b0, b1 := block[4 * i] as bv32, block[4 * i + 1] as bv32;
      var b2, b3 := block[4 * i + 2] as bv32, block[4 * i + 3] as bv32;
      words[i] := LittleEndianWord(b0, b1, b2, b3);
      LoadedWord(block, i);
    }
  }

  lemma LoadedWord(block: seq<byte>, i: nat)
    requires |block| == BLOCK && i < 16
    ensures Swap(LittleEndianWord(block[4 * i] as bv32, block[4 * i + 1] as bv32,
                                  block[4 * i + 2] as bv32, block[4 * i + 3] as bv32))
         == MessageWord(block, i)
  {
    hide Swap, LittleEndianWord, BigEndianWord;
    ByteIsSmall(block[4 * i]);
    ByteIsSmall(block[4 * i + 1]);
    ByteIsSmall(block[4 * i + 2]);
    ByteIsSmall(block[4 * i + 3]);
    SwapBits(block[4 * i] as bv32, block[4 * i + 1] as bv32, block[4 * i + 2] as bv32, block[4 * i + 3] as bv32);
  }

  /** Steps 0 to 19 */
  method Steps0(words: array<bv32>, r: Regs, ghost block: seq<byte>, ghost h: Regs) returns (q: Regs)
    requires Before(words, block, h, 0, r)
    modifies words
    ensures Before(words, block, h, 20, q)
  {
    hide Before, Rounds, Circular;
    var a, b, c, d, e := r.a, r.b, r.c, r.d, r.e;
    e, b := R0(words, a, b, c, d, e, 0, block, h);
    d, a := R0(words, e, a, b, c, d, 1, block, h);
    c, e := R0(words, d, e, a, b, c, 2, block, h);
    b, d := R0(words, c, d, e, a, b, 3, block, h);
    a, c := R0(words, b, c, d, e, a, 4, block, h);
    e, b := R0(words, a, b, c, d, e, 5, block, h);
    d, a := R0(words, e, a, b, c, d, 6, block, h);
    c, e := R0(words, d, e, a, b, c, 7, block, h);
    b, d := R0(words, c, d, e, a, b, 8, block, h);
    a, c := R0(words, b, c, d, e, a, 9, block, h);
    e, b := R0(words, a, b, c, d, e, 10, block, h);
    d, a := R0(words, e, a, b, c, d, 11, block, h);
    c, e := R0(words, d, e, a, b, c, 12, block, h);
    b, d := R0(words, c, d, e, a, b, 13, block, h);
    a, c := R0(words, b, c, d, e, a, 14, block, h);
    e, b := R0(words, a, b, c, d, e, 15, block, h);
    d, a := R1(words, e, a, b, c, d, 16, block, h);
    c, e := R1(words, d, e, a, b, c, 17, block, h);
    b, d := R1(words, c, d, e, a, b, 18, block, h);
    a, c := R1(words, b, c, d, e, a, 19, block, h);
    q := Regs(a, b, c, d, e);
  }

  /** Steps 20 to 39 */
  method Steps20(words: array<bv32>, r: Regs, ghost block: seq<byte>, ghost h: Regs) returns (q: Regs)
    requires Before(words, block, h, 20, r)
    modifies words
    ensures Before(words, block, h, 40, q)
  {
    hide Before, Rounds, Circular;
    var a, b, c, d, e := r.a, r.b, r.c, r.d, r.e;
    e, b := R2(words, a, b, c, d, e, 20, block, h);
    d, a := R2(words, e, a, b, c, d, 21, block, h);
    c, e := R2(words, d, e, a, b, c, 22, block, h);
    b, d := R2(words, c, d, e, a, b, 23, block, h);
    a, c := R2(words, b, c, d, e, a, 24, block, h);
    e, b := R2(words, a, b, c, d, e, 25, block, h);
    d, a := R2(words, e, a, b, c, d, 26, block, h);
    c, e := R2(words, d, e, a, b, c, 27, block, h);
    b, d := R2(words, c, d, e, a, b, 28, block, h);
    a, c := R2(words, b, c, d, e, a, 29, block, h);
    e, b := R2(words, a, b, c, d, e, 30, block, h);
    d, a := R2(words, e, a, b, c, d, 31, block, h);
    c, e := R2(words, d, e, a, b, c, 32, block, h);
    b, d := R2(words, c, d, e, a, b, 33, block, h);
    a, c := R2(words, b, c, d, e, a, 34, block, h);
    e, b := R2(words, a, b, c, d, e, 35, block, h);
    d, a := R2(words, e, a, b, c, d, 36, block, h);
    c, e := R2(words, d, e, a, b, c, 37, block, h);
    b, d := R2(words, c, d, e, a, b, 38, block, h);
    a, c := R2(words, b, c, d, e, a, 39, block, h);
    q := Regs(a, b, c, d, e);
  }

  /** Steps 40 to 59 */
  method Steps40(words: array<bv32>, r: Regs, ghost block: seq<byte>, ghost h: Regs) returns (q: Regs)
    requires Before(words, block, h, 40, r)
    modifies words
    ensures Before(words, block, h, 60, q)
  {
    hide Before, Rounds, Circular;
    var a, b, c, d, e := r.a, r.b, r.c, r.d, r.e;
    e, b := R3(words, a, b, c, d, e, 40, block, h);
    d, a := R3(words, e, a, b, c, d, 41, block, h);
    c, e := R3(words, d, e, a, b, c, 42, block, h);
    b, d := R3(words, c, d, e, a, b, 43, block, h);
    a, c := R3(words, b, c, d, e, a, 44, block, h);
    e, b := R3(words, a, b, c, d, e, 45, block, h);
    d, a := R3(words, e, a, b, c, d, 46, block, h);
    c, e := R3(words, d, e, a, b, c, 47, block, h);
    b, d := R3(words, c, d, e, a, b, 48, block, h);
    a, c := R3(words, b, c, d, e, a, 49, block, h);
    e, b := R3(words, a, b, c, d, e, 50, block, h);
    d, a := R3(words, e, a, b, c, d, 51, block, h);
    c, e := R3(words, d, e, a, b, c, 52, block, h);
    b, d := R3(words, c, d, e, a, b, 53, block, h);
    a, c := R3(words, b, c, d, e, a, 54, block, h);
    e, b := R3(words, a, b, c, d, e, 55, block, h);
    d, a := R3(words, e, a, b, c, d, 56, block, h);
    c, e := R3(words, d, e, a, b, c, 57, block, h);
    b, d := R3(words, c, d, e, a, b, 58, block, h);
    a, c := R3(words, b, c, d, e, a, 59, block, h);
    q := Regs(a, b, c, d, e);
  }

  /** Steps 60 to 79 */
  method Steps60(words: array<bv32>, r: Regs, ghost block: seq<byte>, ghost h: Regs) returns (q: Regs)
    requires Before(words, block, h, 60, r)
    modifies words
    ensures Before(words, block, h, 80, q)
  {
    hide Before, Rounds, Circular;
    var a, b, c, d, e := r.a, r.b, r.c, r.d, r.e;
    e, b := R4(words, a, b, c, d, e, 60, block, h);
    d, a := R4(words, e, a, b, c, d, 61, block, h);
    c, e := R4(words, d, e, a, b, c, 62, block, h);
    b, d := R4(words, c, d, e, a, b, 63, block, h);
    a, c := R4(words, b, c, d, e, a, 64, block, h);
    e, b := R4(words, a, b, c, d, e, 65, block, h);
    d, a := R4(words, e, a, b, c, d, 66, block, h);
    c, e := R4(words, d, e, a, b, c, 67, block, h);
    b, d := R4(words, c, d, e, a, b, 68, block, h);
    a, c := R4(words, b, c, d, e, a, 69, block, h);
    e, b := R4(words, a, b, c, d, e, 70, block, h);
    d, a := R4(words, e, a, b, c, d, 71, block, h);
    c, e := R4(words, d, e, a, b, c, 72, block, h);
    b, d := R4(words, c, d, e, a, b, 73, block, h);
    a, c := R4(words, b, c, d, e, a, 74, block, h);
    e, b := R4(words, a, b, c, d, e, 75, block, h);
    d, a := R4(words, e, a, b, c, d, 76, block, h);
    c, e := R4(words, d, e, a, b, c, 77, block, h);
    b, d := R4(words, c, d, e, a, b, 78, block, h);
    a, c := R4(words, b, c, d, e, a, 79, block, h);
    q := Regs(a, b, c, d, e);
  }

  /** SHA1Transform: the new hash value is that of the standard. */
  method Transform(state: Regs, buffer: seq<byte>) returns (result: Regs)
    requires |buffer| == BLOCK
    ensures result == Compress(state, buffer)
  {
    hide Circular, Add;
    var words := new bv32[16];
    Load(words, buffer);
    var r := Steps0(words, state, buffer, state);
    r := Steps20(words, r, buffer, state);
    r := Steps40(words, r, buffer, state);
    r := Steps60(words, r, buffer, state);
    result := Add(state, r);
  }
}
