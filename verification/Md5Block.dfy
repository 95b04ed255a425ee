/** The MD5 compression function: 64 macro steps with renamed registers, against the table-driven rounds of
    section 3.4 of RFC 1321. */
module Md5Block {
  import opened HashStream

  // ---------------------------------------------------------------------------------------------
  // The standard
  // ---------------------------------------------------------------------------------------------

  /** The four words of the buffer. */
  datatype Words = Words(a: bv32, b: bv32, c: bv32, d: bv32)

  function F(x: bv32, y: bv32, z: bv32): bv32 { (x & y) | (!x & z) }

  function G(x: bv32, y: bv32, z: bv32): bv32 { (x & z) | (y & !z) }

  function H(x: bv32, y: bv32, z: bv32): bv32 { x ^ y ^ z }

  function I(x: bv32, y: bv32, z: bv32): bv32 { y ^ (x | !z) }

  /** The auxiliary function, the word of the block, and the rotation of step i. */
  function Aux(i: nat, x: bv32, y: bv32, z: bv32): bv32 {
    if i < 16 then F(x, y, z) else if i < 32 then G(x, y, z) else if i < 48 then H(x, y, z) else I(x, y, z)
  }

  function WordIndex(i: nat): nat {
    if i < 16 then i % 16 else if i < 32 then (5 * i + 1) % 16 else if i < 48 then (3 * i + 5) % 16 else 7 * i % 16
  }

  function Rotation(i: nat): (s: bv6)
    ensures 0 < s < 32
  {
    var round := if i < 16 then [7, 12, 17, 22] else if i < 32 then [5, 9, 14, 20]
                 else if i < 48 then [4, 11, 16, 23] else [6, 10, 15, 21];
    round[i % 4]
  }

  /** The sine table, 16 entries for each round. */
  const SINES_1: seq<bv32> := [
    0xd76aa478, 0xe8c7b756, 0x242070db, 0xc1bdceee,
    0xf57c0faf, 0x4787c62a, 0xa8304613, 0xfd469501,
    0x698098d8, 0x8b44f7af, 0xffff5bb1, 0x895cd7be,
    0x6b901122, 0xfd987193, 0xa679438e, 0x49b40821]

  const SINES_2: seq<bv32> := [
    0xf61e2562, 0xc040b340, 0x265e5a51, 0xe9b6c7aa,
    0xd62f105d, 0x02441453, 0xd8a1e681, 0xe7d3fbc8,
    0x21e1cde6, 0xc33707d6, 0xf4d50d87, 0x455a14ed,
    0xa9e3e905, 0xfcefa3f8, 0x676f02d9, 0x8d2a4c8a]

  const SINES_3: seq<bv32> := [
    0xfffa3942, 0x8771f681, 0x6d9d6122, 0xfde5380c,
    0xa4beea44, 0x4bdecfa9, 0xf6bb4b60, 0xbebfbc70,
    0x289b7ec6, 0xeaa127fa, 0xd4ef3085, 0x04881d05,
    0xd9d4d039, 0xe6db99e5, 0x1fa27cf8, 0xc4ac5665]

  const SINES_4: seq<bv32> := [
    0xf4292244, 0x432aff97, 0xab9423a7, 0xfc93a039,
    0x655b59c3, 0x8f0ccc92, 0xffeff47d, 0x85845dd1,
    0x6fa87e4f, 0xfe2ce6e0, 0xa3014314, 0x4e0811a1,
    0xf7537e82, 0xbd3af235, 0x2ad7d2bb, 0xeb86d391]

  function Sine(i: nat): bv32
    requires i < 64
  {
    if i < 16 then SINES_1[i]
    else if i < 32 then SINES_2[i - 16]
    else if i < 48 then SINES_3[i - 32]
    else SINES_4[i - 48]
  }

  /** The words of a block, low-order byte first. */
  function MessageWord(block: seq<byte>, k: nat): bv32
    requires |block| == BLOCK && k < 16
  {
    LittleEndianWord(block[4 * k] as bv32, block[4 * k + 1] as bv32, block[4 * k + 2] as bv32, block[4 * k + 3] as bv32)
  }

  function Plus(x: bv32, y: bv32): bv32 { x + y }

  function Sum(a: bv32, f: bv32, x: bv32, t: bv32): bv32 { a + f + x + t }

  /** Step i; afterwards the registers have changed places, as the table of the standard lists them. */
  function Step(r: Words, i: nat, x: bv32): Words
    requires i < 64
  {
    Words(r.d, Plus(r.b, Rol(Sum(r.a, Aux(i, r.b, r.c, r.d), x, Sine(i)), Rotation(i))), r.b, r.c)
  }

  function Rounds(block: seq<byte>, h: Words, t: nat): Words
    requires |block| == BLOCK && t <= 64
  {
    if t == 0 then h else Step(Rounds(block, h, t - 1), t - 1, MessageWord(block, WordIndex(t - 1)))
  }

  function Add(x: Words, y: Words): Words { Words(Plus(x.a, y.a), Plus(x.b, y.b), Plus(x.c, y.c), Plus(x.d, y.d)) }

  /** One block of the computation; anything but a block is left alone. */
  function Compress(h: Words, block: seq<byte>): Words {
    if |block| != BLOCK then h else Add(h, Rounds(block, h, 64))
  }

  // ---------------------------------------------------------------------------------------------
  // The macros
  // ---------------------------------------------------------------------------------------------

  function F1(x: bv32, y: bv32, z: bv32): bv32 { z ^ (x & (y ^ z)) }

  function F2(x: bv32, y: bv32, z: bv32): bv32 { F1(z, x, y) }

  function F3(x: bv32, y: bv32, z: bv32): bv32 { x ^ y ^ z }

  function F4(x: bv32, y: bv32, z: bv32): bv32 { y ^ (x | !z) }

  function MacroSum(w: bv32, f: bv32, m: bv32, t: bv32): bv32 { w + (f + (m + t)) }

  /** w += f + (m + t), rotated, and then += x */
  function MacroStep(w: bv32, f: bv32, m: bv32, t: bv32, s: bv6, x: bv32): bv32
    requires 0 < s < 32
  {
    Plus(Rol(MacroSum(w, f, m, t), s), x)
  }

  lemma FirstBits(x: bv32, y: bv32, z: bv32)
    ensures F1(x, y, z) == F(x, y, z)
  {
    assert z ^ (x & (y ^ z)) == (x & y) | (!x & z);
  }

  lemma SecondBits(x: bv32, y: bv32, z: bv32)
    ensures F2(x, y, z) == G(x, y, z)
  {
    assert y ^ (z & (x ^ y)) == (x & z) | (y & !z);
  }

  lemma SumBits(w: bv32, f: bv32, m: bv32, t: bv32)
    ensures MacroSum(w, f, m, t) == Sum(w, f, m, t)
  {
  }

  lemma PlusCommutes(x: bv32, y: bv32)
    ensures Plus(x, y) == Plus(y, x)
  {
  }

  /** A macro step, with its registers renamed, is a step of the standard. */
  lemma MacroIsStep(i: nat, w: bv32, x: bv32, y: bv32, z: bv32, m: bv32)
    requires i < 64
    ensures Words(z, MacroStep(w, Aux(i, x, y, z), m, Sine(i), Rotation(i), x), x, y) == Step(Words(w, x, y, z), i, m)
  {
    hide Rol, Aux, Sine, Rotation, Sum, MacroSum, Plus;
    SumBits(w, Aux(i, x, y, z), m, Sine(i));
    PlusCommutes(Rol(Sum(w, Aux(i, x, y, z), m, Sine(i)), Rotation(i)), x);
  }

  lemma AuxIs(i: nat, x: bv32, y: bv32, z: bv32)
    ensures i < 16 ==> Aux(i, x, y, z) == F1(x, y, z)
    ensures 16 <= i < 32 ==> Aux(i, x, y, z) == F2(x, y, z)
    ensures 32 <= i < 48 ==> Aux(i, x, y, z) == F3(x, y, z)
    ensures 48 <= i ==> Aux(i, x, y, z) == F4(x, y, z)
  {
    hide F, G, F1, F2;
    FirstBits(x, y, z);
    SecondBits(x, y, z);
  }

  lemma UnfoldRounds(block: seq<byte>, h: Words, t: nat)
    requires |block| == BLOCK && t < 64
    ensures Rounds(block, h, t + 1) == Step(Rounds(block, h, t), t, MessageWord(block, WordIndex(t)))
  {
    hide Step, MessageWord, WordIndex;
  }

  /** The registers w, x, y, z play a, b, c, d before step i. */
  ghost predicate Before(block: seq<byte>, h: Words, i: nat, r: Words) {
    |block| == BLOCK && i <= 64 && r == Rounds(block, h, i)
  }

  /** Word, constant and rotation are those of step i. */
  predicate IsEntry(i: nat, k: nat, t: bv32, s: bv6) {
    i < 64 && k < 16 && k == WordIndex(i) && t == Sine(i) && s == Rotation(i)
  }

  method Step1(w: bv32, x: bv32, y: bv32, z: bv32, k: nat, t: bv32, s: bv6, block: seq<byte>, ghost h: Words,
          ghost i: nat)
      returns (w': bv32)
    requires 0 <= i < 16 && IsEntry(i, k, t, s) && Before(block, h, i, Words(w, x, y, z))
    ensures Before(block, h, i + 1, Words(z, w', x, y))
  {
    hide Rol, Aux, Sine, Rotation, Rounds, Step, MessageWord, WordIndex, F1, F2, F3, F4, MacroStep, Plus;
    AuxIs(i, x, y, z);
    w' := MacroStep(w, F1(x, y, z), MessageWord(block, k), t, s, x);
    MacroIsStep(i, w, x, y, z, MessageWord(block, k));
    UnfoldRounds(block, h, i);
  }

  method Step2(w: bv32, x: bv32, y: bv32, z: bv32, k: nat, t: bv32, s: bv6, block: seq<byte>, ghost h: Words,
          ghost i: nat)
      returns (w': bv32)
    requires 16 <= i < 32 && IsEntry(i, k, t, s) && Before(block, h, i, Words(w, x, y, z))
    ensures Before(block, h, i + 1, Words(z, w', x, y))
  {
    hide Rol, Aux, Sine, Rotation, Rounds, Step, MessageWord, WordIndex, F1, F2, F3, F4, MacroStep, Plus;
    AuxIs(i, x, y, z);
    w' := MacroStep(w, F2(x, y, z), MessageWord(block, k), t, s, x);
    MacroIsStep(i, w, x, y, z, MessageWord(block, k));
    UnfoldRounds(block, h, i);
  }

  method Step3(w: bv32, x: bv32, y: bv32, z: bv32, k: nat, t: bv32, s: bv6, block: seq<byte>, ghost h: Words,
          ghost i: nat)
      returns (w': bv32)
    requires 32 <= i < 48 && IsEntry(i, k, t, s) && Before(block, h, i, Words(w, x, y, z))
    ensures Before(block, h, i + 1, Words(z, w', x, y))
  {
    hide Rol, Aux, Sine, Rotation, Rounds, Step, MessageWord, WordIndex, F1, F2, F3, F4, MacroStep, Plus;
    AuxIs(i, x, y, z);
    w' := MacroStep(w, F3(x, y, z), MessageWord(block, k), t, s, x);
    MacroIsStep(i, w, x, y, z, MessageWord(block, k));
    UnfoldRounds(block, h, i);
  }

  method Step4(w: bv32, x: bv32, y: bv32, z: bv32, k: nat, t: bv32, s: bv6, block: seq<byte>, ghost h: Words,
          ghost i: nat)
      returns (w': bv32)
    requires 48 <= i < 64 && IsEntry(i, k, t, s) && Before(block, h, i, Words(w, x, y, z))
    ensures Before(block, h, i + 1, Words(z, w', x, y))
  {
    hide Rol, Aux, Sine, Rotation, Rounds, Step, MessageWord, WordIndex, F1, F2, F3, F4, MacroStep, Plus;
    AuxIs(i, x, y, z);
    w' := MacroStep(w, F4(x, y, z), MessageWord(block, k), t, s, x);
    MacroIsStep(i, w, x, y, z, MessageWord(block, k));
    UnfoldRounds(block, h, i);
  }

  // Entries 0 to 15 of the table

  lemma Entries1A()
    ensures IsEntry(0, 0, 0xd76aa478, 7)
    ensures IsEntry(1, 1, 0xe8c7b756, 12)
    ensures IsEntry(2, 2, 0x242070db, 17)
    ensures IsEntry(3, 3, 0xc1bdceee, 22)
  {
  }

  lemma Entries1B()
    ensures IsEntry(4, 4, 0xf57c0faf, 7)
    ensures IsEntry(5, 5, 0x4787c62a, 12)
    ensures IsEntry(6, 6, 0xa8304613, 17)
    ensures IsEntry(7, 7, 0xfd469501, 22)
  {
  }

  lemma Entries1C()
    ensures IsEntry(8, 8, 0x698098d8, 7)
    ensures IsEntry(9, 9, 0x8b44f7af, 12)
    ensures IsEntry(10, 10, 0xffff5bb1, 17)
    ensures IsEntry(11, 11, 0x895cd7be, 22)
  {
  }

  lemma Entries1D()
    ensures IsEntry(12, 12, 0x6b901122, 7)
    ensures IsEntry(13, 13, 0xfd987193, 12)
    ensures IsEntry(14, 14, 0xa679438e, 17)
    ensures IsEntry(15, 15, 0x49b40821, 22)
  {
  }

  // Entries 16 to 31 of the table

  lemma Entries2A()
    ensures IsEntry(16, 1, 0xf61e2562, 5)
    ensures IsEntry(17, 6, 0xc040b340, 9)
    ensures IsEntry(18, 11, 0x265e5a51, 14)
    ensures IsEntry(19, 0, 0xe9b6c7aa, 20)
  {
  }

  lemma Entries2B()
    ensures IsEntry(20, 5, 0xd62f105d, 5)
    ensures IsEntry(21, 10, 0x02441453, 9)
    ensures IsEntry(22, 15, 0xd8a1e681, 14)
    ensures IsEntry(23, 4, 0xe7d3fbc8, 20)
  {
  }

  lemma Entries2C()
    ensures IsEntry(24, 9, 0x21e1cde6, 5)
    ensures IsEntry(25, 14, 0xc33707d6, 9)
    ensures IsEntry(26, 3, 0xf4d50d87, 14)
    ensures IsEntry(27, 8, 0x455a14ed, 20)
  {
  }

  lemma Entries2D()
    ensures IsEntry(28, 13, 0xa9e3e905, 5)
    ensures IsEntry(29, 2, 0xfcefa3f8, 9)
    ensures IsEntry(30, 7, 0x676f02d9, 14)
    ensures IsEntry(31, 12, 0x8d2a4c8a, 20)
  {
  }

  // Entries 32 to 47 of the table

  lemma Entries3A()
    ensures IsEntry(32, 5, 0xfffa3942, 4)
    ensures IsEntry(33, 8, 0x8771f681, 11)
    ensures IsEntry(34, 11, 0x6d9d6122, 16)
    ensures IsEntry(35, 14, 0xfde5380c, 23)
  {
  }

  lemma Entries3B()
    ensures IsEntry(36, 1, 0xa4beea44, 4)
    ensures IsEntry(37, 4, 0x4bdecfa9, 11)
    ensures IsEntry(38, 7, 0xf6bb4b60, 16)
    ensures IsEntry(39, 10, 0xbebfbc70, 23)
  {
  }

  lemma Entries3C()
    ensures IsEntry(40, 13, 0x289b7ec6, 4)
    ensures IsEntry(41, 0, 0xeaa127fa, 11)
    ensures IsEntry(42, 3, 0xd4ef3085, 16)
    ensures IsEntry(43, 6, 0x04881d05, 23)
  {
  }

  lemma Entries3D()
    ensures IsEntry(44, 9, 0xd9d4d039, 4)
    ensures IsEntry(45, 12, 0xe6db99e5, 11)
    ensures IsEntry(46, 15, 0x1fa27cf8, 16)
    ensures IsEntry(47, 2, 0xc4ac5665, 23)
  {
  }

  // Entries 48 to 63 of the table

  lemma Entries4A()
    ensures IsEntry(48, 0, 0xf4292244, 6)
    ensures IsEntry(49, 7, 0x432aff97, 10)
    ensures IsEntry(50, 14, 0xab9423a7, 15)
    ensures IsEntry(51, 5, 0xfc93a039, 21)
  {
  }

  lemma Entries4B()
    ensures IsEntry(52, 12, 0x655b59c3, 6)
    ensures IsEntry(53, 3, 0x8f0ccc92, 10)
    ensures IsEntry(54, 10, 0xffeff47d, 15)
    ensures IsEntry(55, 1, 0x85845dd1, 21)
  {
  }

  lemma Entries4C()
    ensures IsEntry(56, 8, 0x6fa87e4f, 6)
    ensures IsEntry(57, 15, 0xfe2ce6e0, 10)
    ensures IsEntry(58, 6, 0xa3014314, 15)
    ensures IsEntry(59, 13, 0x4e0811a1, 21)
  {
  }

  lemma Entries4D()
    ensures IsEntry(60, 4, 0xf7537e82, 6)
    ensures IsEntry(61, 11, 0xbd3af235, 10)
    ensures IsEntry(62, 2, 0x2ad7d2bb, 15)
    ensures IsEntry(63, 9, 0xeb86d391, 21)
  {
  }

  /** Round 1 */
  method Round1(r: Words, block: seq<byte>, ghost h: Words) returns (q: Words)
    requires Before(block, h, 0, r)
    ensures Before(block, h, 16, q)
  {
    hide Before, IsEntry;
    Entries1A();
    Entries1B();
    Entries1C();
    Entries1D();
    var a, b, c, d := r.a, r.b, r.c, r.d;
    a := Step1(a, b, c, d, 0, 0xd76aa478, 7, block, h, 0);
    d := Step1(d, a, b, c, 1, 0xe8c7b756, 12, block, h, 1);
    c := Step1(c, d, a, b, 2, 0x242070db, 17, block, h, 2);
    b := Step1(b, c, d, a, 3, 0xc1bdceee, 22, block, h, 3);
    a := Step1(a, b, c, d, 4, 0xf57c0faf, 7, block, h, 4);
    d := Step1(d, a, b, c, 5, 0x4787c62a, 12, block, h, 5);
    c := Step1(c, d, a, b, 6, 0xa8304613, 17, block, h, 6);
    b := Step1(b, c, d, a, 7, 0xfd469501, 22, block, h, 7);
    a := Step1(a, b, c, d, 8, 0x698098d8, 7, block, h, 8);
    d := Step1(d, a, b, c, 9, 0x8b44f7af, 12, block, h, 9);
    c := Step1(c, d, a, b, 10, 0xffff5bb1, 17, block, h, 10);
    b := Step1(b, c, d, a, 11, 0x895cd7be, 22, block, h, 11);
    a := Step1(a, b, c, d, 12, 0x6b901122, 7, block, h, 12);
    d := Step1(d, a, b, c, 13, 0xfd987193, 12, block, h, 13);
    c := Step1(c, d, a, b, 14, 0xa679438e, 17, block, h, 14);
    b := Step1(b, c, d, a, 15, 0x49b40821, 22, block, h, 15);
    q := Words(a, b, c, d);
  }

  /** Round 2 */
  method Round2(r: Words, block: seq<byte>, ghost h: Words) returns (q: Words)
    requires Before(block, h, 16, r)
    ensures Before(block, h, 32, q)
  {
    hide Before, IsEntry;
    Entries2A();
    Entries2B();
    Entries2C();
    Entries2D();
    var a, b, c, d := r.a, r.b, r.c, r.d;
    a := Step2(a, b, c, d, 1, 0xf61e2562, 5, block, h, 16);
    d := Step2(d, a, b, c, 6, 0xc040b340, 9, block, h, 17);
    c := Step2(c, d, a, b, 11, 0x265e5a51, 14, block, h, 18);
    b := Step2(b, c, d, a, 0, 0xe9b6c7aa, 20, block, h, 19);
    a := Step2(a, b, c, d, 5, 0xd62f105d, 5, block, h, 20);
    d := Step2(d, a, b, c, 10, 0x02441453, 9, block, h, 21);
    c := Step2(c, d, a, b, 15, 0xd8a1e681, 14, block, h, 22);
    b := Step2(b, c, d, a, 4, 0xe7d3fbc8, 20, block, h, 23);
    a := Step2(a, b, c, d, 9, 0x21e1cde6, 5, block, h, 24);
    d := Step2(d, a, b, c, 14, 0xc33707d6, 9, block, h, 25);
    c := Step2(c, d, a, b, 3, 0xf4d50d87, 14, block, h, 26);
    b := Step2(b, c, d, a, 8, 0x455a14ed, 20, block, h, 27);
    a := Step2(a, b, c, d, 13, 0xa9e3e905, 5, block, h, 28);
    d := Step2(d, a, b, c, 2, 0xfcefa3f8, 9, block, h, 29);
    c := Step2(c, d, a, b, 7, 0x676f02d9, 14, block, h, 30);
    b := Step2(b, c, d, a, 12, 0x8d2a4c8a, 20, block, h, 31);
    q := Words(a, b, c, d);
  }

  /** Round 3 */
  method Round3(r: Words, block: seq<byte>, ghost h: Words) returns (q: Words)
    requires Before(block, h, 32, r)
    ensures Before(block, h, 48, q)
  {
    hide Before, IsEntry;
    Entries3A();
    Entries3B();
    Entries3C();
    Entries3D();
    var a, b, c, d := r.a, r.b, r.c, r.d;
    a := Step3(a, b, c, d, 5, 0xfffa3942, 4, block, h, 32);
    d := Step3(d, a, b, c, 8, 0x8771f681, 11, block, h, 33);
    c := Step3(c, d, a, b, 11, 0x6d9d6122, 16, block, h, 34);
    b := Step3(b, c, d, a, 14, 0xfde5380c, 23, block, h, 35);
    a := Step3(a, b, c, d, 1, 0xa4beea44, 4, block, h, 36);
    d := Step3(d, a, b, c, 4, 0x4bdecfa9, 11, block, h, 37);
    c := Step3(c, d, a, b, 7, 0xf6bb4b60, 16, block, h, 38);
    b := Step3(b, c, d, a, 10, 0xbebfbc70, 23, block, h, 39);
    a := Step3(a, b, c, d, 13, 0x289b7ec6, 4, block, h, 40);
    d := Step3(d, a, b, c, 0, 0xeaa127fa, 11, block, h, 41);
    c := Step3(c, d, a, b, 3, 0xd4ef3085, 16, block, h, 42);
    b := Step3(b, c, d, a, 6, 0x04881d05, 23, block, h, 43);
    a := Step3(a, b, c, d, 9, 0xd9d4d039, 4, block, h, 44);
    d := Step3(d, a, b, c, 12, 0xe6db99e5, 11, block, h, 45);
    c := Step3(c, d, a, b, 15, 0x1fa27cf8, 16, block, h, 46);
    b := Step3(b, c, d, a, 2, 0xc4ac5665, 23, block, h, 47);
    q := Words(a, b, c, d);
  }

  /** Round 4 */
  method Round4(r: Words, block: seq<byte>, ghost h: Words) returns (q: Words)
    requires Before(block, h, 48, r)
    ensures Before(block, h, 64, q)
  {
    hide Before, IsEntry;
    Entries4A();
    Entries4B();
    Entries4C();
    Entries4D();
    var a, b, c, d := r.a, r.b, r.c, r.d;
    a := Step4(a, b, c, d, 0, 0xf4292244, 6, block, h, 48);
    d := Step4(d, a, b, c, 7, 0x432aff97, 10, block, h, 49);
    c := Step4(c, d, a, b, 14, 0xab9423a7, 15, block, h, 50);
    b := Step4(b, c, d, a, 5, 0xfc93a039, 21, block, h, 51);
    a := Step4(a, b, c, d, 12, 0x655b59c3, 6, block, h, 52);
    d := Step4(d, a, b, c, 3, 0x8f0ccc92, 10, block, h, 53);
    c := Step4(c, d, a, b, 10, 0xffeff47d, 15, block, h, 54);
    b := Step4(b, c, d, a, 1, 0x85845dd1, 21, block, h, 55);
    a := Step4(a, b, c, d, 8, 0x6fa87e4f, 6, block, h, 56);
    d := Step4(d, a, b, c, 15, 0xfe2ce6e0, 10, block, h, 57);
    c := Step4(c, d, a, b, 6, 0xa3014314, 15, block, h, 58);
    b := Step4(b, c, d, a, 13, 0x4e0811a1, 21, block, h, 59);
    a := Step4(a, b, c, d, 4, 0xf7537e82, 6, block, h, 60);
    d := Step4(d, a, b, c, 11, 0xbd3af235, 10, block, h, 61);
    c := Step4(c, d, a, b, 2, 0x2ad7d2bb, 15, block, h, 62);
    b := Step4(b, c, d, a, 9, 0xeb86d391, 21, block, h, 63);
    q := Words(a, b, c, d);
  }

  /** The transform computes one block of the standard. */
  method Transform(buf: Words, block: seq<byte>) returns (result: Words)
    requires |block| == BLOCK
    ensures result == Compress(buf, block)
  {
    hide Rounds, Plus;
    Start(block, buf);
    var r := Round1(buf, block, buf);
    r := Round2(r, block, buf);
    r := Round3(r, block, buf);
    r := Round4(r, block, buf);
    result := Words(Plus(buf.a, r.a), Plus(buf.b, r.b), Plus(buf.c, r.c), Plus(buf.d, r.d));
  }

  lemma Start(block: seq<byte>, h: Words)
    requires |block| == BLOCK
    ensures Before(block, h, 0, h)
  {
  }
}
