/** A published value: the MD5 hash of "abc", of section A.5 of RFC 1321, step by step. */
module Md5Vector {
  import opened HashStream
  import opened Md5
  import opened Md5Block

  const ABC: seq<byte> := [97, 98, 99]

  /** The padded message: one block. */
  const PADDED: seq<byte> := ABC + ([0x80] + Zeros(52) + [24, 0, 0, 0, 0, 0, 0, 0])

  lemma PaddedAbc()
    ensures Padded(ABC, LengthBytes(ABC)) == PADDED
  {
    assert LengthBytes(ABC) == [24, 0, 0, 0, 0, 0, 0, 0];
  }

  /** The message words that are not zero are the first one and the length. */
  lemma WordsOfAbc(k: nat)
    requires k < 16
    ensures MessageWord(PADDED, k) == if k == 0 then 0x80636261 else if k == 14 then 24 else 0
  {
    hide MessageWord;
    FirstWord();
    LengthWord();
    if k != 0 && k != 14 {
      ZeroWord(k);
    }
  }

  lemma FirstWord()
    ensures MessageWord(PADDED, 0) == 0x80636261
  {
    assert PADDED[0] == 97 && PADDED[1] == 98 && PADDED[2] == 99 && PADDED[3] == 0x80;
  }

  lemma LengthWord()
    ensures MessageWord(PADDED, 14) == 24
  {
  }

  lemma ZeroWord(k: nat)
    requires 0 < k < 16 && k != 14
    ensures MessageWord(PADDED, k) == 0
  {
    assert PADDED[4 * k] == 0 && PADDED[4 * k + 1] == 0 && PADDED[4 * k + 2] == 0 && PADDED[4 * k + 3] == 0;
  }

  /** The registers before step i. */
  ghost predicate Reaches(i: nat, r: Words) { Before(PADDED, INITIAL, i, r) }

  lemma IndexOfWord(i: nat)
    requires i < 64
    ensures WordIndex(i) < 16
  {
  }

  lemma Next(i: nat, r: Words, s: Words)
    requires i < 64 && Reaches(i, r)
    requires s == Step(r, i, if WordIndex(i) == 0 then 0x80636261 else if WordIndex(i) == 14 then 24 else 0)
    ensures Reaches(i + 1, s)
  {
    hide Step, MessageWord, Rounds, WordIndex, INITIAL, PADDED;
    IndexOfWord(i);
    WordsOfAbc(WordIndex(i));
    UnfoldRounds(PADDED, INITIAL, i);
  }

  lemma Steps0()
    requires Reaches(0, Words(0x67452301, 0xefcdab89, 0x98badcfe, 0x10325476))
    ensures Reaches(4, Words(0xd6d117b4, 0x7ad956f2, 0x2f6fbd72, 0x344a8432))
  {
    hide Sine, Rotation, WordIndex, Reaches;
    Entries1A();
    Next(0, Words(0x67452301, 0xefcdab89, 0x98badcfe, 0x10325476),
         Words(0x10325476, 0xd6d117b4, 0xefcdab89, 0x98badcfe));
    Next(1, Words(0x10325476, 0xd6d117b4, 0xefcdab89, 0x98badcfe),
         Words(0x98badcfe, 0x344a8432, 0xd6d117b4, 0xefcdab89));
    Next(2, Words(0x98badcfe, 0x344a8432, 0xd6d117b4, 0xefcdab89),
         Words(0xefcdab89, 0x2f6fbd72, 0x344a8432, 0xd6d117b4));
    Next(3, Words(0xefcdab89, 0x2f6fbd72, 0x344a8432, 0xd6d117b4),
         Words(0xd6d117b4, 0x7ad956f2, 0x2f6fbd72, 0x344a8432));
  }

  lemma Steps4()
    requires Reaches(4, Words(0xd6d117b4, 0x7ad956f2, 0x2f6fbd72, 0x344a8432))
    ensures Reaches(8, Words(0xc73741ef, 0x928d99f6, 0x207dc67b, 0x8bac3051))
  {
    hide Sine, Rotation, WordIndex, Reaches;
    Entries1B();
    Next(4, Words(0xd6d117b4, 0x7ad956f2, 0x2f6fbd72, 0x344a8432),
         Words(0x344a8432, 0xc73741ef, 0x7ad956f2, 0x2f6fbd72));
    Next(5, Words(0x344a8432, 0xc73741ef, 0x7ad956f2, 0x2f6fbd72),
         Words(0x2f6fbd72, 0x8bac3051, 0xc73741ef, 0x7ad956f2));
    Next(6, Words(0x2f6fbd72, 0x8bac3051, 0xc73741ef, 0x7ad956f2),
         Words(0x7ad956f2, 0x207dc67b, 0x8bac3051, 0xc73741ef));
    Next(7, Words(0x7ad956f2, 0x207dc67b, 0x8bac3051, 0xc73741ef),
         Words(0xc73741ef, 0x928d99f6, 0x207dc67b, 0x8bac3051));
  }

  lemma Steps8()
    requires Reaches(8, Words(0xc73741ef, 0x928d99f6, 0x207dc67b, 0x8bac3051))
    ensures Reaches(12, Words(0x854b3712, 0x5ed49596, 0x3020401c, 0x74e2f284))
  {
    hide Sine, Rotation, WordIndex, Reaches;
    Entries1C();
    Next(8, Words(0xc73741ef, 0x928d99f6, 0x207dc67b, 0x8bac3051),
         Words(0x8bac3051, 0x854b3712, 0x928d99f6, 0x207dc67b));
    Next(9, Words(0x8bac3051, 0x854b3712, 0x928d99f6, 0x207dc67b),
         Words(0x207dc67b, 0x74e2f284, 0x854b3712, 0x928d99f6));
    Next(10, Words(0x207dc67b, 0x74e2f284, 0x854b3712, 0x928d99f6),
         Words(0x928d99f6, 0x3020401c, 0x74e2f284, 0x854b3712));
    Next(11, Words(0x928d99f6, 0x3020401c, 0x74e2f284, 0x854b3712),
         Words(0x854b3712, 0x5ed49596, 0x3020401c, 0x74e2f284));
  }

  lemma Steps12()
    requires Reaches(12, Words(0x854b3712, 0x5ed49596, 0x3020401c, 0x74e2f284))
    ensures Reaches(16, Words(0xdda9b9a6, 0x72aff2e0, 0xe396856b, 0xa1051895))
  {
    hide Sine, Rotation, WordIndex, Reaches;
    Entries1D();
    Next(12, Words(0x854b3712, 0x5ed49596, 0x3020401c, 0x74e2f284),
         Words(0x74e2f284, 0xdda9b9a6, 0x5ed49596, 0x3020401c));
    Next(13, Words(0x74e2f284, 0xdda9b9a6, 0x5ed49596, 0x3020401c),
         Words(0x3020401c, 0xa1051895, 0xdda9b9a6, 0x5ed49596));
    Next(14, Words(0x3020401c, 0xa1051895, 0xdda9b9a6, 0x5ed49596),
         Words(0x5ed49596, 0xe396856b, 0xa1051895, 0xdda9b9a6));
    Next(15, Words(0x5ed49596, 0xe396856b, 0xa1051895, 0xdda9b9a6),
         Words(0xdda9b9a6, 0x72aff2e0, 0xe396856b, 0xa1051895));
  }

  lemma Steps16()
    requires Reaches(16, Words(0xdda9b9a6, 0x72aff2e0, 0xe396856b, 0xa1051895))
    ensures Reaches(20, Words(0x3e9e9126, 0xb5b204e4, 0xe25e1652, 0x4a1d804e))
  {
    hide Sine, Rotation, WordIndex, Reaches;
    Entries2A();
    Next(16, Words(0xdda9b9a6, 0x72aff2e0, 0xe396856b, 0xa1051895),
         Words(0xa1051895, 0x3e9e9126, 0x72aff2e0, 0xe396856b));
    Next(17, Words(0xa1051895, 0x3e9e9126, 0x72aff2e0, 0xe396856b),
         Words(0xe396856b, 0x4a1d804e, 0x3e9e9126, 0x72aff2e0));
    Next(18, Words(0xe396856b, 0x4a1d804e, 0x3e9e9126, 0x72aff2e0),
         Words(0x72aff2e0, 0xe25e1652, 0x4a1d804e, 0x3e9e9126));
    Next(19, Words(0x72aff2e0, 0xe25e1652, 0x4a1d804e, 0x3e9e9126),
         Words(0x3e9e9126, 0xb5b204e4, 0xe25e1652, 0x4a1d804e));
  }

  lemma Steps20()
    requires Reaches(20, Words(0x3e9e9126, 0xb5b204e4, 0xe25e1652, 0x4a1d804e))
    ensures Reaches(24, Words(0x59a8ffda, 0x47092c07, 0xabfc7920, 0x6d002f1e))
  {
    hide Sine, Rotation, WordIndex, Reaches;
    Entries2B();
    Next(20, Words(0x3e9e9126, 0xb5b204e4, 0xe25e1652, 0x4a1d804e),
         Words(0x4a1d804e, 0x59a8ffda, 0xb5b204e4, 0xe25e1652));
    Next(21, Words(0x4a1d804e, 0x59a8ffda, 0xb5b204e4, 0xe25e1652),
         Words(0xe25e1652, 0x6d002f1e, 0x59a8ffda, 0xb5b204e4));
    Next(22, Words(0xe25e1652, 0x6d002f1e, 0x59a8ffda, 0xb5b204e4),
         Words(0xb5b204e4, 0xabfc7920, 0x6d002f1e, 0x59a8ffda));
    Next(23, Words(0xb5b204e4, 0xabfc7920, 0x6d002f1e, 0x59a8ffda),
         Words(0x59a8ffda, 0x47092c07, 0xabfc7920, 0x6d002f1e));
  }

  lemma Steps24()
    requires Reaches(24, Words(0x59a8ffda, 0x47092c07, 0xabfc7920, 0x6d002f1e))
    ensures Reaches(28, Words(0xb7f268cf, 0x786acb8f, 0xfe1623b1, 0x09388eff))
  {
    hide Sine, Rotation, WordIndex, Reaches;
    Entries2C();
    Next(24, Words(0x59a8ffda, 0x47092c07, 0xabfc7920, 0x6d002f1e),
         Words(0x6d002f1e, 0xb7f268cf, 0x47092c07, 0xabfc7920));
    Next(25, Words(0x6d002f1e, 0xb7f268cf, 0x47092c07, 0xabfc7920),
         Words(0xabfc7920, 0x09388eff, 0xb7f268cf, 0x47092c07));
    Next(26, Words(0xabfc7920, 0x09388eff, 0xb7f268cf, 0x47092c07),
         Words(0x47092c07, 0xfe1623b1, 0x09388eff, 0xb7f268cf));
    Next(27, Words(0x47092c07, 0xfe1623b1, 0x09388eff, 0xb7f268cf),
         Words(0xb7f268cf, 0x786acb8f, 0xfe1623b1, 0x09388eff));
  }

  lemma Steps28()
    requires Reaches(28, Words(0xb7f268cf, 0x786acb8f, 0xfe1623b1, 0x09388eff))
    ensures Reaches(32, Words(0x790a77fb, 0x726342d3, 0xa62884aa, 0x9f47e4f8))
  {
    hide Sine, Rotation, WordIndex, Reaches;
    Entries2D();
    Next(28, Words(0xb7f268cf, 0x786acb8f, 0xfe1623b1, 0x09388eff),
         Words(0x09388eff, 0x790a77fb, 0x786acb8f, 0xfe1623b1));
    Next(29, Words(0x09388eff, 0x790a77fb, 0x786acb8f, 0xfe1623b1),
         Words(0xfe1623b1, 0x9f47e4f8, 0x790a77fb, 0x786acb8f));
    Next(30, Words(0xfe1623b1, 0x9f47e4f8, 0x790a77fb, 0x786acb8f),
         Words(0x786acb8f, 0xa62884aa, 0x9f47e4f8, 0x790a77fb));
    Next(31, Words(0x786acb8f, 0xa62884aa, 0x9f47e4f8, 0x790a77fb),
         Words(0x790a77fb, 0x726342d3, 0xa62884aa, 0x9f47e4f8));
  }

  lemma Steps32()
    requires Reaches(32, Words(0x790a77fb, 0x726342d3, 0xa62884aa, 0x9f47e4f8))
    ensures Reaches(36, Words(0xb3707ebf, 0x3b0875c7, 0x8d212ff5, 0x60127b2e))
  {
    hide Sine, Rotation, WordIndex, Reaches;
    Entries3A();
    Next(32, Words(0x790a77fb, 0x726342d3, 0xa62884aa, 0x9f47e4f8),
         Words(0x9f47e4f8, 0xb3707ebf, 0x726342d3, 0xa62884aa));
    Next(33, Words(0x9f47e4f8, 0xb3707ebf, 0x726342d3, 0xa62884aa),
         Words(0xa62884aa, 0x60127b2e, 0xb3707ebf, 0x726342d3));
    Next(34, Words(0xa62884aa, 0x60127b2e, 0xb3707ebf, 0x726342d3),
         Words(0x726342d3, 0x8d212ff5, 0x60127b2e, 0xb3707ebf));
    Next(35, Words(0x726342d3, 0x8d212ff5, 0x60127b2e, 0xb3707ebf),
         Words(0xb3707ebf, 0x3b0875c7, 0x8d212ff5, 0x60127b2e));
  }

  lemma Steps36()
    requires Reaches(36, Words(0xb3707ebf, 0x3b0875c7, 0x8d212ff5, 0x60127b2e))
    ensures Reaches(40, Words(0x21b117b9, 0x5a2f5ea5, 0x3575227e, 0x6e7429d5))
  {
    hide Sine, Rotation, WordIndex, Reaches;
    Entries3B();
    Next(36, Words(0xb3707ebf, 0x3b0875c7, 0x8d212ff5, 0x60127b2e),
         Words(0x60127b2e, 0x21b117b9, 0x3b0875c7, 0x8d212ff5));
    Next(37, Words(0x60127b2e, 0x21b117b9, 0x3b0875c7, 0x8d212ff5),
         Words(0x8d212ff5, 0x6e7429d5, 0x21b117b9, 0x3b0875c7));
    Next(38, Words(0x8d212ff5, 0x6e7429d5, 0x21b117b9, 0x3b0875c7),
         Words(0x3b0875c7, 0x3575227e, 0x6e7429d5, 0x21b117b9));
    Next(39, Words(0x3b0875c7, 0x3575227e, 0x6e7429d5, 0x21b117b9),
         Words(0x21b117b9, 0x5a2f5ea5, 0x3575227e, 0x6e7429d5));
  }

  lemma Steps40()
    requires Reaches(40, Words(0x21b117b9, 0x5a2f5ea5, 0x3575227e, 0x6e7429d5))
    ensures Reaches(44, Words(0x11de1779, 0x4c6124f4, 0x31c465ca, 0xfadcaa38))
  {
    hide Sine, Rotation, WordIndex, Reaches;
    Entries3C();
    Next(40, Words(0x21b117b9, 0x5a2f5ea5, 0x3575227e, 0x6e7429d5),
         Words(0x6e7429d5, 0x11de1779, 0x5a2f5ea5, 0x3575227e));
    Next(41, Words(0x6e7429d5, 0x11de1779, 0x5a2f5ea5, 0x3575227e),
         Words(0x3575227e, 0xfadcaa38, 0x11de1779, 0x5a2f5ea5));
    Next(42, Words(0x3575227e, 0xfadcaa38, 0x11de1779, 0x5a2f5ea5),
         Words(0x5a2f5ea5, 0x31c465ca, 0xfadcaa38, 0x11de1779));
    Next(43, Words(0x5a2f5ea5, 0x31c465ca, 0xfadcaa38, 0x11de1779),
         Words(0x11de1779, 0x4c6124f4, 0x31c465ca, 0xfadcaa38));
  }

  lemma Steps44()
    requires Reaches(44, Words(0x11de1779, 0x4c6124f4, 0x31c465ca, 0xfadcaa38))
    ensures Reaches(48, Words(0x7f2e507b, 0x7beb9700, 0x8fae6399, 0x99d9679d))
  {
    hide Sine, Rotation, WordIndex, Reaches;
    Entries3D();
    Next(44, Words(0x11de1779, 0x4c6124f4, 0x31c465ca, 0xfadcaa38),
         Words(0xfadcaa38, 0x7f2e507b, 0x4c6124f4, 0x31c465ca));
    Next(45, Words(0xfadcaa38, 0x7f2e507b, 0x4c6124f4, 0x31c465ca),
         Words(0x31c465ca, 0x99d9679d, 0x7f2e507b, 0x4c6124f4));
    Next(46, Words(0x31c465ca, 0x99d9679d, 0x7f2e507b, 0x4c6124f4),
         Words(0x4c6124f4, 0x8fae6399, 0x99d9679d, 0x7f2e507b));
    Next(47, Words(0x4c6124f4, 0x8fae6399, 0x99d9679d, 0x7f2e507b),
         Words(0x7f2e507b, 0x7beb9700, 0x8fae6399, 0x99d9679d));
  }

  lemma Steps48()
    requires Reaches(48, Words(0x7f2e507b, 0x7beb9700, 0x8fae6399, 0x99d9679d))
    ensures Reaches(52, Words(0x7b201df8, 0x8bf025c4, 0xb298cefd, 0xf4e8e96e))
  {
    hide Sine, Rotation, WordIndex, Reaches;
    Entries4A();
    Next(48, Words(0x7f2e507b, 0x7beb9700, 0x8fae6399, 0x99d9679d),
         Words(0x99d9679d, 0x7b201df8, 0x7beb9700, 0x8fae6399));
    Next(49, Words(0x99d9679d, 0x7b201df8, 0x7beb9700, 0x8fae6399),
         Words(0x8fae6399, 0xf4e8e96e, 0x7b201df8, 0x7beb9700));
    Next(50, Words(0x8fae6399, 0xf4e8e96e, 0x7b201df8, 0x7beb9700),
         Words(0x7beb9700, 0xb298cefd, 0xf4e8e96e, 0x7b201df8));
    Next(51, Words(0x7beb9700, 0xb298cefd, 0xf4e8e96e, 0x7b201df8),
         Words(0x7b201df8, 0x8bf025c4, 0xb298cefd, 0xf4e8e96e));
  }

  lemma Steps52()
    requires Reaches(52, Words(0x7b201df8, 0x8bf025c4, 0xb298cefd, 0xf4e8e96e))
    ensures Reaches(56, Words(0x06cc5e8a, 0x3bfa2c27, 0x7d632dd0, 0x5b0d97aa))
  {
    hide Sine, Rotation, WordIndex, Reaches;
    Entries4B();
    Next(52, Words(0x7b201df8, 0x8bf025c4, 0xb298cefd, 0xf4e8e96e),
         Words(0xf4e8e96e, 0x06cc5e8a, 0x8bf025c4, 0xb298cefd));
    Next(53, Words(0xf4e8e96e, 0x06cc5e8a, 0x8bf025c4, 0xb298cefd),
         Words(0xb298cefd, 0x5b0d97aa, 0x06cc5e8a, 0x8bf025c4));
    Next(54, Words(0xb298cefd, 0x5b0d97aa, 0x06cc5e8a, 0x8bf025c4),
         Words(0x8bf025c4, 0x7d632dd0, 0x5b0d97aa, 0x06cc5e8a));
    Next(55, Words(0x8bf025c4, 0x7d632dd0, 0x5b0d97aa, 0x06cc5e8a),
         Words(0x06cc5e8a, 0x3bfa2c27, 0x7d632dd0, 0x5b0d97aa));
  }

  lemma Steps56()
    requires Reaches(56, Words(0x06cc5e8a, 0x3bfa2c27, 0x7d632dd0, 0x5b0d97aa))
    ensures Reaches(60, Words(0x7f81cc35, 0x7327d604, 0x4f9dbe3f, 0x094454ab))
  {
    hide Sine, Rotation, WordIndex, Reaches;
    Entries4C();
    Next(56, Words(0x06cc5e8a, 0x3bfa2c27, 0x7d632dd0, 0x5b0d97aa),
         Words(0x5b0d97aa, 0x7f81cc35, 0x3bfa2c27, 0x7d632dd0));
    Next(57, Words(0x5b0d97aa, 0x7f81cc35, 0x3bfa2c27, 0x7d632dd0),
         Words(0x7d632dd0, 0x094454ab, 0x7f81cc35, 0x3bfa2c27));
    Next(58, Words(0x7d632dd0, 0x094454ab, 0x7f81cc35, 0x3bfa2c27),
         Words(0x3bfa2c27, 0x4f9dbe3f, 0x094454ab, 0x7f81cc35));
    Next(59, Words(0x3bfa2c27, 0x4f9dbe3f, 0x094454ab, 0x7f81cc35),
         Words(0x7f81cc35, 0x7327d604, 0x4f9dbe3f, 0x094454ab));
  }

  lemma Steps60()
    requires Reaches(60, Words(0x7f81cc35, 0x7327d604, 0x4f9dbe3f, 0x094454ab))
    ensures Reaches(64, Words(0x310ade8f, 0xc08226b3, 0xe484b9d8, 0x624d8cb2))
  {
    hide Sine, Rotation, WordIndex, Reaches;
    Entries4D();
    Next(60, Words(0x7f81cc35, 0x7327d604, 0x4f9dbe3f, 0x094454ab),
         Words(0x094454ab, 0x310ade8f, 0x7327d604, 0x4f9dbe3f));
    Next(61, Words(0x094454ab, 0x310ade8f, 0x7327d604, 0x4f9dbe3f),
         Words(0x4f9dbe3f, 0x624d8cb2, 0x310ade8f, 0x7327d604));
    Next(62, Words(0x4f9dbe3f, 0x624d8cb2, 0x310ade8f, 0x7327d604),
         Words(0x7327d604, 0xe484b9d8, 0x624d8cb2, 0x310ade8f));
    Next(63, Words(0x7327d604, 0xe484b9d8, 0x624d8cb2, 0x310ade8f),
         Words(0x310ade8f, 0xc08226b3, 0xe484b9d8, 0x624d8cb2));
  }

  lemma AllSteps()
    ensures Rounds(PADDED, INITIAL, 64) == Words(0x310ade8f, 0xc08226b3, 0xe484b9d8, 0x624d8cb2)
  {
    hide Reaches, Rounds;
    Begins();
    Steps0();
    Steps4();
    Steps8();
    Steps12();
    Steps16();
    Steps20();
    Steps24();
    Steps28();
    Steps32();
    Steps36();
    Steps40();
    Steps44();
    Steps48();
    Steps52();
    Steps56();
    Steps60();
    Ends(Words(0x310ade8f, 0xc08226b3, 0xe484b9d8, 0x624d8cb2));
  }

  lemma Begins()
    ensures Reaches(0, Words(0x67452301, 0xefcdab89, 0x98badcfe, 0x10325476))
  {
    Start(PADDED, INITIAL);
  }

  lemma Ends(r: Words)
    requires Reaches(64, r)
    ensures Rounds(PADDED, INITIAL, 64) == r
  {
  }

  lemma CompressedAbc()
    ensures Compress(INITIAL, PADDED) == Words(0x98500190, 0xb04fd23c, 0x7d3f96d6, 0x727fe128)
  {
    hide Rounds;
    AllSteps();
  }

  lemma OneBlock()
    ensures Absorb(Compress, INITIAL, PADDED) == Absorbed(Compress(INITIAL, PADDED), [])
  {
    hide Compress, INITIAL;
    assert PADDED[..BLOCK] == PADDED && PADDED[BLOCK..] == [];
  }

  const DIGEST: seq<byte> := [
    0x90, 0x01, 0x50, 0x98, 0x3c, 0xd2, 0x4f, 0xb0,
    0xd6, 0x96, 0x3f, 0x7d, 0x28, 0xe1, 0x7f, 0x72]

  lemma DigestOfAbc()
    ensures DigestBytes(Words(0x98500190, 0xb04fd23c, 0x7d3f96d6, 0x727fe128)) == DIGEST
  {
  }

  lemma HashIs()
    ensures Hash(ABC) == DigestBytes(Absorb(Compress, INITIAL, Padded(ABC, LengthBytes(ABC))).state)
  {
    hide DigestBytes, Absorb, Compress, Padded, LengthBytes, INITIAL;
  }

  lemma FrontDigits()
    ensures HexOf(DIGEST)[..16] == "900150983cd24fb0"
  {
    hide HexOf;
    var h := HexOf(DIGEST);
    assert DIGEST[0] == 0x90 && h[0] == '9' && h[1] == '0';
    assert DIGEST[1] == 0x01 && h[2] == '0' && h[3] == '1';
    assert DIGEST[2] == 0x50 && h[4] == '5' && h[5] == '0';
    assert DIGEST[3] == 0x98 && h[6] == '9' && h[7] == '8';
    assert DIGEST[4] == 0x3c && h[8] == '3' && h[9] == 'c';
    assert DIGEST[5] == 0xd2 && h[10] == 'd' && h[11] == '2';
    assert DIGEST[6] == 0x4f && h[12] == '4' && h[13] == 'f';
    assert DIGEST[7] == 0xb0 && h[14] == 'b' && h[15] == '0';
  }

  lemma BackDigits()
    ensures HexOf(DIGEST)[16..] == "d6963f7d28e17f72"
  {
    hide HexOf;
    var h := HexOf(DIGEST);
    assert DIGEST[8] == 0xd6 && h[16] == 'd' && h[17] == '6';
    assert DIGEST[9] == 0x96 && h[18] == '9' && h[19] == '6';
    assert DIGEST[10] == 0x3f && h[20] == '3' && h[21] == 'f';
    assert DIGEST[11] == 0x7d && h[22] == '7' && h[23] == 'd';
    assert DIGEST[12] == 0x28 && h[24] == '2' && h[25] == '8';
    assert DIGEST[13] == 0xe1 && h[26] == 'e' && h[27] == '1';
    assert DIGEST[14] == 0x7f && h[28] == '7' && h[29] == 'f';
    assert DIGEST[15] == 0x72 && h[30] == '7' && h[31] == '2';
  }

  /** MD5 ("abc") = 900150983cd24fb0d6963f7d28e17f72 */
  lemma HashOfAbc()
    ensures Hash(ABC)
         == [0x90, 0x01, 0x50, 0x98, 0x3c, 0xd2, 0x4f, 0xb0,
             0xd6, 0x96, 0x3f, 0x7d, 0x28, 0xe1, 0x7f, 0x72]
    ensures HexOf(Hash(ABC)) == "900150983cd24fb0d6963f7d28e17f72"
  {
    hide PADDED, LengthBytes, Padded, Absorb, Compress, DigestBytes, Hash, HexOf, INITIAL;
    PaddedAbc();
    OneBlock();
    CompressedAbc();
    DigestOfAbc();
    HashIs();
    FrontDigits();
    BackDigits();
    assert HexOf(DIGEST) == HexOf(DIGEST)[..16] + HexOf(DIGEST)[16..];
  }
}
