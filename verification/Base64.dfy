/** Base64 encoding, and the decoder of section 4 of RFC 4648 as its specification. */
module Base64 {
  import opened HashStream
  import opened Options

  const UPPER := "ABCDEFGHIJKLMNOPQRSTUVWXYZ"
  const LOWER := "abcdefghijklmnopqrstuvwxyz"
  const DIGITS := "0123456789"
  const ALPHABET := UPPER + LOWER + DIGITS + "+/"
  const PAD := '='

  function Symbol(v: int): char
    requires 0 <= v < 64
  {
    ALPHABET[v]
  }

  /** The value of a character of the alphabet, or -1. */
  function Value(c: char): (v: int)
    ensures -1 <= v < 64
  {
    if 'A' <= c <= 'Z' then c as int - 'A' as int
    else if 'a' <= c <= 'z' then c as int - 'a' as int + 26
    else if '0' <= c <= '9' then c as int - '0' as int + 52
    else if c == '+' then 62
    else if c == '/' then 63
    else -1
  }

  lemma ValueOfSymbol(v: int)
    requires 0 <= v < 64
    ensures Value(Symbol(v)) == v && Symbol(v) != PAD
  {
    if v < 26 {
      assert Symbol(v) == UPPER[v];
      UpperLetter(v);
    } else if v < 52 {
      assert Symbol(v) == LOWER[v - 26];
      LowerLetter(v - 26);
    } else if v < 62 {
      assert Symbol(v) == DIGITS[v - 52];
    }
  }

  lemma UpperLetter(v: int)
    requires 0 <= v < 26
    ensures UPPER[v] as int == 'A' as int + v
  {
  }

  lemma LowerLetter(v: int)
    requires 0 <= v < 26
    ensures LOWER[v] as int == 'a' as int + v
  {
  }

  /** What the decoder makes of a group. */
  function DecodeFour(t: string, last: bool): Option<seq<byte>>
    requires |t| == 4
  {
    var a, b, c, d := Value(t[0]), Value(t[1]), Value(t[2]), Value(t[3]);
    if a < 0 || b < 0 then None
    else if last && t[2] == PAD && t[3] == PAD then
      if b % 16 != 0 then None else Some([Byte(a * 4 + b / 16)])
    else if c < 0 then None
    else if last && t[3] == PAD then
      if c % 4 != 0 then None else Some([Byte(a * 4 + b / 16), Byte(b % 16 * 16 + c / 4)])
    else if d < 0 then None
    else Some([Byte(a * 4 + b / 16), Byte(b % 16 * 16 + c / 4), Byte(c % 4 * 64 + d)])
  }

  /** The decoder: groups of four, the last of which may be padded with one or two `=`; bits that the
      padding leaves over must be zero. */
  function Decode(t: string): Option<seq<byte>>
    decreases |t|
  {
    if t == [] then Some([])
    else if |t| < 4 then None
    else
      match DecodeFour(t[..4], |t| == 4)
      case None => None
      case Some(bytes) => match Decode(t[4..]) case None => None case Some(rest) => Some(bytes + rest)
  }

  function Byte(v: int): byte
    requires 0 <= v < 256
  {
    v as byte
  }

  /** The characters for the up to three bytes from position `i` on. */
  function Group(s: seq<byte>, i: nat): (t: string)
    requires i < |s|
    ensures |t| == 4
  {
    var a := s[i] as int;
    var b := if i + 1 < |s| then s[i + 1] as int else 0;
    var c := if i + 2 < |s| then s[i + 2] as int else 0;
    [Symbol(a / 4), Symbol(a % 4 * 16 + b / 16),
     if i + 1 < |s| then Symbol(b % 16 * 4 + c / 64) else PAD,
     if i + 2 < |s| then Symbol(c % 64) else PAD]
  }

  /** The bytes from position `i` on, encoded. */
  function Encode(s: seq<byte>, i: nat): (t: string)
    decreases |s| - i
  {
    if i >= |s| then [] else Group(s, i) + Encode(s, i + 3)
  }

  lemma {:induction false} EncodedLength(s: seq<byte>, i: nat)
    requires i <= |s| + 2
    ensures |Encode(s, i)| == (|s| - i + 2) / 3 * 4
    decreases |s| - i
  {
    hide Group;
    if i < |s| {
      EncodedLength(s, i + 3);
    }
  }

  /** The up to three bytes from position `i` on. */
  function Bytes(s: seq<byte>, i: nat): seq<byte>
    requires i < |s|
  {
    if i + 2 < |s| then [s[i], s[i + 1], s[i + 2]] else if i + 1 < |s| then [s[i], s[i + 1]] else [s[i]]
  }

  lemma GroupValues(s: seq<byte>, i: nat)
    requires i < |s|
    ensures var a := s[i] as int;
      var b := if i + 1 < |s| then s[i + 1] as int else 0;
      var c := if i + 2 < |s| then s[i + 2] as int else 0;
      var g := Group(s, i);
      && Value(g[0]) == a / 4 && Value(g[1]) == a % 4 * 16 + b / 16
      && (if i + 1 < |s| then Value(g[2]) == b % 16 * 4 + c / 64 && g[2] != PAD else g[2] == PAD)
      && (if i + 2 < |s| then Value(g[3]) == c % 64 && g[3] != PAD else g[3] == PAD)
  {
    hide Symbol, Value;
    var a := s[i] as int;
    var b := if i + 1 < |s| then s[i + 1] as int else 0;
    var c := if i + 2 < |s| then s[i + 2] as int else 0;
    ValueOfSymbol(a / 4);
    ValueOfSymbol(a % 4 * 16 + b / 16);
    ValueOfSymbol(b % 16 * 4 + c / 64);
    ValueOfSymbol(c % 64);
  }

  /** Splitting three bytes into four groups of six bits loses nothing. */
  lemma SixBits(a: int, b: int, c: int)
    requires 0 <= a < 256 && 0 <= b < 256 && 0 <= c < 256
    ensures var v, w, x, y := a / 4, a % 4 * 16 + b / 16, b % 16 * 4 + c / 64, c % 64;
      && v * 4 + w / 16 == a && w % 16 * 16 + x / 4 == b && x % 4 * 64 + y == c
      && (b == 0 ==> w % 16 == 0) && (c == 0 ==> x % 4 == 0)
  {
  }

  lemma DecodeThree(t: string, a: int, b: int, c: int, last: bool)
    requires |t| == 4 && 0 <= a < 256 && 0 <= b < 256 && 0 <= c < 256 && t[2] != PAD && t[3] != PAD
    requires Value(t[0]) == a / 4 && Value(t[1]) == a % 4 * 16 + b / 16
    requires Value(t[2]) == b % 16 * 4 + c / 64 && Value(t[3]) == c % 64
    ensures DecodeFour(t, last) == Some([Byte(a), Byte(b), Byte(c)])
  {
    hide Value;
    SixBits(a, b, c);
  }

  lemma DecodeTwo(t: string, a: int, b: int)
    requires |t| == 4 && 0 <= a < 256 && 0 <= b < 256 && t[2] != PAD && t[3] == PAD
    requires Value(t[0]) == a / 4 && Value(t[1]) == a % 4 * 16 + b / 16 && Value(t[2]) == b % 16 * 4
    ensures DecodeFour(t, true) == Some([Byte(a), Byte(b)])
  {
    hide Value;
    SixBits(a, b, 0);
  }

  lemma DecodeOne(t: string, a: int)
    requires |t| == 4 && 0 <= a < 256 && t[2] == PAD && t[3] == PAD
    requires Value(t[0]) == a / 4 && Value(t[1]) == a % 4 * 16
    ensures DecodeFour(t, true) == Some([Byte(a)])
  {
    hide Value;
    SixBits(a, 0, 0);
  }

  lemma DecodeFourGroup(s: seq<byte>, i: nat, last: bool)
    requires i < |s| && (last || i + 2 < |s|)
    ensures DecodeFour(Group(s, i), last) == Some(Bytes(s, i))
  {
    GroupValues(s, i);
    hide Symbol, Value, Group, DecodeFour;
    var g := Group(s, i);
    if i + 2 < |s| {
      DecodeThree(g, s[i] as int, s[i + 1] as int, s[i + 2] as int, last);
    } else if i + 1 < |s| {
      DecodeTwo(g, s[i] as int, s[i + 1] as int);
    } else {
      DecodeOne(g, s[i] as int);
    }
  }

  lemma DecodeGroup(s: seq<byte>, i: nat, rest: string)
    requires i < |s| && (rest == [] || i + 3 <= |s|)
    ensures Decode(Group(s, i) + rest) == match Decode(rest) case None => None case Some(r) => Some(Bytes(s, i) + r)
  {
    hide Group, DecodeFour;
    var g := Group(s, i);
    DecodeFourGroup(s, i, rest == []);
    var t := g + rest;
    assert t[..4] == g && t[4..] == rest;
  }

  /** Whatever the length, decoding gives back what was encoded. */
  lemma {:induction false} DecodeUndoesEncode(s: seq<byte>, i: nat)
    requires i <= |s|
    ensures Decode(Encode(s, i)) == Some(s[i..])
    decreases |s| - i
  {
    hide Group, Decode;
    if i == |s| {
      DecodeNothing();
    } else {
      DecodeGroup(s, i, Encode(s, i + 3));
      if i + 3 <= |s| {
        DecodeUndoesEncode(s, i + 3);
        assert Bytes(s, i) + s[i + 3..] == s[i..];
      } else {
        DecodeNothing();
        assert Bytes(s, i) + [] == s[i..];
      }
    }
  }

  lemma DecodeNothing()
    ensures Decode([]) == Some([])
  {
  }

  /** The encoder: four characters for every three bytes begun, and a terminating NUL. */
  method Base64Encode(src: seq<byte>, dst: array<char>)
    requires (|src| + 2) / 3 * 4 < dst.Length
    modifies dst
    ensures var n := (|src| + 2) / 3 * 4;
      |Encode(src, 0)| == n && dst[..n] == Encode(src, 0) && dst[n] == '\0'
    ensures forall k | (|src| + 2) / 3 * 4 < k < dst.Length :: dst[k] == old(dst[k])
  {
    hide Group, Symbol, Encode;
    ghost var t := Encode(src, 0);
    EncodedLength(src, 0);
    var i, j := 0, 0;
    while i < |src|
      invariant 0 <= i < |src| + 3 && i % 3 == 0 && j <= |t|
      invariant forall k | 0 <= k < j :: dst[k] == t[k]
      invariant if i <= |src| then j == i / 3 * 4 else j >= |t| - 2 && forall k | j <= k < |t| :: t[k] == PAD
      invariant forall k | |t| < k < dst.Length :: dst[k] == old(dst[k])
    {
      GroupInText(src, 0, i);
      j := EncodeGroup(src, i, dst, j);
      i := i + 3;
    }
    j := FillPad(dst, j, t);
    dst[j] := '\0';
  }

  /** Where in the text a group stands. */
  lemma {:induction false} GroupInText(s: seq<byte>, start: nat, i: nat)
    requires start <= i < |s| && (i - start) % 3 == 0
    ensures var p := (i - start) / 3 * 4;
      p + 4 <= |Encode(s, start)| && forall k | p <= k < p + 4 :: Encode(s, start)[k] == Group(s, i)[k - p]
    decreases i - start
  {
    hide Group;
    if start < i {
      GroupInText(s, start + 3, i);
    }
  }

  /** while (j % 4 != 0) dst[j++] = '='; */
  method FillPad(dst: array<char>, j0: nat, ghost t: string) returns (j: nat)
    requires |t| - 2 <= j0 <= |t| < dst.Length && |t| % 4 == 0
    requires (forall k | 0 <= k < j0 :: dst[k] == t[k]) && forall k | j0 <= k < |t| :: t[k] == PAD
    modifies dst
    ensures j == |t| && forall k | 0 <= k < |t| :: dst[k] == t[k]
    ensures forall k | |t| <= k < dst.Length :: dst[k] == old(dst[k])
  {
    j := j0;
    while j % 4 != 0
      invariant |t| - 2 <= j <= |t|
      invariant forall k | 0 <= k < j :: dst[k] == t[k]
      invariant forall k | |t| <= k < dst.Length :: dst[k] == old(dst[k])
      decreases |t| - j
    {
      dst[j] := PAD;
      j := j + 1;
    }
  }

  /** The characters of one group that are not padding. */
  method EncodeGroup(src: seq<byte>, i: nat, dst: array<char>, j0: nat) returns (j: nat)
    requires i < |src| && j0 + 4 <= dst.Length
    modifies dst
    ensures j == j0 + (if i + 2 < |src| then 4 else if i + 1 < |src| then 3 else 2)
    ensures forall k | j0 <= k < j :: dst[k] == Group(src, i)[k - j0]
    ensures forall m | j - j0 <= m < 4 :: Group(src, i)[m] == PAD
    ensures forall k | 0 <= k < dst.Length && !(j0 <= k < j) :: dst[k] == old(dst[k])
  {
    hide Symbol;
    j := j0;
    var a := src[i] as int;
    var b := if i + 1 >= |src| then 0 else src[i + 1] as int;
    var c := if i + 2 >= |src| then 0 else src[i + 2] as int;
    dst[j] := Symbol(a / 4);
    j := j + 1;
    dst[j] := Symbol(a % 4 * 16 + b / 16);
    j := j + 1;
    if i + 1 < |src| {
      dst[j] := Symbol(b % 16 * 4 + c / 64);
      j := j + 1;
    }
    if i + 2 < |src| {
      dst[j] := Symbol(c % 64);
      j := j + 1;
    }
  }
}
