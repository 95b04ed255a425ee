/** Percent encoding and decoding of URLs. */
module UrlCodec {
  import opened HashStream

  const PERCENT: byte := 37
  const PLUS: byte := 43
  const SPACE: byte := 32

  predicate IsDigit(c: byte) { 48 <= c <= 57 }

  predicate IsAlnum(c: byte) { IsDigit(c) || 65 <= c <= 90 || 97 <= c <= 122 }

  predicate IsHexDigit(c: byte) { IsDigit(c) || 65 <= c <= 70 || 97 <= c <= 102 }

  /** The punctuation that is not escaped: . _ - $ , ; ~ ( ) */
  const DONT_ESCAPE: seq<byte> := [46, 95, 45, 36, 44, 59, 126, 40, 41]

  predicate Escaped(c: byte) { !IsAlnum(c) && c !in DONT_ESCAPE }

  function HexDigit(v: int): byte
    requires 0 <= v < 16
  {
    if v < 10 then (48 + v) as byte else (87 + v) as byte
  }

  function ToLower(c: byte): byte { if 65 <= c <= 90 then c + 32 else c }

  /** The value of a hexadecimal digit, after conversion to lower case. */
  function HexToInt(c: byte): (v: int)
    requires IsHexDigit(c)
    ensures 0 <= v < 16
  {
    var l := ToLower(c);
    if IsDigit(l) then l as int - 48 else l as int - 87
  }

  lemma HexDigitValue(v: int)
    requires 0 <= v < 16
    ensures IsHexDigit(HexDigit(v)) && HexToInt(HexDigit(v)) == v
  {
  }

  function EncodeByte(c: byte): (e: seq<byte>)
    ensures |e| == if Escaped(c) then 3 else 1
  {
    if Escaped(c) then [PERCENT, HexDigit(c as int / 16), HexDigit(c as int % 16)] else [c]
  }

  function Encode(s: seq<byte>): seq<byte> {
    if s == [] then [] else Encode(s[..|s| - 1]) + EncodeByte(s[|s| - 1])
  }

  /** An escape sequence stands at position `i` of a text. */
  predicate EscapeAt(t: seq<byte>, i: nat) {
    i + 2 < |t| && t[i] == PERCENT && IsHexDigit(t[i + 1]) && IsHexDigit(t[i + 2])
  }

  /** What the unit at position `i` stands for, and how long it is. */
  function Unit(t: seq<byte>, i: nat, form: bool): (byte, nat)
    requires i < |t|
  {
    if EscapeAt(t, i) then ((HexToInt(t[i + 1]) * 16 + HexToInt(t[i + 2])) as byte, 3)
    else if form && t[i] == PLUS then (SPACE, 1)
    else (t[i], 1)
  }

  /** The text from position `i` up to position `n`, decoded. What is behind position n is looked at
      for an escape sequence that begins before it. */
  function Decode(t: seq<byte>, i: nat, n: nat, form: bool): seq<byte>
    requires n <= |t|
    decreases n - i
  {
    if i >= n then [] else var (c, len) := Unit(t, i, form); [c] + Decode(t, i + len, n, form)
  }

  // ---------------------------------------------------------------------------------------------
  // Decoding undoes encoding
  // ---------------------------------------------------------------------------------------------

  /** The encoded string stands at position `i`. */
  ghost predicate EncodedAt(t: seq<byte>, i: nat, s: seq<byte>) {
    i + |Encode(s)| <= |t| && forall k | i <= k < i + |Encode(s)| :: t[k] == Encode(s)[k - i]
  }

  lemma {:induction false} EncodeFront(s: seq<byte>)
    requires s != []
    ensures Encode(s) == EncodeByte(s[0]) + Encode(s[1..])
  {
    if |s| == 1 {
      assert s[..0] == [] && s[1..] == [];
      assert Encode(s) == [] + EncodeByte(s[0]);
    } else {
      var p := s[..|s| - 1];
      EncodeFront(p);
      assert p[1..] == s[1..][..|s[1..]| - 1];
    }
  }

  lemma UnitOfEncoded(t: seq<byte>, i: nat, c: byte, form: bool)
    requires i + |EncodeByte(c)| <= |t| && (forall k | i <= k < i + |EncodeByte(c)| :: t[k] == EncodeByte(c)[k - i])
    ensures Unit(t, i, form) == (c, |EncodeByte(c)|)
  {
    if Escaped(c) {
      HexDigitValue(c as int / 16);
      HexDigitValue(c as int % 16);
    }
  }

  /** In both modes, and whatever follows it, an encoded string decodes to the string. */
  lemma {:induction false} DecodeUndoesEncode(t: seq<byte>, i: nat, s: seq<byte>, form: bool)
    requires EncodedAt(t, i, s)
    ensures Decode(t, i, i + |Encode(s)|, form) == s
    decreases |s|
  {
    hide Encode, EncodeByte, Unit, EncodedAt;
    EncodedFits(t, i, s);
    if s != [] {
      EncodeFront(s);
      var e, rest := EncodeByte(s[0]), s[1..];
      EncodedTail(t, i, s, e, rest);
      UnitOfEncoded(t, i, s[0], form);
      DecodeUndoesEncode(t, i + |e|, rest, form);
      assert [s[0]] + rest == s;
    }
  }

  lemma EncodedFits(t: seq<byte>, i: nat, s: seq<byte>)
    requires EncodedAt(t, i, s)
    ensures i + |Encode(s)| <= |t| && (s == [] ==> Encode(s) == [])
  {
  }

  lemma EncodedTail(t: seq<byte>, i: nat, s: seq<byte>, e: seq<byte>, rest: seq<byte>)
    requires EncodedAt(t, i, s) && Encode(s) == e + Encode(rest)
    ensures forall k | i <= k < i + |e| :: t[k] == e[k - i]
    ensures EncodedAt(t, i + |e|, rest) && i + |e| <= |t|
  {
    hide Encode;
    forall k | i + |e| <= k < i + |e| + |Encode(rest)|
      ensures t[k] == Encode(rest)[k - (i + |e|)]
    {
      assert t[k] == Encode(s)[k - i];
    }
  }

  // ---------------------------------------------------------------------------------------------
  // What decoding gives
  // ---------------------------------------------------------------------------------------------

  /** Without percent signs, every byte stands for itself, but for a plus sign in a form: that is a space. */
  lemma PlusIsSpace(t: seq<byte>, n: nat, form: bool, k: nat)
    requires k < n <= |t| && forall j | 0 <= j < n :: t[j] as char != '%'
    ensures |Decode(t, 0, n, form)| == n
    ensures Decode(t, 0, n, form)[k] == if form && t[k] as char == '+' then ' ' as byte else t[k]
  {
    hide Decode;
    PlainBytes(t, 0, n, form);
  }

  lemma {:induction false} PlainBytes(t: seq<byte>, i: nat, n: nat, form: bool)
    requires i <= n <= |t| && forall k | i <= k < n :: t[k] as char != '%'
    ensures |Decode(t, i, n, form)| == n - i
    ensures forall k | i <= k < n :: Decode(t, i, n, form)[k - i] == Plain(t[k], form)
    decreases n - i
  {
    hide Plain, Unit;
    if i < n {
      PlainUnit(t, i, form);
      PlainBytes(t, i + 1, n, form);
      var rest := Decode(t, i + 1, n, form);
      assert Decode(t, i, n, form) == [Plain(t[i], form)] + rest;
    }
  }

  /** A byte that does not begin an escape sequence. */
  function Plain(c: byte, form: bool): byte { if form && c as char == '+' then ' ' as byte else c }

  lemma PlainUnit(t: seq<byte>, i: nat, form: bool)
    requires i < |t| && t[i] as char != '%'
    ensures Unit(t, i, form) == (Plain(t[i], form), 1)
  {
  }

  const LOWER := "0123456789abcdef"
  const UPPER := "0123456789ABCDEF"

  /** A percent sign and two hexadecimal digits, in either case, stand for the byte with these digits. */
  lemma EscapeIsByte(t: seq<byte>, i: nat, n: nat, form: bool, hi: nat, lo: nat)
    requires i < n <= |t| && i + 2 < |t| && hi < 16 && lo < 16 && t[i] as char == '%'
    requires t[i + 1] as char == LOWER[hi] || t[i + 1] as char == UPPER[hi]
    requires t[i + 2] as char == LOWER[lo] || t[i + 2] as char == UPPER[lo]
    ensures Decode(t, i, n, form) == [(16 * hi + lo) as byte] + Decode(t, i + 3, n, form)
  {
    hide HexToInt, IsHexDigit, LOWER, UPPER, Unit;
    DigitValue(t[i + 1], hi);
    DigitValue(t[i + 2], lo);
    EscapeUnit(t, i, form);
  }

  lemma EscapeUnit(t: seq<byte>, i: nat, form: bool)
    requires i + 2 < |t| && t[i] as char == '%' && IsHexDigit(t[i + 1]) && IsHexDigit(t[i + 2])
    ensures Unit(t, i, form) == ((HexToInt(t[i + 1]) * 16 + HexToInt(t[i + 2])) as byte, 3)
  {
    hide HexToInt, IsHexDigit;
  }

  /** A percent sign without two such digits behind it stands for itself. */
  lemma PercentAlone(t: seq<byte>, i: nat, n: nat, form: bool)
    requires i < n <= |t| && t[i] as char == '%'
    requires i + 2 < |t| ==> !HasValue(t[i + 1]) || !HasValue(t[i + 2])
    ensures Decode(t, i, n, form) == [t[i]] + Decode(t, i + 1, n, form)
  {
    if i + 2 < |t| {
      DigitHasValue(t[i + 1]);
      DigitHasValue(t[i + 2]);
    }
    hide HasValue, IsHexDigit, HexToInt;
  }

  ghost predicate HasValue(c: byte) {
    '0' <= c as char <= '9' || 'a' <= c as char <= 'f' || 'A' <= c as char <= 'F'
  }

  lemma DigitHasValue(c: byte)
    ensures IsHexDigit(c) <==> HasValue(c)
  {
  }

  lemma DigitValue(c: byte, v: nat)
    requires v < 16 && (c as char == LOWER[v] || c as char == UPPER[v])
    ensures IsHexDigit(c) && HexToInt(c) == v
  {
  }

  predicate Unreserved(c: char) {
    'A' <= c <= 'Z' || 'a' <= c <= 'z' || '0' <= c <= '9' || c in "._-$,;~()"
  }

  /** Letters, digits and nine punctuation characters are encoded as themselves, and all other bytes as a
      percent sign and two lower-case digits. */
  lemma EncodedByteIs(c: byte)
    ensures Unreserved(c as char) ==> EncodeByte(c) == [c]
    ensures !Unreserved(c as char) ==>
              var e := EncodeByte(c);
              && |e| == 3 && e[0] as char == '%'
              && e[1] as char == LOWER[c as int / 16] && e[2] as char == LOWER[c as int % 16]
  {
    EscapedIff(c);
    DigitOf(c as int / 16);
    DigitOf(c as int % 16);
    hide Escaped, HexDigit, LOWER, Unreserved;
  }

  lemma DigitOf(v: nat)
    requires v < 16
    ensures HexDigit(v) as char == LOWER[v]
  {
  }

  lemma EscapedIff(c: byte)
    ensures Escaped(c) <==> !Unreserved(c as char)
  {
  }

  // ---------------------------------------------------------------------------------------------
  // The two functions on buffers
  // ---------------------------------------------------------------------------------------------

  /** The bytes that decoding looks at can be read: what follows a percent sign, and what follows a
      hexadecimal digit after that. */
  ghost predicate Readable(t: seq<byte>, n: nat) {
    && n <= |t|
    && forall k | 0 <= k < n && t[k] == PERCENT :: k + 1 < |t| && (IsHexDigit(t[k + 1]) ==> k + 2 < |t|)
  }

  /** One byte behind the text is enough if it is no digit, as a terminating NUL is none. */
  lemma TerminatorSuffices(t: seq<byte>, n: nat)
    requires n < |t| && (IsHexDigit(t[n]) ==> n + 1 < |t|)
    ensures Readable(t, n)
  {
  }

  /** Decodes into `dst`, which may be the source itself. Returns the length, or -1 when the
      destination is too small; it is NUL-terminated in both cases. */
  method UrlDecode(src: array<byte>, srcLen: nat, dst: array<byte>, dstLen: nat, form: bool) returns (r: int)
    requires srcLen <= src.Length && Readable(src[..], srcLen) && 1 <= dstLen <= dst.Length
    modifies dst
    ensures var d := Decode(old(src[..]), 0, srcLen, form);
      && r == (if |d| < dstLen then |d| else -1)
      && var n := if |d| < dstLen then |d| else dstLen - 1;
      && dst[..n] == d[..n] && dst[n] == 0
    ensures forall k | dstLen <= k < dst.Length :: dst[k] == old(dst[k])
  {
    hide Unit, Decode, Readable;
    ghost var t := src[..];
    ghost var all, done: seq<byte> := Decode(t, 0, srcLen, form), [];
    var i, j := 0, 0;
    assert all == done + Decode(t, i, srcLen, form);
    while i < srcLen && j < dstLen - 1
      invariant 0 <= j <= i <= srcLen + 2 && j <= dstLen - 1
      invariant forall k | i <= k < src.Length :: src[k] == t[k]
      invariant all == done + Decode(t, i, srcLen, form)
      invariant |done| == j && forall k | 0 <= k < j :: dst[k] == done[k]
      invariant forall k | dstLen <= k < dst.Length :: dst[k] == old(dst[k])
      decreases srcLen - i
    {
      UnfoldDecode(t, i, srcLen, form, done);
      i := DecodeUnit(src, i, srcLen, dst, j, t, form);
      done := done + [dst[j]];
      j := j + 1;
    }
    DecodeIsDone(t, i, srcLen, form);
    dst[j] := 0;
    r := if i >= srcLen then j else -1;
    assert j == |done| && dst[..j] == done && all[..j] == done;
  }

  lemma UnfoldDecode(t: seq<byte>, i: nat, n: nat, form: bool, done: seq<byte>)
    requires i < n <= |t|
    ensures var (c, len) := Unit(t, i, form);
      done + Decode(t, i, n, form) == (done + [c]) + Decode(t, i + len, n, form)
  {
    hide Unit;
    var (c, len) := Unit(t, i, form);
    assert Decode(t, i, n, form) == [c] + Decode(t, i + len, n, form);
  }

  lemma DecodeIsDone(t: seq<byte>, i: nat, n: nat, form: bool)
    requires n <= |t|
    ensures Decode(t, i, n, form) == [] <==> i >= n
  {
  }

  /** One turn of the loop: the unit at position `i` becomes the byte at position `j`. */
  method DecodeUnit(src: array<byte>, i0: nat, srcLen: nat, dst: array<byte>, j: nat, ghost t: seq<byte>, form: bool)
      returns (i: nat)
    requires j <= i0 < srcLen <= src.Length == |t| && j < dst.Length && Readable(t, srcLen)
    requires forall k | i0 <= k < src.Length :: src[k] == t[k]
    modifies dst
    ensures (dst[j], i - i0) == Unit(t, i0, form) && i0 < i <= i0 + 3
    ensures forall k | i <= k < src.Length :: src[k] == t[k]
    ensures forall k | 0 <= k < dst.Length && k != j :: dst[k] == old(dst[k])
  {
    i := i0;
    if src[i] == PERCENT && IsHexDigit(src[i + 1]) && IsHexDigit(src[i + 2]) {
      var a := ToLower(src[i + 1]);
      var b := ToLower(src[i + 2]);
      var hi := if IsDigit(a) then a as int - 48 else a as int - 87;
      var lo := if IsDigit(b) then b as int - 48 else b as int - 87;
      dst[j] := (hi * 16 + lo) as byte;
      i := i + 2;
    } else if form && src[i] == PLUS {
      dst[j] := SPACE;
    } else {
      dst[j] := src[i];
    }
    i := i + 1;
  }

  /** Encodes into `dst`. The promise is for a destination that is large enough; the bytes behind it
      are never touched, and the result is always NUL-terminated. */
  method UrlEncode(src: seq<byte>, dst: array<byte>, dstLen: nat) returns (ghost n: nat)
    requires 1 <= dstLen <= dst.Length && 0 !in src
    modifies dst
    ensures n < dstLen && dst[n] == 0
    ensures |Encode(src)| < dstLen ==> dst[..n] == Encode(src)
    ensures forall k | dstLen <= k < dst.Length :: dst[k] == old(dst[k])
  {
    var i, j, end := 0, 0, dstLen - 1;
    while i < |src| && j < end
      invariant 0 <= i <= |src| && 0 <= j <= end
      invariant |Encode(src)| < dstLen ==> dst[..j] == Encode(src[..i])
      invariant forall k | dstLen <= k < dst.Length :: dst[k] == old(dst[k])
    {
      EncodePrefix(src, i);
      j := EncodeUnit(src[i], dst, j, end);
      i := i + 1;
    }
    if i < |src| {
      EncodePrefix(src, i);
    }
    assert src[..|src|] == src;
    dst[j] := 0;
    n := j;
  }

  /** One turn of the loop. Without room for an escape sequence nothing is written, but a place is
      skipped all the same. */
  method EncodeUnit(c: byte, dst: array<byte>, j0: nat, end: nat) returns (j: nat)
    requires j0 < end < dst.Length
    modifies dst
    ensures j0 < j <= end
    ensures j0 + |EncodeByte(c)| <= end ==> dst[..j] == old(dst[..j0]) + EncodeByte(c)
    ensures forall k | end <= k < dst.Length :: dst[k] == old(dst[k])
  {
    j := j0;
    if !Escaped(c) {
      dst[j] := c;
    } else if j + 2 < end {
      dst[j] := PERCENT;
      dst[j + 1] := HexDigit(c as int / 16);
      dst[j + 2] := HexDigit(c as int % 16);
      j := j + 2;
    }
    j := j + 1;
  }

  /** The encoding of one more byte, which is part of the whole. */
  lemma EncodePrefix(s: seq<byte>, i: nat)
    requires i < |s|
    ensures Encode(s[..i + 1]) == Encode(s[..i]) + EncodeByte(s[i])
    ensures |Encode(s[..i])| + |EncodeByte(s[i])| <= |Encode(s)|
  {
    assert s[..i + 1][..i] == s[..i];
    EncodeGrows(s, i + 1);
  }

  lemma {:induction false} EncodeGrows(s: seq<byte>, i: nat)
    requires i <= |s|
    ensures |Encode(s[..i])| <= |Encode(s)|
    decreases |s| - i
  {
    if i == |s| {
      assert s[..i] == s;
    } else {
      assert s[..i + 1][..i] == s[..i];
      EncodeGrows(s, i + 1);
    }
  }
}
