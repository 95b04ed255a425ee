/** What mg_read copies out of the receive buffer and asks the socket for, and when that is the next part
    of the body. */
module BodyRead {

  const TWO31 := 0x8000_0000
  const TWO32 := 0x1_0000_0000
  const TWO64 := 0x1_0000_0000_0000_0000

  function Min(x: int, y: int): int { if x <= y then x else y }

  function Max(x: int, y: int): int { if x <= y then y else x }

  /** Conversion to a 32-bit signed integer. */
  function AsInt32(x: int): int {
    var w := x % TWO32;
    if w < TWO31 then w else w - TWO32
  }

  /** How much a handler asks for at a time, and what is left of that: what an object in memory can hold. */
  type ReadSize = x: int | 0 <= x < 0x8000_0000_0000_0000

  /** What the beginning of a read depends on: the lengths of the header section, of the received data
      and of the body, and how much of the body has been handed out. */
  datatype Reading = Reading(requestLen: nat, dataLen: nat, contentLen: int, consumed: nat) {
    /** How much a read wants. */
    function Wanted(size: nat): nat { Max(Min(size, contentLen - consumed), 0) }

    /** Where in the buffer the next part of the body would be. */
    function Position(): nat { requestLen + consumed }

    /** How many bytes of the body have been read past the buffer. */
    function Past(): nat { Max(Position() - dataLen, 0) }

    /** How much is copied out of memory, from that position on; the count goes through an int. */
    function Copied(size: nat): nat { Max(Min(Wanted(size), AsInt32(dataLen - Position())), 0) }

    /** How much is then left for the socket. */
    function Left(size: nat): nat { Wanted(size) - Copied(size) }

    /** What is copied is what the buffer still holds of the next part of the body. */
    ghost predicate CopiedRight(size: nat) { Copied(size) == Max(Min(Wanted(size), dataLen - Position()), 0) }

    /** The next part of the body is copied, the rest can be received without asking for more than that, and
        the int result counts both. */
    ghost predicate Right(size: nat) {
      CopiedRight(size) && CanReceive(Left(size)) && AsInt32(Wanted(size)) == Wanted(size)
    }

    /** The condition for that, as a caller can check it. */
    predicate Safe(size: nat) { Wanted(size) == 0 || (Wanted(size) < TWO31 && Past() % TWO32 <= TWO31) }

    /** A read that wants something is begun more than 2^31 bytes past the buffer, or wants 2^31 bytes or
        more. */
    predicate Fails(size: nat) { 0 < Wanted(size) && (TWO31 < Past() || TWO31 <= Wanted(size)) }
  }

  // ---------------------------------------------------------------------------------------------
  // Receiving
  // ---------------------------------------------------------------------------------------------

  /** What a receive asks the socket for when `len` bytes are left: the int that is passed on is converted
      back to an unsigned 64-bit size. */
  function Asked(len: nat): (n: nat) {
    if AsInt32(len) < 0 then AsInt32(len) + TWO64 else AsInt32(len)
  }

  /** Receives that bring `len` bytes. Each brings at most what it asks for, and its count fits an int. */
  ghost predicate Brings(len: nat, amounts: seq<nat>) {
    if amounts == [] then len == 0
    else
      && 0 < amounts[0] <= len && amounts[0] <= Asked(len) && amounts[0] < TWO31
      && Brings(len - amounts[0], amounts[1..])
  }

  ghost predicate CanBring(len: nat) { exists amounts :: Brings(len, amounts) }

  /** Receives that bring `len` bytes, and never ask for more than is left. */
  ghost predicate Receives(len: nat, amounts: seq<nat>) {
    if amounts == [] then len == 0
    else 0 < amounts[0] <= Asked(len) <= len && Receives(len - amounts[0], amounts[1..])
  }

  ghost predicate CanReceive(len: nat) { exists amounts :: Receives(len, amounts) }

  /** A receive asks for more than is left exactly when the narrowed length is negative. */
  lemma AskedForTooMuchIff(len: ReadSize)
    ensures Asked(len) > len <==> TWO31 <= len % TWO32
  {
  }

  /** From 2^32 bytes on, however much each receive brings, they never bring all: what is left stays above
      the next multiple of 2^32, and at the multiple the code asks for nothing. */
  lemma {:induction false} LongReceiveNeverEnds(len: nat, amounts: seq<nat>)
    requires TWO32 <= len
    ensures !Brings(len, amounts)
    decreases |amounts|
  {
    if amounts != [] && 0 < amounts[0] <= len && amounts[0] <= Asked(len) && amounts[0] < TWO31 {
      var n := amounts[0];
      assert TWO32 <= len - n;
      LongReceiveNeverEnds(len - n, amounts[1..]);
    }
  }

  /** Below 2^32 bytes some receives bring all, even where the first one asks for too much. */
  lemma BringsAllIff(len: nat)
    ensures CanBring(len) <==> len < TWO32
  {
    if len < TWO32 {
      var amounts := SomeReceives(len);
      assert Brings(len, amounts);
    } else {
      forall amounts: seq<nat>
        ensures !Brings(len, amounts)
      {
        LongReceiveNeverEnds(len, amounts);
      }
    }
  }

  lemma SomeReceives(len: nat) returns (amounts: seq<nat>)
    requires len < TWO32
    ensures Brings(len, amounts)
  {
    if len == 0 {
      amounts := [];
    } else {
      var n := Min(len, TWO31 - 1);
      var rest := SomeReceives(len - n);
      amounts := [n] + rest;
      assert amounts[1..] == rest;
    }
  }

  /** Receives that never ask for too much can bring all exactly when there are less than 2^31 bytes. */
  lemma CanReceiveIff(len: ReadSize)
    ensures CanReceive(len) <==> len < TWO31
  {
    if len < TWO31 {
      CanReceiveShort(len);
    } else {
      forall amounts: seq<nat>
        ensures !Receives(len, amounts)
      {
        AskedForTooMuch(len, amounts);
      }
    }
  }

  lemma CanReceiveShort(len: nat)
    requires len < TWO31
    ensures CanReceive(len)
  {
    var amounts := if len == 0 then [] else [len];
    assert len > 0 ==> amounts[1..] == [] && Receives(0, []);
    assert Receives(len, amounts);
  }

  lemma {:induction false} AskedForTooMuch(len: ReadSize, amounts: seq<nat>)
    requires TWO31 <= len
    ensures !Receives(len, amounts)
    decreases |amounts|
  {
    if amounts != [] && 0 < amounts[0] <= Asked(len) <= len {
      AskedForTooMuchIff(len);
      assert TWO32 <= len - amounts[0];
      AskedForTooMuch(len - amounts[0], amounts[1..]);
    }
  }

  // ---------------------------------------------------------------------------------------------
  // One read
  // ---------------------------------------------------------------------------------------------

  /** The narrowing of the count is harmless for k bytes past the buffer exactly when k modulo 2^32 is
      at most 2^31: then the int is not positive. */
  lemma NarrowedCount(k: int)
    requires 0 <= k
    ensures AsInt32(-k) <= 0 <==> k % TWO32 <= TWO31
  {
    var q := k / TWO32;
    assert -k == TWO32 * (-q - 1) + (TWO32 - k % TWO32);
    ModOf(-k, -q - 1, TWO32 - k % TWO32);
  }

  lemma ModOf(x: int, q: int, r: int)
    requires x == TWO32 * q + r && 0 <= r <= TWO32
    ensures x % TWO32 == if r == TWO32 then 0 else r
  {
  }

  lemma CopiedRightIff(r: Reading, size: nat)
    requires r.dataLen < TWO31
    ensures r.CopiedRight(size) <==> r.Wanted(size) == 0 || r.Past() % TWO32 <= TWO31
    ensures !r.CopiedRight(size) ==> 0 < r.Copied(size) && TWO31 < r.Position()
  {
    if r.Position() > r.dataLen {
      NarrowedCount(r.Past());
      assert r.dataLen + r.Past() == r.Position();
      if TWO31 < r.Past() % TWO32 {
        PastIsLarge(r.Past());
      }
    }
  }

  /** A read of any size is right if and only if it wants nothing, or it wants less than 2^31 bytes and the
      number of bytes read past the buffer, modulo 2^32, is at most 2^31. A read that copies something
      else copies it from beyond the buffer. */
  lemma ReadIsRightIff(r: Reading, size: nat)
    requires r.dataLen < TWO31
    ensures r.Right(size) <==> r.Safe(size)
    ensures !r.CopiedRight(size) ==> 0 < r.Copied(size) && TWO31 < r.Position()
  {
    hide CanReceive;
    CopiedRightIff(r, size);
    if r.Left(size) < TWO31 {
      CanReceiveShort(r.Left(size));
    }
  }

  /** A read of 2^32 bytes with nothing buffered is not begun too far, but asks the socket for nothing. */
  lemma LongReadAsksForNothing()
    ensures var r := Reading(18, 18, 2 * TWO32, 0);
      r.CopiedRight(TWO32) && r.Copied(TWO32) == 0 && Asked(r.Left(TWO32)) == 0 && !r.Right(TWO32)
  {
    ReadIsRightIff(Reading(18, 18, 2 * TWO32, 0), TWO32);
  }

  lemma PastIsLarge(k: nat)
    requires TWO31 < k % TWO32
    ensures TWO31 < k
  {
  }

  // ---------------------------------------------------------------------------------------------
  // Any sequence of reads
  // ---------------------------------------------------------------------------------------------

  /** One read: at least what is buffered is handed out, at most what is wanted. */
  ghost predicate ReadStep(r: Reading, size: nat, s: Reading) {
    && s == r.(consumed := s.consumed)
    && r.consumed + Max(Min(r.Wanted(size), r.dataLen - r.Position()), 0) <= s.consumed <= r.consumed + r.Wanted(size)
  }

  /** The states between reads of the given sizes, from the beginning of a body on. */
  ghost predicate IsReading(rs: seq<Reading>, sizes: seq<ReadSize>) {
    && |rs| == |sizes| + 1
    && rs[0].consumed == 0 && rs[0].requestLen <= rs[0].dataLen < TWO31
    && forall i | 0 <= i < |sizes| :: ReadStep(rs[i], sizes[i], rs[i + 1])
  }

  /** Up to the first read that fails, the position stays below 2^32 bytes past the buffer. */
  lemma {:induction false} PastStaysSmall(rs: seq<Reading>, sizes: seq<ReadSize>, i: nat)
    requires IsReading(rs, sizes) && i <= |sizes|
    requires forall j | 0 <= j < i :: !rs[j].Fails(sizes[j])
    ensures rs[i].Past() < TWO32 && rs[i].dataLen < TWO31
  {
    if i > 0 {
      PastStaysSmall(rs, sizes, i - 1);
      assert ReadStep(rs[i - 1], sizes[i - 1], rs[i]);
    }
  }

  lemma SmallPast(r: Reading, size: nat)
    requires r.Past() < TWO32 && r.dataLen < TWO31
    ensures r.Fails(size) <==> !r.Right(size)
  {
    ReadIsRightIff(r, size);
  }

  lemma {:induction false} RightUpTo(rs: seq<Reading>, sizes: seq<ReadSize>, i: nat)
    requires IsReading(rs, sizes) && i <= |sizes|
    ensures (forall j | 0 <= j < i :: rs[j].Right(sizes[j])) <==> (forall j | 0 <= j < i :: !rs[j].Fails(sizes[j]))
  {
    if i > 0 {
      RightUpTo(rs, sizes, i - 1);
      if forall j | 0 <= j < i - 1 :: !rs[j].Fails(sizes[j]) {
        PastStaysSmall(rs, sizes, i - 1);
        SmallPast(rs[i - 1], sizes[i - 1]);
      }
    }
  }

  /** Whatever is asked for and whatever arrives: the first wrong read of a body is exactly the first
      one that is begun more than 2^31 bytes past the buffer, or wants 2^31 bytes or more. */
  lemma FirstWrongRead(rs: seq<Reading>, sizes: seq<ReadSize>, i: nat)
    requires IsReading(rs, sizes) && i < |sizes|
    ensures (forall j | 0 <= j < i :: rs[j].Right(sizes[j])) && !rs[i].Right(sizes[i])
       <==> (forall j | 0 <= j < i :: !rs[j].Fails(sizes[j])) && rs[i].Fails(sizes[i])
  {
    RightUpTo(rs, sizes, i);
    RightUpTo(rs, sizes, i + 1);
  }

  /** Three reads of a body of 2^32 bytes after a header section that fills what was received. The
      third one is begun one byte too far, and copies a byte from beyond the buffer. */
  lemma ThirdReadIsWrong()
    ensures var r := Reading(18, 18, TWO32, 0);
      var rs := [r, r.(consumed := TWO31 - 1), r.(consumed := TWO31 + 1), r.(consumed := TWO31 + 2)];
      && IsReading(rs, [TWO31 - 1, 2, 1])
      && rs[0].Right(TWO31 - 1) && rs[1].Right(2)
      && !rs[2].Right(1) && rs[2].Copied(1) == 1 && rs[2].Position() == 18 + TWO31 + 1
  {
    var r := Reading(18, 18, TWO32, 0);
    ReadIsRightIff(r, TWO31 - 1);
    ReadIsRightIff(r.(consumed := TWO31 - 1), 2);
    ReadIsRightIff(r.(consumed := TWO31 + 1), 1);
  }
}
