/** How a byte stream is cut into requests on one connection. */
module HttpFraming {
  import opened BodyRead
  import opened HttpMessage
  import opened HttpRequest

  // ---------------------------------------------------------------------------------------------
  // How much is dropped from the buffer after a request
  // ---------------------------------------------------------------------------------------------

  const TWO63 := 0x8000_0000_0000_0000
  const TWO64 := 0x1_0000_0000_0000_0000

  predicate IsInt64(x: int) { -TWO63 <= x < TWO63 }

  function AsInt64(x: int): int {
    var w := x % TWO64;
    if w < TWO63 then w else w - TWO64
  }

  /** The sum is one of 64 bits, which wraps; the result goes through an int. */
  function DiscardLen(requestLen: int, contentLen: int, dataLen: int): int {
    var end := AsInt64(requestLen + contentLen);
    if 0 <= contentLen && end < dataLen then AsInt32(end) else dataLen
  }

  /** Header section and body, or everything if the body goes beyond the buffer or is not known. */
  function IntendedDiscard(requestLen: int, contentLen: int, dataLen: int): int {
    if 0 <= contentLen && requestLen + contentLen < dataLen then requestLen + contentLen else dataLen
  }

  /** What is dropped is what was intended if and only if the sum of the lengths fits 64 bits. If it does
      not, only a part of the header section is dropped: for a body of 2^63 - 1 - k bytes, all but its last
      k + 1 characters. */
  lemma DiscardIsRightIff(requestLen: int, contentLen: int, dataLen: int)
    requires 0 < requestLen <= dataLen < TWO31 && IsInt64(contentLen)
    ensures DiscardLen(requestLen, contentLen, dataLen) == IntendedDiscard(requestLen, contentLen, dataLen)
            <==> requestLen + contentLen < TWO63
    ensures 0 <= DiscardLen(requestLen, contentLen, dataLen) <= dataLen
    ensures TWO63 <= requestLen + contentLen
            ==> DiscardLen(requestLen, contentLen, dataLen) == requestLen + contentLen - TWO63 < requestLen
  {
    var x := requestLen + contentLen;
    if 0 <= contentLen {
      if x < TWO63 {
        assert x % TWO64 == x;
        SmallInt(x);
      } else {
        assert x % TWO64 == x;
        WrappedInt(x - TWO63);
      }
    }
  }

  lemma SmallInt(x: int)
    ensures 0 <= x < TWO31 ==> AsInt32(x) == x
  {
  }

  /** The low 32 bits of a wrapped sum. */
  lemma WrappedInt(d: int)
    requires 0 <= d < TWO31
    ensures AsInt32(d - TWO63) == d
  {
    assert d - TWO63 == TWO32 * -0x8000_0000 + d;
    ModOf(d - TWO63, -0x8000_0000, d);
  }

  // ---------------------------------------------------------------------------------------------
  // What is served on a connection
  // ---------------------------------------------------------------------------------------------

  /** A served request: where it began in the stream, how long its header section was, the value of
      content_len while it was served, how much had been received, and how much of the body the
      handler read. */
  datatype Served = Served(
    start: nat, requestLen: nat, head: Head, contentLen: int, dataLen: nat, consumed: nat, body: seq<char>)
  {
    /** As many bytes as content_len says were in the buffer, or were read. */
    ghost predicate BodyTaken() { requestLen + contentLen <= dataLen || consumed == contentLen }

    /** The position after the header section and as many bytes as content_len says. For a valid request
        that is the end of the body it declares; for one that is answered 505 content_len is stale. */
    ghost function End(): int { start + requestLen + contentLen }

    /** The position after the header section and the body that the request itself declares. */
    ghost function DeclaredEnd(number: string -> int): int { start + requestLen + DeclaredLength(head, number) }

    /** The sum of the lengths does not fit 64 bits. */
    predicate Overflows() { TWO63 <= requestLen + contentLen }

    /** Where the next request is looked for: in the buffer, or at what has not been received yet. */
    ghost function Next(): int {
      var d := DiscardLen(requestLen, contentLen, dataLen);
      if d < dataLen then start + d else start + Max(dataLen, requestLen + consumed)
    }
  }

  /** What the stream says about a served request. Only a valid request is handed to a handler. */
  ghost predicate IsRequest(stream: seq<char>, number: string -> int, s: Served) {
    && 0 < s.requestLen <= s.dataLen < TWO31 && IsInt64(s.contentLen) && s.start + s.requestLen + |s.body| <= |stream|
    && |s.body| <= s.consumed <= Max(s.contentLen, 0)
    && RequestLen(stream[s.start..], |stream| - s.start) == s.requestLen
    && s.head == ParseHead(stream[s.start..s.start + s.requestLen - 1])
    && (VerdictOf(s.head) == Valid ==> s.contentLen == DeclaredLength(s.head, number))
    && (VerdictOf(s.head) != Valid ==> s.consumed == 0)
    && s.body == stream[s.start + s.requestLen..s.start + s.requestLen + |s.body|]
  }

  /** Another request may come after a served one, and is looked for at position `next`. Where the sum of
      the lengths overflows, the promise ends: the code then looks for it inside the header section, which
      has been cut up meanwhile. */
  ghost predicate Follows(s: Served, next: nat) {
    && VerdictOf(s.head) != Bad && WantsKeepAlive(s.head) && 0 <= s.contentLen
    && !s.Overflows() && s.start < next == s.Next()
  }

  /** A request that is not handed to a handler keeps the content_len of the one before it: the field
      is not reset. */
  ghost predicate Continues(s: Served, t: Served) {
    Follows(s, t.start) && (VerdictOf(t.head) != Valid ==> t.contentLen == s.contentLen)
  }

  ghost predicate Framed(stream: seq<char>, number: string -> int, served: seq<Served>) {
    && (forall i | 0 <= i < |served| :: IsRequest(stream, number, served[i]))
    && (forall i | 0 < i < |served| :: Continues(served[i - 1], served[i]))
  }

  /** `initial` is the content_len that an earlier connection left behind. */
  ghost predicate BeginsWith(served: seq<Served>, initial: int) {
    served != [] && VerdictOf(served[0].head) != Valid ==> served[0].contentLen == initial
  }

  /** Whenever another request is served, the client asked for it with the one before: its first Connection
      field says keep-alive, up to case, or it has none, and its version is 1.1. */
  lemma KeptOnlyIfAsked(stream: seq<char>, number: string -> int, served: seq<Served>, i: nat)
    requires i + 1 < |served|
    ensures Framed(stream, number, served) ==>
              var h := served[i].head;
              && (forall k: nat | IsFirst(h.fields, "Connection", k) ::
                    SameIgnoringCase("keep-alive", h.fields[k].value))
              && (IsAbsent(h.fields, "Connection") ==> h.httpVersion == "HTTP/1.1")
  {
    hide IsRequest, VerdictOf, WantsKeepAlive, SameIgnoringCase, IsAbsent;
    if Framed(stream, number, served) {
      assert Continues(served[i], served[i + 1]);
      var h := served[i].head;
      WantsKeepAliveIff(h);
      AskedByFirst(h);
    }
  }

  lemma AskedByFirst(h: Head)
    requires AsksToKeep(h)
    ensures forall k: nat | IsFirst(h.fields, "Connection", k) :: SameIgnoringCase("keep-alive", h.fields[k].value)
    ensures IsAbsent(h.fields, "Connection") ==> h.httpVersion == "HTTP/1.1"
  {
    hide SameIgnoringCase;
  }

  /** The next request is looked for right after as many bytes as content_len says exactly when the sum
      of the lengths fits 64 bits, and that many bytes were buffered or read. */
  lemma NextIsEndIff(s: Served)
    requires 0 <= s.contentLen && IsInt64(s.contentLen) && s.consumed <= s.contentLen
    requires 0 < s.requestLen <= s.dataLen < TWO31
    ensures s.Next() == s.End() <==> !s.Overflows() && s.BodyTaken()
  {
    hide DiscardLen;
    DiscardIsRightIff(s.requestLen, s.contentLen, s.dataLen);
  }

  // ---------------------------------------------------------------------------------------------
  // The stream decides
  // ---------------------------------------------------------------------------------------------

  ghost predicate SameFrame(s: Served, t: Served) {
    && s.start == t.start && s.requestLen == t.requestLen && s.head == t.head && s.contentLen == t.contentLen
    && (s.body <= t.body || t.body <= s.body)
  }

  lemma SamePlace(stream: seq<char>, number: string -> int, s: Served, t: Served)
    ensures IsRequest(stream, number, s) && IsRequest(stream, number, t) && s.start == t.start
            && (VerdictOf(s.head) != Valid ==> s.contentLen == t.contentLen)
            ==> SameFrame(s, t)
  {
    hide RequestLen, ParseHead, VerdictOf, DeclaredLength;
    if IsRequest(stream, number, s) && IsRequest(stream, number, t) && s.start == t.start {
      SlicesAgree(stream, s.start + s.requestLen, s.body, t.body);
    }
  }

  /** Two slices from the same position agree as far as both go. */
  lemma SlicesAgree(stream: seq<char>, b: nat, x: seq<char>, y: seq<char>)
    requires b + |x| <= |stream| && b + |y| <= |stream|
    requires x == stream[b..b + |x|] && y == stream[b..b + |y|]
    ensures x <= y || y <= x
  {
    if |x| <= |y| {
      assert x == y[..|x|];
    } else {
      assert y == x[..|y|];
    }
  }

  /** Two connections that serve the same stream from the same place on, and that have taken every body
      before their i-th request. */
  ghost predicate TakenAlike(stream: seq<char>, number: string -> int, xs: seq<Served>, ys: seq<Served>, i: nat)
    requires i < |xs| && i < |ys|
  {
    && Framed(stream, number, xs) && Framed(stream, number, ys)
    && xs[0].start == ys[0].start
    && (VerdictOf(xs[0].head) != Valid ==> xs[0].contentLen == ys[0].contentLen)
    && forall k | 0 <= k < i :: xs[k].BodyTaken() && ys[k].BodyTaken()
  }

  /** The stream alone decides how it is cut into requests. Two connections that receive the same
      stream in different pieces, and whose handlers read in different portions, serve the same
      requests at the same places for as long as every body is taken: same header sections, same
      values of content_len, and bodies that agree as far as both are read. */
  lemma {:induction false} FramingIsDetermined(
      stream: seq<char>, number: string -> int, xs: seq<Served>, ys: seq<Served>, i: nat)
    requires i < |xs| && i < |ys|
    ensures TakenAlike(stream, number, xs, ys, i) ==> SameFrame(xs[i], ys[i])
  {
    hide IsRequest, VerdictOf, WantsKeepAlive, Follows;
    if TakenAlike(stream, number, xs, ys, i) {
      if i > 0 {
        FramingIsDetermined(stream, number, xs, ys, i - 1);
        assert Continues(xs[i - 1], xs[i]) && Continues(ys[i - 1], ys[i]);
        TakenIsAtEnd(stream, number, xs[i - 1], xs[i].start);
        TakenIsAtEnd(stream, number, ys[i - 1], ys[i].start);
        SameVerdict(stream, number, xs[i], ys[i]);
      }
      SamePlace(stream, number, xs[i], ys[i]);
    }
  }

  lemma TakenIsAtEnd(stream: seq<char>, number: string -> int, s: Served, next: nat)
    ensures IsRequest(stream, number, s) && Follows(s, next) ==> (next == s.End() <==> s.BodyTaken())
  {
    hide RequestLen, ParseHead, VerdictOf, DeclaredLength, WantsKeepAlive, DiscardLen;
    if IsRequest(stream, number, s) && Follows(s, next) {
      NextIsEndIff(s);
    }
  }

  lemma SameVerdict(stream: seq<char>, number: string -> int, s: Served, t: Served)
    ensures IsRequest(stream, number, s) && IsRequest(stream, number, t) && s.start == t.start ==> s.head == t.head
  {
    hide RequestLen, ParseHead, VerdictOf, DeclaredLength;
  }

  // ---------------------------------------------------------------------------------------------
  // The value of content_len that is not reset
  // ---------------------------------------------------------------------------------------------

  /** The length that the last valid request up to the i-th declared, or the initial value. */
  ghost function Inherited(served: seq<Served>, i: nat, initial: int, number: string -> int): int
    requires i < |served|
  {
    if VerdictOf(served[i].head) == Valid then DeclaredLength(served[i].head, number)
    else if i == 0 then initial
    else Inherited(served, i - 1, initial, number)
  }

  ghost predicate FramedFrom(stream: seq<char>, number: string -> int, served: seq<Served>, initial: int) {
    Framed(stream, number, served) && BeginsWith(served, initial)
  }

  lemma {:induction false} LengthIsInherited(
      stream: seq<char>, number: string -> int, served: seq<Served>, initial: int, i: nat)
    requires i < |served|
    ensures FramedFrom(stream, number, served, initial)
            ==> served[i].contentLen == Inherited(served, i, initial, number)
  {
    hide RequestLen, ParseHead, VerdictOf, DeclaredLength, Follows;
    if FramedFrom(stream, number, served, initial) {
      assert IsRequest(stream, number, served[i]);
      if i > 0 {
        assert Continues(served[i - 1], served[i]);
        LengthIsInherited(stream, number, served, initial, i - 1);
      }
    }
  }

  /** The exact condition for the next request to be looked for right after the body that a request
      declares. For a valid request: the sum of the lengths fits 64 bits, and the body was buffered or read
      to its end. For one answered 505: the inherited length is the declared one if it lies within the
      received data, and else the received data end with the declared body; if the sum overflows, what is
      left of it after wrapping is the declared length. */
  ghost predicate CutRight(s: Served, inherited: int, number: string -> int) {
    var declared := DeclaredLength(s.head, number);
    if VerdictOf(s.head) == Valid then s.requestLen + declared < TWO63 && s.BodyTaken()
    else if TWO63 <= s.requestLen + inherited then inherited - TWO63 == declared
    else if s.requestLen + inherited <= s.dataLen || inherited == 0 then inherited == declared
    else s.dataLen == s.requestLen + declared
  }

  lemma CutRightAt(stream: seq<char>, number: string -> int, s: Served)
    ensures IsRequest(stream, number, s) && 0 <= s.contentLen
            ==> (s.Next() == s.DeclaredEnd(number) <==> CutRight(s, s.contentLen, number))
  {
    hide RequestLen, ParseHead, VerdictOf, DeclaredLength, DiscardLen;
    if IsRequest(stream, number, s) && 0 <= s.contentLen {
      NextIsEndIff(s);
      DiscardIsRightIff(s.requestLen, s.contentLen, s.dataLen);
    }
  }

  /** Over whole connections: where the next request is looked for after the i-th, and whether that is
      right; with an unknown body length there is no next request. */
  lemma NextIsDeclaredEndIff(stream: seq<char>, number: string -> int, served: seq<Served>, initial: int, i: nat)
    requires i < |served|
    ensures FramedFrom(stream, number, served, initial) && 0 <= Inherited(served, i, initial, number) ==>
              var s, inherited := served[i], Inherited(served, i, initial, number);
              && (i + 1 < |served| ==> served[i + 1].start == s.Next())
              && (s.Next() == s.start + s.requestLen + inherited
                  <==> s.requestLen + inherited < TWO63 && s.BodyTaken())
              && (s.Next() == s.DeclaredEnd(number) <==> CutRight(s, inherited, number))
  {
    hide VerdictOf, DeclaredLength, Inherited, CutRight, RequestLen, ParseHead, DiscardLen;
    if FramedFrom(stream, number, served, initial) {
      LengthIsInherited(stream, number, served, initial, i);
      var s := served[i];
      assert IsRequest(stream, number, s);
      if i + 1 < |served| {
        assert Continues(s, served[i + 1]);
      }
      if 0 <= s.contentLen {
        NextIsEndIff(s);
        CutRightAt(stream, number, s);
      }
    }
  }
}
