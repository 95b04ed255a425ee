/** A server connection: reading requests from a byte stream that arrives in arbitrary pieces, handing
    out request bodies, and moving on to the next request on the same connection. */
module HttpConnection {
  import opened BodyRead
  import opened HttpFraming
  import opened HttpMessage
  import opened HttpRequest
  import opened Tokenizer

  /** All that a handler asks for. */
  function Sum(sizes: seq<ReadSize>): nat {
    if sizes == [] then 0 else Sum(sizes[..|sizes| - 1]) + sizes[|sizes| - 1]
  }

  lemma JoinSlices(s: seq<char>, a: nat, b: nat, c: nat)
    requires a <= b <= c <= |s|
    ensures s[a..b] + s[b..c] == s[a..c]
  {
  }

  class Connection {
    const stream: seq<char>        // everything the peer ever sends
    const buf: array<char>         // receive buffer
    const number: string -> int    // what strtoll makes of a header value
    var pulled: nat                // how much of the stream has been received
    var stopFlag: bool             // the server is stopping
    var requestLen: int
    var dataLen: nat
    var contentLen: int
    var consumedContent: nat
    var mustClose: bool
    var statusCode: int
    ghost var start: nat           // where in the stream the buffer begins
    ghost var received: int        // what the last receive returned
    ghost var cutShort: bool       // some receive during this request found the end, or an error

    /** From position `from` on, the buffer is a copy of the stream. */
    ghost predicate Copies(from: nat)
      reads this, buf
    {
      && dataLen <= buf.Length && start + dataLen <= pulled <= |stream|
      && forall k | from <= k < dataLen :: buf[k] == stream[start + k]
    }

    /** Between requests. */
    ghost predicate Idle()
      reads this, buf
    {
      Copies(0) && (stopFlag || pulled == start + dataLen)
    }

    /** While a request is being handled. */
    ghost predicate Busy()
      reads this, buf
    {
      && 0 < requestLen <= dataLen && Copies(requestLen)
      && (stopFlag || pulled == start + Max(dataLen, requestLen + consumedContent))
      && start + requestLen + consumedContent <= |stream|
      && consumedContent <= Max(contentLen, 0)
    }

    /** The state of reading the body. */
    function Now(): Reading
      reads this
      requires 0 <= requestLen
    {
      Reading(requestLen, dataLen, contentLen, consumedContent)
    }

    /** What strtoll returns fits 64 bits. */
    ghost predicate NumbersFit() {
      forall w: string :: IsInt64(number(w))
    }

    constructor (stream: seq<char>, bufSize: nat, number: string -> int)
      ensures this.stream == stream && this.number == number && buf.Length == bufSize && fresh(buf)
      ensures pulled == 0 && !stopFlag
    {
      this.stream, this.number := stream, number;
      buf := new char[bufSize](_ => NUL);
      pulled, stopFlag, requestLen, dataLen, contentLen, consumedContent := 0, false, 0, 0, 0, 0;
      mustClose, statusCode := false, -1;
      start, cutShort := 0, false;
    }

    /** Receives up to `len` bytes into `dst`. How many arrive, whether the peer has closed (0), whether
        there is an error (negative), and whether the server is told to stop meanwhile, is not up to
        us. When it is stopping, bytes that did arrive are reported as an error. */
    method Pull(dst: array<char>, off: nat, len: nat) returns (n: int)
      requires off + len <= dst.Length && pulled <= |stream|
      modifies dst, this`pulled, this`stopFlag, this`received, this`cutShort
      ensures -1 <= n <= len && received == n && cutShort == (old(cutShort) || n <= 0)
      ensures old(stopFlag) ==> stopFlag
      ensures old(pulled) <= pulled <= |stream|
      ensures 0 <= n ==> !stopFlag
      ensures !stopFlag ==> pulled == old(pulled) + Max(n, 0)
      ensures 0 <= n ==> forall j | off <= j < off + n :: dst[j] == stream[j - off + old(pulled)]
      ensures forall k | 0 <= k < dst.Length && !(off <= k < off + len) :: dst[k] == old(dst[k])
    {
      var k: nat :| k <= len && k <= |stream| - pulled;
      var failed: bool := *;
      var stopping: bool := *;
      stopFlag := stopFlag || stopping;
      if failed && !stopFlag {
        received, cutShort := -1, true;
        return -1;
      }
      forall j | off <= j < off + k {
        dst[j] := stream[j - off + pulled];
      }
      pulled := pulled + k;
      n := if stopFlag then -1 else k;
      received, cutShort := n, cutShort || n <= 0;
    }

    /** Reads until the header section of a request is complete in the buffer. */
    method ReadRequest() returns (len: int)
      requires Idle()
      modifies buf, this`pulled, this`stopFlag, this`received, this`cutShort, this`dataLen
      ensures Idle() && old(dataLen) <= dataLen && old(pulled) <= pulled
      ensures old(stopFlag) ==> stopFlag
      ensures len > 0 ==> len <= dataLen && len == RequestLen(buf[..], dataLen)
      ensures len > 0 ==> forall m: nat | dataLen <= m <= |stream| - start :: RequestLen(stream[start..], m) == len
      ensures len == 0 ==> RequestLen(stream[start..], dataLen) == 0 && (dataLen == buf.Length || received == 0)
      ensures len < 0 ==> received < 0 || RequestLen(stream[start..], dataLen) < 0
    {
      var n := 1;
      len := GetRequestLen(buf, dataLen);
      while dataLen < buf.Length && len == 0 && n > 0
        invariant Idle() && old(dataLen) <= dataLen && old(pulled) <= pulled
        invariant old(stopFlag) ==> stopFlag
        invariant len == RequestLen(buf[..], dataLen)
        invariant n <= 0 ==> received == n
        decreases buf.Length - dataLen, n
      {
        ghost var before := buf[..];
        n := Pull(buf, dataLen, buf.Length - dataLen);
        RequestLenOfPrefix(before, buf[..], dataLen);
        if n > 0 {
          dataLen := dataLen + n;
          len := GetRequestLen(buf, dataLen);
        }
      }
      SameAnswerInStream(len);
      if n < 0 {
        len := -1;
      }
    }

    static lemma RequestLenOfPrefix(t: seq<char>, u: seq<char>, n: nat)
      requires n <= |t| && n <= |u| && forall k | 0 <= k < n :: t[k] == u[k]
      ensures RequestLen(t, n) == RequestLen(u, n)
    {
      if RequestLen(t, n) != 0 {
        RequestLenStable(t, n, u, n);
      } else if RequestLen(u, n) != 0 {
        RequestLenStable(u, n, t, n);
      }
    }

    /** The answer for the buffered prefix is the answer for the stream, however much of it is seen. */
    lemma SameAnswerInStream(len: int)
      requires Copies(0) && len == RequestLen(buf[..], dataLen)
      ensures len != 0 ==> forall m: nat | dataLen <= m <= |stream| - start :: RequestLen(stream[start..], m) == len
      ensures len == 0 ==> RequestLen(stream[start..], dataLen) == 0
      ensures len <= dataLen
    {
      if len != 0 {
        RequestLenStable(buf[..], dataLen, buf[..], dataLen);
      }
      if len != 0 {
        forall m: nat | dataLen <= m <= |stream| - start
          ensures RequestLen(stream[start..], m) == len
        {
          RequestLenStable(buf[..], dataLen, stream[start..], m);
        }
      } else {
        RequestLenOfPrefix(buf[..], stream[start..], dataLen);
      }
    }

    /** Hands out what is left of the body in the buffer, up to `len` bytes. */
    method CopyBuffered(dst: array<char>, len: nat) returns (n: nat)
      requires Busy() && dst != buf && len <= dst.Length && dataLen < TWO31
      requires len == Now().Wanted(len) && Now().Safe(len)
      modifies dst, this`consumedContent
      ensures Busy() && consumedContent == old(consumedContent) + n
      ensures n == old(Now().Copied(len)) == Max(Min(len, dataLen - requestLen - old(consumedContent)), 0)
      ensures forall k | 0 <= k < n :: dst[k] == stream[start + requestLen + old(consumedContent) + k]
    {
      ReadIsRightIff(Now(), len);
      n := 0;
      var body := requestLen + consumedContent;
      var bufferedLen := AsInt32(dataLen - body);
      hide AsInt32;
      if bufferedLen > 0 {
        if len < bufferedLen {
          bufferedLen := len;
        }
        forall i | 0 <= i < bufferedLen {
          dst[i] := buf[body + i];
        }
        consumedContent := consumedContent + bufferedLen;
        n := bufferedLen;
      }
    }

    /** Fills `dst` from the socket, from `off0` to `end`, after the buffer has been used up. */
    method PullRest(dst: array<char>, off0: nat, end: nat) returns (nread: int)
      requires Busy() && dst != buf && off0 <= end <= dst.Length && end - off0 <= Max(contentLen - consumedContent, 0)
      requires end < TWO31 && (off0 < end ==> dataLen <= requestLen + consumedContent)
      modifies dst, this`pulled, this`stopFlag, this`received, this`cutShort, this`consumedContent
      ensures Busy() && (old(stopFlag) ==> stopFlag) && old(pulled) <= pulled
      ensures old(consumedContent) <= consumedContent <= old(consumedContent) + end - off0
      ensures nread <= end && (old(cutShort) ==> cutShort)
      ensures 0 <= nread ==> off0 <= nread && consumedContent == old(consumedContent) + nread - off0
      ensures forall k | 0 <= k < off0 :: dst[k] == old(dst[k])
      ensures 0 <= nread ==>
                forall k | off0 <= k < nread :: dst[k] == stream[start + requestLen + old(consumedContent) + k - off0]
      ensures nread < 0 ==> received < 0
      ensures 0 <= nread < end ==> received == 0
      ensures nread < end ==> cutShort
    {
      hide AsInt32;
      nread := off0;
      ghost var base := start + requestLen + consumedContent - off0;
      while nread < end
        invariant off0 <= nread <= end && consumedContent == old(consumedContent) + nread - off0
        invariant Busy() && (old(stopFlag) ==> stopFlag) && old(pulled) <= pulled && (old(cutShort) ==> cutShort)
        invariant nread < end ==> dataLen <= requestLen + consumedContent
        invariant forall k | 0 <= k < off0 :: dst[k] == old(dst[k])
        invariant forall k | off0 <= k < nread :: dst[k] == stream[base + k]
      {
        SmallInt(end - nread);
        var n := Pull(dst, nread, AsInt32(end - nread));
        if n < 0 {
          return n;
        } else if n == 0 {
          break;
        } else {
          consumedContent := consumedContent + n;
          nread := nread + n;
        }
      }
    }

    /** Reads part of the body: first what is buffered, then from the socket. By ReadIsRightIff, only
        reads that are safe are right. */
    method Read(dst: array<char>, size: ReadSize) returns (nread: int)
      requires Busy() && dst != buf && size <= dst.Length && dataLen < TWO31 && Now().Safe(size)
      modifies dst, this`pulled, this`stopFlag, this`received, this`cutShort, this`consumedContent
      ensures Busy() && (old(stopFlag) ==> stopFlag) && old(pulled) <= pulled
      ensures ReadStep(old(Now()), size, Now())
      ensures 0 <= nread ==> consumedContent == old(consumedContent) + nread
      ensures var wanted := old(Now().Wanted(size));
        && nread <= wanted && (old(cutShort) ==> cutShort)
        && (nread < wanted ==> cutShort)
        && (0 <= nread < wanted ==> received == 0)
        && (nread < 0 ==> received < 0)
      ensures 0 <= nread ==>
                forall k | 0 <= k < nread :: dst[k] == stream[start + requestLen + old(consumedContent) + k]
    {
      nread := 0;
      if consumedContent < contentLen {
        var len := size;
        var toRead := contentLen - consumedContent;
        if toRead < len {
          len := toRead;
        }
        var n := CopyBuffered(dst, len);
        nread := PullRest(dst, n, len);
      }
    }

    /** The part of the body from position `from` on. */
    ghost function BodyPart(from: nat, n: nat): seq<char>
      reads this
      requires 0 <= requestLen && start + requestLen + from + n <= |stream|
    {
      stream[start + requestLen + from..start + requestLen + from + n]
    }

    /** One read into memory of the handler's own. */
    method ReadPart(size: ReadSize) returns (ok: bool, part: seq<char>)
      requires Busy() && dataLen < TWO31 && Now().Safe(size)
      modifies this`pulled, this`stopFlag, this`received, this`cutShort, this`consumedContent
      ensures Busy() && (old(stopFlag) ==> stopFlag) && old(pulled) <= pulled
      ensures ReadStep(old(Now()), size, Now()) && (old(cutShort) ==> cutShort)
      ensures if ok then
                consumedContent == old(consumedContent) + |part| && part == BodyPart(old(consumedContent), |part|)
              else received < 0 && cutShort
      ensures ok && |part| < old(Now().Wanted(size)) ==> cutShort
    {
      var dst := new char[size];
      var n := Read(dst, size);
      ok := n >= 0;
      part := if ok then dst[..n] else [];
    }

    /** After `i` reads of a handler: the states between them, none of which fails, and the body so far. */
    ghost predicate HandedOut(body: seq<char>, rs: seq<Reading>, sizes: seq<ReadSize>, i: nat)
      reads this
    {
      && i <= |sizes| && |rs| == i + 1 && 0 <= requestLen
      && IsReading(rs, sizes[..i]) && rs[i] == Now()
      && (forall j | 0 <= j < i :: !rs[j].Fails(sizes[j]))
      && |body| == consumedContent && start + requestLen + |body| <= |stream| && body == BodyPart(0, |body|)
      && (!cutShort ==> |body| == Min(Sum(sizes[..i]), Max(contentLen, 0)))
    }

    /** One read of a handler. */
    method ReadNext(sizes: seq<ReadSize>, i: nat, body0: seq<char>, ghost rs0: seq<Reading>)
        returns (ok: bool, body: seq<char>, ghost rs: seq<Reading>)
      requires Busy() && dataLen < TWO31 && i < |sizes| && HandedOut(body0, rs0, sizes, i) && !Now().Fails(sizes[i])
      modifies this`pulled, this`stopFlag, this`received, this`cutShort, this`consumedContent
      ensures Busy() && (old(stopFlag) ==> stopFlag) && old(pulled) <= pulled
      ensures ok ==> HandedOut(body, rs, sizes, i + 1)
      ensures !ok ==> body == body0 && |body| <= consumedContent && received < 0 && cutShort
      ensures rs == rs0 + [Now()] && IsReading(rs, sizes[..i + 1])
    {
      hide IsReading, Busy;
      BusyStays();
      ReadIsSafe(rs0, sizes, i);
      var part;
      ok, part := ReadPart(sizes[i]);
      rs := OneMoreRead(rs0, sizes, i, Now());
      body := body0;
      BusyStays();
      if ok {
        JoinSlices(stream, start + requestLen, start + requestLen + |body|, start + requestLen + |body| + |part|);
        body := body + part;
      }
    }

    lemma BusyStays()
      requires Busy()
      ensures start + requestLen + consumedContent <= |stream| && consumedContent <= Max(contentLen, 0)
      ensures 0 < requestLen
    {
    }

    /** A read that does not fail, after reads that did not, is safe. */
    lemma ReadIsSafe(rs: seq<Reading>, sizes: seq<ReadSize>, i: nat)
      requires 0 <= requestLen && i < |sizes| && |rs| == i + 1 && rs[i] == Now() && IsReading(rs, sizes[..i])
      requires !rs[i].Fails(sizes[i]) && forall j | 0 <= j < i :: !rs[j].Fails(sizes[j])
      ensures Now().Safe(sizes[i])
    {
      PastStaysSmall(rs, sizes[..i], i);
      SmallPast(Now(), sizes[i]);
      ReadIsRightIff(Now(), sizes[i]);
    }

    /** A request handler reads the body with any sequence of read sizes, and gives up on an error, or at
        the first read that would be begun more than 2^31 bytes past the buffer or wants 2^31 bytes or more:
        from there on the code would not read the body any more (FirstWrongRead). What it gets, altogether,
        is the body from its beginning, and all that it asked for unless the peer stopped sending. */
    method Handle(sizes: seq<ReadSize>) returns (body: seq<char>, ghost rs: seq<Reading>)
      requires Busy() && consumedContent == 0 && dataLen < TWO31
      modifies this`pulled, this`stopFlag, this`received, this`cutShort, this`consumedContent
      ensures Busy() && (old(stopFlag) ==> stopFlag) && old(pulled) <= pulled
      ensures |body| <= consumedContent && body == BodyPart(0, |body|)
      ensures 1 <= |rs| <= |sizes| + 1 && IsReading(rs, sizes[..|rs| - 1])
      ensures rs[0] == old(Now()) && rs[|rs| - 1] == Now()
      ensures forall j | 0 <= j < |rs| - 1 :: !rs[j].Fails(sizes[j])
      ensures |rs| - 1 < |sizes| ==> received < 0 || Now().Fails(sizes[|rs| - 1])
      ensures !cutShort ==> |body| == Min(Sum(sizes[..|rs| - 1]), Max(contentLen, 0))
    {
      hide IsReading, Busy;
      BusyStays();
      body, rs := [], [Now()];
      NothingRead(sizes);
      var i := 0;
      while i < |sizes|
        invariant Busy() && (old(stopFlag) ==> stopFlag) && old(pulled) <= pulled
        invariant HandedOut(body, rs, sizes, i) && rs[0] == old(Now())
      {
        if Now().Fails(sizes[i]) {
          break;
        }
        var ok;
        ok, body, rs := ReadNext(sizes, i, body, rs);
        BusyStays();
        if !ok {
          break;
        }
        i := i + 1;
      }
    }

    lemma NothingRead(sizes: seq<ReadSize>)
      requires Busy() && consumedContent == 0 && dataLen < TWO31
      ensures IsReading([Now()], sizes[..0]) && Sum(sizes[..0]) == 0
    {
    }

    /** The states of reading, after one more read. */
    static lemma OneMoreRead(rs: seq<Reading>, sizes: seq<ReadSize>, i: nat, now: Reading) returns (rs': seq<Reading>)
      requires i < |sizes| && |rs| == i + 1 && IsReading(rs, sizes[..i]) && ReadStep(rs[i], sizes[i], now)
      ensures rs' == rs + [now] && IsReading(rs', sizes[..i + 1])
      ensures Sum(sizes[..i + 1]) == Sum(sizes[..i]) + sizes[i]
    {
      hide ReadStep;
      rs' := rs + [now];
      assert sizes[..i + 1][..i] == sizes[..i];
      forall j | 0 <= j < i + 1
        ensures ReadStep(rs'[j], sizes[..i + 1][j], rs'[j + 1])
      {
        if j < i {
          assert ReadStep(rs[j], sizes[..i][j], rs[j + 1]);
        }
      }
    }

    /** Drops the header section and as many bytes as content_len says from the front of the buffer; if
        that goes beyond the buffer, everything is dropped. By DiscardIsRightIff, only a part of the header
        section is dropped when the sum of the lengths does not fit 64 bits. */
    method Discard()
      requires Busy() && dataLen < TWO31 && IsInt64(contentLen)
      modifies buf, this`dataLen, this`start
      ensures var d := DiscardLen(requestLen, contentLen, old(dataLen));
        && 0 <= d <= old(dataLen) && dataLen == old(dataLen) - d
        && start == (if d < old(dataLen) then old(start) + d else pulled)
        && forall k | 0 <= k < dataLen :: buf[k] == old(buf[k + d])
      ensures requestLen + contentLen < TWO63 ==> Idle()
    {
      DiscardIsRightIff(requestLen, contentLen, dataLen);
      var end := AsInt64(requestLen + contentLen);
      var discardLen := dataLen;
      if contentLen >= 0 && end < dataLen {
        discardLen := AsInt32(end);
      }
      hide AsInt64, AsInt32, DiscardLen;
      MemMove(buf, 0, discardLen, dataLen - discardLen);
      start := if discardLen < dataLen then start + discardLen else pulled;
      dataLen := dataLen - discardLen;
    }

    /** Parses the buffered request. The scan covers the whole buffer, with whatever an earlier request
        left behind the received data, and still ends at the same place; the body is not touched. */
    method ParseBuffered(ri: RequestInfo) returns (verdict: Verdict, ghost h: Head)
      requires Busy() && Copies(0) && requestLen == RequestLen(buf[..], dataLen)
      modifies buf, ri
      ensures Busy() && h == ParseHead(stream[start..start + requestLen - 1]) && verdict == VerdictOf(h)
      ensures ShowsRequest(buf, ri, h) && NulFree(h)
    {
      hide RequestLen, ParseHead, StringAt, ShowsFields, IsMethod, IsUri, IsHttp;
      RequestLenStable(buf[..], dataLen, buf[..], buf.Length);
      h := ParseHead(buf[..requestLen - 1]);
      assert buf[..requestLen - 1] == stream[start..start + requestLen - 1];
      var result := ParseHttpRequest(buf, buf.Length, ri);
      if result <= 0 {
        return Bad, h;
      }
      verdict := CheckVersion(ri, h);
    }

    /** The checks after those on method and protocol. */
    method CheckVersion(ri: RequestInfo, ghost h: Head) returns (verdict: Verdict)
      requires ShowsRequest(buf, ri, h) && NulFree(h) && IsMethod(h.requestMethod) && IsHttp(h.httpVersion)
      ensures verdict == VerdictOf(h)
    {
      hide StringAt, ShowsFields, IsMethod, IsUri;
      var valid := IsValidUri(buf, ri.uri, h.uri);
      if !valid {
        return Bad;
      }
      TailIsNulFree(h.httpVersion, 5);
      var v10 := StrIs(buf, ri.httpVersion, "1.0", h.httpVersion[5..]);
      var v11 := StrIs(buf, ri.httpVersion, "1.1", h.httpVersion[5..]);
      verdict := if !v10 && !v11 then StrangeVersion else Valid;
    }

    /** Answers the buffered request; the handler of a valid one reads its body, and is free to decide
        on the status and on closing the connection. */
    method ServeRequest(ri: RequestInfo, sizes: seq<ReadSize>) returns (body: seq<char>, ghost h: Head)
      requires Busy() && Copies(0) && consumedContent == 0 && requestLen == RequestLen(buf[..], dataLen)
      requires buf.Length < TWO31 && IsInt64(contentLen) && NumbersFit()
      modifies buf, ri, this`pulled, this`stopFlag, this`received, this`cutShort, this`consumedContent, this`contentLen,
               this`mustClose, this`statusCode
      ensures Busy() && (old(stopFlag) ==> stopFlag) && IsInt64(contentLen)
      ensures |body| <= consumedContent && body == stream[start + requestLen..start + requestLen + |body|]
      ensures h == ParseHead(stream[start..start + requestLen - 1]) && ShowsRequest(buf, ri, h) && NulFree(h)
      ensures VerdictOf(h) == Bad ==> mustClose && statusCode == 400
      ensures VerdictOf(h) == StrangeVersion ==> mustClose == old(mustClose) && statusCode == 505
      ensures VerdictOf(h) == Valid ==> contentLen == DeclaredLength(h, number)
      ensures VerdictOf(h) != Valid ==> contentLen == old(contentLen) && body == [] && consumedContent == 0
    {
      hide RequestLen, ParseHead, VerdictOf, ShowsRequest, NulFree, DeclaredLength;
      body := [];
      var verdict;
      verdict, h := ParseBuffered(ri);
      match verdict
      case Bad =>
        mustClose, statusCode := true, 400;
      case StrangeVersion =>
        statusCode := 505;
      case Valid =>
        body := HandleValid(ri, sizes, h);
    }

    lemma DeclaredFits(h: Head)
      requires NumbersFit()
      ensures IsInt64(DeclaredLength(h, number))
    {
    }

    method HandleValid(ri: RequestInfo, sizes: seq<ReadSize>, ghost h: Head) returns (body: seq<char>)
      requires Busy() && consumedContent == 0 && buf.Length < TWO31 && NumbersFit()
      requires ShowsRequest(buf, ri, h) && NulFree(h)
      modifies this`pulled, this`stopFlag, this`received, this`cutShort, this`consumedContent, this`contentLen,
               this`mustClose, this`statusCode
      ensures Busy() && (old(stopFlag) ==> stopFlag) && IsInt64(contentLen)
      ensures contentLen == DeclaredLength(h, number)
      ensures |body| <= consumedContent && body == stream[start + requestLen..start + requestLen + |body|]
    {
      hide RequestLen, ShowsRequest, NulFree, DeclaredLength;
      contentLen := ContentLength(buf, ri, number, h);
      DeclaredFits(h);
      ghost var rs;
      body, rs := Handle(sizes);
      mustClose, statusCode := *, *;
    }

    /** Whether the connection is to be kept after this request. */
    method ShouldKeepAlive(ri: RequestInfo, keepAliveEnabled: bool, ghost h: Head) returns (keep: bool)
      requires ShowsRequest(buf, ri, h) && NulFree(h) && (VerdictOf(h) == Bad ==> mustClose)
      ensures keep <==> !mustClose && statusCode != 401 && keepAliveEnabled && WantsKeepAlive(h)
      ensures keep <==> !mustClose && statusCode != 401 && keepAliveEnabled && AsksToKeep(h)
    {
      WantsKeepAliveIff(h);
      hide AsksToKeep, WantsKeepAlive;
      if mustClose || statusCode == 401 || !keepAliveEnabled {
        return false;
      }
      keep := ConnectionHeader(buf, ri, h);
    }

    /** Serves the buffered request and drops it from the buffer. */
    method ServeAndDiscard(ri: RequestInfo, sizes: seq<ReadSize>, keepAliveEnabled: bool)
        returns (keepAlive: bool, ghost s: Served)
      requires Busy() && Copies(0) && consumedContent == 0 && requestLen == RequestLen(buf[..], dataLen)
      requires RequestLen(stream[start..], |stream| - start) == requestLen
      requires buf.Length < TWO31 && IsInt64(contentLen) && NumbersFit()
      modifies buf, ri, this`pulled, this`stopFlag, this`received, this`cutShort, this`consumedContent, this`contentLen,
               this`mustClose, this`statusCode, this`dataLen, this`start
      ensures (old(stopFlag) ==> stopFlag) && IsInt64(contentLen) && (!s.Overflows() ==> Idle())
      ensures IsRequest(stream, number, s) && s.start == old(start) && s.requestLen == requestLen
      ensures s.contentLen == contentLen && (VerdictOf(s.head) != Valid ==> contentLen == old(contentLen))
      ensures keepAlive <==> !mustClose && statusCode != 401 && keepAliveEnabled && WantsKeepAlive(s.head)
      ensures keepAlive ==> VerdictOf(s.head) != Bad
      ensures keepAlive && !stopFlag && 0 <= contentLen && !s.Overflows() ==> Follows(s, start)
    {
      hide RequestLen, ParseHead, VerdictOf, ShowsRequest, NulFree, DeclaredLength, WantsKeepAlive, IsRequest;
      hide DiscardLen;
      var body;
      ghost var h;
      body, h := ServeRequest(ri, sizes);
      s := Served(start, requestLen, h, contentLen, dataLen, consumedContent, body);
      ServedIsRequest(s);
      keepAlive := ShouldKeepAlive(ri, keepAliveEnabled, h);
      DiscardIsRightIff(requestLen, contentLen, dataLen);
      Discard();
    }

    lemma ServedIsRequest(s: Served)
      requires 0 < s.requestLen <= s.dataLen < TWO31 && IsInt64(s.contentLen)
      requires s.start + s.requestLen + |s.body| <= |stream|
      requires |s.body| <= s.consumed <= Max(s.contentLen, 0)
      requires RequestLen(stream[s.start..], |stream| - s.start) == s.requestLen
      requires s.head == ParseHead(stream[s.start..s.start + s.requestLen - 1])
      requires VerdictOf(s.head) == Valid ==> s.contentLen == DeclaredLength(s.head, number)
      requires VerdictOf(s.head) != Valid ==> s.consumed == 0
      requires s.body == stream[s.start + s.requestLen..s.start + s.requestLen + |s.body|]
      ensures IsRequest(stream, number, s)
    {
    }

    /** One round: read a request, and serve it. */
    method ServeOne(ri: RequestInfo, sizes: seq<ReadSize>, keepAliveEnabled: bool)
        returns (closed: bool, keepAlive: bool, ghost s: Served)
      requires Idle() && buf.Length < TWO31 && IsInt64(contentLen) && NumbersFit()
      modifies this, buf, ri
      ensures (old(stopFlag) ==> stopFlag) && IsInt64(contentLen)
      ensures closed ==> NoRequest()
      ensures !closed ==>
                && IsRequest(stream, number, s) && s.start == old(start) && s.requestLen == requestLen
                && s.contentLen == contentLen && (VerdictOf(s.head) != Valid ==> contentLen == old(contentLen))
                && (keepAlive <==> !mustClose && statusCode != 401 && keepAliveEnabled && WantsKeepAlive(s.head))
                && (keepAlive && !stopFlag && 0 <= contentLen && !s.Overflows() ==> Idle() && Follows(s, start))
    {
      hide RequestLen, VerdictOf, IsRequest, DiscardLen, Follows, WantsKeepAlive;
      s := Served(0, 0, Head([], [], [], []), 0, 0, 0, []);
      keepAlive := false;
      consumedContent, mustClose, requestLen, statusCode := 0, false, 0, -1;
      cutShort := false;
      var len := ReadRequest();
      requestLen := len;
      if requestLen == 0 && dataLen == buf.Length {
        return true, false, s;
      }
      if requestLen <= 0 {
        return true, false, s;
      }
      assert RequestLen(stream[start..], |stream| - start) == requestLen;
      closed := false;
      keepAlive, s := ServeAndDiscard(ri, sizes, keepAliveEnabled);
    }

    /** Serves one connection until it is to be closed. `readSizes(n)` are the read sizes of the handler
        of the n-th request. FramingIsDetermined and NextIsDeclaredEndIff say what the promise is worth. It
        ends with the first request for which the sum of the lengths overflows: the code would go on with
        what is left of its header section. */
    method ProcessNewConnection(keepAliveEnabled: bool, readSizes: nat -> seq<ReadSize>)
        returns (ghost served: seq<Served>)
      requires dataLen == 0 && start == pulled <= |stream| && buf.Length < TWO31
      requires IsInt64(contentLen) && NumbersFit()
      modifies this, buf
      ensures Framed(stream, number, served)
      ensures served != [] ==> served[0].start == old(pulled)
      ensures BeginsWith(served, old(contentLen))
      ensures served == [] ==> NoRequest()
      ensures !keepAliveEnabled ==> |served| <= 1
      ensures NoRequest() || stopFlag || !keepAliveEnabled || (served != [] && IsLast(served[|served| - 1]))
    {
      hide IsRequest, Follows, RequestLen, NoRequest, VerdictOf, DiscardLen, AsksToKeep, WantsKeepAlive;
      served := [];
      var ri := new RequestInfo();
      dataLen := 0;
      var goOn := true;
      var count: nat := 0;
      while goOn
        invariant IsInt64(contentLen) && Framed(stream, number, served)
        invariant if served == [] then goOn && start == old(pulled) && contentLen == old(contentLen)
                  else served[0].start == old(pulled) && BeginsWith(served, old(contentLen))
        invariant !keepAliveEnabled ==> |served| == if goOn then 0 else 1
        invariant goOn ==> Idle()
        invariant goOn && served != [] ==>
                    Follows(served[|served| - 1], start) && contentLen == served[|served| - 1].contentLen
        invariant !goOn ==> stopFlag || !keepAliveEnabled || (served != [] && IsLast(served[|served| - 1]))
        decreases goOn, |stream| - start
      {
        var closed, keepAlive;
        ghost var s;
        closed, keepAlive, s := ServeOne(ri, readSizes(count), keepAliveEnabled);
        if closed {
          return;
        }
        assert served != [] ==> Continues(served[|served| - 1], s);
        served := served + [s];
        count := count + 1;
        goOn := !stopFlag && keepAliveEnabled && contentLen >= 0 && keepAlive;
        if goOn && requestLen + contentLen >= TWO63 {
          return;
        }
        WantsKeepAliveIff(s.head);
        FollowsGoesOn(s, start);
      }
    }

    lemma FollowsGoesOn(s: Served, next: nat)
      ensures Follows(s, next) ==> s.start < next
    {
    }

    /** Nothing is promised after a request: its body length is not known, or the sum of the lengths
        overflows, or the handler or the client does not want to go on. */
    ghost predicate IsLast(s: Served)
      reads this
    {
      s.contentLen < 0 || s.Overflows() || mustClose || statusCode == 401 || !AsksToKeep(s.head)
    }

    /** No request could be read: the peer stopped sending, or there was an error, or the header section
        is malformed or does not fit the buffer. */
    ghost predicate NoRequest()
      reads this, buf
    {
      requestLen <= 0 && (received <= 0 || dataLen == buf.Length
                          || (start + dataLen <= |stream| && RequestLen(stream[start..], dataLen) < 0))
    }
  }
}
