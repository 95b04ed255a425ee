/** A connection on which the next request is cut in the wrong place, because content_len still holds
    what an earlier connection of the same worker left there. */
module StaleLength {
  import opened BodyRead
  import opened HttpFormat
  import opened HttpFraming
  import opened HttpMessage
  import opened HttpRequest
  import opened Tokenizer

  /** Answered 505, and the connection is kept. It declares no body. */
  const STRANGE := Head("GET", "/", "HTTP/2.0", [Field("Connection", "keep-alive")])

  /** A valid request, and what is left of it without its first three characters. */
  const NEXT := Head("OPTIONS", "/", "HTTP/1.1", [])
  const REST := Head("IONS", "/", "HTTP/1.1", [])

  /** What content_len was left at. */
  const LEFT := 3

  ghost function Stream(): string { Format(STRANGE) + Format(NEXT) }

  lemma Words()
    ensures IsToken("GET") && IsToken("OPTIONS") && IsToken("IONS") && IsToken("/")
  {
  }

  lemma Texts()
    ensures IsText("HTTP/2.0") && IsText("HTTP/1.1") && IsField(Field("Connection", "keep-alive"))
  {
  }

  lemma AllFormattable()
    ensures Formattable(STRANGE) && Formattable(NEXT) && Formattable(REST)
  {
    hide IsToken, IsText, IsField;
    Words();
    Texts();
  }

  lemma StrangeIsKept(number: string -> int)
    ensures VerdictOf(STRANGE) == StrangeVersion && WantsKeepAlive(STRANGE) && DeclaredLength(STRANGE, number) == 0
  {
    assert STRANGE.httpVersion[..5] == "HTTP/" && STRANGE.httpVersion[5..][0] == '2';
    assert SameIgnoringCase(CONNECTION, "Connection") && SameIgnoringCase(KEEP_ALIVE, "keep-alive");
    assert STRANGE.fields[1..] == [];
    assert !SameIgnoringCase(CONTENT_LENGTH, "Connection");
    assert FindField(STRANGE.fields, CONTENT_LENGTH) == FindField(STRANGE.fields[1..], CONTENT_LENGTH);
    assert ToLower(PUT[0]) != ToLower(STRANGE.requestMethod[0]);
  }

  lemma NextIsValidRestIsBad()
    ensures VerdictOf(NEXT) == Valid && VerdictOf(REST) == Bad
  {
    assert NEXT.httpVersion[..5] == "HTTP/" && NEXT.httpVersion[5..] == "1.1";
    assert REST.requestMethod[0] == 'I';
  }

  /** Three characters less. */
  lemma RestOfNext()
    ensures Format(NEXT) == "OPT" + Format(REST)
  {
    var tail := [' '] + (NEXT.uri + ([' '] + NEXT.httpVersion));
    assert "OPTIONS" == "OPT" + "IONS";
    assert "OPTIONS" + tail == "OPT" + ("IONS" + tail);
    hide FormatLine, FormatFields;
    assert FormatLine(NEXT) == "OPT" + FormatLine(REST) by { LineOfNext(); }
    var end := EOL + (FormatFields([]) + EOL);
    assert ("OPT" + FormatLine(REST)) + end == "OPT" + (FormatLine(REST) + end);
  }

  lemma LineOfNext()
    ensures FormatLine(NEXT) == "OPT" + FormatLine(REST)
  {
    var tail := [' '] + (NEXT.uri + ([' '] + NEXT.httpVersion));
    assert "OPTIONS" + tail == "OPT" + ("IONS" + tail);
  }

  /** Where the three header sections stand in the stream. */
  lemma Places()
    ensures var s, b := Stream(), |Format(STRANGE)|;
      && |s| == b + |Format(NEXT)| && |Format(NEXT)| == LEFT + |Format(REST)|
      && StandsAt(s, 0, Format(STRANGE)) && StandsAt(s, b, Format(NEXT)) && StandsAt(s, b + LEFT, Format(REST))
  {
    hide Format;
    RestOfNext();
    var s, b := Stream(), |Format(STRANGE)|;
    assert StandsAt(s, 0, s);
    StandsApart(s, 0, Format(STRANGE), Format(NEXT));
    StandsApart(s, b, "OPT", Format(REST));
  }

  /** What a request is that begins where a formatted header section stands. */
  lemma RequestAt(number: string -> int, s: Served, h: Head)
    requires Formattable(h) && StandsAt(Stream(), s.start, Format(h))
    ensures IsRequest(Stream(), number, s) ==> s.requestLen == |Format(h)| && s.head == h
  {
    hide Stream, RequestLen, ParseHead, Format, VerdictOf, DeclaredLength;
    FormattedInStream(Stream(), s.start, h, |Stream()| - s.start);
  }

  /** The two requests are as the code sees them. */
  ghost predicate Misframed(number: string -> int, served: seq<Served>) {
    && |served| > 1
    && served[0].head == STRANGE && served[0].DeclaredEnd(number) == |Format(STRANGE)|
    && served[1].start == |Format(STRANGE)| + LEFT && served[1].head == REST && VerdictOf(served[1].head) == Bad
  }

  /** Whatever the pieces in which the stream arrives, as long as they bring three bytes of the second
      request along with the first: the second request is a valid one, and begins right after the first,
      which declares no body; but it is looked for three bytes later, and answered as a bad request. */
  lemma WrongCut(number: string -> int, served: seq<Served>)
    ensures VerdictOf(NEXT) == Valid && StandsAt(Stream(), |Format(STRANGE)|, Format(NEXT))
    ensures FramedFrom(Stream(), number, served, LEFT) && |served| > 1 && served[0].start == 0
            && |Format(STRANGE)| + LEFT <= served[0].dataLen
            ==> Misframed(number, served)
  {
    hide IsRequest, Format, Stream, VerdictOf, WantsKeepAlive, DeclaredLength, Formattable, StandsAt;
    AllFormattable();
    StrangeIsKept(number);
    NextIsValidRestIsBad();
    Places();
    if FramedFrom(Stream(), number, served, LEFT) && |served| > 1 && served[0].start == 0
       && |Format(STRANGE)| + LEFT <= served[0].dataLen {
      RequestAt(number, served[0], STRANGE);
      assert Continues(served[0], served[1]);
      ServedShort(number, served[0]);
      RequestAt(number, served[1], REST);
    }
  }

  lemma ServedShort(number: string -> int, s: Served)
    ensures IsRequest(Stream(), number, s) && VerdictOf(s.head) != Valid && s.contentLen == LEFT
            && s.requestLen + LEFT <= s.dataLen
            ==> s.Next() == s.start + s.requestLen + LEFT
  {
    hide Stream, RequestLen, ParseHead, VerdictOf, DeclaredLength, DiscardLen;
    if IsRequest(Stream(), number, s) {
      DiscardIsRightIff(s.requestLen, s.contentLen, s.dataLen);
    }
  }

  lemma StreamIsShort()
    ensures |Stream()| < TWO31
  {
    FormatIsShort(STRANGE);
    FormatIsShort(NEXT);
  }

  /** With at most one field, the length of a header section is that of its parts. */
  lemma FormatIsShort(h: Head)
    requires |h.fields| <= 1
    ensures |Format(h)| == |h.requestMethod| + |h.uri| + |h.httpVersion| + 6
                           + if h.fields == [] then 0 else |h.fields[0].name| + |h.fields[0].value| + 4
  {
    if h.fields != [] {
      assert h.fields[1..] == [];
      assert FormatFields(h.fields) == FormatField(h.fields[0]) + FormatFields([]);
    }
  }

  /** And there is such a connection. */
  lemma WrongCutHappens(number: string -> int)
    ensures exists served :: FramedFrom(Stream(), number, served, LEFT) && Misframed(number, served)
  {
    hide IsRequest, Format, Stream, VerdictOf, WantsKeepAlive, DeclaredLength, Formattable, StandsAt;
    AllFormattable();
    StrangeIsKept(number);
    NextIsValidRestIsBad();
    Places();
    StreamIsShort();
    var b := |Format(STRANGE)|;
    var s := Served(0, b, STRANGE, LEFT, |Stream()|, 0, []);
    var t := Served(b + LEFT, |Format(REST)|, REST, LEFT, |Format(REST)|, 0, []);
    IsServed(number, s, STRANGE);
    IsServed(number, t, REST);
    var served := [s, t];
    assert Continues(served[0], served[1]);
    assert FramedFrom(Stream(), number, served, LEFT) && Misframed(number, served);
  }

  lemma IsServed(number: string -> int, s: Served, h: Head)
    requires Formattable(h) && StandsAt(Stream(), s.start, Format(h)) && VerdictOf(h) != Valid
    requires s == Served(s.start, |Format(h)|, h, LEFT, s.dataLen, 0, []) && |Format(h)| <= s.dataLen < TWO31
    ensures IsRequest(Stream(), number, s)
  {
    hide Stream, RequestLen, ParseHead, Format, VerdictOf, DeclaredLength;
    FormattedInStream(Stream(), s.start, h, |Stream()| - s.start);
  }
}
