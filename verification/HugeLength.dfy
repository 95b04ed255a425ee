/** A request after which the server looks for the next one inside the header section that it has just
    served, because the sum of header length and body length does not fit 64 bits. */
module HugeLength {
  import opened BodyRead
  import opened HttpFormat
  import opened HttpFraming
  import opened HttpMessage
  import opened HttpRequest
  import opened Tokenizer

  const DIGITS := "9223372036854775807"

  /** A valid request that declares a body of 2^63 - 1 bytes. */
  const HUGE := Head("POST", "/", "HTTP/1.1", [Field("Content-Length", DIGITS)])

  lemma Words()
    ensures IsToken("POST") && IsToken("/")
  {
  }

  lemma Version()
    ensures IsText("HTTP/1.1")
  {
  }

  lemma Name()
    ensures Plain("Content-Length") && ':' !in "Content-Length"
  {
  }

  lemma Digits()
    ensures IsText(DIGITS)
  {
  }

  lemma HugeIsFormattable()
    ensures Formattable(HUGE)
  {
    hide IsToken, IsText, Plain;
    Words();
    Version();
    Name();
    Digits();
  }

  lemma HugeIsValid(number: string -> int)
    ensures VerdictOf(HUGE) == Valid && WantsKeepAlive(HUGE) && DeclaredLength(HUGE, number) == number(DIGITS)
  {
    assert HUGE.httpVersion[..5] == "HTTP/" && HUGE.httpVersion[5..] == "1.1";
    assert SameIgnoringCase(CONTENT_LENGTH, "Content-Length");
    assert !SameIgnoringCase(CONNECTION, "Content-Length");
    assert HUGE.fields[1..] == [];
    assert FindField(HUGE.fields, CONNECTION) == FindField(HUGE.fields[1..], CONNECTION);
  }

  /** Wherever such a request stands in a stream: served, it is kept alive, and the next request is looked
      for at the last character of its own header section. */
  lemma NextIsInsideHead(stream: string, number: string -> int, s: Served)
    requires StandsAt(stream, s.start, Format(HUGE)) && number(DIGITS) == TWO63 - 1
    ensures IsRequest(stream, number, s) ==>
              && s.head == HUGE && VerdictOf(s.head) == Valid && WantsKeepAlive(s.head) && 0 <= s.contentLen
              && s.Next() == s.start + s.requestLen - 1 < s.DeclaredEnd(number)
  {
    hide RequestLen, ParseHead, Format, VerdictOf, WantsKeepAlive, DeclaredLength, DiscardLen;
    HugeIsFormattable();
    HugeIsValid(number);
    FormattedInStream(stream, s.start, HUGE, |stream| - s.start);
    if IsRequest(stream, number, s) {
      DiscardIsRightIff(s.requestLen, s.contentLen, s.dataLen);
    }
  }

  lemma HugeIsShort()
    ensures |Format(HUGE)| < TWO31
  {
    assert HUGE.fields[1..] == [];
    assert FormatFields(HUGE.fields) == FormatField(HUGE.fields[0]) + FormatFields([]);
  }

  /** And there is such a served request. */
  lemma NextIsInsideHeadHappens(number: string -> int)
    requires number(DIGITS) == TWO63 - 1
    ensures exists s :: IsRequest(Format(HUGE), number, s) && s.start == 0
  {
    hide RequestLen, ParseHead, Format, VerdictOf, WantsKeepAlive, DeclaredLength;
    HugeIsFormattable();
    HugeIsValid(number);
    HugeIsShort();
    var t := Format(HUGE);
    StandsAtItself(t);
    FormattedInStream(t, 0, HUGE, |t|);
    assert t[0..] == t;
    var s := Served(0, |t|, HUGE, TWO63 - 1, |t|, 0, []);
    assert IsRequest(t, number, s);
  }
}
