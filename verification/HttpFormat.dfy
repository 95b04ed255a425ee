/** The header section of section 5 of RFC 2616, written out, against the parser: formatting and parsing. */
module HttpFormat {
  import opened HttpMessage
  import opened Tokenizer

  const EOL: string := [CR, LF]

  /** name: value, and the end of the line */
  function FormatField(f: Field): string {
    f.name + ([':', ' '] + (f.value + EOL))
  }

  function FormatFields(fs: seq<Field>): string {
    if fs == [] then [] else FormatField(fs[0]) + FormatFields(fs[1..])
  }

  function FormatLine(h: Head): string {
    h.requestMethod + ([' '] + (h.uri + ([' '] + h.httpVersion)))
  }

  /** A whole header section: the request line, the fields, and a blank line. */
  function Format(h: Head): string {
    FormatLine(h) + (EOL + (FormatFields(h.fields) + EOL))
  }

  /** No control characters, so in particular no ends of lines and no NULs. */
  ghost predicate Plain(w: string) {
    forall k | 0 <= k < |w| :: !Malformed(w[k]) && w[k] != CR && w[k] != LF
  }

  ghost predicate IsToken(w: string) { w != [] && Plain(w) && ' ' !in w }

  ghost predicate IsText(w: string) { Plain(w) && (w != [] ==> w[0] != ' ') }

  ghost predicate IsField(f: Field) { f.name != [] && Plain(f.name) && ':' !in f.name && IsText(f.value) }

  /** Method and URI are words, the version and the values do not begin with a space, names hold no
      colon, and there is room for the fields. */
  ghost predicate Formattable(h: Head) {
    && IsToken(h.requestMethod) && IsToken(h.uri) && IsText(h.httpVersion)
    && |h.fields| <= 64 && forall f | f in h.fields :: IsField(f)
  }

  // ---------------------------------------------------------------------------------------------
  // The header section ends where it should
  // ---------------------------------------------------------------------------------------------

  /** From `s` to `e` there is nothing that would stop the scan. */
  ghost predicate PlainFrom(t: string, s: nat, e: nat) {
    s <= e <= |t| && forall k | s <= k < e :: !Malformed(t[k]) && t[k] != CR && t[k] != LF
  }

  lemma {:induction false} ScanPlain(t: string, n: nat, s: nat, e: nat)
    requires e < n <= |t| && PlainFrom(t, s, e)
    ensures Scan(t, n, s) == Scan(t, n, e)
    decreases e - s
  {
    if s < e {
      ScanPlain(t, n, s + 1, e);
    }
  }

  /** A line end is passed over unless a blank line follows. */
  lemma ScanLineEnd(t: string, n: nat, e: nat)
    requires e + 2 < n <= |t| && t[e] == CR && t[e + 1] == LF
    ensures t[e + 2] != CR && t[e + 2] != LF ==> Scan(t, n, e) == Scan(t, n, e + 2)
    ensures e + 3 < n && t[e + 2] == CR && t[e + 3] == LF ==> Scan(t, n, e) == e + 4
  {
    assert Scan(t, n, e) == Scan(t, n, e + 1);
  }

  /** Where the parts of a formatted field stand. */
  lemma FieldParts(t: string, i: nat, f: Field)
    requires StandsAt(t, i, FormatField(f))
    ensures var j := i + |f.name| + 2; var e := j + |f.value|;
      && |FormatField(f)| == |f.name| + |f.value| + 4 && e + 2 <= |t|
      && StandsAt(t, i, f.name) && t[j - 2] == ':' && t[j - 1] == ' '
      && StandsAt(t, j, f.value) && t[e] == CR && t[e + 1] == LF
  {
    StandsApart(t, i, f.name, [':', ' '] + (f.value + EOL));
    StandsApart(t, i + |f.name|, [':', ' '], f.value + EOL);
    StandsApart(t, i + |f.name| + 2, f.value, EOL);
  }

  lemma PlainStands(t: string, i: nat, w: string)
    requires StandsAt(t, i, w) && Plain(w)
    ensures PlainFrom(t, i, i + |w|)
  {
    forall k | i <= k < i + |w|
      ensures !Malformed(t[k]) && t[k] != CR && t[k] != LF
    {
      assert t[k] == w[k - i];
    }
  }

  /** A formatted field is one plain line that does not begin with a line end. */
  lemma FieldIsLine(t: string, i: nat, f: Field)
    requires StandsAt(t, i, FormatField(f)) && IsField(f)
    ensures var e := i + |FormatField(f)| - 2;
      e + 2 <= |t| && i < e && PlainFrom(t, i, e) && t[e] == CR && t[e + 1] == LF
  {
    hide StandsAt, FormatField;
    FieldParts(t, i, f);
    var j := i + |f.name| + 2;
    PlainStands(t, i, f.name);
    PlainStands(t, j, f.value);
    PlainAcrossColon(t, i, j - 2, j + |f.value|);
  }

  lemma PlainAcrossSpace(t: string, s: nat, m: nat, e: nat)
    requires PlainFrom(t, s, m) && m + 1 <= e && PlainFrom(t, m + 1, e) && t[m] == ' '
    ensures PlainFrom(t, s, e)
  {
  }

  lemma PlainAcrossColon(t: string, s: nat, m: nat, e: nat)
    requires PlainFrom(t, s, m) && m + 2 <= e && PlainFrom(t, m + 2, e) && t[m] == ':' && t[m + 1] == ' '
    ensures PlainFrom(t, s, e)
  {
  }

  /** The scan from a line on, with formatted fields and a blank line after it. */
  lemma {:induction false} ScanFields(t: string, n: nat, s: nat, e: nat, fs: seq<Field>)
    requires n <= |t| && e + 2 + |FormatFields(fs)| + 2 <= n
    requires PlainFrom(t, s, e) && t[e] == CR && t[e + 1] == LF
    requires StandsAt(t, e + 2, FormatFields(fs) + EOL)
    requires forall f | f in fs :: IsField(f)
    ensures Scan(t, n, s) == e + 2 + |FormatFields(fs)| + 2
    decreases |fs|
  {
    hide Scan, Malformed, FormatField, IsField;
    ScanPlain(t, n, s, e);
    ScanLineEnd(t, n, e);
    StandsApart(t, e + 2, FormatFields(fs), EOL);
    if fs != [] {
      var f, rest := FormatField(fs[0]), FormatFields(fs[1..]);
      StandsApart(t, e + 2, f, rest);
      StandsTogether(t, e + 2 + |f|, rest, EOL);
      FieldIsLine(t, e + 2, fs[0]);
      ScanFields(t, n, e + 2, e + 2 + |f| - 2, fs[1..]);
    }
  }

  lemma StandsTogether(t: string, i: nat, f: string, g: string)
    requires StandsAt(t, i, f) && StandsAt(t, i + |f|, g)
    ensures StandsAt(t, i, f + g)
  {
  }

  /** Where the parts of the request line stand. */
  lemma LineParts(t: string, i: nat, h: Head)
    requires StandsAt(t, i, FormatLine(h))
    ensures var j := i + |h.requestMethod| + 1; var k := j + |h.uri| + 1; var e := k + |h.httpVersion|;
      && |FormatLine(h)| == e - i && e <= |t|
      && StandsAt(t, i, h.requestMethod) && t[j - 1] == ' '
      && StandsAt(t, j, h.uri) && t[k - 1] == ' ' && StandsAt(t, k, h.httpVersion)
  {
    StandsApart(t, i, h.requestMethod, [' '] + (h.uri + ([' '] + h.httpVersion)));
    StandsApart(t, i + |h.requestMethod|, [' '], h.uri + ([' '] + h.httpVersion));
    StandsApart(t, i + |h.requestMethod| + 1, h.uri, [' '] + h.httpVersion);
    StandsApart(t, i + |h.requestMethod| + 1 + |h.uri|, [' '], h.httpVersion);
  }

  lemma LineIsPlain(t: string, h: Head)
    requires StandsAt(t, 0, FormatLine(h)) && Formattable(h)
    ensures PlainFrom(t, 0, |FormatLine(h)|)
  {
    LineParts(t, 0, h);
    hide StandsAt, FormatLine, IsField;
    var j := |h.requestMethod| + 1;
    var k := j + |h.uri| + 1;
    PlainStands(t, 0, h.requestMethod);
    PlainStands(t, j, h.uri);
    PlainStands(t, k, h.httpVersion);
    PlainAcrossSpace(t, 0, j - 1, k - 1);
    PlainAcrossSpace(t, 0, k - 1, k + |h.httpVersion|);
  }

  /** The parts of a whole header section. */
  lemma FormatParts(t: string, i: nat, h: Head)
    requires StandsAt(t, i, Format(h))
    ensures var e := i + |FormatLine(h)|;
      && |Format(h)| == |FormatLine(h)| + 2 + |FormatFields(h.fields)| + 2 && i + |Format(h)| <= |t|
      && StandsAt(t, i, FormatLine(h)) && t[e] == CR && t[e + 1] == LF
      && StandsAt(t, e + 2, FormatFields(h.fields) + EOL)
  {
    hide FormatFields, FormatLine;
    StandsApart(t, i, FormatLine(h), EOL + (FormatFields(h.fields) + EOL));
    StandsApart(t, i + |FormatLine(h)|, EOL, FormatFields(h.fields) + EOL);
  }

  /** A formatted header section at the start of a stream is one request, whatever follows. */
  lemma FormatIsOneRequest(h: Head, t: string, n: nat)
    requires Formattable(h) && StandsAt(t, 0, Format(h)) && |Format(h)| <= n <= |t|
    ensures RequestLen(t, n) == |Format(h)|
  {
    FormatParts(t, 0, h);
    LineIsPlain(t, h);
    hide FormatFields, FormatLine, Format, Scan, PlainFrom, StandsAt, IsField;
    ScanFields(t, n, 0, |FormatLine(h)|, h.fields);
  }

  // ---------------------------------------------------------------------------------------------
  // Parsing undoes formatting
  // ---------------------------------------------------------------------------------------------

  /** A word that stands in the text up to a delimiter is cut there, and the text goes on after the
      white space behind it. */
  lemma CutAt(t: string, i: nat, w: string, delimiters: seq<char>, whitespace: seq<char>, e: nat)
    requires StandsAt(t, i, w) && (forall k | 0 <= k < |w| :: w[k] !in delimiters)
    requires i + |w| < e <= |t| && t[i + |w|] in delimiters && forall k | i <= k < |t| :: t[k] != NUL
    requires (forall k | i + |w| < k < e :: t[k] in whitespace) && (e < |t| ==> t[e] !in whitespace)
    ensures CutWord(t, i, delimiters, NUL).word == w && NextWord(t, i, delimiters, whitespace, NUL) == e
  {
    hide Continue, Cspn, Spn;
    forall k | i <= k < i + |w|
      ensures t[k] !in delimiters
    {
      assert t[k] == w[k - i];
    }
    CspnIs(t, i, delimiters, i + |w|);
    CutPlain(t, i, delimiters);
    assert t[i..i + |w|] == w;
    SpnIs(t, i + |w| + 1, whitespace, e);
  }

  /** Formatted fields stand at a position, followed by the blank line without its last character; or
      there are none, and the text is at its end. */
  ghost predicate FieldsStand(u: string, i: nat, fs: seq<Field>) {
    if fs == [] then i == |u|
    else StandsAt(u, i, FormatFields(fs)) && i + |FormatFields(fs)| + 1 == |u| && u[|u| - 1] == CR
  }

  ghost predicate NoNul(u: string) { forall k | 0 <= k < |u| :: u[k] != NUL }

  /** After a line end: where the next field begins, or the end of the text. */
  lemma AfterLine(u: string, e: nat, fs: seq<Field>) returns (next: nat)
    requires e + 2 + |FormatFields(fs)| + 1 == |u| && u[e + 1] == LF && u[|u| - 1] == CR
    requires StandsAt(u, e + 2, FormatFields(fs)) && forall f | f in fs :: IsField(f)
    ensures e < next <= |u| && FieldsStand(u, next, fs)
    ensures (forall k | e < k < next :: u[k] in CRLF) && (next < |u| ==> u[next] !in CRLF)
  {
    if fs == [] {
      next := |u|;
    } else {
      next := e + 2;
      assert fs[0] in fs;
      StandsApart(u, next, FormatField(fs[0]), FormatFields(fs[1..]));
      NameStarts(u, next, fs[0]);
    }
  }

  lemma NameStarts(u: string, i: nat, f: Field)
    requires StandsAt(u, i, FormatField(f)) && IsField(f)
    ensures i < |u| && u[i] !in CRLF
  {
    FieldParts(u, i, f);
    assert u[i] == f.name[0];
  }

  lemma CutField(u: string, i: nat, f: Field, e: nat)
    requires StandsAt(u, i, FormatField(f)) && IsField(f) && NoNul(u)
    requires e == i + |f.name| + 2 + |f.value|
    ensures CutWord(u, i, COLON, NUL).word == f.name && NextWord(u, i, COLON, SPACE, NUL) == i + |f.name| + 2
  {
    FieldParts(u, i, f);
    hide FormatField, CutWord, NextWord, StandsAt;
    var j := i + |f.name| + 2;
    ValueStarts(u, j, f.value);
    CutAt(u, i, f.name, COLON, SPACE, j);
  }

  lemma ValueStarts(u: string, j: nat, v: string)
    requires StandsAt(u, j, v) && IsText(v) && j + |v| < |u| && u[j + |v|] == CR
    ensures u[j] != ' '
  {
  }

  lemma {:induction false} FieldsParse(u: string, i: nat, fs: seq<Field>, room: nat)
    requires i <= |u| && |fs| <= room && NoNul(u) && FieldsStand(u, i, fs) && forall f | f in fs :: IsField(f)
    ensures HeaderFields(u, i, room) == fs
    decreases |fs|
  {
    if fs == [] {
      NothingToParse(u, room);
    } else {
      OneFieldParses(u, i, fs, room);
    }
  }

  lemma NothingToParse(u: string, room: nat)
    ensures HeaderFields(u, |u|, room) == []
  {
  }

  lemma {:induction false} OneFieldParses(u: string, i: nat, fs: seq<Field>, room: nat)
    requires i <= |u| && 0 < |fs| <= room && NoNul(u) && FieldsStand(u, i, fs) && forall f | f in fs :: IsField(f)
    ensures HeaderFields(u, i, room) == fs
    decreases |fs|, 0
  {
    hide FieldOf, FormatField, StandsAt, IsField, HeaderFields, FieldsStand, NoNul;
    FirstField(u, i, fs);
    assert fs[0] in fs;
    var next := FieldIsCut(u, i, fs[0], fs[1..]);
    FieldsParse(u, next, fs[1..], room - 1);
    UnfoldHeaderFields(u, i, room, []);
    FieldName(fs[0]);
    Prepended(fs, HeaderFields(u, i, room));
  }

  lemma Prepended(fs: seq<Field>, gs: seq<Field>)
    requires fs != []
    ensures [] + gs == gs && ([] + [fs[0]]) + fs[1..] == fs
  {
  }

  /** The parser finds a formatted field, and goes on where the next one begins, or at the end. */
  lemma FieldIsCut(u: string, i: nat, f: Field, rest: seq<Field>) returns (next: nat)
    requires i <= |u| && NoNul(u) && StandsAt(u, i, FormatField(f))
    requires IsField(f) && forall g | g in rest :: IsField(g)
    requires var e := i + |f.name| + 2 + |f.value|;
      && e + 2 + |FormatFields(rest)| + 1 == |u| && u[e + 1] == LF && u[|u| - 1] == CR
      && StandsAt(u, e + 2, FormatFields(rest))
    ensures i < next <= |u| && FieldsStand(u, next, rest)
    ensures FieldOf(u, i) == (f, i + |f.name| + 2, next)
  {
    hide CutWord, NextWord, FormatField, FormatFields, StandsAt, IsField, FieldsStand, NoNul;
    var e := i + |f.name| + 2 + |f.value|;
    next := AfterLine(u, e, rest);
    CutField(u, i, f, e);
    CutValue(u, i, f, e, next);
  }

  lemma FieldName(f: Field)
    requires IsField(f)
    ensures f.name != []
  {
  }

  /** The first field, and the others. */
  lemma FirstField(u: string, i: nat, fs: seq<Field>)
    requires fs != [] && FieldsStand(u, i, fs)
    ensures var f := fs[0]; var e := i + |f.name| + 2 + |f.value|;
      && StandsAt(u, i, FormatField(f)) && e + 2 + |FormatFields(fs[1..])| + 1 == |u|
      && u[e] == CR && u[e + 1] == LF && u[|u| - 1] == CR && StandsAt(u, e + 2, FormatFields(fs[1..]))
  {
    hide FormatField, StandsAt;
    StandsApart(u, i, FormatField(fs[0]), FormatFields(fs[1..]));
    FieldParts(u, i, fs[0]);
  }

  lemma CutValue(u: string, i: nat, f: Field, e: nat, next: nat)
    requires StandsAt(u, i, FormatField(f)) && IsField(f) && NoNul(u)
    requires e == i + |f.name| + 2 + |f.value| && e < next <= |u|
    requires (forall k | e < k < next :: u[k] in CRLF) && (next < |u| ==> u[next] !in CRLF)
    ensures CutWord(u, i + |f.name| + 2, CRLF, NUL).word == f.value
    ensures NextWord(u, i + |f.name| + 2, CRLF, CRLF, NUL) == next
  {
    FieldParts(u, i, f);
    hide FormatField, CutWord, NextWord, StandsAt;
    CutAt(u, i + |f.name| + 2, f.value, CRLF, CRLF, next);
  }

  /** The three words of the request line. */
  lemma MethodIsCut(u: string, h: Head)
    requires StandsAt(u, 0, FormatLine(h)) && Formattable(h) && NoNul(u)
    ensures SkipSpace(u, 0) == 0 && CutWord(u, 0, SPACE, NUL).word == h.requestMethod
    ensures NextWord(u, 0, SPACE, SPACE, NUL) == |h.requestMethod| + 1 <= |u|
  {
    hide CutWord, NextWord, FormatLine, StandsAt, IsField, Malformed;
    LineParts(u, 0, h);
    var j := |h.requestMethod| + 1;
    WordStarts(u, 0, h.requestMethod);
    WordStarts(u, j, h.uri);
    CutAt(u, 0, h.requestMethod, SPACE, SPACE, j);
  }

  lemma UriIsCut(u: string, h: Head)
    requires StandsAt(u, 0, FormatLine(h)) && |FormatLine(h)| < |u| && u[|FormatLine(h)|] == CR
    requires Formattable(h) && NoNul(u)
    ensures var j := |h.requestMethod| + 1;
      && j <= |u| && CutWord(u, j, SPACE, NUL).word == h.uri
      && NextWord(u, j, SPACE, SPACE, NUL) == j + |h.uri| + 1 <= |u|
  {
    hide CutWord, NextWord, FormatLine, StandsAt, IsField, Malformed;
    LineParts(u, 0, h);
    var j := |h.requestMethod| + 1;
    ValueStarts(u, j + |h.uri| + 1, h.httpVersion);
    CutAt(u, j, h.uri, SPACE, SPACE, j + |h.uri| + 1);
  }

  lemma VersionIsCut(u: string, h: Head, l: nat)
    requires StandsAt(u, 0, FormatLine(h)) && Formattable(h) && NoNul(u)
    requires |FormatLine(h)| < l <= |u| && u[|FormatLine(h)|] == CR
    requires (forall k | |FormatLine(h)| < k < l :: u[k] in CRLF) && (l < |u| ==> u[l] !in CRLF)
    ensures var k := |h.requestMethod| + 1 + |h.uri| + 1;
      k <= |u| && CutWord(u, k, CRLF, NUL).word == h.httpVersion && NextWord(u, k, CRLF, CRLF, NUL) == l
  {
    hide CutWord, NextWord, FormatLine, StandsAt, IsField, Malformed;
    LineParts(u, 0, h);
    CutAt(u, |h.requestMethod| + 1 + |h.uri| + 1, h.httpVersion, CRLF, CRLF, l);
  }

  lemma LineIsCut(u: string, h: Head, l: nat)
    requires StandsAt(u, 0, FormatLine(h)) && Formattable(h) && NoNul(u)
    requires |FormatLine(h)| < l <= |u| && u[|FormatLine(h)|] == CR
    requires (forall k | |FormatLine(h)| < k < l :: u[k] in CRLF) && (l < |u| ==> u[l] !in CRLF)
    ensures ParseHead(u) == Head(h.requestMethod, h.uri, h.httpVersion, HeaderFields(u, l, MAX_HEADERS))
  {
    hide CutWord, NextWord, SkipSpace, FormatLine, StandsAt, HeaderFields, Formattable, NoNul;
    MethodIsCut(u, h);
    UriIsCut(u, h);
    VersionIsCut(u, h, l);
  }

  lemma WordStarts(u: string, j: nat, w: string)
    requires StandsAt(u, j, w) && IsToken(w)
    ensures u[j] != ' ' && SkipSpace(u, j) == j
  {
    assert u[j] == w[0];
  }

  lemma HeadParses(u: string, h: Head)
    requires StandsAt(u, 0, FormatLine(h)) && Formattable(h) && NoNul(u)
    requires var e := |FormatLine(h)|;
      && e + 2 + |FormatFields(h.fields)| + 1 == |u| && u[e] == CR && u[e + 1] == LF && u[|u| - 1] == CR
      && StandsAt(u, e + 2, FormatFields(h.fields))
    ensures ParseHead(u) == h
  {
    hide FormatLine, FormatFields, StandsAt, ParseHead, HeaderFields, NoNul, IsField, FieldsStand, IsToken, IsText;
    var next := AfterLine(u, |FormatLine(h)|, h.fields);
    FieldsParse(u, next, h.fields, MAX_HEADERS);
    LineIsCut(u, h, next);
  }

  lemma WithoutLast(t: string, u: string, i: nat, f: string)
    requires StandsAt(t, i, f) && i + |f| <= |u| <= |t| && u == t[..|u|]
    ensures StandsAt(u, i, f)
  {
  }

  /** Every formattable header section is parsed into itself. */
  lemma ParseUndoesFormat(h: Head)
    requires Formattable(h)
    ensures ParseHead(Format(h)[..|Format(h)| - 1]) == h
  {
    hide Format, FormatLine, FormatFields, ParseHead, Formattable, StandsAt, NoNul;
    var t := Format(h);
    var e := |FormatLine(h)|;
    StandsAtItself(t);
    FormatHasNoNul(h);
    FormatParts(t, 0, h);
    var u := t[..|t| - 1];
    StandsApart(t, e + 2, FormatFields(h.fields), EOL);
    LastOfFormat(t, e + 2 + |FormatFields(h.fields)|);
    WithoutLast(t, u, 0, FormatLine(h));
    WithoutLast(t, u, e + 2, FormatFields(h.fields));
    HeadParses(u, h);
  }

  lemma StandsAtItself(t: string)
    ensures StandsAt(t, 0, t)
  {
  }

  lemma FormatHasNoNul(h: Head)
    requires Formattable(h)
    ensures |Format(h)| > 0 && NoNul(Format(h)[..|Format(h)| - 1])
  {
    hide Format, Formattable, Scan;
    var t := Format(h);
    FormatIsLong(h);
    FormatIsOneRequest(h, t, |t|);
    ScanSkipsNoNul(t, |t|, 0);
  }

  lemma LastOfFormat(t: string, i: nat)
    requires StandsAt(t, i, EOL)
    ensures t[i] == CR
  {
  }

  /** Wherever a formatted header section stands in a stream, it is one request, and is parsed into
      what was formatted. */
  lemma FormattedInStream(stream: string, i: nat, h: Head, n: nat)
    requires Formattable(h) && StandsAt(stream, i, Format(h)) && |Format(h)| <= n <= |stream| - i
    ensures RequestLen(stream[i..], n) == |Format(h)| > 0
    ensures ParseHead(stream[i..i + |Format(h)| - 1]) == h
  {
    hide Format, ParseHead, Scan, Formattable;
    var t := stream[i..];
    assert StandsAt(t, 0, Format(h));
    FormatIsOneRequest(h, t, n);
    FormatIsLong(h);
    ParseUndoesFormat(h);
    assert stream[i..i + |Format(h)| - 1] == Format(h)[..|Format(h)| - 1];
  }

  lemma FormatIsLong(h: Head)
    ensures |Format(h)| >= 4
  {
  }
}
