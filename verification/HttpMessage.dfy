/** HTTP messages in a receive buffer: where the header section ends, and how it is cut into words
    in place. */
module HttpMessage {
  import opened Tokenizer

  const CR := '\r'
  const LF := '\n'
  const MAX_HEADERS := 64

  // ---------------------------------------------------------------------------------------------
  // The end of the header section
  // ---------------------------------------------------------------------------------------------

  /** Control characters other than CR and LF make a request malformed; 128 and above are allowed. */
  predicate Malformed(c: char) {
    !(' ' <= c <= '~') && c != CR && c != LF && c < 128 as char
  }

  /** The length of the blank line that starts at `s`, seen in a prefix of `n` characters, or 0. */
  function BlankLine(t: seq<char>, n: nat, s: nat): nat
    requires s + 1 < n <= |t|
  {
    if t[s] != LF then 0
    else if t[s + 1] == LF then 2
    else if s + 2 < n && t[s + 1] == CR && t[s + 2] == LF then 3
    else 0
  }

  /** The scan of a prefix of `n` characters, from position `s` on. */
  function Scan(t: seq<char>, n: nat, s: nat): int
    requires n <= |t|
    decreases n - s
  {
    if s + 1 >= n then 0
    else if Malformed(t[s]) then -1
    else if BlankLine(t, n, s) > 0 then s + BlankLine(t, n, s)
    else Scan(t, n, s + 1)
  }

  /** The length of the request in a prefix of `n` characters: -1 malformed, 0 not yet complete. */
  function RequestLen(t: seq<char>, n: nat): int
    requires n <= |t|
  {
    Scan(t, n, 0)
  }

  /** Position `s` decides the scan of a prefix of `n` characters: nothing before it does. */
  ghost predicate Decides(t: seq<char>, n: nat, s: nat)
    requires n <= |t|
  {
    && s + 1 < n
    && (Malformed(t[s]) || BlankLine(t, n, s) > 0)
    && forall k: nat | k < s :: !Malformed(t[k]) && BlankLine(t, n, k) == 0
  }

  lemma {:induction false} ScanIsFirst(t: seq<char>, n: nat, s: nat)
    requires n <= |t|
    requires forall k: nat | k < s && k + 1 < n :: !Malformed(t[k]) && BlankLine(t, n, k) == 0
    ensures Scan(t, n, s) == 0 <==> forall k: nat :: !Decides(t, n, k)
    ensures Scan(t, n, s) != 0 ==> exists k: nat ::
              Decides(t, n, k) && Scan(t, n, s) == if Malformed(t[k]) then -1 else k + BlankLine(t, n, k)
    decreases n - s
  {
    if s + 1 < n {
      if Malformed(t[s]) || BlankLine(t, n, s) > 0 {
        assert Decides(t, n, s);
      } else {
        ScanIsFirst(t, n, s + 1);
      }
    }
  }

  /** The answer is 0 exactly when no position decides; otherwise it is what the first deciding
      position says: malformed, or the request up to and including the first blank line. */
  lemma RequestLenIsFirst(t: seq<char>, n: nat)
    requires n <= |t|
    ensures RequestLen(t, n) == 0 <==> forall k: nat :: !Decides(t, n, k)
    ensures RequestLen(t, n) != 0 ==> exists k: nat ::
              Decides(t, n, k) && RequestLen(t, n) == if Malformed(t[k]) then -1 else k + BlankLine(t, n, k)
  {
    ScanIsFirst(t, n, 0);
  }

  /** Malformed are the control characters, other than line feed and carriage return, and DEL. */
  lemma MalformedIs(c: char)
    ensures Malformed(c) <==> (c as int < 32 && c != '\n' && c != '\r') || c as int == 127
  {
  }

  /** A blank line is a second line feed right after the first, or after a carriage return. */
  lemma BlankLineIs(t: seq<char>, n: nat, s: nat)
    requires s + 1 < n <= |t|
    ensures BlankLine(t, n, s) == 2 <==> t[s..s + 2] == "\n\n"
    ensures BlankLine(t, n, s) == 3 <==> s + 3 <= n && t[s..s + 3] == "\n\r\n"
    ensures BlankLine(t, n, s) in {0, 2, 3}
  {
    assert t[s..s + 2] == [t[s], t[s + 1]];
    assert s + 3 <= n ==> t[s..s + 3] == [t[s], t[s + 1], t[s + 2]];
  }

  lemma {:induction false} ScanStable(t: seq<char>, n: nat, u: seq<char>, m: nat, s: nat)
    requires n <= |t| && n <= m <= |u|
    requires forall k | 0 <= k < n :: t[k] == u[k]
    requires Scan(t, n, s) != 0
    ensures Scan(u, m, s) == Scan(t, n, s) <= n
    decreases n - s
  {
    if !Malformed(t[s]) && BlankLine(t, n, s) == 0 {
      ScanStable(t, n, u, m, s + 1);
    }
  }

  /** A positive answer, or -1, on a prefix is the answer on every extension of that prefix, whatever
      follows; and the request does not reach beyond the prefix. */
  lemma RequestLenStable(t: seq<char>, n: nat, u: seq<char>, m: nat)
    requires n <= |t| && n <= m <= |u|
    requires forall k | 0 <= k < n :: t[k] == u[k]
    requires RequestLen(t, n) != 0
    ensures RequestLen(u, m) == RequestLen(t, n) <= n
  {
    ScanStable(t, n, u, m, 0);
  }

  /** A complete request holds no NUL before its last character. */
  lemma {:induction false} ScanSkipsNoNul(t: seq<char>, n: nat, s: nat)
    requires n <= |t| && Scan(t, n, s) > 0
    ensures s + 2 <= Scan(t, n, s) <= n
    ensures forall k | s <= k < Scan(t, n, s) - 1 :: t[k] != NUL
    decreases n - s
  {
    if BlankLine(t, n, s) == 0 {
      ScanSkipsNoNul(t, n, s + 1);
    }
  }

  method GetRequestLen(buf: array<char>, buflen: nat) returns (len: int)
    requires buflen <= buf.Length
    ensures len == RequestLen(buf[..], buflen)
  {
    len := 0;
    var s, e := 0, buflen - 1;
    while len <= 0 && s < e
      invariant 0 <= s <= buflen
      invariant len >= 0
      invariant RequestLen(buf[..], buflen) == if len > 0 then len else Scan(buf[..], buflen, s)
      decreases e - s
    {
      if Malformed(buf[s]) {
        len := -1;
        break;
      } else if buf[s] == LF && buf[s + 1] == LF {
        len := s + 2;
      } else if buf[s] == LF && s + 1 < e && buf[s + 1] == CR && buf[s + 2] == LF {
        len := s + 3;
      }
      s := s + 1;
    }
  }

  // ---------------------------------------------------------------------------------------------
  // Cutting the header section into words
  // ---------------------------------------------------------------------------------------------

  const SPACE: seq<char> := [' ']
  const COLON: seq<char> := [':']
  const CRLF: seq<char> := [CR, LF]

  datatype Field = Field(name: seq<char>, value: seq<char>)

  datatype Head = Head(requestMethod: seq<char>, uri: seq<char>, httpVersion: seq<char>, fields: seq<Field>)

  predicate IsSpace(c: char) {
    c == ' ' || '\t' as int <= c as int <= CR as int
  }

  /** The first position that is not white space. */
  function SkipSpace(t: seq<char>, i: nat): (j: nat)
    requires i <= |t|
    ensures i <= j <= |t|
    decreases |t| - i
  {
    if i == |t| || !IsSpace(t[i]) then i else SkipSpace(t, i + 1)
  }

  /** The field at a position, and where the text goes on after its name and after its value. */
  function FieldOf(t: seq<char>, i: nat): (Field, nat, nat)
    requires i <= |t|
  {
    var j := NextWord(t, i, COLON, SPACE, NUL);
    (Field(CutWord(t, i, COLON, NUL).word, CutWord(t, j, CRLF, NUL).word), j, NextWord(t, j, CRLF, CRLF, NUL))
  }

  /** The header fields from a position on, at most `room` of them; an empty name ends the list. */
  function HeaderFields(t: seq<char>, i: nat, room: nat): (fs: seq<Field>)
    requires i <= |t|
    ensures |fs| <= room
    decreases room
  {
    var (f, _, next) := FieldOf(t, i);
    if room == 0 || f.name == [] then [] else [f] + HeaderFields(t, next, room - 1)
  }

  /** What a header section means. */
  function ParseHead(t: seq<char>): Head {
    var i := SkipSpace(t, 0);
    var j := NextWord(t, i, SPACE, SPACE, NUL);
    var k := NextWord(t, j, SPACE, SPACE, NUL);
    var l := NextWord(t, k, CRLF, CRLF, NUL);
    Head(CutWord(t, i, SPACE, NUL).word, CutWord(t, j, SPACE, NUL).word, CutWord(t, k, CRLF, NUL).word,
         HeaderFields(t, l, MAX_HEADERS))
  }

  /** The NUL-terminated string at a position of the buffer. */
  ghost predicate StringAt(a: array<char>, p: int, w: seq<char>)
    reads a
  {
    && 0 <= p && p + |w| < a.Length
    && (forall k | p <= k < p + |w| :: a[k] == w[k - p])
    && a[p + |w|] == NUL
  }

  /** The string at a position, up to its terminating NUL. */
  method ReadString(a: array<char>, p: nat, ghost w: string) returns (r: string)
    requires StringAt(a, p, w) && NUL !in w
    ensures r == w
  {
    r := [];
    while a[p + |r|] != NUL
      invariant |r| <= |w| && r == w[..|r|]
      decreases |w| - |r|
    {
      r := r + [a[p + |r|]];
    }
  }

  datatype FieldAt = FieldAt(name: nat, value: nat)

  /** The parsed request: positions of strings in the buffer. */
  class RequestInfo {
    var requestMethod: nat
    var uri: nat
    var httpVersion: nat
    var headers: seq<FieldAt>

    constructor () {
      requestMethod, uri, httpVersion, headers := 0, 0, 0, [];
    }

    ghost predicate Shows(a: array<char>, h: Head)
      reads this, a
    {
      && StringAt(a, requestMethod, h.requestMethod)
      && StringAt(a, uri, h.uri)
      && StringAt(a, httpVersion, h.httpVersion)
      && ShowsFields(a, headers, h.fields)
    }
  }

  ghost predicate ShowsFields(a: array<char>, ps: seq<FieldAt>, fs: seq<Field>)
    reads a
  {
    && |ps| == |fs|
    && forall k | 0 <= k < |fs| :: StringAt(a, ps[k].name, fs[k].name) && StringAt(a, ps[k].value, fs[k].value)
  }

  /** A word cut without a quote character holds no NUL and leaves the rest of the text as it was. */
  method Skip(a: array<char>, buf: nat, delimiters: seq<char>, whitespace: seq<char>, ghost t: seq<char>, ghost z: nat)
      returns (next: nat)
    requires Terminated(a, buf, z) && Holds(a, buf, z, t) && NUL !in delimiters && NUL !in whitespace
    modifies a
    ensures buf <= next == NextWord(t, buf, delimiters, whitespace, NUL) <= z
    ensures StringAt(a, buf, CutWord(t, buf, delimiters, NUL).word)
    ensures buf + |CutWord(t, buf, delimiters, NUL).word| <= next
    ensures Terminated(a, next, z) && Holds(a, next, z, t)
    ensures forall k | 0 <= k < a.Length && !(buf <= k < next) :: a[k] == old(a[k])
  {
    ghost var u := a[..z];
    SameRest(u, t, buf, delimiters, whitespace);
    hide CutWord, NextWord;
    next := SkipQuoted(a, buf, delimiters, whitespace, NUL, z);
  }

  /** Without a quote character a word is simply the text up to the first delimiter. */
  lemma CutPlain(t: seq<char>, i: nat, delimiters: seq<char>)
    requires i <= |t| && forall k | i <= k < |t| :: t[k] != NUL
    ensures CutWord(t, i, delimiters, NUL) == Cut(t[i..Cspn(t, i, delimiters)], Cspn(t, i, delimiters))
  {
    var e := Cspn(t, i, delimiters);
    if e > i {
      ContinueStops(t, delimiters, NUL, t[i..e], e);
    }
  }

  /** Cutting depends on the text from the position on only. */
  lemma SameRest(t: seq<char>, u: seq<char>, i: nat, delimiters: seq<char>, whitespace: seq<char>)
    requires i <= |t| == |u| && forall k | i <= k < |t| :: t[k] == u[k] != NUL
    ensures CutWord(t, i, delimiters, NUL) == CutWord(u, i, delimiters, NUL)
    ensures NextWord(t, i, delimiters, whitespace, NUL) == NextWord(u, i, delimiters, whitespace, NUL)
  {
    var e := Cspn(t, i, delimiters);
    CspnIs(u, i, delimiters, e);
    if e > i {
      assert t[i..e] == u[i..e];
      ContinueStops(t, delimiters, NUL, t[i..e], e);
      ContinueStops(u, delimiters, NUL, u[i..e], e);
    }
    if e < |t| {
      var s := Spn(t, e + 1, whitespace);
      SpnIs(u, e + 1, whitespace, s);
    }
  }

  /** A string that no cut from `buf` on can disturb: it ends before `buf`, or at the final NUL. */
  ghost predicate SettledIn(s: seq<char>, p: int, w: seq<char>, buf: int, z: int) {
    && 0 <= p && p + |w| < |s| && (p + |w| < buf || p + |w| == buf == z)
    && (forall k | p <= k < p + |w| :: s[k] == w[k - p]) && s[p + |w|] == NUL
  }

  ghost predicate FieldsIn(s: seq<char>, ps: seq<FieldAt>, fs: seq<Field>, buf: int, z: int) {
    && |ps| == |fs|
    && forall k | 0 <= k < |fs| ::
         SettledIn(s, ps[k].name, fs[k].name, buf, z) && SettledIn(s, ps[k].value, fs[k].value, buf, z)
  }

  ghost predicate Settled(a: array<char>, p: int, w: seq<char>, buf: int, z: int)
    reads a
  {
    SettledIn(a[..], p, w, buf, z)
  }

  ghost predicate SettledFields(a: array<char>, ps: seq<FieldAt>, fs: seq<Field>, buf: int, z: int)
    reads a
  {
    FieldsIn(a[..], ps, fs, buf, z)
  }

  lemma StaysSettled(s: seq<char>, u: seq<char>, p: int, w: seq<char>, buf: int, next: int, z: int)
    requires SettledIn(s, p, w, buf, z) && 0 <= buf <= next <= z < |s| == |u|
    requires forall k | 0 <= k < |s| && !(buf <= k < next) :: u[k] == s[k]
    ensures SettledIn(u, p, w, next, z)
  {
  }

  /** Cutting from `buf` to `next` leaves the settled strings as they are. */
  lemma FieldsStaySettled(s: seq<char>, u: seq<char>, ps: seq<FieldAt>, fs: seq<Field>, buf: int, next: int, z: int)
    requires FieldsIn(s, ps, fs, buf, z) && 0 <= buf <= next <= z < |s| == |u|
    requires forall k | 0 <= k < |s| && !(buf <= k < next) :: u[k] == s[k]
    ensures FieldsIn(u, ps, fs, next, z)
  {
    hide SettledIn;
    forall k | 0 <= k < |fs|
      ensures SettledIn(u, ps[k].name, fs[k].name, next, z) && SettledIn(u, ps[k].value, fs[k].value, next, z)
    {
      StaysSettled(s, u, ps[k].name, fs[k].name, buf, next, z);
      StaysSettled(s, u, ps[k].value, fs[k].value, buf, next, z);
    }
  }

  /** A cut word is settled. */
  method SkipWord(a: array<char>, buf: nat, delimiters: seq<char>, whitespace: seq<char>, ghost t: seq<char>,
          ghost z: nat)
      returns (next: nat)
    requires Terminated(a, buf, z) && Holds(a, buf, z, t) && NUL !in delimiters && NUL !in whitespace
    modifies a
    ensures buf <= next == NextWord(t, buf, delimiters, whitespace, NUL) <= z
    ensures Settled(a, buf, CutWord(t, buf, delimiters, NUL).word, next, z)
    ensures Terminated(a, next, z) && Holds(a, next, z, t)
    ensures forall k | 0 <= k < a.Length && !(buf <= k < next) :: a[k] == old(a[k])
  {
    hide CutWord, NextWord;
    next := Skip(a, buf, delimiters, whitespace, t, z);
  }

  /** One header line: a name up to the colon, a value up to the end of the line. */
  method ParseHeader(a: array<char>, name: nat, ghost ps: seq<FieldAt>, ghost fs: seq<Field>,
          ghost t: seq<char>, ghost z: nat)
      returns (value: nat, next: nat)
    requires Terminated(a, name, z) && Holds(a, name, z, t) && SettledFields(a, ps, fs, name, z)
    modifies a
    ensures name <= value <= next <= z && Terminated(a, next, z) && Holds(a, next, z, t)
    ensures var (f, j, k) := FieldOf(t, name);
      && value == j && next == k && (a[name] == NUL <==> f.name == [])
      && SettledFields(a, ps + [FieldAt(name, value)], fs + [f], next, z)
    ensures SettledFields(a, ps, fs, next, z)
    ensures forall k | 0 <= k < a.Length && !(name <= k < next) :: a[k] == old(a[k])
  {
    hide CutWord, NextWord, FieldsIn, SettledIn;
    WordStartsPlain(t, name, COLON);
    ghost var before := a[..];
    value := SkipWord(a, name, COLON, SPACE, t, z);
    ghost var between := a[..];
    next := SkipWord(a, value, CRLF, CRLF, t, z);
    ghost var f := FieldOf(t, name).0;
    StaysSettled(between, a[..], name, f.name, value, next, z);
    SettledStart(a, name, f.name, next, z);
    FieldsStaySettled(before, a[..], ps, fs, name, next, z);
    SettledOneMore(a, ps, fs, FieldAt(name, value), f, next, z);
  }

  lemma WordStartsPlain(t: seq<char>, i: nat, delimiters: seq<char>)
    requires i <= |t| && forall k | i <= k < |t| :: t[k] != NUL
    ensures CutWord(t, i, delimiters, NUL).word != [] ==> CutWord(t, i, delimiters, NUL).word[0] != NUL
  {
    CutPlain(t, i, delimiters);
  }

  lemma UnfoldHeaderFields(t: seq<char>, i: nat, room: nat, done: seq<Field>)
    requires i <= |t|
    ensures var (f, _, next) := FieldOf(t, i);
      done + HeaderFields(t, i, room)
      == if room == 0 || f.name == [] then done else (done + [f]) + HeaderFields(t, next, room - 1)
  {
  }

  lemma NothingSettled(a: array<char>, buf: nat, z: nat)
    ensures SettledFields(a, [], [], buf, z)
  {
  }

  lemma SettledStart(a: array<char>, p: nat, w: seq<char>, buf: nat, z: nat)
    requires Settled(a, p, w, buf, z) && (w != [] ==> w[0] != NUL)
    ensures p < a.Length && (a[p] == NUL <==> w == [])
  {
  }

  lemma SettledLater(a: array<char>, ps: seq<FieldAt>, fs: seq<Field>, buf: nat, z: nat)
    requires buf <= z && SettledFields(a, ps, fs, buf, z)
    ensures SettledFields(a, ps, fs, z, z)
  {
  }

  lemma SettledOneMore(a: array<char>, ps: seq<FieldAt>, fs: seq<Field>, p: FieldAt, f: Field, buf: nat, z: nat)
    requires SettledFields(a, ps, fs, buf, z)
    requires Settled(a, p.name, f.name, buf, z) && Settled(a, p.value, f.value, buf, z)
    ensures SettledFields(a, ps + [p], fs + [f], buf, z)
  {
    hide SettledIn;
  }

  method ParseHttpHeaders(a: array<char>, buf0: nat, ri: RequestInfo, ghost t: seq<char>, ghost z: nat)
    requires Terminated(a, buf0, z) && Holds(a, buf0, z, t)
    modifies a, ri`headers
    ensures SettledFields(a, ri.headers, HeaderFields(t, buf0, MAX_HEADERS), z, z)
    ensures forall k | 0 <= k < a.Length && !(buf0 <= k < z) :: a[k] == old(a[k])
  {
    hide FieldOf, HeaderFields, SettledFields;
    var buf, i := buf0, 0;
    ri.headers := [];
    ghost var done: seq<Field> := [];
    ghost var all := HeaderFields(t, buf0, MAX_HEADERS);
    NothingSettled(a, buf0, z);
    assert all == done + HeaderFields(t, buf, MAX_HEADERS);
    while i < MAX_HEADERS
      invariant 0 <= i <= MAX_HEADERS && buf0 <= buf <= z
      invariant Terminated(a, buf, z) && Holds(a, buf, z, t)
      invariant all == done + HeaderFields(t, buf, MAX_HEADERS - i)
      invariant SettledFields(a, ri.headers, done, buf, z)
      invariant forall k | 0 <= k < a.Length && !(buf0 <= k < z) :: a[k] == old(a[k])
    {
      UnfoldHeaderFields(t, buf, MAX_HEADERS - i, done);
      var value, next := ParseHeader(a, buf, ri.headers, done, t, z);
      if a[buf] == NUL {
        SettledLater(a, ri.headers, done, next, z);
        return;
      }
      ri.headers := ri.headers + [FieldAt(buf, value)];
      done := done + [FieldOf(t, buf).0];
      buf := next;
      i := i + 1;
    }
    UnfoldHeaderFields(t, buf, 0, done);
    SettledLater(a, ri.headers, done, buf, z);
  }

  lemma SettledShows(a: array<char>, ri: RequestInfo, h: Head, z: int)
    requires Settled(a, ri.requestMethod, h.requestMethod, z, z) && Settled(a, ri.uri, h.uri, z, z)
    requires Settled(a, ri.httpVersion, h.httpVersion, z, z) && SettledFields(a, ri.headers, h.fields, z, z)
    ensures ri.Shows(a, h)
  {
    SettledString(a, ri.requestMethod, h.requestMethod, z, z);
    SettledString(a, ri.uri, h.uri, z, z);
    SettledString(a, ri.httpVersion, h.httpVersion, z, z);
    hide SettledIn;
    forall k | 0 <= k < |h.fields|
      ensures StringAt(a, ri.headers[k].name, h.fields[k].name) && StringAt(a, ri.headers[k].value, h.fields[k].value)
    {
      SettledString(a, ri.headers[k].name, h.fields[k].name, z, z);
      SettledString(a, ri.headers[k].value, h.fields[k].value, z, z);
    }
  }

  lemma SettledString(a: array<char>, p: int, w: seq<char>, buf: int, z: int)
    requires Settled(a, p, w, buf, z)
    ensures StringAt(a, p, w)
  {
  }

  /** Cuts up a header section that ends in a NUL. */
  method CutHead(a: array<char>, ri: RequestInfo, ghost t: seq<char>, ghost z: nat)
    requires Terminated(a, 0, z) && Holds(a, 0, z, t)
    modifies a, ri
    ensures ri.Shows(a, ParseHead(t))
    ensures forall k | z <= k < a.Length :: a[k] == old(a[k])
  {
    hide CutWord, NextWord, HeaderFields, ParseHead, SettledIn, FieldsIn, StringAt;
    var buf := ParseRequestLine(a, ri, t, z);
    ghost var before := a[..];
    ParseHttpHeaders(a, buf, ri, t, z);
    ghost var h := ParseHead(t);
    StaysSettled(before, a[..], ri.requestMethod, h.requestMethod, buf, z, z);
    StaysSettled(before, a[..], ri.uri, h.uri, buf, z, z);
    StaysSettled(before, a[..], ri.httpVersion, h.httpVersion, buf, z, z);
    SettledShows(a, ri, h, z);
  }

  /** Parses the message in the first `len` characters of the buffer. The header section is cut up in
      place; not one character after it is touched. */
  method ParseHttpMessage(a: array<char>, len: nat, ri: RequestInfo) returns (requestLength: int)
    requires len <= a.Length
    modifies a, ri
    ensures requestLength == RequestLen(old(a[..]), len)
    ensures requestLength > 0 ==> requestLength <= len && ri.Shows(a, ParseHead(old(a[..requestLength - 1])))
    ensures forall k | 0 <= k < a.Length && k >= requestLength :: a[k] == old(a[k])
  {
    hide ParseHead, Scan, StringAt;
    requestLength := GetRequestLen(a, len);
    if requestLength > 0 {
      ScanSkipsNoNul(a[..], len, 0);
      ghost var t := a[..requestLength - 1];
      a[requestLength - 1] := NUL;
      CutHead(a, ri, t, requestLength - 1);
    }
  }

  /** The three words of the first line. */
  method ParseRequestLine(a: array<char>, ri: RequestInfo, ghost t: seq<char>, ghost z: nat) returns (buf: nat)
    requires Terminated(a, 0, z) && Holds(a, 0, z, t)
    modifies a, ri`requestMethod, ri`uri, ri`httpVersion
    ensures buf <= z && Terminated(a, buf, z) && Holds(a, buf, z, t)
    ensures Settled(a, ri.requestMethod, ParseHead(t).requestMethod, buf, z)
    ensures Settled(a, ri.uri, ParseHead(t).uri, buf, z)
    ensures Settled(a, ri.httpVersion, ParseHead(t).httpVersion, buf, z)
    ensures ParseHead(t).fields == HeaderFields(t, buf, MAX_HEADERS)
    ensures forall k | z <= k < a.Length :: a[k] == old(a[k])
  {
    hide CutWord, NextWord, HeaderFields, SettledIn;
    ghost var h := ParseHead(t);
    buf := SkipWhitespace(a, t, z);
    ri.requestMethod := buf;
    buf := SkipWord(a, buf, SPACE, SPACE, t, z);
    ri.uri := buf;
    ghost var first := a[..];
    buf := SkipWord(a, buf, SPACE, SPACE, t, z);
    StaysSettled(first, a[..], ri.requestMethod, h.requestMethod, ri.uri, buf, z);
    ri.httpVersion := buf;
    ghost var second := a[..];
    buf := SkipWord(a, buf, CRLF, CRLF, t, z);
    StaysSettled(second, a[..], ri.requestMethod, h.requestMethod, ri.httpVersion, buf, z);
    StaysSettled(second, a[..], ri.uri, h.uri, ri.httpVersion, buf, z);
  }

  /** while (*buf != '\0' && isspace(*buf)) buf++; */
  method SkipWhitespace(a: array<char>, ghost t: seq<char>, ghost z: nat) returns (buf: nat)
    requires Terminated(a, 0, z) && Holds(a, 0, z, t)
    ensures buf == SkipSpace(t, 0) <= z
  {
    buf := 0;
    while a[buf] != NUL && IsSpace(a[buf])
      invariant 0 <= buf <= z && SkipSpace(t, 0) == SkipSpace(t, buf)
      decreases z - buf
    {
      buf := buf + 1;
    }
  }
}
