/** What a parsed request means to the server: whether it is valid, how long its body is declared to
    be, and whether the client wants to go on. */
module HttpRequest {
  import opened HttpMessage
  import opened Options
  import opened Tokenizer

  datatype Verdict = Bad | StrangeVersion | Valid

  const CONTENT_LENGTH := "Content-Length"
  const CONNECTION := "Connection"
  const KEEP_ALIVE := "keep-alive"
  const POST := "POST"
  const PUT := "PUT"

  // ---------------------------------------------------------------------------------------------
  // Specification, on strings
  // ---------------------------------------------------------------------------------------------

  predicate IsMethod(w: string) {
    w == "GET" || w == "POST" || w == "HEAD" || w == "CONNECT" || w == "PUT" || w == "DELETE" || w == "OPTIONS"
    || w == "PROPFIND"
  }

  predicate IsHttp(version: string) { |version| >= 5 && version[..5] == "HTTP/" }

  predicate IsUri(w: string) { (w != [] && w[0] == '/') || w == "*" }

  function VerdictOf(h: Head): Verdict {
    if !IsMethod(h.requestMethod) || !IsHttp(h.httpVersion) || !IsUri(h.uri) then Bad
    else if h.httpVersion[5..] != "1.0" && h.httpVersion[5..] != "1.1" then StrangeVersion
    else Valid
  }

  function ToLower(c: char): char { if 'A' <= c <= 'Z' then (c as int + 32) as char else c }

  predicate SameIgnoringCase(s: string, t: string) {
    |s| == |t| && forall k | 0 <= k < |s| :: ToLower(s[k]) == ToLower(t[k])
  }

  /** The value of the first field with a name. */
  function FindField(fs: seq<Field>, name: string): Option<string> {
    if fs == [] then None
    else if SameIgnoringCase(name, fs[0].name) then Some(fs[0].value)
    else FindField(fs[1..], name)
  }

  /** The declared length of the body; -1 means that it is not known. */
  function DeclaredLength(h: Head, number: string -> int): int {
    match FindField(h.fields, CONTENT_LENGTH)
    case Some(v) => number(v)
    case None =>
      if SameIgnoringCase(POST, h.requestMethod) || SameIgnoringCase(PUT, h.requestMethod) then -1 else 0
  }

  /** The client wants to keep the connection. */
  predicate WantsKeepAlive(h: Head) {
    match FindField(h.fields, CONNECTION)
    case Some(v) => SameIgnoringCase(KEEP_ALIVE, v)
    case None => IsHttp(h.httpVersion) && h.httpVersion[5..] == "1.1"
  }

  // ---------------------------------------------------------------------------------------------
  // What the functions say about a header section
  // ---------------------------------------------------------------------------------------------

  /** An upper-case letter and its lower-case form. */
  predicate CasesOf(u: char, l: char) { 'A' <= u <= 'Z' && l as int - 'a' as int == u as int - 'A' as int }

  /** Letters may differ in case, and nothing else. */
  lemma SameUpToCase(s: string, t: string)
    ensures SameIgnoringCase(s, t)
            <==> |s| == |t| && forall k | 0 <= k < |s| :: s[k] == t[k] || CasesOf(s[k], t[k]) || CasesOf(t[k], s[k])
  {
    if |s| == |t| {
      forall k | 0 <= k < |s|
        ensures ToLower(s[k]) == ToLower(t[k]) <==> s[k] == t[k] || CasesOf(s[k], t[k]) || CasesOf(t[k], s[k])
      {
        SameLetter(s[k], t[k]);
      }
    }
  }

  lemma SameLetter(c: char, d: char)
    ensures ToLower(c) == ToLower(d) <==> c == d || CasesOf(c, d) || CasesOf(d, c)
  {
  }

  /** The first field with a name, up to case. */
  ghost predicate IsFirst(fs: seq<Field>, name: string, k: nat) {
    && k < |fs| && SameIgnoringCase(name, fs[k].name)
    && forall j | 0 <= j < k :: !SameIgnoringCase(name, fs[j].name)
  }

  ghost predicate IsAbsent(fs: seq<Field>, name: string) {
    forall j | 0 <= j < |fs| :: !SameIgnoringCase(name, fs[j].name)
  }

  lemma {:induction false} FindFieldFirst(fs: seq<Field>, name: string)
    ensures forall k: nat | IsFirst(fs, name, k) :: FindField(fs, name) == Some(fs[k].value)
    ensures FindField(fs, name).None? <==> IsAbsent(fs, name)
    ensures FindField(fs, name).Some? ==> exists k: nat :: IsFirst(fs, name, k)
  {
    hide SameIgnoringCase;
    if fs != [] {
      if SameIgnoringCase(name, fs[0].name) {
        assert IsFirst(fs, name, 0);
      } else {
        FindFieldFirst(fs[1..], name);
        forall k: nat | IsFirst(fs, name, k)
          ensures k > 0 && IsFirst(fs[1..], name, k - 1)
        {
        }
        if k: nat :| IsFirst(fs[1..], name, k) {
          assert IsFirst(fs, name, k + 1);
        }
        assert IsAbsent(fs[1..], name) ==> IsAbsent(fs, name) by {
          assert forall j | 0 < j < |fs| :: fs[j] == fs[1..][j - 1];
        }
      }
    }
  }

  /** The first Connection field says keep-alive, up to case; or there is none, and the version is 1.1. */
  ghost predicate AsksToKeep(h: Head) {
    || (exists k: nat :: IsFirst(h.fields, "Connection", k) && SameIgnoringCase("keep-alive", h.fields[k].value))
    || (IsAbsent(h.fields, "Connection") && h.httpVersion == "HTTP/1.1")
  }

  lemma WantsKeepAliveIff(h: Head)
    ensures WantsKeepAlive(h) <==> AsksToKeep(h)
  {
    hide SameIgnoringCase, FindField;
    FindFieldFirst(h.fields, "Connection");
    if IsAbsent(h.fields, "Connection") {
      assert IsHttp(h.httpVersion) ==> h.httpVersion == "HTTP/" + h.httpVersion[5..];
      assert h.httpVersion == "HTTP/1.1" ==> h.httpVersion[5..] == "1.1";
    }
  }

  /** The first Content-Length field declares the length. Without one, the body of a POST or PUT is of unknown
      length, and any other request has none. */
  lemma DeclaredLengthIs(h: Head, number: string -> int)
    ensures forall k: nat | IsFirst(h.fields, "Content-Length", k) ::
              DeclaredLength(h, number) == number(h.fields[k].value)
    ensures IsAbsent(h.fields, "Content-Length") ==>
              DeclaredLength(h, number)
              == if SameIgnoringCase("POST", h.requestMethod) || SameIgnoringCase("PUT", h.requestMethod) then -1 else 0
  {
    hide SameIgnoringCase, FindField;
    FindFieldFirst(h.fields, "Content-Length");
  }

  /** A valid request: one of eight methods, one of two versions, and an absolute path or `*`. */
  ghost predicate IsRequestLine(h: Head, versions: set<string>) {
    && h.requestMethod in {"GET", "POST", "HEAD", "CONNECT", "PUT", "DELETE", "OPTIONS", "PROPFIND"}
    && h.httpVersion in versions
    && (h.uri == "*" || "/" <= h.uri)
  }

  /** What is answered 505 is such a request, but for its version of HTTP; everything else is bad. */
  lemma VerdictIs(h: Head)
    ensures VerdictOf(h) == Valid <==> IsRequestLine(h, {"HTTP/1.0", "HTTP/1.1"})
    ensures VerdictOf(h) == StrangeVersion
            <==> IsRequestLine(h, {h.httpVersion}) && "HTTP/" <= h.httpVersion
                 && h.httpVersion !in {"HTTP/1.0", "HTTP/1.1"}
  {
    var v := h.httpVersion;
    if IsHttp(v) {
      assert v == "HTTP/" + v[5..];
    }
    assert v == "HTTP/1.0" ==> v[..5] == "HTTP/" && v[5..] == "1.0";
    assert v == "HTTP/1.1" ==> v[..5] == "HTTP/" && v[5..] == "1.1";
    assert h.uri != [] && h.uri[0] == '/' ==> "/" <= h.uri;
  }

  ghost predicate NulFree(h: Head) {
    && NUL !in h.requestMethod && NUL !in h.uri && NUL !in h.httpVersion
    && forall f | f in h.fields :: NUL !in f.name && NUL !in f.value
  }

  lemma WordIsNulFree(t: string, i: nat, delimiters: seq<char>)
    requires i <= |t| && forall k | 0 <= k < |t| :: t[k] != NUL
    ensures NUL !in CutWord(t, i, delimiters, NUL).word
  {
    CutPlain(t, i, delimiters);
  }

  lemma {:induction false} FieldsAreNulFree(t: string, i: nat, room: nat)
    requires i <= |t| && forall k | 0 <= k < |t| :: t[k] != NUL
    ensures forall f | f in HeaderFields(t, i, room) :: NUL !in f.name && NUL !in f.value
    decreases room
  {
    hide CutWord, NextWord;
    if room > 0 {
      var j := NextWord(t, i, COLON, SPACE, NUL);
      WordIsNulFree(t, i, COLON);
      WordIsNulFree(t, j, CRLF);
      FieldsAreNulFree(t, NextWord(t, j, CRLF, CRLF, NUL), room - 1);
    }
  }

  /** A header section without NULs is parsed into strings without NULs. */
  lemma HeadIsNulFree(t: string)
    requires forall k | 0 <= k < |t| :: t[k] != NUL
    ensures NulFree(ParseHead(t))
  {
    hide CutWord, NextWord, HeaderFields;
    var i := SkipSpace(t, 0);
    var j := NextWord(t, i, SPACE, SPACE, NUL);
    var k := NextWord(t, j, SPACE, SPACE, NUL);
    WordIsNulFree(t, i, SPACE);
    WordIsNulFree(t, j, SPACE);
    WordIsNulFree(t, k, CRLF);
    FieldsAreNulFree(t, NextWord(t, k, CRLF, CRLF, NUL), MAX_HEADERS);
  }

  // ---------------------------------------------------------------------------------------------
  // The same on the buffer
  // ---------------------------------------------------------------------------------------------

  /** !strcmp(a + p, w) */
  method StrIs(a: array<char>, p: nat, w: string, ghost h: string) returns (same: bool)
    requires StringAt(a, p, h) && NUL !in h && NUL !in w
    ensures same <==> h == w
  {
    var k := 0;
    while k < |w| && a[p + k] == w[k]
      invariant 0 <= k <= |w| && k <= |h| && h[..k] == w[..k]
    {
      k := k + 1;
    }
    if k < |w| {
      return false;
    }
    same := a[p + k] == NUL;
    assert w[..k] == w;
    assert k == |h| ==> h[..k] == h;
  }

  /** !mg_strcasecmp(w, a + p) */
  method StrIsIgnoringCase(a: array<char>, p: nat, w: string, ghost h: string) returns (same: bool)
    requires StringAt(a, p, h) && NUL !in h && NUL !in w
    ensures same <==> SameIgnoringCase(w, h)
  {
    var k := 0;
    while k < |w| && ToLower(a[p + k]) == ToLower(w[k])
      invariant 0 <= k <= |w| && k <= |h|
      invariant forall m | 0 <= m < k :: ToLower(h[m]) == ToLower(w[m])
    {
      k := k + 1;
    }
    same := k == |w| && a[p + k] == NUL;
  }

  /** !strncmp(a + p, "HTTP/", 5) */
  method StartsWithHttp(a: array<char>, p: nat, ghost h: string) returns (yes: bool)
    requires StringAt(a, p, h) && NUL !in h
    ensures yes <==> IsHttp(h)
  {
    var k := 0;
    while k < 5 && a[p + k] == "HTTP/"[k]
      invariant 0 <= k <= 5 && k <= |h| && h[..k] == "HTTP/"[..k]
    {
      k := k + 1;
    }
    yes := k == 5;
    assert !yes && |h| >= 5 ==> h[..5][k] == h[k] != "HTTP/"[k];
  }

  method IsValidHttpMethod(a: array<char>, p: nat, ghost h: string) returns (valid: bool)
    requires StringAt(a, p, h) && NUL !in h
    ensures valid <==> IsMethod(h)
  {
    valid := StrIs(a, p, "GET", h);
    if valid {
      return;
    }
    valid := StrIs(a, p, POST, h);
    if valid {
      return;
    }
    valid := StrIs(a, p, "HEAD", h);
    if valid {
      return;
    }
    valid := StrIs(a, p, "CONNECT", h);
    if valid {
      return;
    }
    valid := StrIs(a, p, PUT, h);
    if valid {
      return;
    }
    valid := StrIs(a, p, "DELETE", h);
    if valid {
      return;
    }
    valid := StrIs(a, p, "OPTIONS", h);
    if valid {
      return;
    }
    valid := StrIs(a, p, "PROPFIND", h);
  }

  /** What is known of the request record once the request is parsed; the version of a request that is
      not bad goes without its leading HTTP/. */
  ghost predicate ShowsRequest(a: array<char>, ri: RequestInfo, h: Head)
    reads a, ri
  {
    && StringAt(a, ri.requestMethod, h.requestMethod) && StringAt(a, ri.uri, h.uri)
    && (IsMethod(h.requestMethod) && IsHttp(h.httpVersion) ==> StringAt(a, ri.httpVersion, h.httpVersion[5..]))
    && ShowsFields(a, ri.headers, h.fields)
  }

  /** Parses the message and checks method and protocol. */
  method ParseHttpRequest(a: array<char>, len: nat, ri: RequestInfo) returns (result: int)
    requires len <= a.Length
    modifies a, ri
    ensures var n := RequestLen(old(a[..]), len);
      if n > 0 then
        && n <= len
        && var h := ParseHead(old(a[..n - 1]));
        && result == (if IsMethod(h.requestMethod) && IsHttp(h.httpVersion) then n else -1)
        && ShowsRequest(a, ri, h) && NulFree(h)
      else result == -1
    ensures forall k | 0 <= k < a.Length && k >= RequestLen(old(a[..]), len) :: a[k] == old(a[k])
  {
    hide RequestLen, ParseHead, StringAt, ShowsFields, NulFree, IsMethod, IsHttp;
    ghost var before := a[..];
    result := ParseHttpMessage(a, len, ri);
    if result > 0 {
      NoNulBefore(before, len);
      ghost var h := ParseHead(before[..result - 1]);
      HeadIsNulFree(before[..result - 1]);
      result := CheckProtocol(a, ri, h, result);
    } else {
      result := -1;
    }
  }

  lemma NoNulBefore(t: string, n: nat)
    requires n <= |t| && RequestLen(t, n) > 0
    ensures 2 <= RequestLen(t, n) <= n
    ensures var head := t[..RequestLen(t, n) - 1]; forall k | 0 <= k < |head| :: head[k] != NUL
  {
    ScanSkipsNoNul(t, n, 0);
  }

  method CheckProtocol(a: array<char>, ri: RequestInfo, ghost h: Head, length: int) returns (result: int)
    requires ri.Shows(a, h) && NulFree(h)
    modifies ri`httpVersion
    ensures result == if IsMethod(h.requestMethod) && IsHttp(h.httpVersion) then length else -1
    ensures ShowsRequest(a, ri, h)
  {
    hide IsMethod, ShowsFields;
    result := -1;
    var valid := IsValidHttpMethod(a, ri.requestMethod, h.requestMethod);
    if valid {
      var http := StartsWithHttp(a, ri.httpVersion, h.httpVersion);
      if http {
        StringTail(a, ri.httpVersion, h.httpVersion, 5);
        ri.httpVersion := ri.httpVersion + 5;
        result := length;
      }
    }
  }

  lemma StringTail(a: array<char>, p: nat, w: string, n: nat)
    requires StringAt(a, p, w) && n <= |w|
    ensures StringAt(a, p + n, w[n..])
  {
  }

  method IsValidUri(a: array<char>, p: nat, ghost w: string) returns (valid: bool)
    requires StringAt(a, p, w) && NUL !in w
    ensures valid <==> IsUri(w)
  {
    valid := a[p] == '/' || (a[p] == '*' && a[p + 1] == NUL);
  }

  /** The value of the first field with a name, as a position in the buffer. */
  method GetHeader(a: array<char>, ri: RequestInfo, name: string, ghost fs: seq<Field>) returns (value: Option<nat>)
    requires ShowsFields(a, ri.headers, fs) && NUL !in name
    requires forall f | f in fs :: NUL !in f.name && NUL !in f.value
    ensures match FindField(fs, name)
      case None => value.None?
      case Some(v) => value.Some? && StringAt(a, value.value, v) && NUL !in v
  {
    hide StringAt, SameIgnoringCase;
    var i := 0;
    while i < |ri.headers|
      invariant 0 <= i <= |ri.headers| && FindField(fs, name) == FindField(fs[i..], name)
    {
      assert fs[i] in fs && fs[i..][1..] == fs[i + 1..];
      var same := StrIsIgnoringCase(a, ri.headers[i].name, name, fs[i].name);
      if same {
        return Some(ri.headers[i].value);
      }
      i := i + 1;
    }
    value := None;
  }

  /** The declared length of the body of a valid request. */
  method ContentLength(a: array<char>, ri: RequestInfo, number: string -> int, ghost h: Head) returns (n: int)
    requires ShowsRequest(a, ri, h) && NulFree(h)
    ensures n == DeclaredLength(h, number)
  {
    hide StringAt, SameIgnoringCase, FindField;
    var cl := GetHeader(a, ri, CONTENT_LENGTH, h.fields);
    match cl
    case Some(p) =>
      var digits := ReadString(a, p, FindField(h.fields, CONTENT_LENGTH).value);
      n := number(digits);
    case None =>
      var post := StrIsIgnoringCase(a, ri.requestMethod, POST, h.requestMethod);
      var put := StrIsIgnoringCase(a, ri.requestMethod, PUT, h.requestMethod);
      n := if post || put then -1 else 0;
  }

  /** Whether the client wants to keep the connection, for a request that is not bad. */
  method ConnectionHeader(a: array<char>, ri: RequestInfo, ghost h: Head) returns (keep: bool)
    requires ShowsRequest(a, ri, h) && NulFree(h) && VerdictOf(h) != Bad
    ensures keep <==> WantsKeepAlive(h)
  {
    hide StringAt, SameIgnoringCase, FindField, IsMethod, IsUri;
    var header := GetHeader(a, ri, CONNECTION, h.fields);
    match header
    case Some(p) =>
      keep := StrIsIgnoringCase(a, p, KEEP_ALIVE, FindField(h.fields, CONNECTION).value);
    case None =>
      TailIsNulFree(h.httpVersion, 5);
      keep := StrIs(a, ri.httpVersion, "1.1", h.httpVersion[5..]);
  }

  lemma TailIsNulFree(w: string, n: nat)
    requires NUL !in w && n <= |w|
    ensures NUL !in w[n..]
  {
  }
}
