/** The server-side-include scanner: it copies a file to the client, cutting out `<!--#...>` tags and
    replacing them by what they include. */
module Ssi {
  import opened Options

  const BUF_LEN := 8192
  const MARK := "<!--#"
  const MAX_LEVEL := 10

  /** What becomes of the bytes of a file, in order. */
  datatype Piece =
    | Text(s: string)      // written to the client
    | Tag(s: string)       // a complete tag
    | Dropped(s: string)   // the beginning of a tag that is too long

  /** The scanner between two bytes of the file. */
  datatype Scanner = Scanner(inTag: bool, buf: string)

  predicate HasPrefix(s: string, p: string) { |p| <= |s| && s[..|p|] == p }

  /** The scanner, and the pieces that have left it. */
  datatype Progress = Progress(st: Scanner, pieces: seq<Piece>)

  /** One byte: what the scanner is afterwards, and what has left it. */
  function Step(st: Scanner, ch: char): Progress {
    var b := st.buf + [ch];
    if st.inTag && ch == '>' then
      Progress(Scanner(false, []), if |b| < 6 || !HasPrefix(b, MARK) then [Text(b)] else [Tag(b)])
    else if st.inTag then
      if |st.buf| == 5 && !HasPrefix(st.buf, MARK) then Progress(Scanner(false, b), [])
      else if |st.buf| == BUF_LEN - 2 then Progress(Scanner(true, [ch]), [Dropped(st.buf)])
      else Progress(Scanner(true, b), [])
    else if ch == '<' then
      Progress(Scanner(true, [ch]), if st.buf == [] then [] else [Text(st.buf)])
    else if |b| == BUF_LEN then Progress(Scanner(false, []), [Text(b)])
    else Progress(Scanner(false, b), [])
  }

  /** The first `n` bytes of a file. */
  function Scan(file: string, n: nat): Progress
    requires n <= |file|
  {
    if n == 0 then Progress(Scanner(false, []), [])
    else
      var before := Scan(file, n - 1);
      var now := Step(before.st, file[n - 1]);
      Progress(now.st, before.pieces + now.pieces)
  }

  /** What is still buffered at the end of the file is text. */
  function Rest(st: Scanner): seq<Piece> { if st.buf == [] then [] else [Text(st.buf)] }

  function Pieces(file: string): seq<Piece> {
    Scan(file, |file|).pieces + Rest(Scan(file, |file|).st)
  }

  function Joined(ps: seq<Piece>): string {
    if ps == [] then [] else Joined(ps[..|ps| - 1]) + ps[|ps| - 1].s
  }

  // ---------------------------------------------------------------------------------------------
  // Nothing is lost, doubled or reordered
  // ---------------------------------------------------------------------------------------------

  /** What the scanner keeps in its buffer. */
  ghost predicate Valid(st: Scanner) {
    && (if st.inTag then 1 <= |st.buf| <= BUF_LEN - 2 && '>' !in st.buf else |st.buf| < BUF_LEN)
    && (st.inTag && |st.buf| > 5 ==> HasPrefix(st.buf, MARK))
  }

  /** A tag begins with the mark and ends at its first `>`; what is dropped begins with the mark. */
  ghost predicate WellFormed(p: Piece) {
    match p
    case Text(s) => s != []
    case Tag(s) => 6 <= |s| < BUF_LEN && HasPrefix(s, MARK) && s[|s| - 1] == '>' && '>' !in s[..|s| - 1]
    case Dropped(s) => |s| == BUF_LEN - 2 && HasPrefix(s, MARK)
  }

  /** The pieces and the buffer hold exactly the given text. */
  ghost predicate Covers(p: Progress, text: string) {
    Valid(p.st) && (forall q | q in p.pieces :: WellFormed(q)) && Joined(p.pieces) + p.st.buf == text
  }

  lemma StepCovers(st: Scanner, ch: char)
    requires Valid(st)
    ensures Covers(Step(st, ch), st.buf + [ch])
  {
    var qs := Step(st, ch).pieces;
    if |qs| == 1 {
      assert qs[..0] == [];
      assert Joined(qs) == [] + qs[0].s;
    }
    if |st.buf| >= 5 {
      FrontOfLonger(st.buf, ch, 5);
    }
    FrontOfLonger(st.buf, ch, |st.buf|);
  }

  lemma FrontOfLonger(b: string, ch: char, n: nat)
    requires n <= |b|
    ensures (b + [ch])[..n] == b[..n] && b[..|b|] == b
  {
  }

  lemma {:induction false} JoinedConcat(ps: seq<Piece>, qs: seq<Piece>)
    ensures Joined(ps + qs) == Joined(ps) + Joined(qs)
  {
    if qs == [] {
      assert ps + qs == ps;
    } else {
      var r := ps + qs;
      assert r[..|r| - 1] == ps + qs[..|qs| - 1];
      JoinedConcat(ps, qs[..|qs| - 1]);
    }
  }

  lemma CoversExtend(p: Progress, text: string, q: Progress, ch: char)
    requires Covers(p, text) && Covers(q, p.st.buf + [ch])
    ensures Covers(Progress(q.st, p.pieces + q.pieces), text + [ch])
  {
    hide Valid, WellFormed, Joined;
    JoinedConcat(p.pieces, q.pieces);
    var j, k := Joined(p.pieces), Joined(q.pieces);
    assert (j + k) + q.st.buf == j + (k + q.st.buf) == j + (p.st.buf + [ch]) == (j + p.st.buf) + [ch];
  }

  lemma PrefixGrows(file: string, n: nat)
    requires 0 < n <= |file|
    ensures file[..n] == file[..n - 1] + [file[n - 1]]
  {
  }

  lemma ScanStarts(file: string)
    ensures Covers(Scan(file, 0), file[..0])
  {
  }

  lemma {:induction false} ScanCovers(file: string, n: nat)
    requires n <= |file|
    ensures Covers(Scan(file, n), file[..n])
  {
    hide Step, Covers, Valid;
    if n == 0 {
      ScanStarts(file);
    } else {
      ScanCovers(file, n - 1);
      var before := Scan(file, n - 1);
      CoversIsValid(before, file[..n - 1]);
      StepCovers(before.st, file[n - 1]);
      CoversExtend(before, file[..n - 1], Step(before.st, file[n - 1]), file[n - 1]);
      PrefixGrows(file, n);
    }
  }

  lemma CoversIsValid(p: Progress, text: string)
    requires Covers(p, text)
    ensures Valid(p.st)
  {
  }

  /** Every byte of the file ends up in exactly one piece, in order; tags and dropped pieces begin
      with the mark. */
  lemma PiecesCoverFile(file: string)
    ensures Joined(Pieces(file)) == file
    ensures forall p | p in Pieces(file) :: WellFormed(p)
  {
    ScanCovers(file, |file|);
    var p := Scan(file, |file|);
    hide Scan;
    assert file[..|file|] == file;
    JoinedConcat(p.pieces, Rest(p.st));
    if p.st.buf != [] {
      assert Rest(p.st)[..0] == [];
      assert Joined(Rest(p.st)) == [] + p.st.buf;
    } else {
      assert Joined(p.pieces) + [] == file;
    }
  }

  // ---------------------------------------------------------------------------------------------
  // Files without tags
  // ---------------------------------------------------------------------------------------------

  ghost predicate FoundAt(file: string, i: nat, p: string) {
    i + |p| <= |file| && file[i..i + |p|] == p
  }

  ghost predicate Contains(file: string, p: string) {
    exists i: nat :: FoundAt(file, i, p)
  }

  lemma {:induction false} PieceIsInside(ps: seq<Piece>, q: Piece)
    requires q in ps && HasPrefix(q.s, MARK)
    ensures Contains(Joined(ps), MARK)
  {
    var front, last := ps[..|ps| - 1], ps[|ps| - 1];
    if q == last {
      FoundInTail(Joined(front), last.s);
    } else {
      PieceIsInside(front, q);
      FoundInFront(Joined(front), last.s);
    }
  }

  lemma FoundInTail(x: string, y: string)
    requires HasPrefix(y, MARK)
    ensures Contains(x + y, MARK)
  {
    assert (x + y)[|x|..|x| + |MARK|] == y[..|MARK|];
    assert FoundAt(x + y, |x|, MARK);
  }

  lemma FoundInFront(x: string, y: string)
    requires Contains(x, MARK)
    ensures Contains(x + y, MARK)
  {
    var i: nat :| FoundAt(x, i, MARK);
    assert (x + y)[i..i + |MARK|] == x[i..i + |MARK|];
    assert FoundAt(x + y, i, MARK);
  }

  /** A file that nowhere contains the mark consists of text pieces only. */
  lemma NoMarkNoTag(file: string)
    requires !Contains(file, MARK)
    ensures forall p | p in Pieces(file) :: p.Text?
  {
    PiecesCoverFile(file);
    forall p | p in Pieces(file)
      ensures p.Text?
    {
      if !p.Text? {
        assert WellFormed(p);
        PieceIsInside(Pieces(file), p);
      }
    }
  }

  // ---------------------------------------------------------------------------------------------
  // Includes
  // ---------------------------------------------------------------------------------------------

  /** What the scanner cannot see: the files, which file an include tag means, which files are scanned
      in turn, and what commands print. */
  datatype Env = Env(
    files: map<string, string>, target: (string, string) -> Option<string>, isSsi: string -> bool,
    exec: string -> string)

  /** How many more levels of inclusion there may be. */
  function Depth(level: nat): nat { if level <= MAX_LEVEL then MAX_LEVEL + 1 - level else 0 }

  function RenderFile(env: Env, path: string, file: string, level: nat): string
    decreases Depth(level), 3, 0
  {
    if level > MAX_LEVEL then [] else RenderPieces(env, path, Pieces(file), level)
  }

  function RenderPieces(env: Env, path: string, ps: seq<Piece>, level: nat): string
    requires level <= MAX_LEVEL
    decreases Depth(level), 2, |ps|
  {
    if ps == [] then []
    else RenderPieces(env, path, ps[..|ps| - 1], level) + RenderPiece(env, path, ps[|ps| - 1], level)
  }

  function RenderPiece(env: Env, path: string, p: Piece, level: nat): string
    requires level <= MAX_LEVEL
    decreases Depth(level), 1, 0
  {
    match p
    case Text(s) => s
    case Dropped(s) => []
    case Tag(s) =>
      if |s| >= 12 && s[5..12] == "include" then RenderInclude(env, path, s[12..], level)
      else if |s| >= 9 && s[5..9] == "exec" then env.exec(s[9..])
      else []
  }

  function RenderInclude(env: Env, path: string, tag: string, level: nat): string
    requires level <= MAX_LEVEL
    decreases Depth(level), 0, 0
  {
    match env.target(path, tag)
    case None => []
    case Some(p) =>
      if p !in env.files then []
      else if env.isSsi(p) then RenderFile(env, p, env.files[p], level + 1)
      else env.files[p]
  }

  lemma {:induction false} TextIsCopied(env: Env, path: string, ps: seq<Piece>, level: nat)
    requires level <= MAX_LEVEL && forall p | p in ps :: p.Text?
    ensures RenderPieces(env, path, ps, level) == Joined(ps)
  {
    if ps != [] {
      TextIsCopied(env, path, ps[..|ps| - 1], level);
      assert ps[|ps| - 1] in ps;
    }
  }

  /** A file without the mark is sent byte for byte. */
  lemma PlainFileIsCopied(env: Env, path: string, file: string, level: nat)
    requires level <= MAX_LEVEL && !Contains(file, MARK)
    ensures RenderFile(env, path, file, level) == file
  {
    NoMarkNoTag(file);
    PiecesCoverFile(file);
    TextIsCopied(env, path, Pieces(file), level);
  }

  lemma {:induction false} RenderConcat(env: Env, path: string, ps: seq<Piece>, qs: seq<Piece>, level: nat)
    requires level <= MAX_LEVEL
    ensures RenderPieces(env, path, ps + qs, level)
         == RenderPieces(env, path, ps, level) + RenderPieces(env, path, qs, level)
    decreases |qs|
  {
    hide RenderPiece;
    if qs == [] {
      assert ps + qs == ps;
    } else {
      var r := ps + qs;
      assert r[..|r| - 1] == ps + qs[..|qs| - 1];
      RenderConcat(env, path, ps, qs[..|qs| - 1], level);
    }
  }

  /** The connection, as far as the scanner is concerned: what has been written to the client. */
  class Connection {
    const env: Env
    var out: string

    constructor (env: Env)
      ensures this.env == env && out == []
    {
      this.env := env;
      out := [];
    }

    method Write(data: string)
      modifies this`out
      ensures out == old(out) + data
    {
      out := out + data;
    }

    method DoSsiInclude(path: string, tag: string, level: nat)
      requires level <= MAX_LEVEL
      modifies this`out
      ensures out == old(out) + RenderInclude(env, path, tag, level)
      decreases Depth(level), 0
    {
      var p := env.target(path, tag);
      if p.None? {
        return;
      }
      if p.value !in env.files {
        return;
      }
      var file := env.files[p.value];
      if env.isSsi(p.value) {
        SendSsiFile(p.value, file, level + 1);
      } else {
        Write(file);
      }
    }

    /** memcmp(buf + off, word, |word|) == 0 */
    method BufHas(buf: array<char>, off: nat, word: string) returns (b: bool)
      requires off + |word| <= buf.Length
      ensures b <==> buf[off..off + |word|] == word
    {
      var k := 0;
      while k < |word| && buf[off + k] == word[k]
        invariant 0 <= k <= |word| && buf[off..off + k] == word[..k]
      {
        k := k + 1;
      }
      b := k == |word|;
      if !b {
        assert buf[off..off + |word|][k] != word[k];
      }
    }

    /** The bytes of a tag or of plain text that only looked like one. */
    method CloseTag(path: string, buf: array<char>, len: nat, level: nat)
      requires buf.Length == BUF_LEN && 1 <= len < BUF_LEN && level <= MAX_LEVEL
      requires buf[len - 1] == '>' && buf[len] == '\0'
      modifies this`out
      ensures var b := buf[..len];
        out == old(out) + RenderPiece(env, path, if len < 6 || !HasPrefix(b, MARK) then Text(b) else Tag(b), level)
      decreases Depth(level), 1
    {
      hide RenderInclude;
      ghost var b := buf[..len];
      var marked := BufHas(buf, 0, MARK);
      assert len >= 6 ==> b[..5] == buf[0..0 + |MARK|];
      if len < 6 || !marked {
        Write(buf[..len]);
      } else {
        CompareStops(buf, len, "include", 7);
        CompareStops(buf, len, "exec", 4);
        var isInclude := BufHas(buf, 5, "include");
        var isExec := BufHas(buf, 5, "exec");
        if isInclude {
          assert b[12..] == buf[12..len];
          DoSsiInclude(path, buf[12..len], level);
        } else if isExec {
          assert b[9..] == buf[9..len];
          Write(env.exec(buf[9..len]));
        }
      }
    }

    /** Comparing with a word never gets past the closing `>`, so leftovers behind the tag do not
        matter. */
    lemma CompareStops(buf: array<char>, len: nat, word: string, n: nat)
      requires buf.Length == BUF_LEN && 6 <= len < BUF_LEN && buf[len - 1] == '>'
      requires n == |word| <= 7 && '>' !in word
      ensures buf[5..5 + n] == word <==> (len >= 5 + n && buf[..len][5..5 + n] == word)
    {
      if len < 5 + n {
        assert buf[5..5 + n][len - 6] == '>';
        assert word[len - 6] != '>';
      }
    }

    /** The pieces that one byte of the file releases, as they reach the client. */
    ghost function Released(path: string, st: Scanner, ch: char, level: nat): string
      requires level <= MAX_LEVEL
    {
      RenderPieces(env, path, Step(st, ch).pieces, level)
    }

    lemma ReleasedOne(path: string, p: Piece, level: nat)
      requires level <= MAX_LEVEL
      ensures RenderPieces(env, path, [p], level) == RenderPiece(env, path, p, level)
    {
      hide RenderPiece;
      assert [p][..0] == [];
      assert RenderPieces(env, path, [p], level) == [] + RenderPiece(env, path, p, level);
    }

    /** One turn of the loop over the bytes of the file. */
    method ScanByte(path: string, ch: char, ghost st: Scanner, buf: array<char>, inTag0: bool, len0: nat, level: nat)
        returns (inTag: bool, len: nat)
      requires level <= MAX_LEVEL && buf.Length == BUF_LEN
      requires Valid(st) && len0 == |st.buf| && st == Scanner(inTag0, buf[..len0])
      modifies buf, this`out
      ensures len <= BUF_LEN && Step(st, ch).st == Scanner(inTag, buf[..len])
      ensures out == old(out) + Released(path, st, ch, level)
      decreases Depth(level), 2
    {
      hide RenderPieces, RenderPiece;
      inTag, len := inTag0, len0;
      assert RenderPieces(env, path, [], level) == [] by { NothingReleased(path, level); }
      if inTag && ch == '>' {
        inTag := false;
        buf[len] := ch;
        len := len + 1;
        buf[len] := '\0';
        assert buf[..len] == st.buf + [ch];
        CloseTag(path, buf, len, level);
        ReleasedOne(path, Step(st, ch).pieces[0], level);
        len := 0;
      } else if inTag {
        var marked := BufHas(buf, 0, MARK);
        assert buf[0..0 + |MARK|] == buf[..5];
        if len == 5 && !marked {
          inTag := false;
        } else if len == BUF_LEN - 2 {
          ReleasedOne(path, Dropped(st.buf), level);
          NothingFromDropped(path, st.buf, level);
          len := 0;
        }
        buf[len] := ch;
        len := len + 1;
        assert buf[..len] == if len == 1 then [ch] else st.buf + [ch];
      } else if ch == '<' {
        inTag := true;
        if len > 0 {
          TextReleased(path, st.buf, level);
          Write(buf[..len]);
        }
        len := 0;
        buf[len] := ch;
        len := len + 1;
        assert buf[..len] == [ch];
      } else {
        buf[len] := ch;
        len := len + 1;
        assert buf[..len] == st.buf + [ch];
        if len == BUF_LEN {
          TextReleased(path, st.buf + [ch], level);
          Write(buf[..len]);
          len := 0;
        }
      }
    }

    lemma NothingReleased(path: string, level: nat)
      requires level <= MAX_LEVEL
      ensures RenderPieces(env, path, [], level) == []
    {
    }

    lemma NothingFromDropped(path: string, s: string, level: nat)
      requires level <= MAX_LEVEL
      ensures RenderPiece(env, path, Dropped(s), level) == []
    {
    }

    lemma TextReleased(path: string, s: string, level: nat)
      requires level <= MAX_LEVEL
      ensures RenderPieces(env, path, [Text(s)], level) == s
    {
      ReleasedOne(path, Text(s), level);
    }

    /** Sends a file, with its tags replaced; beyond the last level nothing is sent. */
    method SendSsiFile(path: string, file: string, level: nat)
      modifies this`out
      ensures out == old(out) + RenderFile(env, path, file, level)
      decreases Depth(level), 3
    {
      if level > MAX_LEVEL {
        return;
      }
      hide Scan, Step, RenderPieces, RenderFile;
      var buf := new char[BUF_LEN];
      var inTag, len, offset := false, 0, 0;
      ghost var sent: string := [];
      StartScan(path, file, level);
      while offset < |file|
        invariant 0 <= offset <= |file| && 0 <= len <= BUF_LEN
        invariant Scan(file, offset).st == Scanner(inTag, buf[..len])
        invariant sent == RenderPieces(env, path, Scan(file, offset).pieces, level) && out == old(out) + sent
      {
        NextScan(path, file, offset, level);
        ghost var st := Scan(file, offset).st;
        Glue(old(out), sent, Released(path, st, file[offset], level));
        sent := sent + Released(path, st, file[offset], level);
        inTag, len := ScanByte(path, file[offset], st, buf, inTag, len, level);
        offset := offset + 1;
      }
      FinishScan(path, file, level);
      Glue(old(out), sent, buf[..len]);
      if len > 0 {
        Write(buf[..len]);
      }
    }

    lemma Glue(x: string, y: string, z: string)
      ensures (x + y) + z == x + (y + z)
    {
    }

    lemma StartScan(path: string, file: string, level: nat)
      requires level <= MAX_LEVEL
      ensures Scan(file, 0).st == Scanner(false, []) && RenderPieces(env, path, Scan(file, 0).pieces, level) == []
    {
    }

    lemma NextScan(path: string, file: string, n: nat, level: nat)
      requires level <= MAX_LEVEL && n < |file|
      ensures Valid(Scan(file, n).st) && Scan(file, n + 1).st == Step(Scan(file, n).st, file[n]).st
      ensures RenderPieces(env, path, Scan(file, n + 1).pieces, level)
           == RenderPieces(env, path, Scan(file, n).pieces, level) + Released(path, Scan(file, n).st, file[n], level)
    {
      hide RenderPieces, Step;
      ScanCovers(file, n);
      RenderConcat(env, path, Scan(file, n).pieces, Step(Scan(file, n).st, file[n]).pieces, level);
    }

    lemma FinishScan(path: string, file: string, level: nat)
      requires level <= MAX_LEVEL
      ensures var end := Scan(file, |file|);
        RenderFile(env, path, file, level) == RenderPieces(env, path, end.pieces, level) + end.st.buf
    {
      hide Scan;
      var end := Scan(file, |file|);
      RenderConcat(env, path, end.pieces, Rest(end.st), level);
      TextReleased(path, end.st.buf, level);
    }
  }
}
