/** What the client gets for a page with a tag in it, in terms of the files and of what commands print. */
module SsiPages {
  import opened Options
  import opened Ssi
  import opened SsiTags

  const INCLUDE := "<!--#include"
  const EXEC := "<!--#exec"

  /** Text that begins no tag. */
  ghost predicate Plain(t: string) { '<' !in t }

  /** A tag that fits the buffer. */
  ghost predicate IsTag(s: string) {
    6 <= |s| < 8192 && "<!--#" <= s && s[|s| - 1] == '>' && '>' !in s[..|s| - 1]
  }

  function Page(before: string, tag: string, after: string): string { before + (tag + after) }

  // ---------------------------------------------------------------------------------------------
  // The pieces of a page
  // ---------------------------------------------------------------------------------------------

  lemma {:induction false} PlainBefore(file: string, i: nat)
    requires i <= |file| && forall k | 0 <= k < i :: file[k] != '<'
    ensures !Scan(file, i).st.inTag && forall p | p in Scan(file, i).pieces :: p.Text?
  {
    hide HasPrefix;
    if i > 0 {
      PlainBefore(file, i - 1);
    }
  }

  lemma {:induction false} PlainAfter(file: string, m: nat, n: nat) returns (more: seq<Piece>)
    requires m <= n <= |file| && !Scan(file, m).st.inTag && forall k | m <= k < n :: file[k] != '<'
    ensures !Scan(file, n).st.inTag && Scan(file, n).pieces == Scan(file, m).pieces + more
    ensures forall p | p in more :: p.Text?
    decreases n
  {
    hide HasPrefix;
    if m == n {
      more := [];
    } else {
      var front := PlainAfter(file, m, n - 1);
      var now := Step(Scan(file, n - 1).st, file[n - 1]).pieces;
      more := front + now;
      assert (Scan(file, m).pieces + front) + now == Scan(file, m).pieces + (front + now);
    }
  }

  lemma TagStands(before: string, s: string, after: string)
    requires IsTag(s)
    ensures TagAt(Page(before, s, after), |before|, |s|)
    ensures Page(before, s, after)[|before|..|before| + |s|] == s
    ensures Page(before, s, after)[..|before|] == before
  {
    var file := Page(before, s, after);
    assert file[|before|..|before| + |MARK|] == s[..|MARK|];
    forall k | |before| <= k < |before| + |s| - 1
      ensures file[k] != '>'
    {
      assert file[k] == s[..|s| - 1][k - |before|];
    }
  }

  lemma PlainParts(before: string, s: string, after: string)
    requires Plain(before) && Plain(after)
    ensures var file := Page(before, s, after);
      && (forall k | 0 <= k < |before| :: file[k] != '<')
      && (forall k | |before| + |s| <= k < |file| :: file[k] != '<')
  {
    var file := Page(before, s, after);
    forall k | |before| + |s| <= k < |file|
      ensures file[k] != '<'
    {
      assert file[k] == after[k - |before| - |s|];
    }
  }

  /** The text before the tag, the tag, and the text after it. */
  lemma PiecesOfPage(before: string, s: string, after: string) returns (xs: seq<Piece>, ys: seq<Piece>)
    requires IsTag(s) && Plain(before) && Plain(after)
    ensures Pieces(Page(before, s, after)) == (xs + [Tag(s)]) + ys
    ensures (forall p | p in xs :: p.Text?) && (forall p | p in ys :: p.Text?)
    ensures Joined(xs) == before && Joined(ys) == after
  {
    hide Step, Valid, WellFormed, Joined, HasPrefix, Scan, IsTag, Plain, TagAt, Page;
    var file := Page(before, s, after);
    var i, m := |before|, |before| + |s|;
    TagStands(before, s, after);
    PlainParts(before, s, after);
    TagFits(s);
    PlainBefore(file, i);
    TagInFile(file, i, |s|);
    TagIsFound(file, i, |s|);
    xs := Scan(file, i).pieces + Rest(Scan(file, i).st);
    var more := PlainAfter(file, m, |file|);
    ys := more + Rest(Scan(file, |file|).st);
    assert (xs + [Tag(s)] + more) + Rest(Scan(file, |file|).st) == (xs + [Tag(s)]) + ys;
    JoinedBefore(file, i);
    JoinedAround(before, Tag(s), after, xs, ys);
  }

  lemma TagFits(s: string)
    requires IsTag(s)
    ensures |s| < BUF_LEN
  {
  }

  lemma TagInFile(file: string, i: nat, n: nat)
    requires TagAt(file, i, n)
    ensures i + n <= |file|
  {
  }

  lemma JoinedBefore(file: string, i: nat)
    requires i <= |file|
    ensures Joined(Scan(file, i).pieces + Rest(Scan(file, i).st)) == file[..i]
  {
    hide Scan;
    ScanCovers(file, i);
    var p := Scan(file, i);
    JoinedConcat(p.pieces, Rest(p.st));
    if p.st.buf != [] {
      JoinedOne(Text(p.st.buf));
    } else {
      assert p.pieces + [] == p.pieces && Joined(p.pieces) + [] == Joined(p.pieces);
    }
  }

  lemma JoinedOne(p: Piece)
    ensures Joined([p]) == p.s
  {
    assert [p][..0] == [];
    assert Joined([p]) == [] + p.s;
  }

  lemma JoinedAround(before: string, p: Piece, after: string, xs: seq<Piece>, ys: seq<Piece>)
    requires Pieces(Page(before, p.s, after)) == (xs + [p]) + ys && Joined(xs) == before
    ensures Joined(ys) == after
  {
    hide Pieces, Joined;
    PiecesCoverFile(Page(before, p.s, after));
    JoinedConcat(xs + [p], ys);
    JoinedConcat(xs, [p]);
    JoinedOne(p);
    SameTail(before + p.s, Joined(ys), after);
    assert (before + p.s) + after == Page(before, p.s, after);
  }

  lemma SameTail(x: string, y: string, z: string)
    requires x + y == x + z
    ensures y == z
  {
    assert y == (x + y)[|x|..] && z == (x + z)[|x|..];
  }

  /** Only the tag is replaced. */
  lemma PageIsSent(env: Env, path: string, before: string, s: string, after: string, level: nat)
    requires IsTag(s) && Plain(before) && Plain(after) && level <= 10
    ensures RenderFile(env, path, Page(before, s, after), level)
         == before + RenderPiece(env, path, Tag(s), level) + after
  {
    hide RenderPiece, Pieces, Joined, Page, IsTag;
    var xs, ys := PiecesOfPage(before, s, after);
    RenderConcat(env, path, xs + [Tag(s)], ys, level);
    RenderConcat(env, path, xs, [Tag(s)], level);
    RenderOne(env, path, Tag(s), level);
    TextIsCopied(env, path, xs, level);
    TextIsCopied(env, path, ys, level);
  }

  lemma RenderOne(env: Env, path: string, p: Piece, level: nat)
    requires level <= 10
    ensures RenderPieces(env, path, [p], level) == RenderPiece(env, path, p, level)
  {
    hide RenderPiece;
    assert [p][..0] == [];
    assert RenderPieces(env, path, [p], level) == [] + RenderPiece(env, path, p, level);
  }

  // ---------------------------------------------------------------------------------------------
  // What a tag becomes
  // ---------------------------------------------------------------------------------------------

  /** The argument of a tag, up to its closing bracket; the tag fits the buffer. */
  ghost predicate IsArgument(arg: string) {
    1 <= |arg| < 8180 && arg[|arg| - 1] == '>' && '>' !in arg[..|arg| - 1]
  }

  lemma CommandTag(command: string, arg: string)
    requires (command == "include" || command == "exec") && IsArgument(arg)
    ensures var s := MARK + command + arg;
      IsTag(s) && s[5..5 + |command|] == command && s[5 + |command|..] == arg
  {
    var s := MARK + command + arg;
    assert s[..|MARK|] == MARK;
    assert s[..|s| - 1] == MARK + command + arg[..|arg| - 1];
    assert '>' !in MARK + command;
  }

  lemma IncludeTag(arg: string)
    requires IsArgument(arg)
    ensures var s := INCLUDE + arg; IsTag(s) && |s| >= 12 && s[5..12] == "include" && s[12..] == arg
  {
    CommandTag("include", arg);
    assert INCLUDE == MARK + "include";
  }

  lemma ExecTag(arg: string)
    requires IsArgument(arg)
    ensures var s := EXEC + arg;
      IsTag(s) && |s| >= 9 && s[5..9] == "exec" && s[9..] == arg && (|s| >= 12 ==> s[5..12] != "include")
  {
    CommandTag("exec", arg);
    var s := EXEC + arg;
    assert EXEC == MARK + "exec";
    assert s[5] == s[5..9][0] == 'e';
    assert |s| >= 12 ==> s[5..12][0] == 'e';
  }

  /** A file that is not scanned is included as it is. */
  lemma IncludedFileIsSent(env: Env, path: string, before: string, arg: string, after: string, p: string, level: nat)
    requires Plain(before) && Plain(after) && IsArgument(arg) && level <= 10
    requires env.target(path, arg) == Some(p) && p in env.files && !env.isSsi(p)
    ensures RenderFile(env, path, Page(before, INCLUDE + arg, after), level) == before + env.files[p] + after
  {
    hide Plain, Page, RenderFile;
    IncludeTag(arg);
    PageIsSent(env, path, before, INCLUDE + arg, after, level);
  }

  /** A file that is scanned is included with its own tags replaced, one level deeper. */
  lemma IncludedPageIsRendered(env: Env, path: string, before: string, arg: string, after: string, p: string,
          level: nat)
    requires Plain(before) && Plain(after) && IsArgument(arg) && level <= 10
    requires env.target(path, arg) == Some(p) && p in env.files && env.isSsi(p)
    ensures RenderFile(env, path, Page(before, INCLUDE + arg, after), level)
         == before + RenderFile(env, p, env.files[p], level + 1) + after
  {
    hide Plain, Page, RenderFile;
    IncludeTag(arg);
    PageIsSent(env, path, before, INCLUDE + arg, after, level);
  }

  /** A command is replaced by what it prints. */
  lemma CommandIsRun(env: Env, path: string, before: string, arg: string, after: string, level: nat)
    requires Plain(before) && Plain(after) && IsArgument(arg) && level <= 10
    ensures RenderFile(env, path, Page(before, EXEC + arg, after), level) == before + env.exec(arg) + after
  {
    hide Plain, Page, RenderFile;
    ExecTag(arg);
    PageIsSent(env, path, before, EXEC + arg, after, level);
  }

  /** A command in an included file that is scanned is run, unless that file is too deep. */
  lemma IncludedCommandIsRun(env: Env, path: string, before: string, arg: string, after: string, p: string,
          command: string, level: nat)
    requires Plain(before) && Plain(after) && IsArgument(arg) && IsArgument(command) && level <= 10
    requires env.target(path, arg) == Some(p) && p in env.files && env.isSsi(p) && env.files[p] == EXEC + command
    ensures RenderFile(env, path, Page(before, INCLUDE + arg, after), level)
         == before + (if level < 10 then env.exec(command) else []) + after
  {
    hide RenderFile;
    IncludedPageIsRendered(env, path, before, arg, after, p, level);
    if level < 10 {
      CommandIsRun(env, p, [], command, [], level + 1);
      assert Page([], EXEC + command, []) == EXEC + command;
      assert [] + env.exec(command) + [] == env.exec(command);
    } else {
      TooDeepIsEmpty(env, p, env.files[p], level + 1);
    }
  }

  /** An include whose target is unknown or missing gives nothing. */
  lemma MissingTargetIsEmpty(env: Env, path: string, before: string, arg: string, after: string, level: nat)
    requires Plain(before) && Plain(after) && IsArgument(arg) && level <= 10
    requires env.target(path, arg).Some? ==> env.target(path, arg).value !in env.files
    ensures RenderFile(env, path, Page(before, INCLUDE + arg, after), level) == before + after
  {
    hide Plain, Page, RenderFile;
    IncludeTag(arg);
    PageIsSent(env, path, before, INCLUDE + arg, after, level);
    assert before + [] + after == before + after;
  }

  /** So does a tag with any other command. */
  lemma UnknownCommandIsEmpty(env: Env, path: string, before: string, s: string, after: string, level: nat)
    requires Plain(before) && Plain(after) && IsTag(s) && level <= 10
    requires !HasPrefix(s, INCLUDE) && !HasPrefix(s, EXEC)
    ensures RenderFile(env, path, Page(before, s, after), level) == before + after
  {
    hide Plain, Page, RenderFile;
    PageIsSent(env, path, before, s, after, level);
    assert |s| >= 12 ==> s[..12] == s[..5] + s[5..12];
    assert |s| >= 9 ==> s[..9] == s[..5] + s[5..9];
    assert before + [] + after == before + after;
  }

  // ---------------------------------------------------------------------------------------------
  // A tag that is too long
  // ---------------------------------------------------------------------------------------------

  /** As much of a tag as the buffer holds, without its end. */
  ghost predicate IsOverlong(s: string) { |s| == 8190 && "<!--#" <= s && '>' !in s }

  /** In the state that follows a dropped tag, text without `<` is text. */
  lemma {:induction false} PlainInside(file: string, m: nat, n: nat) returns (more: seq<Piece>)
    requires m <= n <= |file| && NoMark(Scan(file, m).st) && forall k | m <= k < n :: file[k] != '<'
    ensures NoMark(Scan(file, n).st) && Scan(file, n).pieces == Scan(file, m).pieces + more
    ensures forall p | p in more :: p.Text?
    decreases n
  {
    hide Step, NoMark;
    if m == n {
      more := [];
    } else {
      var front := PlainInside(file, m, n - 1);
      NoMarkStep(Scan(file, n - 1).st, file[n - 1]);
      var now := Step(Scan(file, n - 1).st, file[n - 1]).pieces;
      more := front + now;
      assert (Scan(file, m).pieces + front) + now == Scan(file, m).pieces + (front + now);
    }
  }

  /** What is buffered is no beginning of a tag. */
  ghost predicate NoMark(st: Scanner) { st.inTag ==> st.buf != [] && st.buf[0] != '<' && |st.buf| <= 5 }

  lemma NoMarkStep(st: Scanner, ch: char)
    requires NoMark(st) && ch != '<'
    ensures NoMark(Step(st, ch).st) && forall p | p in Step(st, ch).pieces :: p.Text?
  {
    var b := st.buf + [ch];
    assert st.inTag ==> b[0] == st.buf[0];
    assert HasPrefix(b, MARK) ==> b[0] == b[..5][0] == '<';
    assert HasPrefix(st.buf, MARK) ==> st.buf[0] == st.buf[..5][0] == '<';
  }

  /** The scanner at the end of what is too long, and after the byte that follows. */
  lemma {:induction false} InsideOverlong(before: string, s: string, after: string, k: nat)
    requires IsOverlong(s) && Plain(before) && 1 <= k <= 8190
    ensures var file := Page(before, s, after); var p := Scan(file, |before| + k);
      && p.st == Scanner(true, s[..k])
      && p.pieces == Scan(file, |before|).pieces + Rest(Scan(file, |before|).st)
  {
    hide Step, Plain, IsOverlong;
    var file := Page(before, s, after);
    OverlongLength(s);
    assert file[|before| + k - 1] == s[k - 1];
    if k == 1 {
      PlainStart(before, s, after);
      PlainBefore(file, |before|);
      OverlongFirst(Scan(file, |before|).st, s);
    } else {
      InsideOverlong(before, s, after, k - 1);
      OverlongNext(s, k - 1);
      assert forall ps: seq<Piece> :: ps + [] == ps;
    }
  }

  lemma PlainStart(before: string, s: string, after: string)
    requires Plain(before)
    ensures forall k | 0 <= k < |before| :: Page(before, s, after)[k] != '<'
  {
  }

  lemma OverlongLength(s: string)
    requires IsOverlong(s)
    ensures |s| == 8190
  {
  }

  lemma OverlongFirst(st: Scanner, s: string)
    requires IsOverlong(s) && !st.inTag
    ensures Step(st, s[0]) == Progress(Scanner(true, s[..1]), Rest(st))
  {
    assert s[0] == s[..5][0] == '<';
    assert s[..1] == [s[0]];
  }

  lemma OverlongNext(s: string, k: nat)
    requires IsOverlong(s) && 1 <= k < 8190
    ensures Step(Scanner(true, s[..k]), s[k]) == Progress(Scanner(true, s[..k + 1]), [])
  {
    assert s[..k] + [s[k]] == s[..k + 1];
    if k == 5 {
      assert s[..5] == MARK;
    }
  }

  lemma OverlongEnds(s: string, ch: char)
    requires IsOverlong(s) && ch != '<' && ch != '>'
    ensures Step(Scanner(true, s), ch) == Progress(Scanner(true, [ch]), [Dropped(s)])
  {
  }

  /** What the buffer cannot hold of a tag is not sent; what comes after it is. */
  lemma OverlongTagIsDropped(env: Env, path: string, before: string, s: string, after: string, level: nat)
    requires Plain(before) && IsOverlong(s) && Plain(after) && after != [] && after[0] != '>' && level <= 10
    ensures RenderFile(env, path, Page(before, s, after), level) == before + after
  {
    hide Step, IsOverlong, RenderPiece, Joined, Scan, Pieces, Page, Plain;
    var xs, ys := PiecesOfOverlong(before, s, after);
    RenderConcat(env, path, xs + [Dropped(s)], ys, level);
    RenderConcat(env, path, xs, [Dropped(s)], level);
    RenderOne(env, path, Dropped(s), level);
    DroppedIsEmpty(env, path, s, level);
    TextIsCopied(env, path, xs, level);
    TextIsCopied(env, path, ys, level);
    assert before + [] + after == before + after;
  }

  lemma DroppedIsEmpty(env: Env, path: string, s: string, level: nat)
    requires level <= 10
    ensures RenderPiece(env, path, Dropped(s), level) == []
  {
  }

  lemma PiecesOfOverlong(before: string, s: string, after: string) returns (xs: seq<Piece>, ys: seq<Piece>)
    requires Plain(before) && IsOverlong(s) && Plain(after) && after != [] && after[0] != '>'
    ensures Pieces(Page(before, s, after)) == (xs + [Dropped(s)]) + ys
    ensures (forall p | p in xs :: p.Text?) && (forall p | p in ys :: p.Text?)
    ensures Joined(xs) == before && Joined(ys) == after
  {
    hide Step, Valid, WellFormed, Joined, HasPrefix, Scan, Plain, IsOverlong;
    var file := Page(before, s, after);
    var i, m := |before|, |before| + |s|;
    PlainStart(before, s, after);
    PlainBefore(file, i);
    xs := Scan(file, i).pieces + Rest(Scan(file, i).st);
    AfterOverlong(before, s, after);
    PlainEnd(before, s, after);
    var more := PlainInside(file, m + 1, |file|);
    ys := more + Rest(Scan(file, |file|).st);
    assert (xs + [Dropped(s)] + more) + Rest(Scan(file, |file|).st) == (xs + [Dropped(s)]) + ys;
    JoinedBefore(file, i);
    assert file[..i] == before;
    JoinedAround(before, Dropped(s), after, xs, ys);
  }

  lemma PlainEnd(before: string, s: string, after: string)
    requires Plain(after)
    ensures forall k | |before| + |s| < k < |Page(before, s, after)| :: Page(before, s, after)[k] != '<'
  {
    forall k | |before| + |s| < k < |Page(before, s, after)|
      ensures Page(before, s, after)[k] != '<'
    {
      assert Page(before, s, after)[k] == after[k - |before| - |s|];
    }
  }

  lemma AfterOverlong(before: string, s: string, after: string)
    requires Plain(before) && IsOverlong(s) && Plain(after) && after != [] && after[0] != '>'
    ensures |s| == 8190 && |before| + 8191 <= |Page(before, s, after)|
    ensures var file := Page(before, s, after); var p := Scan(file, |before| + 8191);
      && NoMark(p.st)
      && p.pieces == Scan(file, |before|).pieces + Rest(Scan(file, |before|).st) + [Dropped(s)]
  {
    hide Step, HasPrefix;
    var file := Page(before, s, after);
    InsideOverlong(before, s, after, 8190);
    assert s[..8190] == s;
    assert file[|before| + 8190] == after[0];
    OverlongEnds(s, after[0]);
  }

  /** Beyond the last level nothing is sent. */
  lemma TooDeepIsEmpty(env: Env, path: string, file: string, level: nat)
    ensures level > 10 ==> RenderFile(env, path, file, level) == []
  {
  }
}
