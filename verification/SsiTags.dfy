/** Which tags of a file the include scanner takes out, and which it overlooks. */
module SsiTags {
  import opened Ssi

  // ---------------------------------------------------------------------------------------------
  // Tags and candidates, in terms of the text
  // ---------------------------------------------------------------------------------------------

  /** A tag stands at position `i` of the file: the mark, and then no `>` before its end. */
  ghost predicate TagAt(file: string, i: nat, n: nat) {
    && 6 <= n && FoundAt(file, i, MARK) && i + n <= |file|
    && file[i + n - 1] == '>' && forall k | i <= k < i + n - 1 :: file[k] != '>'
  }

  /** The tag is the k-th piece of the file, and what is before it is the text before it. */
  ghost predicate IsPiece(ps: seq<Piece>, k: int, file: string, i: nat, n: nat) {
    0 <= k < |ps| && i + n <= |file| && ps[k] == Tag(file[i..i + n]) && Joined(ps[..k]) == file[..i]
  }

  ghost predicate TakenOut(file: string, i: nat, n: nat) {
    exists k :: IsPiece(Pieces(file), k, file, i, n)
  }

  /** The first `>` from position `s` on, or the end of the file. */
  function Close(file: string, s: nat): (e: nat)
    requires s <= |file|
    ensures s <= e <= |file| && (e < |file| ==> file[e] == '>') && forall k | s <= k < e :: file[k] != '>'
    decreases |file| - s
  {
    if s == |file| || file[s] == '>' then s else Close(file, s + 1)
  }

  /** The last position at which a `>` closes what begins at `s`. */
  ghost function LastClose(file: string, s: nat): nat {
    if FoundAt(file, s, MARK) then s + BUF_LEN - 2 else s + 5
  }

  /** What begins at `s` has the mark, and its `>` does not come in time. */
  ghost predicate Overflows(file: string, s: nat)
    requires s < |file|
  {
    FoundAt(file, s, MARK) && LastClose(file, s) < Close(file, s + 1)
  }

  /** Where a candidate for a tag ends: after its `>`; without the mark, or when it is too long, no
      later than the scanner's patience. */
  ghost function CandidateEnd(file: string, s: nat): nat
    requires s < |file|
  {
    if Close(file, s + 1) <= LastClose(file, s) then Close(file, s + 1) + 1
    else if FoundAt(file, s, MARK) then LastClose(file, s)
    else LastClose(file, s) + 1
  }

  /** A `<` begins a candidate unless it lies inside an earlier one; where a candidate is cut off for
      its length, another begins at once. */
  ghost predicate Begins(file: string, s: nat)
    decreases s
  {
    && s < |file|
    && if file[s] == '<' then forall t: nat | t < s && Begins(file, t) :: CandidateEnd(file, t) <= s
       else exists t: nat | t < s :: Begins(file, t) && Overflows(file, t) && CandidateEnd(file, t) == s
  }

  /** No candidate that begins before position `i` reaches beyond it. */
  ghost predicate Uncovered(file: string, i: nat) {
    forall t: nat | t < i && Begins(file, t) :: CandidateEnd(file, t) <= i
  }

  // ---------------------------------------------------------------------------------------------
  // The scanner's state in terms of candidates
  // ---------------------------------------------------------------------------------------------

  /** What is in the buffer begins at position `s`, and is an unfinished candidate before byte `i`. */
  ghost predicate Open(file: string, s: nat, i: nat) {
    && s < i <= |file| && Begins(file, s)
    && i <= LastClose(file, s) && i <= Close(file, s + 1)
  }

  /** Every candidate that began before byte `i`, save the open one, has ended. */
  ghost predicate OthersEnded(file: string, i: nat, inTag: bool, s: int) {
    forall t: nat | t < i <= |file| && Begins(file, t) && !(inTag && t == s) ::
      CandidateEnd(file, t) <= i && (Overflows(file, t) ==> CandidateEnd(file, t) < i)
  }

  ghost predicate StateIs(file: string, i: nat, st: Scanner) {
    && |st.buf| <= i <= |file| && st.buf == file[i - |st.buf|..i]
    && (st.inTag ==> Open(file, i - |st.buf|, i))
    && OthersEnded(file, i, st.inTag, i - |st.buf|)
  }

  /** Outside any candidate, a candidate begins exactly at a `<`. */
  lemma BeginsOutside(file: string, i: nat)
    requires i < |file| && OthersEnded(file, i, false, 0)
    ensures Begins(file, i) <==> file[i] == '<'
  {
  }

  /** An open candidate that does not overflow right here hides the position. */
  lemma OpenReachesOn(file: string, s: nat, i: nat)
    requires i < |file| && Open(file, s, i)
    requires !(FoundAt(file, s, MARK) && i == LastClose(file, s) && file[i] != '>')
    ensures i < CandidateEnd(file, s)
  {
    hide Begins;
  }

  lemma NothingBeginsInside(file: string, s: nat, i: nat)
    requires i < |file| && Open(file, s, i) && OthersEnded(file, i, true, s) && i < CandidateEnd(file, s)
    ensures !Begins(file, i)
  {
  }

  /** Where a candidate overflows, the next one begins. */
  lemma OverflowBegins(file: string, s: nat, i: nat)
    requires i < |file| && Open(file, s, i) && OthersEnded(file, i, true, s)
    requires FoundAt(file, s, MARK) && i == LastClose(file, s) && file[i] != '>'
    ensures CandidateEnd(file, s) == i && Begins(file, i)
  {
    assert Close(file, s + 1) > i;
    assert Overflows(file, s);
  }

  /** An open candidate that ends with byte `i`: at its `>`, or for want of the mark. */
  lemma OpenEndsHere(file: string, s: nat, i: nat)
    requires i < |file| && Open(file, s, i)
    requires file[i] == '>' || (!FoundAt(file, s, MARK) && i == LastClose(file, s))
    ensures CandidateEnd(file, s) == i + 1 && !Overflows(file, s)
  {
    hide Begins;
  }

  /** An open candidate goes on. */
  lemma OpenGoesOn(file: string, s: nat, i: nat)
    requires i < |file| && Open(file, s, i) && file[i] != '>' && i < LastClose(file, s)
    ensures Open(file, s, i + 1)
  {
    hide Begins;
  }

  lemma OpenStarts(file: string, i: nat)
    requires i < |file| && Begins(file, i)
    ensures Open(file, i, i + 1)
  {
    hide Begins;
  }

  /** No candidate was open before byte `i`, and none is open after it, or one begins with it. */
  lemma OutsideStep(file: string, i: nat)
    requires i < |file| && OthersEnded(file, i, false, 0)
    ensures OthersEnded(file, i + 1, file[i] == '<', i)
    ensures file[i] == '<' ==> Open(file, i, i + 1)
  {
    BeginsOutside(file, i);
    hide Begins, CandidateEnd, Overflows;
  }

  /** The open candidate ends with byte `i`, or goes on. */
  lemma InsideStep(file: string, s: nat, i: nat, goesOn: bool)
    requires i < |file| && Open(file, s, i) && OthersEnded(file, i, true, s)
    requires if goesOn then file[i] != '>' && i < LastClose(file, s)
             else file[i] == '>' || (!FoundAt(file, s, MARK) && i == LastClose(file, s))
    ensures OthersEnded(file, i + 1, goesOn, s) && (goesOn ==> Open(file, s, i + 1))
  {
    hide Begins;
    OpenReachesOn(file, s, i);
    NothingBeginsInside(file, s, i);
    if goesOn {
      OpenGoesOn(file, s, i);
    } else {
      OpenEndsHere(file, s, i);
    }
    hide CandidateEnd, Overflows, Open;
  }

  /** The open candidate overflows, and another begins. */
  lemma OverflowStep(file: string, s: nat, i: nat)
    requires i < |file| && Open(file, s, i) && OthersEnded(file, i, true, s)
    requires FoundAt(file, s, MARK) && i == LastClose(file, s) && file[i] != '>'
    ensures OthersEnded(file, i + 1, true, i) && Open(file, i, i + 1)
  {
    hide Begins, Overflows, CandidateEnd;
    OverflowBegins(file, s, i);
    OpenStarts(file, i);
  }

  /** With five bytes or more in the buffer, the mark is seen there. */
  lemma MarkInBuffer(file: string, st: Scanner, i: nat)
    requires |st.buf| <= i <= |file| && st.buf == file[i - |st.buf|..i] && |st.buf| >= 5
    ensures HasPrefix(st.buf, MARK) <==> FoundAt(file, i - |st.buf|, MARK)
  {
    var s := i - |st.buf|;
    assert st.buf[..5] == file[s..s + 5];
  }

  lemma BufferGrows(file: string, b: string, i: nat)
    requires |b| <= i < |file| && b == file[i - |b|..i]
    ensures b + [file[i]] == file[i - |b|..i + 1] && [file[i]] == file[i..i + 1]
  {
  }

  lemma StepKeepsState(file: string, i: nat, st: Scanner)
    requires i < |file| && Valid(st) && StateIs(file, i, st)
    ensures StateIs(file, i + 1, Step(st, file[i]).st)
  {
    hide StateIs, Valid, Step;
    if st.inTag {
      TagByte(file, i, st);
    } else {
      TextByte(file, i, st);
    }
  }

  lemma TextByte(file: string, i: nat, st: Scanner)
    requires i < |file| && StateIs(file, i, st) && !st.inTag
    ensures StateIs(file, i + 1, Step(st, file[i]).st)
  {
    hide Open, OthersEnded, Step;
    var r := Step(st, file[i]).st;
    TextBuffer(st, file[i]);
    BufferGrows(file, st.buf, i);
    OthersEndedOutside(file, i, i - |st.buf|, 0);
    OutsideStep(file, i);
    if !r.inTag {
      OthersEndedOutside(file, i + 1, i, i + 1 - |r.buf|);
    }
    assert r.buf == file[i + 1 - |r.buf|..i + 1];
  }

  lemma TextBuffer(st: Scanner, ch: char)
    requires !st.inTag
    ensures var r := Step(st, ch).st;
      && (r.inTag <==> ch == '<') && (r.inTag ==> r.buf == [ch])
      && (!r.inTag ==> r.buf == st.buf + [ch] || r.buf == [])
  {
  }

  lemma TagByte(file: string, i: nat, st: Scanner)
    requires i < |file| && Valid(st) && StateIs(file, i, st) && st.inTag
    ensures StateIs(file, i + 1, Step(st, file[i]).st)
  {
    hide Open, OthersEnded, FoundAt, HasPrefix;
    var r, s := Step(st, file[i]).st, i - |st.buf|;
    BufferGrows(file, st.buf, i);
    if |st.buf| >= 5 {
      MarkInBuffer(file, st, i);
    }
    if file[i] == '>' || (|st.buf| == 5 && !HasPrefix(st.buf, MARK)) {
      InsideStep(file, s, i, false);
      OthersEndedOutside(file, i + 1, s, i + 1 - |r.buf|);
    } else if |st.buf| == BUF_LEN - 2 {
      OverflowStep(file, s, i);
    } else {
      InsideStep(file, s, i, true);
    }
  }

  lemma OthersEndedOutside(file: string, i: nat, s: int, r: int)
    requires OthersEnded(file, i, false, s)
    ensures OthersEnded(file, i, false, r)
  {
    hide Begins, CandidateEnd, Overflows;
  }

  lemma {:induction false} ScanState(file: string, i: nat)
    requires i <= |file|
    ensures Valid(Scan(file, i).st) && StateIs(file, i, Scan(file, i).st)
  {
    hide Valid, Step;
    ScanCovers(file, i);
    CoversIsValid(Scan(file, i), file[..i]);
    hide StateIs, Covers;
    if i == 0 {
      StateAtStart(file);
    } else {
      ScanState(file, i - 1);
      StepKeepsState(file, i - 1, Scan(file, i - 1).st);
    }
  }

  lemma StateAtStart(file: string)
    ensures StateIs(file, 0, Scanner(false, []))
  {
  }

  /** The scanner is ready for a tag: outside any tag, or about to give up one that is too long. */
  ghost predicate Ready(st: Scanner) { !st.inTag || |st.buf| == BUF_LEN - 2 }

  /** At a `<`, the scanner is ready exactly when no candidate covers the position. */
  lemma ReadyIffUncovered(file: string, i: nat)
    requires i < |file| && file[i] == '<'
    ensures Ready(Scan(file, i).st) <==> Uncovered(file, i)
  {
    hide Scan, Begins, Step;
    ScanState(file, i);
    var st := Scan(file, i).st;
    if st.inTag {
      var s := i - |st.buf|;
      if |st.buf| >= 5 {
        MarkInBuffer(file, st, i);
      }
      if |st.buf| != BUF_LEN - 2 {
        OpenReachesOn(file, s, i);
      }
    }
  }

  // ---------------------------------------------------------------------------------------------
  // A tag that the scanner is ready for is released
  // ---------------------------------------------------------------------------------------------

  /** The scanner has just released the tag, and is at its start again. */
  ghost predicate Released(file: string, i: nat, n: nat)
    requires i + n <= |file|
  {
    var p := Scan(file, i + n);
    p.st == Scanner(false, []) && p.pieces != [] && p.pieces[|p.pieces| - 1] == Tag(file[i..i + n])
  }

  /** What the first byte of a tag releases. */
  ghost function Flushed(st: Scanner): seq<Piece> { if st.inTag then [Dropped(st.buf)] else Rest(st) }

  lemma FirstOfTag(file: string, i: nat, n: nat)
    requires TagAt(file, i, n) && n < BUF_LEN && Ready(Scan(file, i).st)
    ensures var p := Scan(file, i + 1);
      p.st == Scanner(true, file[i..i + 1]) && p.pieces == Scan(file, i).pieces + Flushed(Scan(file, i).st)
  {
    assert file[i] == file[i..i + 5][0];
    assert file[i..i + 1] == [file[i]];
  }

  lemma InnerOfTag(file: string, i: nat, n: nat, k: nat)
    requires TagAt(file, i, n) && n < BUF_LEN && 1 <= k < n - 1
    ensures Step(Scanner(true, file[i..i + k]), file[i + k]) == Progress(Scanner(true, file[i..i + k + 1]), [])
  {
    var b := file[i..i + k];
    assert b + [file[i + k]] == file[i..i + k + 1];
    if k == 5 {
      assert b == file[i..i + |MARK|];
    }
  }

  lemma {:induction false} InsideTag(file: string, i: nat, n: nat, k: nat)
    requires TagAt(file, i, n) && n < BUF_LEN && Ready(Scan(file, i).st) && 1 <= k < n
    ensures Scan(file, i + k).st == Scanner(true, file[i..i + k])
    ensures Scan(file, i + k).pieces == Scan(file, i).pieces + Flushed(Scan(file, i).st)
  {
    hide Step, TagAt, Ready;
    if k == 1 {
      FirstOfTag(file, i, n);
    } else {
      InsideTag(file, i, n, k - 1);
      InnerOfTag(file, i, n, k - 1);
      assert forall ps: seq<Piece> :: ps + [] == ps;
    }
  }

  lemma LastOfTag(file: string, i: nat, n: nat)
    requires TagAt(file, i, n) && n < BUF_LEN
    ensures Step(Scanner(true, file[i..i + (n - 1)]), file[i + n - 1])
         == Progress(Scanner(false, []), [Tag(file[i..i + n])])
  {
    var b := file[i..i + (n - 1)];
    assert b + [file[i + n - 1]] == file[i..i + n];
    assert file[i..i + n][..5] == file[i..i + |MARK|];
  }

  /** A tag that the scanner is ready for is taken out whole, after the text before it. */
  lemma TagIsFound(file: string, i: nat, n: nat)
    requires TagAt(file, i, n) && n < BUF_LEN && Ready(Scan(file, i).st)
    ensures Scan(file, i + n).pieces == Scan(file, i).pieces + Flushed(Scan(file, i).st) + [Tag(file[i..i + n])]
    ensures Scan(file, i + n).st == Scanner(false, [])
  {
    hide Step, Ready, Flushed;
    InsideTag(file, i, n, n - 1);
    LastOfTag(file, i, n);
  }

  // ---------------------------------------------------------------------------------------------
  // A tag that it is not ready for is overlooked
  // ---------------------------------------------------------------------------------------------

  /** Where in the file the buffer begins. */
  ghost function BufferStart(file: string, k: nat): int
    requires k <= |file|
  {
    k - |Scan(file, k).st.buf|
  }

  lemma BufferStartMoves(file: string, k: nat)
    requires k < |file|
    ensures BufferStart(file, k + 1) == BufferStart(file, k) || BufferStart(file, k + 1) >= k
  {
    hide HasPrefix;
  }

  /** A byte that does not empty or restart the buffer. */
  lemma NotReadyKeepsStart(file: string, i: nat)
    requires i < |file| && file[i] == '<' && !Ready(Scan(file, i).st)
    ensures BufferStart(file, i + 1) == BufferStart(file, i) < i
  {
    hide HasPrefix;
    ScanState(file, i);
  }

  lemma {:induction false} NoBufferFrom(file: string, i: nat, k: nat)
    requires i < k <= |file| && file[i] == '<' && !Ready(Scan(file, i).st)
    ensures BufferStart(file, k) != i
    decreases k
  {
    hide Scan, Ready;
    if k == i + 1 {
      NotReadyKeepsStart(file, i);
    } else {
      NoBufferFrom(file, i, k - 1);
      BufferStartMoves(file, k - 1);
    }
  }

  /** A byte that releases a tag releases the buffer with that byte. */
  lemma ReleasedByByte(file: string, k: nat, t: string)
    requires k < |file|
    requires Scan(file, k + 1).st == Scanner(false, [])
    requires var ps := Scan(file, k + 1).pieces; ps != [] && ps[|ps| - 1] == Tag(t)
    requires file[k] == '>'
    ensures |t| == |Scan(file, k).st.buf| + 1
  {
    hide HasPrefix;
    var before := Scan(file, k);
    var now := Step(before.st, file[k]);
    assert Scan(file, k + 1).pieces == before.pieces + now.pieces;
    assert now.pieces != [];
  }

  /** A tag that fits the buffer is released exactly when the scanner is ready for it. */
  lemma ReleasedIffReady(file: string, i: nat, n: nat)
    requires TagAt(file, i, n) && n < BUF_LEN
    ensures Released(file, i, n) <==> Ready(Scan(file, i).st)
  {
    hide Scan, Step, Ready;
    assert file[i] == file[i..i + 5][0];
    if Ready(Scan(file, i).st) {
      TagIsFound(file, i, n);
    } else {
      NoBufferFrom(file, i, i + n - 1);
      if Released(file, i, n) {
        ReleasedByByte(file, i + n - 1, file[i..i + n]);
      }
    }
  }

  // ---------------------------------------------------------------------------------------------
  // The pieces of the whole file
  // ---------------------------------------------------------------------------------------------

  lemma {:induction false} PiecesGrow(file: string, m: nat, n: nat)
    requires m <= n <= |file|
    ensures Scan(file, m).pieces <= Scan(file, n).pieces
    decreases n
  {
    hide Step;
    if m < n {
      PiecesGrow(file, m, n - 1);
    }
  }

  /** A tag among the pieces was released with the last byte of the text up to it. */
  lemma {:induction false} WhenReleased(file: string, m: nat, k: nat) returns (p: nat)
    requires m <= |file| && k < |Scan(file, m).pieces| && Scan(file, m).pieces[k].Tag?
    ensures p <= m && Scan(file, p).pieces == Scan(file, m).pieces[..k + 1]
    ensures Scan(file, p).st == Scanner(false, []) && Joined(Scan(file, m).pieces[..k + 1]) == file[..p]
    decreases m
  {
    hide Joined, HasPrefix;
    var before := Scan(file, m - 1);
    if k < |before.pieces| {
      p := WhenReleased(file, m - 1, k);
      assert Scan(file, m).pieces[..k + 1] == before.pieces[..k + 1];
    } else {
      p := m;
      ScanCovers(file, m);
      assert Scan(file, m).pieces[..k + 1] == Scan(file, m).pieces;
      assert Joined(Scan(file, m).pieces) + [] == Joined(Scan(file, m).pieces);
    }
  }

  lemma JoinedLast(ps: seq<Piece>, k: nat)
    requires k < |ps|
    ensures Joined(ps[..k + 1]) == Joined(ps[..k]) + ps[k].s
  {
    assert ps[..k + 1][..k] == ps[..k];
  }

  lemma TakenOutIsReleased(file: string, i: nat, n: nat)
    requires TagAt(file, i, n) && TakenOut(file, i, n)
    ensures n < BUF_LEN && Released(file, i, n)
  {
    hide Scan, Joined, TagAt;
    var k: nat :| IsPiece(Pieces(file), k, file, i, n);
    var ps := Scan(file, |file|).pieces;
    assert k < |ps| by { TagIsNotRest(file, k); }
    assert Pieces(file)[..k] == ps[..k] && Pieces(file)[k] == ps[k];
    var p := WhenReleased(file, |file|, k);
    JoinedLast(ps, k);
    assert |file[..p]| == i + n;
    PiecesCoverFile(file);
    assert WellFormed(Pieces(file)[k]);
  }

  lemma TagIsNotRest(file: string, k: nat)
    requires k < |Pieces(file)| && Pieces(file)[k].Tag?
    ensures k < |Scan(file, |file|).pieces|
  {
    hide Scan;
  }

  lemma ReleasedIsTakenOut(file: string, i: nat, n: nat)
    requires i + n <= |file| && Released(file, i, n)
    ensures TakenOut(file, i, n)
  {
    hide Scan, Joined, Valid, WellFormed;
    var ps := Scan(file, i + n).pieces;
    var k := |ps| - 1;
    PiecesGrow(file, i + n, |file|);
    assert ps <= Pieces(file);
    ScanCovers(file, i + n);
    assert Joined(ps) + [] == Joined(ps);
    assert ps[..k + 1] == ps;
    JoinedLast(ps, k);
    SameFront(Joined(ps[..k]), file[i..i + n], file, i);
    assert Pieces(file)[..k] == ps[..k];
    assert IsPiece(Pieces(file), k, file, i, n);
  }

  lemma SameFront(x: string, t: string, file: string, i: nat)
    requires i + |t| <= |file| && x + t == file[..i + |t|]
    ensures x == file[..i]
  {
    assert x == (x + t)[..|x|] == file[..|x|];
  }

  /** A tag of a file is taken out, right after the text before it, if and only if it fits the buffer
      with a terminating NUL, and no candidate that begins before it reaches beyond its `<`. */
  lemma TakenOutIff(file: string, i: nat, n: nat)
    requires TagAt(file, i, n)
    ensures TakenOut(file, i, n) <==> n < BUF_LEN && Uncovered(file, i)
  {
    hide TakenOut, Released, Uncovered, Scan, Ready;
    assert file[i] == file[i..i + 5][0];
    ReadyIffUncovered(file, i);
    if n < BUF_LEN {
      ReleasedIffReady(file, i, n);
    }
    if TakenOut(file, i, n) {
      TakenOutIsReleased(file, i, n);
    } else if n < BUF_LEN && Released(file, i, n) {
      ReleasedIsTakenOut(file, i, n);
    }
  }

  // ---------------------------------------------------------------------------------------------
  // Three cases
  // ---------------------------------------------------------------------------------------------

  /** What begins before a `>` has ended after it. */
  lemma EndsAtClose(file: string, g: nat, t: nat)
    requires t < g < |file| && file[g] == '>'
    ensures CandidateEnd(file, t) <= g + 1 && (Overflows(file, t) ==> CandidateEnd(file, t) < g)
  {
  }

  lemma {:induction false} NothingBeginsAfterClose(file: string, g: nat, t: nat)
    requires g <= t < |file| && (g == 0 || file[g - 1] == '>')
    requires forall k | g <= k <= t :: file[k] != '<'
    ensures !Begins(file, t) && (g > 0 ==> !Begins(file, g - 1))
    decreases t
  {
    hide CandidateEnd, Overflows, LastClose;
    forall u: nat | u < t && Begins(file, u) && Overflows(file, u)
      ensures CandidateEnd(file, u) != t && (g > 0 && u < g - 1 ==> CandidateEnd(file, u) != g - 1)
    {
      if g > 0 && u < g - 1 {
        EndsAtClose(file, g - 1, u);
      } else if g <= u {
        NothingBeginsAfterClose(file, g, u);
      } else {
        CloseBeginsNothing(file, u);
      }
    }
    if g > 0 {
      CloseBeginsNothing(file, g - 1);
    }
  }

  /** No candidate begins with `>`. */
  lemma CloseBeginsNothing(file: string, g: nat)
    requires g < |file| && file[g] == '>'
    ensures !Begins(file, g)
  {
    forall u: nat | u < g && Begins(file, u) && Overflows(file, u)
      ensures CandidateEnd(file, u) != g
    {
      EndsAtClose(file, g, u);
    }
  }

  /** A tag is taken out when there is no `<` between the last `>` before it, or the start of the file,
      and the tag. */
  lemma TagAfterPlainText(file: string, i: nat, n: nat, g: nat)
    requires TagAt(file, i, n) && n < BUF_LEN && g <= i && (g == 0 || file[g - 1] == '>')
    requires forall k | g <= k < i :: file[k] != '<'
    ensures TakenOut(file, i, n)
  {
    hide TakenOut, Begins, CandidateEnd, Overflows;
    forall t: nat | t < i && Begins(file, t)
      ensures CandidateEnd(file, t) <= i
    {
      if g <= t {
        NothingBeginsAfterClose(file, g, t);
      } else if t < g - 1 {
        EndsAtClose(file, g - 1, t);
      } else {
        CloseBeginsNothing(file, t);
      }
    }
    TakenOutIff(file, i, n);
  }

  /** A `<` right before a tag hides it, unless that `<` lies inside a candidate itself. */
  lemma StrayHidesTag(file: string, i: nat, n: nat)
    requires 0 < i && TagAt(file, i, n) && Begins(file, i - 1)
    ensures !TakenOut(file, i, n)
  {
    hide TakenOut, Begins;
    assert file[i] == file[i..i + 5][0];
    assert i < CandidateEnd(file, i - 1);
    TakenOutIff(file, i, n);
  }

  /** A tag that begins where a candidate overflows is taken out, although no `>` came before it. */
  lemma OverflowRevealsTag(file: string, t: nat, n: nat)
    requires t < |file| && Begins(file, t) && Overflows(file, t) && TagAt(file, CandidateEnd(file, t), n)
    requires n < BUF_LEN
    ensures TakenOut(file, CandidateEnd(file, t), n)
  {
    hide TakenOut, Begins, Scan;
    var i := CandidateEnd(file, t);
    ScanState(file, i);
    assert file[i] == file[i..i + 5][0];
    ReadyIffUncovered(file, i);
    TakenOutIff(file, i, n);
  }

  /** One byte of a file, and its effect. */
  lemma OneByte(file: string, n: nat, st: Scanner, ps: seq<Piece>, r: Scanner)
    requires n < |file| && Scan(file, n) == Progress(st, ps) && Step(st, file[n]) == Progress(r, [])
    ensures Scan(file, n + 1) == Progress(r, ps)
  {
    assert ps + [] == ps;
  }

  /** A file in which a tag is overlooked, and sent as text. */
  lemma StrayLessThanHidesTag()
    ensures TagAt("<<!--#x>", 1, 7) && Scan("<<!--#x>", 1).st.inTag && Pieces("<<!--#x>") == [Text("<<!--#x>")]
  {
    hide Scan;
    var f := "<<!--#x>";
    assert f[1..6] == MARK;
    FirstState(f);
    OneByte(f, 0, Scanner(false, []), [], Scanner(true, "<"));
    OneByte(f, 1, Scanner(true, "<"), [], Scanner(true, "<<"));
    OneByte(f, 2, Scanner(true, "<<"), [], Scanner(true, "<<!"));
    OneByte(f, 3, Scanner(true, "<<!"), [], Scanner(true, "<<!-"));
    OneByte(f, 4, Scanner(true, "<<!-"), [], Scanner(true, "<<!--"));
    assert !HasPrefix("<<!--", MARK) by { assert "<<!--"[..5][1] != MARK[1]; }
    OneByte(f, 5, Scanner(true, "<<!--"), [], Scanner(false, "<<!--#"));
    OneByte(f, 6, Scanner(false, "<<!--#"), [], Scanner(false, "<<!--#x"));
    OneByte(f, 7, Scanner(false, "<<!--#x"), [], Scanner(false, "<<!--#x>"));
  }

  lemma FirstState(file: string)
    ensures Scan(file, 0) == Progress(Scanner(false, []), [])
  {
  }
}
