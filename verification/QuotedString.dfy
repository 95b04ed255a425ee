/** Quoted strings (section 2.2 of RFC 2616) against the tokenizer: when does cutting a word give
    back what was escaped? */
module QuotedString {
  import opened Tokenizer

  const DQUOTE: seq<char> := ['"']
  const BACKSLASH: char := '\\'

  /** The inside of a quoted string: quotes and backslashes are preceded by a backslash. */
  function Escape(w: seq<char>): (r: seq<char>)
    ensures |w| <= |r|
  {
    if w == [] then []
    else (if w[0] == '"' || w[0] == BACKSLASH then [BACKSLASH, w[0]] else [w[0]]) + Escape(w[1..])
  }

  function Backslashes(w: seq<char>): (n: nat)
    ensures n == 0 <==> BACKSLASH !in w
  {
    if w == [] then 0 else (if w[0] == BACKSLASH then 1 else 0) + Backslashes(w[1..])
  }

  /** The escaped word stands at position `i` of a text, closed by a quote. */
  ghost predicate EscapedAt(t: seq<char>, i: nat, w: seq<char>) {
    && i + |Escape(w)| < |t|
    && t[i + |Escape(w)|] == '"'
    && forall k | i <= k < i + |Escape(w)| :: t[k] == Escape(w)[k - i]
  }

  lemma {:induction false} EscapePlainPrefix(w: seq<char>, n: nat)
    requires n <= |w| && forall k | 0 <= k < n :: w[k] != '"' && w[k] != BACKSLASH
    ensures Escape(w) == w[..n] + Escape(w[n..])
  {
    if n > 0 {
      EscapePlainPrefix(w[1..], n - 1);
      assert w[1..][n - 1..] == w[n..];
      assert w[..n] == [w[0]] + w[1..][..n - 1];
    }
  }

  /** An escaped word without any quote. */
  lemma QuoteFree(t: seq<char>, i: nat, w: seq<char>)
    requires EscapedAt(t, i, w) && BACKSLASH !in w && '"' !in w
    ensures Escape(w) == w && Cspn(t, i, DQUOTE) == i + |w| && t[i..i + |w|] == w
  {
    EscapePlainPrefix(w, |w|);
    assert Escape(w) == w;
    CspnIs(t, i, DQUOTE, i + |w|);
  }

  /** An escaped word up to and including its first quote. */
  lemma FirstQuote(t: seq<char>, i: nat, w: seq<char>, q: nat)
    requires EscapedAt(t, i, w) && BACKSLASH !in w
    requires q < |w| && w[q] == '"' && '"' !in w[..q]
    ensures |Escape(w)| == q + 2 + |Escape(w[q + 1..])|
    ensures Cspn(t, i, DQUOTE) == i + q + 1 && t[i..i + q + 1] == w[..q] + [BACKSLASH] && t[i + q + 1] == '"'
    ensures EscapedAt(t, i + q + 2, w[q + 1..])
  {
    var rest := w[q + 1..];
    assert forall k | 0 <= k < q :: w[k] == w[..q][k];
    EscapePlainPrefix(w, q);
    assert w[q..][1..] == rest;
    var r := Escape(w);
    assert r == w[..q] + ([BACKSLASH, '"'] + Escape(rest));
    assert r[q] == BACKSLASH && r[q + 1] == '"';
    assert forall k | i <= k < i + q :: t[k] == w[k - i];
    CspnIs(t, i, DQUOTE, i + q + 1);
    forall k | i + q + 2 <= k < i + q + 2 + |Escape(rest)|
      ensures t[k] == Escape(rest)[k - (i + q + 2)]
    {
      assert t[k] == r[k - i];
    }
  }

  /** The word as far as it is known when the tokenizer reaches the next quote from `i` on. */
  ghost function Before(t: seq<char>, i: nat, acc: seq<char>): seq<char>
    requires i <= |t|
  {
    acc + t[i..Cspn(t, i, DQUOTE)]
  }

  ghost predicate EndsPlain(acc: seq<char>) { acc == [] || acc[|acc| - 1] != BACKSLASH }

  lemma PlainEnd(acc: seq<char>, w: seq<char>)
    requires EndsPlain(acc) && BACKSLASH !in w
    ensures EndsPlain(acc + w)
  {
    if w != [] {
      assert w[|w| - 1] != BACKSLASH;
    }
  }

  lemma ContinueQuoteFree(t: seq<char>, i: nat, w: seq<char>, acc: seq<char>)
    requires EscapedAt(t, i, w) && BACKSLASH !in w && '"' !in w
    requires EndsPlain(acc) && Before(t, i, acc) != []
    ensures Continue(t, DQUOTE, BACKSLASH, Before(t, i, acc), Cspn(t, i, DQUOTE)) == Cut(acc + w, i + |Escape(w)|)
  {
    hide Cspn, Continue, Escape;
    QuoteFree(t, i, w);
    PlainEnd(acc, w);
    ContinueStops(t, DQUOTE, BACKSLASH, acc + w, i + |w|);
  }

  /** Joining across a quoted quote: the quote joins the word, its backslash does not. */
  lemma JoinAcrossQuote(t: seq<char>, i: nat, w: seq<char>, q: nat, acc: seq<char>)
    requires EscapedAt(t, i, w) && BACKSLASH !in w
    requires q < |w| && w[q] == '"' && '"' !in w[..q]
    ensures Before(t, i, acc) != [] && Before(t, i + q + 2, acc + w[..q] + ['"']) != []
    ensures Continue(t, DQUOTE, BACKSLASH, Before(t, i, acc), Cspn(t, i, DQUOTE))
         == Continue(t, DQUOTE, BACKSLASH, Before(t, i + q + 2, acc + w[..q] + ['"']), Cspn(t, i + q + 2, DQUOTE))
  {
    hide Cspn, Continue, EscapedAt, Escape;
    FirstQuote(t, i, w, q);
    var e := i + q + 1;
    var next := Cspn(t, e + 1, DQUOTE);
    DropQuote(acc, w[..q], t[e + 1..next]);
    SliceHead(t, e, next);
    ContinueStep(t, DQUOTE, BACKSLASH, acc + (w[..q] + [BACKSLASH]), e);
  }

  /** What the tokenizer does from the start of an escaped remainder `w` of the word. */
  lemma {:induction false} ContinueEscaped(t: seq<char>, i: nat, w: seq<char>, acc: seq<char>)
    requires EscapedAt(t, i, w) && BACKSLASH !in w
    requires EndsPlain(acc) && Before(t, i, acc) != []
    ensures Continue(t, DQUOTE, BACKSLASH, Before(t, i, acc), Cspn(t, i, DQUOTE)) == Cut(acc + w, i + |Escape(w)|)
    decreases |w|
  {
    hide Cspn, Continue, Escape, Before, EscapedAt;
    if '"' !in w {
      ContinueQuoteFree(t, i, w, acc);
    } else {
      var q := SplitAtQuote(w);
      var rest, acc2 := w[q + 1..], acc + w[..q] + ['"'];
      FirstQuote(t, i, w, q);
      JoinAcrossQuote(t, i, w, q, acc);
      ContinueEscaped(t, i + q + 2, rest, acc2);
      Regroup(acc, w[..q], '"', rest);
    }
  }

  lemma SplitAtQuote(w: seq<char>) returns (q: nat)
    requires '"' in w && BACKSLASH !in w
    ensures q < |w| && w[q] == '"' && '"' !in w[..q] && BACKSLASH !in w[q + 1..]
    ensures w == w[..q] + (['"'] + w[q + 1..])
  {
    q := Cspn(w, 0, DQUOTE);
  }

  lemma SliceHead(t: seq<char>, i: nat, j: nat)
    requires i < j <= |t|
    ensures t[i..j] == [t[i]] + t[i + 1..j]
  {
  }

  lemma DropQuote(acc: seq<char>, u: seq<char>, x: seq<char>)
    ensures var before := acc + (u + [BACKSLASH]);
      before[|before| - 1] == BACKSLASH && before[..|before| - 1] + (['"'] + x) == acc + u + ['"'] + x
  {
  }

  lemma Regroup(a: seq<char>, b: seq<char>, c: char, d: seq<char>)
    ensures a + b + [c] + d == a + (b + ([c] + d))
  {
  }

  /** A word without backslashes comes back intact, and the cut ends at the closing quote. */
  lemma UnquoteEscaped(t: seq<char>, i: nat, w: seq<char>)
    requires EscapedAt(t, i, w) && BACKSLASH !in w
    ensures CutWord(t, i, DQUOTE, BACKSLASH) == Cut(w, i + |Escape(w)|)
  {
    var e := Cspn(t, i, DQUOTE);
    if e == i {
      if w != [] {
        assert t[i] == Escape(w)[0];
      }
    } else {
      assert [] + t[i..e] == t[i..e];
      ContinueEscaped(t, i, w, []);
      assert [] + w == w;
    }
  }

  /** Number of delimiters between two positions. */
  ghost function Count(t: seq<char>, i: nat, j: nat, delimiters: seq<char>): nat
    requires i <= j <= |t|
    decreases j - i
  {
    if i == j then 0 else (if t[i] in delimiters then 1 else 0) + Count(t, i + 1, j, delimiters)
  }

  lemma {:induction false} CountMonotone(t: seq<char>, i: nat, m: nat, j: nat, delimiters: seq<char>)
    requires i <= m <= j <= |t|
    ensures Count(t, m, j, delimiters) <= Count(t, i, j, delimiters)
    decreases m - i
  {
    if i < m {
      CountMonotone(t, i + 1, m, j, delimiters);
    }
  }

  /** The tokenizer removes at most one character for each delimiter it passes. */
  lemma {:induction false} ContinueRemovesFew(t: seq<char>, delimiters: seq<char>, quote: char, acc: seq<char>, e: nat)
    requires acc != [] && e <= |t| && (e < |t| ==> t[e] in delimiters)
    ensures var c := Continue(t, delimiters, quote, acc, e);
      c.end < |t| ==> |c.word| + Count(t, e, c.end, delimiters) >= |acc| + c.end - e
    decreases |t| - e
  {
    if acc[|acc| - 1] == quote && e < |t| {
      var next := Cspn(t, e + 1, delimiters);
      var acc2 := acc[..|acc| - 1] + t[e..next];
      ContinueRemovesFew(t, delimiters, quote, acc2, next);
      var c := Continue(t, delimiters, quote, acc2, next);
      CountMonotone(t, e + 1, next, c.end, delimiters);
    }
  }

  lemma {:induction false} EscapeCounts(t: seq<char>, i: nat, w: seq<char>)
    requires i + |Escape(w)| <= |t| && forall k | i <= k < i + |Escape(w)| :: t[k] == Escape(w)[k - i]
    ensures |Escape(w)| == |w| + Backslashes(w) + Count(t, i, i + |Escape(w)|, DQUOTE)
    decreases |w|
  {
    if w != [] {
      var n := |Escape(w)| - |Escape(w[1..])|;
      assert Escape(w)[n..] == Escape(w[1..]);
      forall k | i + n <= k < i + n + |Escape(w[1..])|
        ensures t[k] == Escape(w[1..])[k - (i + n)]
      {
        assert t[k] == Escape(w)[k - i];
      }
      EscapeCounts(t, i + n, w[1..]);
      assert t[i] == Escape(w)[0];
      assert n == 2 ==> t[i + 1] == Escape(w)[1];
    }
  }

  /** Cutting undoes escaping exactly for the words without backslashes: the tokenizer unescapes
      quotes, but not backslashes. */
  lemma UnquoteUndoesEscapeIff(t: seq<char>, i: nat, w: seq<char>)
    requires EscapedAt(t, i, w)
    ensures CutWord(t, i, DQUOTE, BACKSLASH) == Cut(w, i + |Escape(w)|) <==> BACKSLASH !in w
  {
    hide Escape, Cspn, Continue;
    if BACKSLASH !in w {
      UnquoteEscaped(t, i, w);
    } else {
      var c := CutWord(t, i, DQUOTE, BACKSLASH);
      var e := Cspn(t, i, DQUOTE);
      if c.end == i + |Escape(w)| {
        EscapeCounts(t, i, w);
        if e > i {
          ContinueRemovesFew(t, DQUOTE, BACKSLASH, t[i..e], e);
          CountMonotone(t, i, e, c.end, DQUOTE);
        }
      }
    }
  }

  /** With a backslash, cutting does fail: the escaped form of a\b keeps both backslashes. */
  lemma BackslashIsNotUnescaped()
    ensures var t := ['a', '\\', '\\', 'b', '"'];
      EscapedAt(t, 0, ['a', '\\', 'b']) && CutWord(t, 0, DQUOTE, BACKSLASH).word == ['a', '\\', '\\', 'b']
  {
    var t := ['a', '\\', '\\', 'b', '"'];
    var w := ['a', '\\', 'b'];
    assert w[1..] == ['\\', 'b'] && w[1..][1..] == ['b'] && w[1..][1..][1..] == [];
    assert Escape(['b']) == ['b'];
    assert Escape(['\\', 'b']) == ['\\', '\\', 'b'];
    assert Escape(w) == ['a', '\\', '\\', 'b'];
    CspnIs(t, 0, DQUOTE, 4);
    ContinueStops(t, DQUOTE, BACKSLASH, t[0..4], 4);
    assert t[0..4] == ['a', '\\', '\\', 'b'];
  }
}
