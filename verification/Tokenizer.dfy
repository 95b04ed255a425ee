/** The in-place tokenizer: cuts the next word out of a NUL-terminated buffer, removing the quoting
    of delimiters, and says where the rest of the text starts. */
module Tokenizer {

  const NUL := '\0'

  // ---------------------------------------------------------------------------------------------
  // Specification, on a text and positions in it
  // ---------------------------------------------------------------------------------------------

  /** The first position from `i` on that holds a delimiter, or the end of the text. */
  function Cspn(t: seq<char>, i: nat, delimiters: seq<char>): (j: nat)
    requires i <= |t|
    ensures i <= j <= |t|
    ensures forall k | i <= k < j :: t[k] !in delimiters
    ensures j < |t| ==> t[j] in delimiters
    decreases |t| - i
  {
    if i == |t| || t[i] in delimiters then i else Cspn(t, i + 1, delimiters)
  }

  /** The first position from `i` on that holds none of the given characters, or the end. */
  function Spn(t: seq<char>, i: nat, accepted: seq<char>): (j: nat)
    requires i <= |t|
    ensures i <= j <= |t|
    ensures forall k | i <= k < j :: t[k] in accepted
    ensures j < |t| ==> t[j] !in accepted
    decreases |t| - i
  {
    if i == |t| || t[i] !in accepted then i else Spn(t, i + 1, accepted)
  }

  /** A word, and the position of the delimiter that ended it. */
  datatype Cut = Cut(word: seq<char>, end: nat)

  /** Continues a word that stopped at position `e`: a quoted delimiter belongs to the word. */
  function Continue(t: seq<char>, delimiters: seq<char>, quote: char, acc: seq<char>, e: nat): (c: Cut)
    requires acc != [] && e <= |t|
    ensures e <= c.end <= |t|
    ensures |c.word| + e <= |acc| + c.end
    decreases |t| - e
  {
    if acc[|acc| - 1] != quote then Cut(acc, e)
    else if e == |t| then Cut(acc[..|acc| - 1], e)
    else
      var next := Cspn(t, e + 1, delimiters);
      Continue(t, delimiters, quote, acc[..|acc| - 1] + t[e..next], next)
  }

  /** The word that starts at position `i`. */
  function CutWord(t: seq<char>, i: nat, delimiters: seq<char>, quote: char): (c: Cut)
    requires i <= |t|
    ensures i + |c.word| <= c.end <= |t|
  {
    var e := Cspn(t, i, delimiters);
    if e == i then Cut([], i) else Continue(t, delimiters, quote, t[i..e], e)
  }

  /** Where the text goes on after that word, its delimiter, and whitespace. */
  function NextWord(t: seq<char>, i: nat, delimiters: seq<char>, whitespace: seq<char>, quote: char): (n: nat)
    requires i <= |t|
    ensures CutWord(t, i, delimiters, quote).end <= n <= |t|
    ensures n == i <==> i == |t|
  {
    var e := CutWord(t, i, delimiters, quote).end;
    if e == |t| then e else Spn(t, e + 1, whitespace)
  }

  lemma CspnIs(t: seq<char>, i: nat, delimiters: seq<char>, j: nat)
    requires i <= j <= |t|
    requires forall k | i <= k < j :: t[k] !in delimiters
    requires j < |t| ==> t[j] in delimiters
    ensures Cspn(t, i, delimiters) == j
  {
    var c := Cspn(t, i, delimiters);
    assert c < |t| ==> t[c] in delimiters;
  }

  lemma SpnIs(t: seq<char>, i: nat, accepted: seq<char>, j: nat)
    requires i <= j <= |t|
    requires forall k | i <= k < j :: t[k] in accepted
    requires j < |t| ==> t[j] !in accepted
    ensures Spn(t, i, accepted) == j
  {
    var c := Spn(t, i, accepted);
    assert c < |t| ==> t[c] !in accepted;
  }

  lemma ContinueStep(t: seq<char>, delimiters: seq<char>, quote: char, acc: seq<char>, e: nat)
    requires acc != [] && e < |t| && acc[|acc| - 1] == quote
    ensures var next := Cspn(t, e + 1, delimiters);
      Continue(t, delimiters, quote, acc, e)
      == Continue(t, delimiters, quote, acc[..|acc| - 1] + t[e..next], next)
  {
  }

  lemma ContinueStops(t: seq<char>, delimiters: seq<char>, quote: char, acc: seq<char>, e: nat)
    requires acc != [] && e <= |t|
    ensures acc[|acc| - 1] != quote ==> Continue(t, delimiters, quote, acc, e) == Cut(acc, e)
    ensures acc[|acc| - 1] == quote && e == |t| ==> Continue(t, delimiters, quote, acc, e) == Cut(acc[..|acc| - 1], e)
  {
  }

  /** A string stands at a position of a text. */
  ghost predicate StandsAt(t: seq<char>, i: nat, f: seq<char>) {
    i + |f| <= |t| && forall k | i <= k < i + |f| :: t[k] == f[k - i]
  }

  lemma StandsApart(t: seq<char>, i: nat, f: seq<char>, g: seq<char>)
    requires StandsAt(t, i, f + g)
    ensures StandsAt(t, i, f) && StandsAt(t, i + |f|, g)
  {
    assert forall k | 0 <= k < |f| :: (f + g)[k] == f[k];
    forall k | i + |f| <= k < i + |f| + |g|
      ensures t[k] == g[k - (i + |f|)]
    {
      assert (f + g)[k - i] == g[k - i - |f|];
    }
  }

  // ---------------------------------------------------------------------------------------------
  // The tokenizer on a buffer
  // ---------------------------------------------------------------------------------------------

  /** The string at `from` has its terminating NUL at `z`. */
  ghost predicate Terminated(a: array<char>, from: int, z: int)
    reads a
  {
    0 <= from <= z < a.Length && a[z] == NUL && forall k | from <= k < z :: a[k] != NUL
  }

  /** From position `from` up to `z` the buffer still holds the text. */
  ghost predicate Holds(a: array<char>, from: int, z: int, t: seq<char>)
    reads a
  {
    0 <= from && |t| == z < a.Length && forall k | from <= k < z :: a[k] == t[k]
  }

  /** p = from + strcspn(from, delimiters) */
  method StrCspn(a: array<char>, from: nat, delimiters: seq<char>, ghost t: seq<char>, ghost z: nat) returns (p: nat)
    requires Terminated(a, from, z) && Holds(a, from, z, t) && NUL !in delimiters
    ensures p == Cspn(t, from, delimiters)
  {
    p := from;
    while a[p] != NUL && a[p] !in delimiters
      invariant from <= p <= z
      invariant forall k | from <= k < p :: t[k] !in delimiters
      decreases z - p
    {
      p := p + 1;
    }
    CspnIs(t, from, delimiters, p);
  }

  /** p = from + strspn(from, accepted) */
  method StrSpn(a: array<char>, from: nat, accepted: seq<char>, ghost t: seq<char>, ghost z: nat) returns (p: nat)
    requires Terminated(a, from, z) && Holds(a, from, z, t) && NUL !in accepted
    ensures p == Spn(t, from, accepted)
  {
    p := from;
    while a[p] in accepted
      invariant from <= p <= z
      invariant forall k | from <= k < p :: t[k] in accepted
      decreases z - p
    {
      p := p + 1;
    }
    SpnIs(t, from, accepted, p);
  }

  /** memmove, for a move towards the start of the buffer */
  method MemMove(a: array<char>, dst: nat, src: nat, n: nat)
    requires dst <= src && src + n <= a.Length
    modifies a
    ensures forall j | dst <= j < dst + n :: a[j] == old(a[j - dst + src])
    ensures forall j | 0 <= j < a.Length && !(dst <= j < dst + n) :: a[j] == old(a[j])
  {
    for i := 0 to n
      invariant forall j | dst <= j < dst + i :: a[j] == old(a[j - dst + src])
      invariant forall j | 0 <= j < a.Length && !(dst <= j < dst + i) :: a[j] == old(a[j])
    {
      a[dst + i] := a[src + i];
    }
  }

  /** for (p = from; p < to; p++) *p = '\0'; */
  method Clear(a: array<char>, from: nat, to: nat)
    requires from <= to <= a.Length
    modifies a
    ensures forall k | from <= k < to :: a[k] == NUL
    ensures forall k | 0 <= k < a.Length && !(from <= k < to) :: a[k] == old(a[k])
  {
    var p := from;
    while p < to
      invariant from <= p <= to
      invariant forall k | from <= k < p :: a[k] == NUL
      invariant forall k | 0 <= k < a.Length && !(from <= k < p) :: a[k] == old(a[k])
    {
      a[p] := NUL;
      p := p + 1;
    }
  }

  /** The word stands at `from`, followed by NULs up to `to`. */
  ghost predicate WordAt(a: array<char>, from: nat, word: seq<char>, to: int)
    reads a
  {
    && from + |word| <= to <= a.Length
    && (forall k | from <= k < from + |word| :: a[k] == word[k - from])
    && (forall k | from + |word| <= k < to :: a[k] == NUL)
  }

  /** One round of joining: the quote at `p` makes way for the delimiter and what follows it. */
  method JoinOne(a: array<char>, buf: nat, delimiters: seq<char>, quotechar: char, p0: nat, endWord0: nat,
                 ghost acc0: seq<char>, ghost t: seq<char>, ghost z: nat)
      returns (ghost acc: seq<char>, p: nat, endWord: nat)
    requires Terminated(a, endWord0, z) && Holds(a, endWord0, z, t) && NUL !in delimiters
    requires buf <= p0 < endWord0 < z
    requires |acc0| == p0 + 1 - buf && WordAt(a, buf, acc0, p0 + 1) && a[p0] == quotechar
    modifies a
    ensures buf <= p < endWord <= z && endWord0 < endWord
    ensures |acc| == p + 1 - buf && WordAt(a, buf, acc, p + 1) && Holds(a, endWord, z, t)
    ensures Continue(t, delimiters, quotechar, acc0, endWord0) == Continue(t, delimiters, quotechar, acc, endWord)
    ensures forall k | 0 <= k < a.Length && !(buf <= k < endWord) :: a[k] == old(a[k])
  {
    hide Cspn, Continue;
    ContinueStep(t, delimiters, quotechar, acc0, endWord0);
    endWord := StrCspn(a, endWord0 + 1, delimiters, t, z);
    acc := acc0[..|acc0| - 1] + t[endWord0..endWord];
    var n := endWord - endWord0;
    MemMove(a, p0, endWord0, n);
    p := p0 + (n - 1);
  }

  /** The rounds of joining, up to a word that does not end in the quote, or to the end of the text. */
  method JoinRounds(a: array<char>, buf: nat, delimiters: seq<char>, quotechar: char, endWord0: nat,
                    ghost t: seq<char>, ghost z: nat)
      returns (ghost acc: seq<char>, p: nat, endWord: nat)
    requires Terminated(a, buf, z) && Holds(a, buf, z, t) && NUL !in delimiters && buf < endWord0 <= z
    modifies a
    ensures buf <= p < endWord <= z && |acc| == p + 1 - buf && WordAt(a, buf, acc, p + 1)
    ensures a[p] == quotechar ==> endWord == z
    ensures Continue(t, delimiters, quotechar, t[buf..endWord0], endWord0)
         == Cut(if a[p] == quotechar then acc[..|acc| - 1] else acc, endWord)
    ensures forall k | 0 <= k < a.Length && !(buf <= k < endWord) :: a[k] == old(a[k])
  {
    hide Continue, Cspn, Spn;
    acc, p, endWord := t[buf..endWord0], endWord0 - 1, endWord0;
    ghost var cut := Continue(t, delimiters, quotechar, acc, endWord);
    while a[p] == quotechar && a[endWord] != NUL
      invariant buf <= p < endWord <= z
      invariant |acc| == p + 1 - buf && WordAt(a, buf, acc, p + 1) && Holds(a, endWord, z, t)
      invariant cut == Continue(t, delimiters, quotechar, acc, endWord)
      invariant forall k | 0 <= k < a.Length && !(buf <= k < endWord) :: a[k] == old(a[k])
      decreases z - endWord
    {
      acc, p, endWord := JoinOne(a, buf, delimiters, quotechar, p, endWord, acc, t, z);
    }
    ContinueStops(t, delimiters, quotechar, acc, endWord);
  }

  /** Joins a word across quoted delimiters; a quote at the very end of the text is dropped. */
  method JoinQuoted(a: array<char>, buf: nat, delimiters: seq<char>, quotechar: char, endWord0: nat,
                    ghost t: seq<char>, ghost z: nat)
      returns (endWord: nat)
    requires Terminated(a, buf, z) && Holds(a, buf, z, t) && NUL !in delimiters && buf < endWord0 <= z
    modifies a
    ensures endWord <= z
    ensures var cut := Continue(t, delimiters, quotechar, t[buf..endWord0], endWord0);
      WordAt(a, buf, cut.word, endWord) && endWord == cut.end
    ensures forall k | 0 <= k < a.Length && !(buf <= k < endWord) :: a[k] == old(a[k])
  {
    hide Continue, Cspn, Spn;
    ghost var acc;
    var p;
    acc, p, endWord := JoinRounds(a, buf, delimiters, quotechar, endWord0, t, z);
    if a[p] == quotechar {
      a[p] := NUL;
    }
    Clear(a, p + 1, endWord);
  }

  /** Cuts the next word out of the string at `buf`. Its characters are moved together at `buf` and
      followed by NULs up to the position where the rest of the text starts; the rest, and all that
      is before `buf`, stays as it was. */
  method SkipQuoted(a: array<char>, buf: nat, delimiters: seq<char>, whitespace: seq<char>, quotechar: char,
          ghost z: nat)
      returns (next: nat)
    requires Terminated(a, buf, z) && NUL !in delimiters && NUL !in whitespace
    modifies a
    ensures next == NextWord(old(a[..z]), buf, delimiters, whitespace, quotechar)
    ensures var word := CutWord(old(a[..z]), buf, delimiters, quotechar).word;
      WordAt(a, buf, word, next) && a[buf + |word|] == NUL
    ensures forall k | 0 <= k < a.Length && !(buf <= k < next) :: a[k] == old(a[k])
    ensures Terminated(a, next, z)
  {
    hide Continue, Cspn, Spn;
    ghost var t := a[..z];
    var endWord := StrCspn(a, buf, delimiters, t, z);
    if endWord > buf {
      endWord := JoinQuoted(a, buf, delimiters, quotechar, endWord, t, z);
    }

    if a[endWord] == NUL {
      next := endWord;
    } else {
      next := StrSpn(a, endWord + 1, whitespace, t, z);
      Clear(a, endWord, next);
    }
  }
}
