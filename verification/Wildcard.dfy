/** The wildcard matcher: `?` is any character, `*` anything without a slash, `**` anything, `$` the
    end of the string, `|` separates alternatives. A pattern is the part from..to of a string in
    memory, a subject is a string from a position on; the result is the length of the match or -1. */
module Wildcard {

  const NUL := '\0'

  /** The character at a position of a NUL-terminated string. */
  function At(s: seq<char>, j: nat): char {
    if j < |s| then s[j] else NUL
  }

  // ---------------------------------------------------------------------------------------------
  // What a pattern without alternatives matches
  // ---------------------------------------------------------------------------------------------

  ghost predicate NoSlash(s: seq<char>, j: nat, k: nat)
    requires k <= |s|
  {
    forall m | j <= m < k :: s[m] != '/'
  }

  /** p[i..n] matches s[j..e]. */
  ghost predicate Matches(p: seq<char>, i: nat, n: nat, s: seq<char>, j: nat, e: nat)
    requires i <= n <= |p| && j <= e <= |s|
    decreases n - i
  {
    if i == n then j == e
    else if p[i] == '$' then j == e == |s|
    else if p[i] == '*' && i + 1 < n && p[i + 1] == '*' then
      var rest := i + 2;
      exists k: nat :: j <= k <= e && Matches(p, rest, n, s, k, e)
    else if p[i] == '*' then
      exists k: nat :: j <= k <= e && NoSlash(s, j, k) && Matches(p, i + 1, n, s, k, e)
    else
      j < e && (p[i] == '?' || p[i] == s[j]) && Matches(p, i + 1, n, s, j + 1, e)
  }

  // ---------------------------------------------------------------------------------------------
  // The match that is found: every star takes as much as it can
  // ---------------------------------------------------------------------------------------------

  /** The end of the longest stretch from `j` on without a slash. */
  function SlashOrEnd(s: seq<char>, j: nat): (k: nat)
    requires j <= |s|
    ensures j <= k <= |s|
    decreases |s| - j
  {
    if j == |s| || s[j] == '/' then j else SlashOrEnd(s, j + 1)
  }

  /** The end of the match, or -1. */
  function Find(p: seq<char>, i: nat, n: nat, s: seq<char>, j: nat): (e: int)
    requires i <= n <= |p| && j <= |s|
    ensures e == -1 || j <= e <= |s|
    decreases n - i, 0, 0
  {
    if i == n then j
    else if p[i] == '$' then if j == |s| then j else -1
    else if p[i] == '*' && i + 1 < n && p[i + 1] == '*' then FindFrom(p, i + 2, n, s, j, |s|)
    else if p[i] == '*' then FindFrom(p, i + 1, n, s, j, SlashOrEnd(s, j))
    else if j < |s| && (p[i] == '?' || p[i] == s[j]) then Find(p, i + 1, n, s, j + 1)
    else -1
  }

  /** The rest of the pattern matched from the last possible position between `j` and `k`. */
  function FindFrom(p: seq<char>, i: nat, n: nat, s: seq<char>, j: nat, k: nat): (e: int)
    requires i <= n <= |p| && j <= k <= |s|
    ensures e == -1 || j <= e <= |s|
    decreases n - i, 1, k - j
  {
    var e := Find(p, i, n, s, k);
    if e != -1 || k == j then e else FindFrom(p, i, n, s, j, k - 1)
  }

  lemma {:induction false} SlashOrEndIsLast(s: seq<char>, j: nat, k: nat)
    requires j <= k <= |s|
    ensures NoSlash(s, j, k) <==> k <= SlashOrEnd(s, j)
    decreases |s| - j
  {
    if j < |s| && s[j] != '/' && j < k {
      SlashOrEndIsLast(s, j + 1, k);
      assert NoSlash(s, j, k) <==> NoSlash(s, j + 1, k);
    }
  }

  lemma {:induction false} FindFromIsLast(p: seq<char>, i: nat, n: nat, s: seq<char>, j: nat, k: nat) returns (m: nat)
    requires i <= n <= |p| && j <= k <= |s|
    ensures j <= m <= k && FindFrom(p, i, n, s, j, k) == Find(p, i, n, s, m)
    ensures forall x: nat | m < x <= k :: Find(p, i, n, s, x) == -1
    ensures Find(p, i, n, s, m) == -1 ==> m == j
    decreases k - j
  {
    m := k;
    if Find(p, i, n, s, k) == -1 && k > j {
      m := FindFromIsLast(p, i, n, s, j, k - 1);
    }
  }

  /** What is found is a match. */
  lemma {:induction false} FindIsSound(p: seq<char>, i: nat, n: nat, s: seq<char>, j: nat)
    requires i <= n <= |p| && j <= |s|
    requires Find(p, i, n, s, j) != -1
    ensures Matches(p, i, n, s, j, Find(p, i, n, s, j))
    decreases n - i
  {
    var e := Find(p, i, n, s, j);
    if i < n && p[i] != '$' {
      if p[i] == '*' {
        var double := i + 1 < n && p[i + 1] == '*';
        var rest, last := if double then i + 2 else i + 1, if double then |s| else SlashOrEnd(s, j);
        var m := FindFromIsLast(p, rest, n, s, j, last);
        FindIsSound(p, rest, n, s, m);
        SlashOrEndIsLast(s, j, m);
      } else {
        FindIsSound(p, i + 1, n, s, j + 1);
      }
    }
  }

  /** Whatever can be matched, something is found; and if nothing but the empty match is found, there
      is no other match. */
  lemma {:induction false} FindIsComplete(p: seq<char>, i: nat, n: nat, s: seq<char>, j: nat, e: nat)
    requires i <= n <= |p| && j <= e <= |s|
    requires Matches(p, i, n, s, j, e)
    ensures Find(p, i, n, s, j) != -1
    ensures Find(p, i, n, s, j) == j ==> e == j
    decreases n - i
  {
    if i < n && p[i] != '$' {
      if p[i] == '*' {
        var double := i + 1 < n && p[i + 1] == '*';
        var rest, last := if double then i + 2 else i + 1, if double then |s| else SlashOrEnd(s, j);
        var k: nat :| j <= k <= e && (double || NoSlash(s, j, k)) && Matches(p, rest, n, s, k, e);
        SlashOrEndIsLast(s, j, k);
        FindIsComplete(p, rest, n, s, k, e);
        var m := FindFromIsLast(p, rest, n, s, j, last);
        assert k <= m;
      } else {
        FindIsComplete(p, i + 1, n, s, j + 1, e);
      }
    }
  }

  // ---------------------------------------------------------------------------------------------
  // Alternatives
  // ---------------------------------------------------------------------------------------------

  /** The position of the first bar in p[i..n], or n. */
  function BarOrEnd(p: seq<char>, i: nat, n: nat): (b: nat)
    requires i <= n <= |p|
    ensures i <= b <= n && (b < n ==> p[b] == '|') && forall k | i <= k < b :: p[k] != '|'
    decreases n - i
  {
    if i == n || p[i] == '|' then i else BarOrEnd(p, i + 1, n)
  }

  /** The length of the match, or -1: the first alternative with a non-empty match wins, and if there
      is none the answer is that of the last alternative. */
  function MatchLength(p: seq<char>, i: nat, n: nat, s: seq<char>, j: nat): (r: int)
    requires i <= n <= |p| && j <= |s|
    ensures -1 <= r <= |s| - j
    decreases n - i
  {
    var b := BarOrEnd(p, i, n);
    var e := Find(p, i, b, s, j);
    var r := if e == -1 then -1 else e - j;
    if b == n || r > 0 then r else MatchLength(p, b + 1, n, s, j)
  }

  /** p[a..b] is one of the alternatives that p[i..n] consists of. */
  ghost predicate IsAlternative(p: seq<char>, i: nat, n: nat, a: nat, b: nat)
    requires n <= |p|
  {
    && i <= a <= b <= n
    && (a == i || p[a - 1] == '|') && (b == n || p[b] == '|')
    && forall k | a <= k < b :: p[k] != '|'
  }

  ghost predicate MatchesNonEmpty(p: seq<char>, a: nat, b: nat, s: seq<char>, j: nat)
    requires a <= b <= |p| && j <= |s|
  {
    exists e: nat :: j < e <= |s| && Matches(p, a, b, s, j, e)
  }

  lemma FindNonEmptyIff(p: seq<char>, a: nat, b: nat, s: seq<char>, j: nat)
    requires a <= b <= |p| && j <= |s|
    ensures Find(p, a, b, s, j) > j <==> MatchesNonEmpty(p, a, b, s, j)
  {
    if Find(p, a, b, s, j) > j {
      FindIsSound(p, a, b, s, j);
    }
    if MatchesNonEmpty(p, a, b, s, j) {
      var e: nat :| j < e <= |s| && Matches(p, a, b, s, j, e);
      FindIsComplete(p, a, b, s, j, e);
    }
  }

  /** p[a..b] is the first alternative with a non-empty match, and one of its matches has length r. */
  ghost predicate FirstMatch(p: seq<char>, i: nat, n: nat, s: seq<char>, j: nat, r: nat, a: nat, b: nat)
    requires i <= n <= |p| && j + r <= |s|
  {
    && IsAlternative(p, i, n, a, b) && Matches(p, a, b, s, j, j + r)
    && forall c: nat, d: nat :: IsAlternative(p, i, n, c, d) && c < a ==> !MatchesNonEmpty(p, c, d, s, j)
  }

  /** For a pattern with alternatives, the answer is positive exactly when some alternative matches a
      non-empty part of the subject. It is then the length of a real match of an alternative, and no
      alternative before that one matches anything but the empty string. */
  lemma {:induction false} PositiveIff(p: seq<char>, i: nat, n: nat, s: seq<char>, j: nat)
    requires i <= n <= |p| && j <= |s|
    ensures var r := MatchLength(p, i, n, s, j);
      && (r > 0 <==> exists a: nat, b: nat :: IsAlternative(p, i, n, a, b) && MatchesNonEmpty(p, a, b, s, j))
      && (r > 0 ==> exists a: nat, b: nat :: FirstMatch(p, i, n, s, j, r, a, b))
    decreases n - i
  {
    var b := BarOrEnd(p, i, n);
    assert IsAlternative(p, i, n, i, b);
    FindNonEmptyIff(p, i, b, s, j);
    if Find(p, i, b, s, j) > j {
      FindIsSound(p, i, b, s, j);
      var r: nat := Find(p, i, b, s, j) - j;
      assert MatchLength(p, i, n, s, j) == r && j + r == Find(p, i, b, s, j);
      assert FirstMatch(p, i, n, s, j, r, i, b);
    } else if b < n {
      PositiveIff(p, b + 1, n, s, j);
      forall c: nat, d: nat
        ensures IsAlternative(p, i, n, c, d) <==> (c == i && d == b) || IsAlternative(p, b + 1, n, c, d)
      {
        AlternativesSplit(p, i, n, b, c, d);
      }
      var r := MatchLength(p, b + 1, n, s, j);
      if r > 0 {
        var c: nat, d: nat :| FirstMatch(p, b + 1, n, s, j, r, c, d);
        assert FirstMatch(p, i, n, s, j, r, c, d);
      }
    }
  }

  lemma AlternativesSplit(p: seq<char>, i: nat, n: nat, b: nat, c: nat, d: nat)
    requires i <= b < n <= |p| && p[b] == '|' && forall k | i <= k < b :: p[k] != '|'
    ensures IsAlternative(p, i, n, c, d) <==> (c == i && d == b) || IsAlternative(p, b + 1, n, c, d)
  {
  }

  /** Without a bar, the answer is -1 exactly when nothing matches, and otherwise the length of a
      match. */
  lemma SingleAnswer(p: seq<char>, i: nat, n: nat, s: seq<char>, j: nat)
    requires i <= n <= |p| && j <= |s| && forall k | i <= k < n :: p[k] != '|'
    ensures var r := MatchLength(p, i, n, s, j);
      && (r == -1 <==> forall e: nat | j <= e <= |s| :: !Matches(p, i, n, s, j, e))
      && (r != -1 ==> Matches(p, i, n, s, j, j + r))
  {
    assert BarOrEnd(p, i, n) == n;
    var found := Find(p, i, n, s, j);
    if found != -1 {
      FindIsSound(p, i, n, s, j);
      var e: nat := found;
      assert Matches(p, i, n, s, j, e);
    }
    forall e: nat | j <= e <= |s| && Matches(p, i, n, s, j, e)
      ensures Find(p, i, n, s, j) != -1
    {
      FindIsComplete(p, i, n, s, j, e);
    }
  }

  // ---------------------------------------------------------------------------------------------
  // The matcher
  // ---------------------------------------------------------------------------------------------

  method MemChr(p: seq<char>, c: char, i: nat, n: nat) returns (b: nat)
    requires i <= n <= |p| && c == '|'
    ensures b == BarOrEnd(p, i, n)
  {
    b := i;
    while b < n && p[b] != c
      invariant i <= b <= n && BarOrEnd(p, i, n) == BarOrEnd(p, b, n)
    {
      b := b + 1;
    }
  }

  method StrCspn(s: seq<char>, j: nat) returns (len: nat)
    requires j <= |s| && NUL !in s
    ensures j + len == SlashOrEnd(s, j)
  {
    len := 0;
    while At(s, j + len) != NUL && At(s, j + len) != '/'
      invariant j + len <= |s| && SlashOrEnd(s, j) == SlashOrEnd(s, j + len)
      decreases |s| - len
    {
      len := len + 1;
    }
  }

  /** The pattern is p[from..limit]; p[limit] is what follows it in memory, and must not be a star. */
  method MatchPrefix(p: seq<char>, from: nat, limit: nat, s: seq<char>, at: nat) returns (res: int)
    requires from <= limit < |p| && at <= |s| && p[limit] != '*'
    requires NUL !in s && forall k | from <= k < limit :: p[k] != NUL
    ensures res == MatchLength(p, from, limit, s, at)
    decreases limit - from, 0
  {
    var orStr := MemChr(p, '|', from, limit);
    if orStr < limit {
      res := MatchPrefix(p, from, orStr, s, at);
      if res <= 0 {
        res := MatchPrefix(p, orStr + 1, limit, s, at);
      }
      return;
    }

    var i, j := from, at;
    while i < limit
      invariant from <= i <= limit && at <= j <= |s|
      invariant Find(p, from, limit, s, at) == Find(p, i, limit, s, j)
    {
      if p[i] == '?' && At(s, j) != NUL {
      } else if p[i] == '$' {
        return if At(s, j) == NUL then j - at else -1;
      } else if p[i] == '*' {
        i := i + 1;
        var len;
        if p[i] == '*' {
          i := i + 1;
          len := |s| - j;
        } else {
          len := StrCspn(s, j);
        }
        if i == limit {
          assert Find(p, limit, limit, s, j + len) == j + len;
          return j - at + len;
        }
        res := MatchRest(p, i, limit, s, j, len);
        return if res == -1 then -1 else j - at + res;
      } else if p[i] != At(s, j) {
        return -1;
      }
      i, j := i + 1, j + 1;
    }
    return j - at;
  }

  /** The loop over the lengths of what a star takes, from the longest down. */
  method MatchRest(p: seq<char>, i: nat, limit: nat, s: seq<char>, j: nat, len0: nat) returns (res: int)
    requires i <= limit < |p| && j + len0 <= |s| && p[limit] != '*'
    requires NUL !in s && forall k | i <= k < limit :: p[k] != '|' && p[k] != NUL
    ensures var e := FindFrom(p, i, limit, s, j, j + len0); res == if e == -1 then -1 else e - j
    decreases limit - i, 1
  {
    var len := len0;
    while true
      invariant 0 <= len <= len0
      invariant FindFrom(p, i, limit, s, j, j + len0) == FindFrom(p, i, limit, s, j, j + len)
      decreases len
    {
      res := MatchPrefix(p, i, limit, s, j + len);
      if res != -1 {
        return res + len;
      }
      if len == 0 {
        return -1;
      }
      len := len - 1;
    }
  }
}
