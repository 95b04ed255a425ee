/** Removal of repeated separators and of `..` after a separator, in place. */
module PathNormalizer {
  import opened Tokenizer

  predicate IsSeparator(c: char) { c == '/' || c == '\\' }

  /** Two dots at a position. */
  predicate DotDotAt(t: seq<char>, i: nat) {
    i + 1 < |t| && t[i] == '.' && t[i + 1] == '.'
  }

  /** The first position from `i` on that is kept after a separator. */
  function SkipJunk(t: seq<char>, i: nat): (j: nat)
    requires i <= |t|
    ensures i <= j <= |t|
    ensures j < |t| ==> !IsSeparator(t[j]) && !DotDotAt(t, j)
    decreases |t| - i
  {
    if i < |t| && IsSeparator(t[i]) then SkipJunk(t, i + 1)
    else if DotDotAt(t, i) then SkipJunk(t, i + 2)
    else i
  }

  function After(t: seq<char>, i: nat): (j: nat)
    requires i < |t|
    ensures i < j <= |t|
  {
    if IsSeparator(t[i]) then SkipJunk(t, i + 1) else i + 1
  }

  /** The normal form of the text from position `i` on. */
  function Normalize(t: seq<char>, i: nat): (n: seq<char>)
    requires i <= |t|
    ensures |n| <= |t| - i
    ensures i < |t| ==> n != [] && n[0] == t[i]
    decreases |t| - i
  {
    if i == |t| then [] else [t[i]] + Normalize(t, After(t, i))
  }

  /** No separator is followed by a separator or by two dots. */
  ghost predicate IsNormal(n: seq<char>) {
    forall k | 0 <= k < |n| - 1 && IsSeparator(n[k]) :: !IsSeparator(n[k + 1]) && !DotDotAt(n, k + 1)
  }

  /** What is left after dropping some characters, keeping the order. */
  ghost predicate IsSubsequence(n: seq<char>, t: seq<char>, i: nat)
    requires i <= |t|
    decreases |t| - i
  {
    n == [] || (i < |t| && ((n[0] == t[i] && IsSubsequence(n[1..], t, i + 1)) || IsSubsequence(n, t, i + 1)))
  }

  lemma {:induction false} NormalizeIsNormal(t: seq<char>, i: nat)
    requires i <= |t|
    ensures IsNormal(Normalize(t, i))
    decreases |t| - i
  {
    if i < |t| {
      var j := After(t, i);
      var rest := Normalize(t, j);
      NormalizeIsNormal(t, j);
      if j < |t| && IsSeparator(t[i]) {
        assert !IsSeparator(rest[0]);
        if |rest| > 1 {
          assert rest == [t[j]] + Normalize(t, j + 1);
          assert rest[1] == t[j + 1];
        }
      }
      NormalCons(t[i], rest);
    }
  }

  lemma NormalCons(c: char, rest: seq<char>)
    requires IsNormal(rest)
    requires IsSeparator(c) && rest != [] ==> !IsSeparator(rest[0]) && !DotDotAt(rest, 0)
    ensures IsNormal([c] + rest)
  {
    var n := [c] + rest;
    forall k | 0 <= k < |n| - 1 && IsSeparator(n[k])
      ensures !IsSeparator(n[k + 1]) && !DotDotAt(n, k + 1)
    {
      if k > 0 {
        assert n[k] == rest[k - 1];
        assert DotDotAt(n, k + 1) ==> DotDotAt(rest, k);
      } else {
        assert DotDotAt(n, 1) ==> DotDotAt(rest, 0);
      }
    }
  }

  lemma {:induction false} SubsequenceSkips(n: seq<char>, t: seq<char>, i: nat, j: nat)
    requires i <= j <= |t| && IsSubsequence(n, t, j)
    ensures IsSubsequence(n, t, i)
    decreases j - i
  {
    if i < j {
      SubsequenceSkips(n, t, i + 1, j);
    }
  }

  lemma {:induction false} NormalizeIsSubsequence(t: seq<char>, i: nat)
    requires i <= |t|
    ensures IsSubsequence(Normalize(t, i), t, i)
    decreases |t| - i
  {
    if i < |t| {
      var rest := Normalize(t, After(t, i));
      NormalizeIsSubsequence(t, After(t, i));
      SubsequenceSkips(rest, t, i + 1, After(t, i));
      assert ([t[i]] + rest)[1..] == rest;
    }
  }

  /** A separator, or one of two adjacent dots. */
  ghost predicate Junk(t: seq<char>, i: nat) {
    i < |t| && (IsSeparator(t[i]) || DotDotAt(t, i) || (i > 0 && DotDotAt(t, i - 1)))
  }

  /** What is left of the text from position `i` on when junk is dropped, and only after a separator that is
      kept, with nothing but dropped characters in between. */
  ghost predicate DropsJunk(n: seq<char>, t: seq<char>, i: nat, afterSeparator: bool)
    requires i <= |t|
    decreases |t| - i
  {
    if i == |t| then n == []
    else
      || (n != [] && n[0] == t[i] && DropsJunk(n[1..], t, i + 1, IsSeparator(t[i])))
      || (afterSeparator && Junk(t, i) && DropsJunk(n, t, i + 1, true))
  }

  lemma {:induction false} SkippedIsJunk(n: seq<char>, t: seq<char>, i: nat)
    requires i <= |t| && DropsJunk(n, t, SkipJunk(t, i), true)
    ensures DropsJunk(n, t, i, true)
    decreases |t| - i
  {
    if i < |t| && IsSeparator(t[i]) {
      SkippedIsJunk(n, t, i + 1);
    } else if DotDotAt(t, i) {
      SkippedIsJunk(n, t, i + 2);
      assert DropsJunk(n, t, i + 1, true);
    }
  }

  /** Every dropped character is a separator or one of two adjacent dots, and follows a separator. */
  lemma {:induction false} NormalizeDropsJunk(t: seq<char>, i: nat, afterSeparator: bool)
    requires i <= |t|
    ensures DropsJunk(Normalize(t, i), t, i, afterSeparator)
    decreases |t| - i
  {
    if i < |t| {
      var j := After(t, i);
      var rest := Normalize(t, j);
      assert ([t[i]] + rest)[1..] == rest;
      NormalizeDropsJunk(t, j, IsSeparator(t[i]));
      if IsSeparator(t[i]) {
        SkippedIsJunk(rest, t, i + 1);
      }
    }
  }

  lemma {:induction false} NormalIsKept(t: seq<char>, i: nat)
    requires i <= |t| && IsNormal(t)
    ensures Normalize(t, i) == t[i..]
    decreases |t| - i
  {
    if i < |t| {
      assert After(t, i) == i + 1;
      NormalIsKept(t, i + 1);
    }
  }

  /** A string is returned unchanged exactly when it is normal; the result always is, so normalizing
      twice is normalizing once. */
  lemma NormalizeIsIdempotent(t: seq<char>)
    ensures Normalize(t, 0) == t <==> IsNormal(t)
    ensures Normalize(Normalize(t, 0), 0) == Normalize(t, 0)
  {
    NormalizeIsNormal(t, 0);
    NormalIsKept(Normalize(t, 0), 0);
    if IsNormal(t) {
      NormalIsKept(t, 0);
    }
  }

  /** The NUL-terminated string at the start of the buffer is replaced by its normal form. */
  method RemoveDoubleDotsAndDoubleSlashes(a: array<char>, ghost z: nat)
    requires Terminated(a, 0, z)
    modifies a
    ensures var n := Normalize(old(a[..z]), 0);
      |n| <= z && a[..|n|] == n && a[|n|] == NUL
    ensures forall k | z < k < a.Length :: a[k] == old(a[k])
  {
    hide SkipJunk, Normalize;
    ghost var t := a[..z];
    ghost var all, done: seq<char> := Normalize(t, 0), [];
    var s, p := 0, 0;
    while a[s] != NUL
      invariant 0 <= p <= s <= z && a[z] == NUL
      invariant Holds(a, s, z, t) && forall k | z < k < a.Length :: a[k] == old(a[k])
      invariant |done| == p && forall k | 0 <= k < p :: a[k] == done[k]
      invariant all == done + Normalize(t, s)
      decreases z - s
    {
      UnfoldNormalize(t, s, done);
      done := done + [t[s]];
      a[p] := a[s];
      p, s := p + 1, s + 1;
      if a[s - 1] == '/' || a[s - 1] == '\\' {
        s := SkipJunkAt(a, s, t, z);
      }
    }
    UnfoldNormalize(t, s, done);
    a[p] := NUL;
  }

  lemma UnfoldNormalize(t: seq<char>, i: nat, done: seq<char>)
    requires i <= |t|
    ensures done + Normalize(t, i) == if i == |t| then done else (done + [t[i]]) + Normalize(t, After(t, i))
  {
  }

  /** Skips all following slashes, backslashes and double dots. */
  method SkipJunkAt(a: array<char>, s0: nat, ghost t: seq<char>, ghost z: nat) returns (s: nat)
    requires s0 <= z && Holds(a, s0, z, t) && a[z] == NUL && forall k | 0 <= k < z :: t[k] != NUL
    ensures s == SkipJunk(t, s0)
  {
    s := s0;
    while a[s] != NUL
      invariant s0 <= s <= z && SkipJunk(t, s) == SkipJunk(t, s0)
      decreases z - s
    {
      if a[s] == '/' || a[s] == '\\' {
        s := s + 1;
      } else if a[s] == '.' && a[s + 1] == '.' {
        s := s + 2;
      } else {
        break;
      }
    }
  }
}
