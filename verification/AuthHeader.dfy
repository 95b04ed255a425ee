/** The parser of a Digest authorization header: name=value pairs, cut in place. */
module AuthHeader {
  import opened Tokenizer
  import opened QuotedString
  import opened HttpMessage

  const EQUALS: seq<char> := ['=']
  const COMMA_SPACE: seq<char> := [',', ' ']
  const KNOWN: set<string> := {"username", "cnonce", "response", "uri", "qop", "nc", "nonce"}

  datatype Pair = Pair(name: string, value: string)

  /** One pair, where its name and its value begin, and where the parser goes on after it. */
  datatype Parsed = Parsed(pair: Pair, name: nat, value: nat, next: nat)

  /** A value in double quotes, and the comma after it. */
  function ParseQuoted(t: string, name: string, s: nat, j: nat): (r: Parsed)
    requires s <= j < |t|
    ensures r.name == s && r.pair.name == name && j < r.value <= r.next <= |t|
  {
    var k := NextWord(t, j + 1, DQUOTE, SPACE, BACKSLASH);
    Parsed(Pair(name, CutWord(t, j + 1, DQUOTE, BACKSLASH).word), s, j + 1, if k < |t| && t[k] == ',' then k + 1 else k)
  }

  /** What follows the equals sign: a value in double quotes, or one that ends at a comma or space. */
  function AfterName(t: string, name: string, s: nat, j: nat): (r: Parsed)
    requires s <= j <= |t|
    ensures r.name == s && r.pair.name == name && j <= r.value <= r.next <= |t|
  {
    if j < |t| && t[j] == '"' then ParseQuoted(t, name, s, j)
    else Parsed(Pair(name, CutWord(t, j, COMMA_SPACE, NUL).word), s, j, NextWord(t, j, COMMA_SPACE, SPACE, NUL))
  }

  function ParsePair(t: string, i: nat): (r: Parsed)
    requires i <= |t|
    ensures i <= r.name <= r.value <= r.next <= |t|
    ensures r.pair.name != [] ==> r.name < r.value
  {
    var s := SkipSpace(t, i);
    AfterName(t, CutWord(t, s, EQUALS, NUL).word, s, NextWord(t, s, EQUALS, SPACE, NUL))
  }

  /** The pairs from a position on; an empty name ends the list. */
  function ParsePairs(t: string, i: nat): seq<Pair>
    requires i <= |t|
    decreases |t| - i
  {
    var r := ParsePair(t, i);
    if r.pair.name == [] then [] else [r.pair] + ParsePairs(t, r.next)
  }

  /** The known names with their values; a later pair overrides an earlier one. */
  function Known(ps: seq<Pair>): map<string, string> {
    if ps == [] then map[]
    else
      var last := ps[|ps| - 1];
      var before := Known(ps[..|ps| - 1]);
      if last.name in KNOWN then before[last.name := last.value] else before
  }

  /** The k-th pair is the last one with its name. */
  ghost predicate IsLast(ps: seq<Pair>, k: nat) {
    k < |ps| && forall j | k < j < |ps| :: ps[j].name != ps[k].name
  }

  ghost predicate IsKnown(name: string) {
    || name == "username" || name == "cnonce" || name == "response" || name == "uri" || name == "qop" || name == "nc"
    || name == "nonce"
  }

  /** Each of the seven names is recorded with the value of its last pair, if it has any; no other is. */
  lemma {:induction false} KnownIsLast(ps: seq<Pair>, name: string)
    ensures forall k: nat | IsLast(ps, k) && ps[k].name == name && IsKnown(name) ::
              name in Known(ps) && Known(ps)[name] == ps[k].value
    ensures name in Known(ps) ==> IsKnown(name) && exists k: nat :: IsLast(ps, k) && ps[k].name == name
  {
    if ps != [] {
      var n := |ps| - 1;
      KnownIsLast(ps[..n], name);
      forall k: nat | k < n && ps[k].name == name && ps[n].name != name
        ensures IsLast(ps, k) <==> IsLast(ps[..n], k)
      {
      }
      assert IsLast(ps, n);
    }
  }

  // ---------------------------------------------------------------------------------------------
  // Parsing undoes formatting
  // ---------------------------------------------------------------------------------------------

  /** What is written after a value: spaces, possibly a comma, and white space. */
  datatype Gap = Gap(spaces: nat, comma: bool, white: string)

  /** A pair as it is written: with its value as a quoted string, or plain; and what is written after it. */
  datatype Item = Item(pair: Pair, quoted: bool, gap: Gap)

  function FormatValue(it: Item): string {
    if it.quoted then ['"'] + (Escape(it.pair.value) + ['"']) else it.pair.value
  }

  function FormatItem(it: Item): string {
    it.pair.name + (['='] + FormatValue(it))
  }

  function FormatGap(g: Gap): string {
    seq(g.spaces, _ => ' ') + ((if g.comma then [','] else []) + g.white)
  }

  function FormatList(items: seq<Item>): string {
    if items == [] then []
    else FormatItem(items[0]) + (FormatGap(items[0].gap) + FormatList(items[1..]))
  }

  function PairsOf(items: seq<Item>): seq<Pair> {
    if items == [] then [] else [items[0].pair] + PairsOf(items[1..])
  }

  /** Names are not empty, hold no `=`, and do not begin with white space. Quoted values hold no backslash;
      plain ones hold no comma and no space, and do not begin with a quote. */
  ghost predicate Formattable(it: Item) {
    && it.pair.name != [] && '=' !in it.pair.name && !IsSpace(it.pair.name[0])
    && if it.quoted then BACKSLASH !in it.pair.value else IsPlain(it.pair.value)
  }

  ghost predicate IsPlain(v: string) { ',' !in v && ' ' !in v && (v != [] ==> v[0] != '"') }

  /** A quoted value needs nothing after it, unless the next name begins with a comma. A plain value needs
      a comma or a space after it, unless it is the last one; an empty one needs the comma. */
  ghost predicate Separated(items: seq<Item>) {
    items != [] ==>
      && (forall c | c in items[0].gap.white :: IsSpace(c))
      && (if items[0].quoted then QuotedGap(items[0].gap, items[1..]) else PlainGap(items[0], items[1..]))
      && Separated(items[1..])
  }

  ghost predicate QuotedGap(g: Gap, rest: seq<Item>) {
    !g.comma && rest != [] && rest[0].pair.name != [] ==> rest[0].pair.name[0] != ','
  }

  ghost predicate PlainGap(it: Item, rest: seq<Item>) {
    if it.gap.comma then it.gap.spaces == 0
    else if it.gap.spaces == 0 then rest == [] && it.gap.white == []
    else it.pair.value != []
  }

  ghost predicate NoNul(t: string) { forall k | 0 <= k < |t| :: t[k] != NUL }

  ghost predicate White(t: string, i: nat, j: nat) { j <= |t| && forall k | i <= k < j :: IsSpace(t[k]) }

  /** Where the next item starts, or the end of the text. */
  ghost predicate Starts(t: string, next: nat) { next <= |t| && (next < |t| ==> !IsSpace(t[next])) }

  /** What is between the closing quote of a value and the next item: white space only, or spaces, a comma
      and white space. */
  ghost predicate AfterQuote(t: string, e: nat, next: nat, comma: bool, c: nat) {
    if comma then e <= c < next <= |t| && t[c] == ',' && White(t, c + 1, next) && forall k | e <= k < c :: t[k] == ' '
    else e <= next <= |t| && White(t, e, next) && (next < |t| ==> t[next] != ',')
  }

  /** What is between the end of a plain value and the next item: a comma or a space, and white space. */
  ghost predicate AfterPlain(t: string, e: nat, next: nat) {
    e == next == |t| || (e < next <= |t| && (t[e] == ',' || t[e] == ' ') && White(t, e + 1, next))
  }

  ghost predicate Separates(t: string, e: nat, next: nat, it: Item) {
    && Starts(t, next)
    && if it.quoted then AfterQuote(t, e, next, it.gap.comma, e + it.gap.spaces)
       else AfterPlain(t, e, next) && (it.pair.value == [] && e < |t| ==> t[e] == ',')
  }

  /** Where the parts of a formatted item stand. */
  lemma ItemParts(t: string, s: nat, it: Item)
    requires StandsAt(t, s, FormatItem(it))
    ensures var j := s + |it.pair.name| + 1;
      && j + |FormatValue(it)| <= |t| && |FormatItem(it)| == |it.pair.name| + 1 + |FormatValue(it)|
      && StandsAt(t, s, it.pair.name) && t[j - 1] == '=' && StandsAt(t, j, FormatValue(it))
  {
    hide FormatValue;
    StandsApart(t, s, it.pair.name, ['='] + FormatValue(it));
    StandsApart(t, s + |it.pair.name|, ['='], FormatValue(it));
  }

  /** The name is cut at its equals sign. */
  lemma CutName(t: string, s: nat, it: Item, next: nat)
    requires StandsAt(t, s, FormatItem(it)) && Formattable(it) && NoNul(t)
    requires Separates(t, s + |FormatItem(it)|, next, it)
    ensures CutWord(t, s, EQUALS, NUL).word == it.pair.name
    ensures NextWord(t, s, EQUALS, SPACE, NUL) == s + |it.pair.name| + 1 <= |t|
  {
    hide Continue, Cspn, Spn, FormatItem, FormatValue, Escape, Separates;
    ItemParts(t, s, it);
    var n := |it.pair.name|;
    forall k | s <= k < s + n
      ensures t[k] !in EQUALS
    {
      assert t[k] == it.pair.name[k - s];
    }
    CspnIs(t, s, EQUALS, s + n);
    CutPlain(t, s, EQUALS);
    assert t[s..s + n] == it.pair.name;
    ValueStarts(t, s + n + 1, it, next);
    SpnIs(t, s + n + 1, SPACE, s + n + 1);
  }

  /** What stands after the equals sign. */
  lemma ValueStarts(t: string, j: nat, it: Item, next: nat)
    requires StandsAt(t, j, FormatValue(it)) && Formattable(it)
    requires Separates(t, j + |FormatValue(it)|, next, it)
    ensures j < |t| ==> t[j] != ' ' && (t[j] == '"' <==> it.quoted)
    ensures it.quoted ==> j < |t|
  {
    if j < |t| && FormatValue(it) != [] {
      assert t[j] == FormatValue(it)[0];
    }
  }

  lemma QuotedParts(t: string, j: nat, value: string)
    requires StandsAt(t, j, ['"'] + (Escape(value) + ['"']))
    ensures EscapedAt(t, j + 1, value)
  {
    hide Escape;
    StandsApart(t, j, ['"'], Escape(value) + ['"']);
    StandsApart(t, j + 1, Escape(value), ['"']);
  }

  /** A quoted value comes back, and the parser goes on somewhere in the white space before the next item. */
  lemma CutQuoted(t: string, name: string, s: nat, j: nat, value: string, next: nat, comma: bool, c: nat)
    requires s <= j && StandsAt(t, j, ['"'] + (Escape(value) + ['"'])) && BACKSLASH !in value
    requires AfterQuote(t, j + |Escape(value)| + 2, next, comma, c) && Starts(t, next)
    ensures j < |t| && var r := ParseQuoted(t, name, s, j);
      r.pair == Pair(name, value) && r.next <= next && White(t, r.next, next)
  {
    hide Escape, Continue, Cspn, Spn, CutWord, EscapedAt, AfterQuote, Starts;
    QuotedParts(t, j, value);
    EscapedFits(t, j + 1, value);
    UnquoteEscaped(t, j + 1, value);
    PastQuote(t, j + |Escape(value)| + 2, next, comma, c);
  }

  /** The spaces are skipped, then the comma. */
  lemma PastQuote(t: string, e: nat, next: nat, comma: bool, c: nat)
    requires AfterQuote(t, e, next, comma, c) && Starts(t, next)
    ensures e <= |t| && var k := Spn(t, e, SPACE);
      var after := if k < |t| && t[k] == ',' then k + 1 else k;
      after <= next && White(t, after, next)
  {
    if comma {
      SpnIs(t, e, SPACE, c);
    } else {
      SpnWithin(t, e, next);
    }
  }

  lemma SpnWithin(t: string, i: nat, next: nat)
    requires i <= next && Starts(t, next)
    ensures Spn(t, i, SPACE) <= next
  {
  }

  lemma EscapedFits(t: string, i: nat, w: string)
    requires EscapedAt(t, i, w)
    ensures i + |Escape(w)| < |t|
  {
  }

  /** So does a plain value. */
  lemma CutUnquoted(t: string, j: nat, value: string, next: nat)
    requires StandsAt(t, j, value) && IsPlain(value) && NoNul(t)
    requires AfterPlain(t, j + |value|, next) && Starts(t, next)
    ensures CutWord(t, j, COMMA_SPACE, NUL).word == value
    ensures var k := NextWord(t, j, COMMA_SPACE, SPACE, NUL); k <= next && White(t, k, next)
  {
    hide Continue, Cspn, Spn;
    var e := j + |value|;
    forall k | j <= k < e
      ensures t[k] !in COMMA_SPACE
    {
      assert t[k] == value[k - j];
    }
    CspnIs(t, j, COMMA_SPACE, e);
    CutPlain(t, j, COMMA_SPACE);
    assert t[j..e] == value;
    if e < |t| {
      SpnWithin(t, e + 1, next);
    }
  }

  lemma {:induction false} SpaceSkipped(t: string, i: nat, next: nat)
    requires i <= next && White(t, i, next) && Starts(t, next)
    ensures SkipSpace(t, i) == next
    decreases next - i
  {
    if i < next {
      SpaceSkipped(t, i + 1, next);
    }
  }

  /** One item: the parser finds its pair, and goes on where the next item begins, but for white space. */
  lemma ParseFormatted(t: string, i: nat, s: nat, it: Item, next: nat)
    requires i <= |t| && s == SkipSpace(t, i) && StandsAt(t, s, FormatItem(it)) && Formattable(it) && NoNul(t)
    requires Separates(t, s + |FormatItem(it)|, next, it)
    ensures ParsePair(t, i).pair == it.pair && SkipSpace(t, ParsePair(t, i).next) == next
  {
    hide Escape, FormatItem, CutWord, NextWord, SkipSpace, StandsAt, ParseQuoted, NoNul, IsPlain, White, AfterQuote,
      AfterPlain, Starts;
    ItemParts(t, s, it);
    CutName(t, s, it, next);
    var j := s + |it.pair.name| + 1;
    ValueStarts(t, j, it, next);
    if it.quoted {
      CutQuoted(t, it.pair.name, s, j, it.pair.value, next, it.gap.comma, s + |FormatItem(it)| + it.gap.spaces);
    } else {
      CutUnquoted(t, j, it.pair.value, next);
    }
    SpaceSkipped(t, ParsePair(t, i).next, next);
  }

  /** Where the parts of a gap stand. */
  lemma GapParts(t: string, e: nat, g: Gap)
    requires StandsAt(t, e, FormatGap(g)) && forall c | c in g.white :: IsSpace(c)
    ensures var c := e + g.spaces; var w := c + if g.comma then 1 else 0;
      && e + |FormatGap(g)| == w + |g.white| <= |t|
      && (forall k | e <= k < c :: t[k] == ' ') && (g.comma ==> t[c] == ',') && White(t, w, w + |g.white|)
  {
    var comma: string := if g.comma then [','] else [];
    StandsApart(t, e, seq(g.spaces, _ => ' '), comma + g.white);
    StandsApart(t, e + g.spaces, comma, g.white);
    var w := e + g.spaces + |comma|;
    forall k | w <= k < w + |g.white|
      ensures IsSpace(t[k])
    {
      assert t[k] == g.white[k - w];
    }
  }

  /** What comes after the first item of a list. */
  lemma GapSeparates(t: string, e: nat, items: seq<Item>) returns (next: nat)
    requires items != [] && Separated(items) && (forall it | it in items :: Formattable(it))
    requires StandsAt(t, e, FormatGap(items[0].gap) + FormatList(items[1..]))
    requires e + |FormatGap(items[0].gap) + FormatList(items[1..])| == |t|
    ensures Separates(t, e, next, items[0]) && StandsAt(t, next, FormatList(items[1..]))
    ensures next + |FormatList(items[1..])| == |t|
  {
    hide FormatList, FormatItem, FormatGap, StandsAt;
    var rest := items[1..];
    StandsApart(t, e, FormatGap(items[0].gap), FormatList(rest));
    next := e + |FormatGap(items[0].gap)|;
    GapParts(t, e, items[0].gap);
    if rest == [] {
      NothingToFormat();
    } else {
      assert rest[0] in items;
      ListStarts(t, next, rest);
    }
  }

  lemma NothingToFormat()
    ensures FormatList([]) == []
  {
  }

  lemma ListStarts(t: string, s: nat, items: seq<Item>)
    requires items != [] && StandsAt(t, s, FormatList(items)) && Formattable(items[0])
    ensures s < |t| && t[s] == items[0].pair.name[0] && !IsSpace(t[s])
  {
    hide FormatItem, FormatGap;
    StandsApart(t, s, FormatItem(items[0]), FormatGap(items[0].gap) + FormatList(items[1..]));
    ItemParts(t, s, items[0]);
    assert t[s] == items[0].pair.name[0];
  }

  /** A header made of any list of pairs, each with a quoted or a plain value, and with any separators that
      keep them apart, is taken apart into the same pairs. */
  lemma {:induction false} ParseUndoesFormat(t: string, i: nat, s: nat, items: seq<Item>)
    requires i <= |t| && s == SkipSpace(t, i) && NoNul(t)
    requires StandsAt(t, s, FormatList(items)) && s + |FormatList(items)| == |t|
    requires Separated(items) && forall it | it in items :: Formattable(it)
    ensures ParsePairs(t, i) == PairsOf(items)
    decreases |items|
  {
    hide FormatItem, FormatGap, ParsePair, Formattable, SkipSpace, StandsAt, NoNul, Separates;
    if items == [] {
      NothingLeft(t, i);
    } else {
      StandsApart(t, s, FormatItem(items[0]), FormatGap(items[0].gap) + FormatList(items[1..]));
      var next := GapSeparates(t, s + |FormatItem(items[0])|, items);
      ParseFormatted(t, i, s, items[0], next);
      ParseUndoesFormat(t, ParsePair(t, i).next, next, items[1..]);
      NameIsThere(items[0]);
    }
  }

  lemma NameIsThere(it: Item)
    requires Formattable(it)
    ensures it.pair.name != []
  {
  }

  lemma NothingLeft(t: string, i: nat)
    requires i <= |t| && SkipSpace(t, i) == |t|
    ensures ParsePair(t, i).pair.name == []
  {
  }

  // ---------------------------------------------------------------------------------------------
  // The parser on a buffer
  // ---------------------------------------------------------------------------------------------

  lemma {:induction false} ContinueSameRest(t: string, u: string, delimiters: seq<char>, quote: char,
          acc: seq<char>, e: nat)
    requires acc != [] && e <= |t| == |u| && forall k | e <= k < |t| :: t[k] == u[k]
    ensures Continue(t, delimiters, quote, acc, e) == Continue(u, delimiters, quote, acc, e)
    decreases |t| - e
  {
    if acc[|acc| - 1] == quote && e < |t| {
      var next := Cspn(t, e + 1, delimiters);
      CspnIs(u, e + 1, delimiters, next);
      assert t[e..next] == u[e..next];
      ContinueSameRest(t, u, delimiters, quote, acc[..|acc| - 1] + t[e..next], next);
    }
  }

  /** With a quote character, too, cutting depends on the text from the position on only. */
  lemma QuotedSameRest(t: string, u: string, i: nat, delimiters: seq<char>, whitespace: seq<char>, quote: char)
    requires i <= |t| == |u| && forall k | i <= k < |t| :: t[k] == u[k]
    ensures CutWord(t, i, delimiters, quote) == CutWord(u, i, delimiters, quote)
    ensures NextWord(t, i, delimiters, whitespace, quote) == NextWord(u, i, delimiters, whitespace, quote)
  {
    hide Continue;
    var e := Cspn(t, i, delimiters);
    CspnIs(u, i, delimiters, e);
    if e > i {
      assert t[i..e] == u[i..e];
      ContinueSameRest(t, u, delimiters, quote, t[i..e], e);
    }
    var c := CutWord(t, i, delimiters, quote).end;
    if c < |t| {
      SpnIs(u, c + 1, whitespace, Spn(t, c + 1, whitespace));
    }
  }

  /** Every recorded position shows the value of its name, and no later cut disturbs it. */
  ghost predicate Shows(a: array<char>, fields: map<string, nat>, values: map<string, string>, buf: int, z: int)
    reads a
  {
    fields.Keys == values.Keys && forall n | n in fields :: Settled(a, fields[n], values[n], buf, z)
  }

  /** A value in double quotes, cut after its opening quote. */
  method SkipValue(a: array<char>, buf: nat, ghost t: string, ghost z: nat) returns (next: nat)
    requires Terminated(a, buf, z) && Holds(a, buf, z, t)
    modifies a
    ensures buf <= next == NextWord(t, buf, DQUOTE, SPACE, BACKSLASH) <= z
    ensures Settled(a, buf, CutWord(t, buf, DQUOTE, BACKSLASH).word, next, z)
    ensures Terminated(a, next, z) && Holds(a, next, z, t)
    ensures forall k | 0 <= k < a.Length && !(buf <= k < next) :: a[k] == old(a[k])
  {
    QuotedSameRest(a[..z], t, buf, DQUOTE, SPACE, BACKSLASH);
    hide CutWord, NextWord;
    next := SkipQuoted(a, buf, DQUOTE, SPACE, BACKSLASH, z);
  }

  /** while (isspace(*s)) s++; */
  method GobbleSpaces(a: array<char>, from: nat, ghost t: string, ghost z: nat) returns (s: nat)
    requires Terminated(a, from, z) && Holds(a, from, z, t)
    ensures s == SkipSpace(t, from) <= z
  {
    s := from;
    while IsSpace(a[s])
      invariant from <= s <= z && SkipSpace(t, from) == SkipSpace(t, s)
      decreases z - s
    {
      s := s + 1;
    }
  }

  /** The value: in double quotes, or up to the first comma or space. */
  method ParseValue(a: array<char>, name: string, at: nat, j: nat, ghost t: string, ghost z: nat)
      returns (value: nat, next: nat)
    requires at <= j && Terminated(a, j, z) && Holds(a, j, z, t)
    modifies a
    ensures j <= value <= next <= z && Terminated(a, next, z) && Holds(a, next, z, t)
    ensures var r := AfterName(t, name, at, j);
      value == r.value && next == r.next && Settled(a, value, r.pair.value, next, z)
    ensures forall k | 0 <= k < a.Length && !(j <= k < next) :: a[k] == old(a[k])
  {
    hide CutWord, NextWord;
    if a[j] == '"' {
      value := j + 1;
      next := SkipValue(a, value, t, z);
      if a[next] == ',' {
        next := next + 1;
      }
    } else {
      value := j;
      next := Skip(a, value, COMMA_SPACE, SPACE, t, z);
    }
  }

  /** One name=value pair. */
  method ParseOne(a: array<char>, from: nat, ghost fields: map<string, nat>, ghost values: map<string, string>,
                  ghost t: string, ghost z: nat)
      returns (name: string, value: nat, next: nat)
    requires Terminated(a, from, z) && Holds(a, from, z, t) && Shows(a, fields, values, from, z)
    modifies a
    ensures from <= next <= z && Terminated(a, next, z) && Holds(a, next, z, t)
    ensures var r := ParsePair(t, from);
      name == r.pair.name && next == r.next && Settled(a, value, r.pair.value, next, z)
    ensures Shows(a, fields, values, next, z)
    ensures forall k | 0 <= k < a.Length && !(from <= k < z) :: a[k] == old(a[k])
  {
    hide CutWord, NextWord, SkipSpace, AfterName;
    var s := GobbleSpaces(a, from, t, z);
    NameHasNoNul(t, s);
    var j := Skip(a, s, EQUALS, SPACE, t, z);
    name := ReadString(a, s, CutWord(t, s, EQUALS, NUL).word);
    value, next := ParseValue(a, name, s, j, t, z);
  }

  lemma NameHasNoNul(t: string, s: nat)
    requires s <= |t| && forall k | s <= k < |t| :: t[k] != NUL
    ensures NUL !in CutWord(t, s, EQUALS, NUL).word
  {
    CutPlain(t, s, EQUALS);
  }

  lemma KnownStep(ps: seq<Pair>, p: Pair)
    ensures Known(ps + [p]) == if p.name in KNOWN then Known(ps)[p.name := p.value] else Known(ps)
  {
    assert (ps + [p])[..|ps|] == ps;
  }

  /** The loop ends, however the header is cut: each pair takes the parser further into the text. The
      known fields point at the values that parsing gives, and all that is not the header is untouched. */
  method ParseAuthHeader(a: array<char>, ghost z: nat) returns (ok: bool, fields: map<string, nat>)
    requires Terminated(a, 0, z)
    modifies a
    ensures Shows(a, fields, Known(ParsePairs(old(a[..z]), 0)), z, z)
    ensures ok <==> "username" in fields
    ensures forall k | z <= k < a.Length :: a[k] == old(a[k])
  {
    hide ParsePair, KNOWN, Known, ParsePairs, Settled;
    ghost var t := a[..z];
    ghost var done: seq<Pair> := [];
    ghost var all := ParsePairs(t, 0);
    var s := 0;
    fields := map[];
    NothingKnown();
    while true
      invariant 0 <= s <= z && Terminated(a, s, z) && Holds(a, s, z, t)
      invariant all == done + ParsePairs(t, s)
      invariant Shows(a, fields, Known(done), s, z)
      invariant forall k | z <= k < a.Length :: a[k] == old(a[k])
      decreases z - s
    {
      UnfoldPairs(t, s);
      ghost var r := ParsePair(t, s);
      var name, value, next := ParseOne(a, s, fields, Known(done), t, z);
      if name == [] {
        assert all == done;
        ShowsLater(a, fields, Known(done), next, z);
        break;
      }
      KnownStep(done, r.pair);
      if name in KNOWN {
        fields := fields[name := value];
      }
      assert all == (done + [r.pair]) + ParsePairs(t, next);
      done := done + [r.pair];
      s := next;
    }
    ok := "username" in fields;
  }

  lemma ShowsLater(a: array<char>, fields: map<string, nat>, values: map<string, string>, buf: nat, z: nat)
    requires buf <= z && Shows(a, fields, values, buf, z)
    ensures Shows(a, fields, values, z, z)
  {
  }

  lemma NothingKnown()
    ensures Known([]) == map[]
  {
  }

  lemma UnfoldPairs(t: string, i: nat)
    requires i <= |t|
    ensures var r := ParsePair(t, i);
      && (r.pair.name != [] ==> i < r.next)
      && ParsePairs(t, i) == if r.pair.name == [] then [] else [r.pair] + ParsePairs(t, r.next)
  {
  }
}
