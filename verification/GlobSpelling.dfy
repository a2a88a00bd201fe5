/** The patterns of glob.c as they are written, and what each part of them stands for. */
module GlobSpelling {
  import opened Glob

  /** Part of a pattern. In a group is its text, without the brackets. */
  datatype Part = AnyChar | AnyText | Plain(c: Char) | Quoted(c: Char) | Group(text: Text)

  function PartText(x: Part): seq<Char> {
    match x
    case AnyChar => [QUERY]
    case AnyText => [STAR]
    case Plain(c) => [c]
    case Quoted(c) => [BACKSLASH, c]
    case Group(text) => [LBRACK] + text + [RBRACK]
  }

  function PartsText(xs: seq<Part>): seq<Char> {
    if xs == [] then [] else PartText(xs[0]) + PartsText(xs[1..])
  }

  /** The first character of a group may be its closing bracket. */
  predicate ValidPart(x: Part) {
    match x
    case Plain(c) => c != 0 && c != QUERY && c != STAR && c != LBRACK && c != BACKSLASH
    case Quoted(c) => c != 0
    case Group(text) => text != [] && RBRACK !in text[1..]
    case _ => true
  }

  predicate Valid(xs: seq<Part>) {
    forall k :: 0 <= k < |xs| ==> ValidPart(xs[k])
  }

  /** The characters that one part of a pattern other than AnyText stands for; those of a group
      include its closing bracket, as globchars reads it. */
  ghost predicate StandsFor(x: Part, c: Char)
    requires !x.AnyText?
  {
    match x
    case AnyChar => true
    case Plain(d) => c == d
    case Quoted(d) => c == d
    case Group(text) => c in Members(text + [RBRACK])
  }

  /** The parts stand for s: AnyText for any stretch of it, each other part for one character. */
  ghost predicate Stand(xs: seq<Part>, s: seq<Char>)
    decreases |xs|
  {
    if xs == [] then s == []
    else if xs[0].AnyText? then exists u, v :: s == u + v && Stand(xs[1..], v)
    else s != [] && StandsFor(xs[0], s[0]) && Stand(xs[1..], s[1..])
  }

  function TokenOf(x: Part): Token {
    match x
    case AnyChar => One
    case AnyText => Star
    case Plain(c) => Lit(c)
    case Quoted(c) => Lit(c)
    case Group(text) => Of(Members(text + [RBRACK]))
  }

  function TokensOf(xs: seq<Part>): seq<Token> {
    if xs == [] then [] else [TokenOf(xs[0])] + TokensOf(xs[1..])
  }

  lemma {:induction false} TokensStand(xs: seq<Part>, s: seq<Char>)
    ensures Matches(TokensOf(xs), s) <==> Stand(xs, s)
    decreases |xs|
  {
    hide Members;
    if xs != [] {
      var rest := xs[1..];
      assert TokensOf(xs)[1..] == TokensOf(rest);
      if xs[0].AnyText? {
        forall k | 0 <= k <= |s|
          ensures Matches(TokensOf(rest), s[k..]) <==> Stand(rest, s[k..])
        {
          TokensStand(rest, s[k..]);
        }
        if Matches(TokensOf(xs), s) {
          var k :| 0 <= k <= |s| && Matches(TokensOf(rest), s[k..]);
          assert s == s[..k] + s[k..];
        }
        if u, v :| s == u + v && Stand(rest, v) {
          assert s[|u|..] == v;
        }
      } else if s != [] {
        TokensStand(rest, s[1..]);
      }
    }
  }

  // ---- reading ----

  lemma PartsStep(xs: seq<Part>)
    ensures PartsText(xs) == if xs == [] then [] else PartText(xs[0]) + PartsText(xs[1..])
  {
  }

  /** One part, and what is read after it. */
  lemma ReadsPart(pat: Text, p: nat, x: Part, rest: seq<Char>)
    requires ValidPart(x) && p <= |pat| && pat[p..] == PartText(x) + rest
    ensures var q := p + |PartText(x)|; q <= |pat| && pat[q..] == rest && Tokens(pat, p) == [TokenOf(x)] + Tokens(pat, q)
  {
    hide Members, Tokens, FindClose;
    var t := PartText(x);
    var q := p + |t|;
    assert pat[p..][|t|..] == pat[q..] && forall i :: 0 <= i < |t| ==> pat[p + i] == pat[p..][i] == t[i];
    assert At(pat, p) == t[0];
    TokensAt(pat, p);
    if x.Group? {
      GroupCloses(pat, p, x.text);
    }
  }

  lemma GroupCloses(pat: Text, p: nat, g: Text)
    requires g != [] && RBRACK !in g[1..] && p + |g| + 2 <= |pat|
    requires forall i :: 0 <= i < |g| + 2 ==> pat[p + i] == ([LBRACK] + g + [RBRACK])[i]
    ensures GroupEnd(pat, p + 1) == p + |g| + 1 && pat[p + 1..p + |g| + 2] == g + [RBRACK]
  {
    hide FindClose;
    var e, t := p + |g| + 1, [LBRACK] + g + [RBRACK];
    assert pat[e] == pat[p + (|g| + 1)] == t[|g| + 1] == RBRACK;
    forall i | 0 <= i < |g|
      ensures pat[p + 1 + i] == g[i]
    {
      assert pat[p + (i + 1)] == t[i + 1];
    }
    assert pat[p + 1..e] == g && pat[p + 1..e + 1] == g + [RBRACK];
    forall i | p + 2 <= i < e
      ensures pat[i] != RBRACK
    {
      assert pat[p + 1 + (i - p - 1)] == g[i - p - 1] == g[1..][i - p - 2];
    }
    CloseAt(pat, p + 2, e);
  }

  /** A pattern is read part by part. */
  lemma {:induction false} ReadsParts(pat: Text, p: nat, xs: seq<Part>)
    requires Valid(xs) && p <= |pat| && pat[p..] == PartsText(xs)
    ensures Tokens(pat, p) == TokensOf(xs)
    decreases |xs|
  {
    hide PartText, PartsText, Tokens;
    PartsStep(xs);
    if xs == [] {
      TokensAt(pat, p);
    } else {
      assert ValidPart(xs[0]);
      ReadsPart(pat, p, xs[0], PartsText(xs[1..]));
      ReadsParts(pat, p + |PartText(xs[0])|, xs[1..]);
    }
  }

  /** A pattern matches a string if and only if its parts stand for it. */
  lemma PatternStands(xs: seq<Part>, pat: Text, s: seq<Char>)
    requires Valid(xs) && pat == PartsText(xs)
    ensures Matches(Tokens(pat, 0), s) <==> Stand(xs, s)
  {
    assert pat[0..] == pat;
    ReadsParts(pat, 0, xs);
    TokensStand(xs, s);
  }

  /** A pattern that is not made of such parts, by a group that is not closed or a backslash at
      its end, matches nothing. */
  lemma {:induction false} SpelledParts(pat: Text, p: nat) returns (xs: seq<Part>, ok: bool)
    requires p <= |pat|
    ensures ok ==> Valid(xs) && pat[p..] == PartsText(xs)
    ensures !ok ==> forall s: seq<Char> :: !Matches(Tokens(pat, p), s)
    decreases |pat| - p
  {
    hide PartText, PartsText, Tokens, Members, FindClose, Matches;
    xs, ok := [], true;
    TokensAt(pat, p);
    PartsStep([]);
    if p < |pat| {
      var x, q;
      x, q, ok := PartAt(pat, p);
      if ok {
        var rest;
        rest, ok := SpelledParts(pat, q);
        xs := [x] + rest;
        assert xs[1..] == rest;
        PartsStep(xs);
        if !ok { NothingAfter(pat, p, q, x); }
      }
    }
  }

  lemma NothingAfter(pat: Text, p: nat, q: nat, x: Part)
    requires Tokens(pat, p) == [TokenOf(x)] + Tokens(pat, q) && forall s: seq<Char> :: !Matches(Tokens(pat, q), s)
    ensures forall s: seq<Char> :: !Matches(Tokens(pat, p), s)
  {
    hide Tokens, Members;
    assert Tokens(pat, p)[1..] == Tokens(pat, q);
  }

  lemma PartAt(pat: Text, p: nat) returns (x: Part, q: nat, ok: bool)
    requires p < |pat|
    ensures ok ==> p < q <= |pat| && ValidPart(x) && pat[p..] == PartText(x) + pat[q..] && Tokens(pat, p) == [TokenOf(x)] + Tokens(pat, q)
    ensures !ok ==> forall s: seq<Char> :: !Matches(Tokens(pat, p), s)
  {
    hide Tokens, Members, FindClose;
    TokensAt(pat, p);
    var c := pat[p];
    x, q, ok := AnyChar, p + 1, true;
    if c == LBRACK {
      var e := GroupEnd(pat, p + 1);
      ok := e != -1;
      if ok {
        x, q := Group(pat[p + 1..e]), e + 1;
        NotBefore(pat, p + 2);
        assert pat[p + 1..e + 1] == x.text + [RBRACK];
        assert pat[p..] == [LBRACK] + x.text + [RBRACK] + pat[q..];
      }
    } else if c == BACKSLASH {
      ok := p + 1 < |pat|;
      if ok {
        x, q := Quoted(pat[p + 1]), p + 2;
        assert pat[p..] == [BACKSLASH, pat[p + 1]] + pat[p + 2..];
      }
    } else {
      x := if c == QUERY then AnyChar else if c == STAR then AnyText else Plain(c);
      assert pat[p..] == [c] + pat[p + 1..];
    }
  }

  /** The bracket that closes a group is the first one from there on. */
  lemma {:induction false} NotBefore(pat: Text, p: nat)
    ensures var e := FindClose(pat, p); e != -1 ==> pat[e] == RBRACK && forall i :: p <= i < e ==> pat[i] != RBRACK
    decreases |pat| - p
  {
    FindStep(pat, p);
    if p < |pat| { NotBefore(pat, p + 1); }
  }

  // ---- what a group lists ----

  datatype Item = Single(c: Char) | Between(lo: Char, hi: Char)

  function ItemText(x: Item): seq<Char> {
    match x
    case Single(c) => [c]
    case Between(lo, hi) => [lo, DASH, hi]
  }

  function ItemsText(xs: seq<Item>): seq<Char> {
    if xs == [] then [] else ItemText(xs[0]) + ItemsText(xs[1..])
  }

  /** A dash is listed only first or last. */
  predicate ValidItems(xs: seq<Item>) {
    forall k :: 0 < k < |xs| && ItemText(xs[k])[0] == DASH ==> xs[k] == Single(DASH) && k == |xs| - 1
  }

  predicate Covers(x: Item, c: int) {
    match x
    case Single(d) => c == d
    case Between(lo, hi) => lo <= c <= hi
  }

  /** What is listed are the single characters and those between the ends of the ranges. */
  lemma {:induction false} ListsItems(xs: seq<Item>, c: int)
    requires ValidItems(xs)
    ensures c in Listed(ItemsText(xs)) <==> exists k :: 0 <= k < |xs| && Covers(xs[k], c)
    decreases |xs|
  {
    hide Listed, Span;
    ListedStep(ItemsText(xs));
    if xs != [] {
      var x, rest := xs[0], xs[1..];
      var g, t := ItemsText(xs), ItemsText(rest);
      assert forall k :: 0 < k < |rest| ==> rest[k] == xs[k + 1];
      ListsItems(rest, c);
      assert g == ItemText(x) + t && g[|ItemText(x)|..] == t;
      NextDash(xs);
      assert Listed(g) == (match x case Single(d) => {d as int} case Between(lo, hi) => Span(lo, hi)) + Listed(t);
      if c in Listed(t) {
        var k :| 0 <= k < |rest| && Covers(rest[k], c);
        assert Covers(xs[k + 1], c);
      }
      if k :| 0 <= k < |xs| && Covers(xs[k], c) && k > 0 {
        assert Covers(rest[k - 1], c);
      }
    }
  }

  /** No single character is mistaken for the beginning of a range. */
  lemma NextDash(xs: seq<Item>)
    requires ValidItems(xs) && xs != []
    ensures var g := ItemsText(xs); xs[0].Single? && |g| > 2 ==> g[1] != DASH
  {
    if xs[0].Single? && |xs| > 1 {
      var t := ItemsText(xs[1..]);
      assert t == ItemText(xs[1]) + ItemsText(xs[1..][1..]);
      assert ItemsText(xs)[1] == t[0] == ItemText(xs[1])[0];
      if t[0] == DASH {
        assert xs[1..][1..] == [];
      }
    }
  }
}
