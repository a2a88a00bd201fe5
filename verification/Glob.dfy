/** glob.c: matching a string against a simple pattern, stars from the end backwards. */
module Glob {

  /** Seven-bit characters; texts end at, and do not contain, the character 0. */
  type Char = c: int | 0 <= c < 128
  type Text = s: seq<Char> | forall i :: 0 <= i < |s| ==> s[i] != 0

  const STAR: Char := 42
  const QUERY: Char := 63
  const LBRACK: Char := 91
  const BACKSLASH: Char := 92
  const RBRACK: Char := 93
  const CARET: Char := 94
  const DASH: Char := 45

  function At(s: seq<Char>, i: int): Char {
    if 0 <= i < |s| then s[i] else 0
  }

  // ---- what a pattern means ----

  /** A pattern's items. Fails is what an unfinished group or a final backslash is. */
  datatype Token = One | Lit(c: Char) | Of(cs: set<int>) | Star | Fails

  /** The characters of a group, given as the text after its opening bracket up to and
      including its closing one, which globchars reads too. */
  function Members(g: seq<Char>): set<int> {
    if |g| > 0 && g[0] == CARET then Span(0, 127) - Listed(g[1..]) - {0} else Listed(g) - {0}
  }

  /** Everything from lo to hi. */
  function Span(lo: int, hi: int): (r: set<int>)
    ensures forall c: int :: c in r <==> lo <= c <= hi
  {
    set c: int | lo <= c <= hi && Within(c, lo, hi)
  }

  predicate Within(c: int, lo: int, hi: int) {
    lo <= c <= hi
  }

  function Listed(g: seq<Char>): set<int>
    decreases |g|
  {
    if g == [] then {}
    else if |g| > 2 && g[1] == DASH then Span(g[0], g[2]) + Listed(g[3..])
    else {g[0] as int} + Listed(g[1..])
  }

  /** Where the group that starts at p ends: its first character may be anything. */
  function GroupEnd(pat: Text, p: nat): (e: int)
    ensures e == -1 || p + 1 <= e < |pat|
  {
    if p >= |pat| then -1 else FindClose(pat, p + 1)
  }

  function FindClose(pat: Text, p: nat): (e: int)
    ensures e == -1 || p <= e < |pat|
    decreases |pat| - p
  {
    if p >= |pat| then -1 else if pat[p] == RBRACK then p else FindClose(pat, p + 1)
  }

  function Tokens(pat: Text, p: nat): seq<Token>
    decreases |pat| - p
  {
    if p >= |pat| then []
    else if pat[p] == QUERY then [One] + Tokens(pat, p + 1)
    else if pat[p] == STAR then [Star] + Tokens(pat, p + 1)
    else if pat[p] == LBRACK then
      var e := GroupEnd(pat, p + 1);
      if e == -1 then [Fails] else [Of(Members(pat[p + 1..e + 1]))] + Tokens(pat, e + 1)
    else if pat[p] == BACKSLASH then
      if p + 1 >= |pat| then [Fails] else [Lit(pat[p + 1])] + Tokens(pat, p + 2)
    else [Lit(pat[p])] + Tokens(pat, p + 1)
  }

  predicate Takes(t: Token, c: Char) {
    match t
    case One => true
    case Lit(d) => c == d
    case Of(cs) => c in cs
    case Star => false
    case Fails => false
  }

  /** The items ts match the whole of s. */
  ghost predicate Matches(ts: seq<Token>, s: seq<Char>)
    decreases |ts|
  {
    if ts == [] then s == []
    else if ts[0].Star? then exists k :: 0 <= k <= |s| && Matches(ts[1..], s[k..])
    else s != [] && Takes(ts[0], s[0]) && Matches(ts[1..], s[1..])
  }

  /** Nothing that ends with s is matched. */
  ghost predicate NoneEnding(ts: seq<Token>, s: seq<Char>) {
    forall u: seq<Char> :: !Matches(ts, u + s)
  }

  lemma NoneEndingStep(ts: seq<Token>, s: seq<Char>)
    requires ts != [] && !ts[0].Star? && s != [] && NoneEnding(ts[1..], s[1..])
    ensures NoneEnding(ts, s)
  {
    forall u: seq<Char>
      ensures !Matches(ts, u + s)
    {
      var all := u + s;
      var v := (u + [s[0]])[1..];
      assert all[1..] == v + s[1..];
    }
  }

  /** Nothing after a star that is not shorter than s, and nothing shorter either. */
  lemma NoneEndingStar(ts: seq<Token>, s: seq<Char>)
    requires ts != [] && ts[0].Star? && NoneEnding(ts[1..], s)
    requires forall k :: 0 < k <= |s| ==> !Matches(ts[1..], s[k..])
    ensures NoneEnding(ts, s)
  {
    forall u: seq<Char>
      ensures !Matches(ts, u + s)
    {
      forall k | 0 <= k <= |u + s|
        ensures !Matches(ts[1..], (u + s)[k..])
      {
        if k <= |u| {
          assert (u + s)[k..] == u[k..] + s;
        } else {
          assert (u + s)[k..] == s[k - |u|..];
        }
      }
    }
  }

  /** Giving up on a star: longer rests cannot match, shorter ones have been tried. */
  lemma CutOff(ts: seq<Token>, s: seq<Char>, i: nat)
    requires ts != [] && ts[0].Star? && i <= |s| && NoneEnding(ts[1..], s[i..])
    requires forall k :: i < k <= |s| ==> !Matches(ts[1..], s[k..])
    ensures !Matches(ts, s)
  {
    forall k | 0 <= k <= |s|
      ensures !Matches(ts[1..], s[k..])
    {
      if k <= i {
        assert s[k..] == s[k..i] + s[i..];
      }
    }
  }

  // ---- the bit list ----

  const BITLISTSIZE := 16

  function Bit(k: int): bv8
    requires 0 <= k < 8
  {
    match k
    case 0 => 1
    case 1 => 2
    case 2 => 4
    case 3 => 8
    case 4 => 16
    case 5 => 32
    case 6 => 64
    case 7 => 128
  }

  predicate IsSet(b: bv8, k: int)
    requires 0 <= k < 8
  {
    b & Bit(k) != 0
  }

  lemma BitsZero(k: int)
    requires 0 <= k < 8
    ensures !IsSet(0, k)
  {
  }

  lemma BitsOr(b: bv8, j: int, k: int)
    requires 0 <= j < 8 && 0 <= k < 8
    ensures IsSet(b | Bit(j), k) <==> j == k || IsSet(b, k)
  {
    assert Bit(j) & Bit(k) == if j == k then Bit(k) else 0;
    assert (b | Bit(j)) & Bit(k) == (b & Bit(k)) | (Bit(j) & Bit(k));
    assert Bit(k) != 0;
  }

  lemma BitsNot(b: bv8, k: int)
    requires 0 <= k < 8
    ensures IsSet(b ^ 0xFF, k) <==> !IsSet(b, k)
  {
  }

  lemma BitsClearLow(b: bv8, k: int)
    requires 0 <= k < 8
    ensures IsSet(b & 0xFE, k) <==> k != 0 && IsSet(b, k)
  {
  }

  /** CHECK_BIT. */
  predicate Has(bits: seq<bv8>, c: int)
    requires |bits| == BITLISTSIZE && 0 <= c < 128
  {
    IsSet(bits[c / 8], c % 8)
  }

  ghost predicate Lists(bits: seq<bv8>, cs: set<int>) {
    |bits| == BITLISTSIZE && forall c :: 0 <= c < 128 ==> (Has(bits, c) <==> c in cs)
  }

  lemma Adds(bits: seq<bv8>, cs: set<int>, c: int)
    requires Lists(bits, cs) && 0 <= c < 128
    ensures Lists(bits[c / 8 := bits[c / 8] | Bit(c % 8)], cs + {c})
  {
    hide IsSet, Bit;
    var bits' := bits[c / 8 := bits[c / 8] | Bit(c % 8)];
    forall d | 0 <= d < 128
      ensures Has(bits', d) <==> d in cs + {c}
    {
      if d / 8 == c / 8 {
        BitsOr(bits[c / 8], c % 8, d % 8);
      }
      assert Has(bits, d) <==> d in cs;
    }
  }

  lemma ListedStep(g: seq<Char>)
    ensures Listed(g) ==
      if g == [] then {}
      else if |g| > 2 && g[1] == DASH then Span(g[0], g[2]) + Listed(g[3..])
      else {g[0] as int} + Listed(g[1..])
  {
  }

  /** b[c/8] |= 1 << (c%8) */
  method Add(b: array<bv8>, c: Char, ghost cs: set<int>)
    requires b.Length == BITLISTSIZE && Lists(b[..], cs)
    modifies b
    ensures Lists(b[..], cs + {c as int})
  {
    hide Lists, Bit;
    Adds(b[..], cs, c);
    ghost var bits := b[..];
    b[c / 8] := b[c / 8] | Bit(c % 8);
    assert b[..] == bits[c / 8 := bits[c / 8] | Bit(c % 8)];
  }

  method AddRange(b: array<bv8>, lo: Char, hi: Char, ghost cs: set<int>)
    requires b.Length == BITLISTSIZE && Lists(b[..], cs)
    modifies b
    ensures Lists(b[..], cs + Span(lo, hi))
  {
    hide Lists;
    var c: int := lo;
    ghost var added: set<int> := {};
    assert cs + {} == cs;
    while c <= hi
      invariant lo <= c && (c == lo || c <= hi + 1) && added == Span(lo, c - 1) && Lists(b[..], cs + added)
    {
      Add(b, c, cs + added);
      assert cs + added + {c} == cs + (added + {c});
      added := added + {c};
      c := c + 1;
    }
    assert added == Span(lo, hi);
  }

  method Clear(b: array<bv8>)
    requires b.Length == BITLISTSIZE
    modifies b
    ensures Lists(b[..], {})
  {
    var i := 0;
    while i < BITLISTSIZE
      invariant 0 <= i <= BITLISTSIZE && forall j :: 0 <= j < i ==> b[j] == 0
    {
      b[i] := 0;
      i := i + 1;
    }
    forall c | 0 <= c < 128
      ensures !Has(b[..], c)
    {
      BitsZero(c % 8);
    }
  }

  method Negate(b: array<bv8>, ghost cs: set<int>)
    requires b.Length == BITLISTSIZE && Lists(b[..], cs)
    modifies b
    ensures Lists(b[..], Span(0, 127) - cs)
  {
    hide IsSet, Bit;
    ghost var bits := b[..];
    for i := 0 to BITLISTSIZE
      invariant forall j :: 0 <= j < BITLISTSIZE ==> b[j] == if j < i then bits[j] ^ 0xFF else bits[j]
    {
      b[i] := b[i] ^ 0xFF;
    }
    forall c | 0 <= c < 128
      ensures Has(b[..], c) <==> c in Span(0, 127) - cs
    {
      BitsNot(bits[c / 8], c % 8);
      assert Has(bits, c) <==> c in cs;
    }
  }

  method DropNul(b: array<bv8>, ghost cs: set<int>)
    requires b.Length == BITLISTSIZE && Lists(b[..], cs)
    modifies b
    ensures Lists(b[..], cs - {0})
  {
    hide IsSet, Bit;
    ghost var bits := b[..];
    b[0] := b[0] & 0xFE;
    forall c | 0 <= c < 128
      ensures Has(b[..], c) <==> c in cs - {0}
    {
      assert Has(bits, c) <==> c in cs;
      BitsClearLow(bits[0], c % 8);
    }
  }

  /** globchars: the bit list of a group. */
  method GlobChars(pat: Text, from: nat, e: nat, b: array<bv8>)
    requires from < e <= |pat| && b.Length == BITLISTSIZE
    modifies b
    ensures Lists(b[..], Members(pat[from..e]))
  {
    hide Lists, Listed;
    Clear(b);
    var s := from;
    var neg := false;
    if pat[s] == CARET {
      neg := true;
      s := s + 1;
    }
    ghost var g := pat[s..e];
    ghost var done: set<int> := {};
    while s < e
      invariant from <= s <= e && Lists(b[..], done) && done + Listed(pat[s..e]) == Listed(g)
    {
      ListedStep(pat[s..e]);
      if s + 2 < e && pat[s + 1] == DASH {
        AddRange(b, pat[s], pat[s + 2], done);
        assert pat[s..e][3..] == pat[s + 3..e];
        done := done + Span(pat[s], pat[s + 2]);
        s := s + 3;
      } else {
        Add(b, pat[s], done);
        assert pat[s..e][1..] == pat[s + 1..e];
        done := done + {pat[s] as int};
        s := s + 1;
      }
    }
    ListedStep([]);
    assert pat[s..e] == [];
    assert done == Listed(g);
    if neg {
      Negate(b, done);
      done := Span(0, 127) - done;
      assert pat[from..e][1..] == g;
    } else {
      assert pat[from..e] == g;
    }
    // The end of the string is in no group, negated or not.
    DropNul(b, done);
  }

  // ---- matching ----

  /** What the rest of the match at c and s comes to is what the whole comes to. */
  ghost predicate Reduces(pat: Text, c0: nat, str: Text, s0: nat, c: nat, s: nat)
    requires c0 <= |pat| && s0 <= |str|
  {
    && c0 <= c <= |pat| && s0 <= s <= |str|
    && (Matches(Tokens(pat, c), str[s..]) <==> Matches(Tokens(pat, c0), str[s0..]))
    && (NoneEnding(Tokens(pat, c), str[s..]) ==> NoneEnding(Tokens(pat, c0), str[s0..]))
  }

  /** Past an item that takes one character. */
  lemma Advance(pat: Text, c0: nat, str: Text, s0: nat, c: nat, s: nat, t: Token, c': nat)
    requires c0 <= |pat| && s0 <= |str| && Reduces(pat, c0, str, s0, c, s) && c <= c' <= |pat|
    requires Tokens(pat, c) == [t] + Tokens(pat, c') && !t.Star? && s < |str| && Takes(t, str[s])
    ensures Reduces(pat, c0, str, s0, c', s + 1)
  {
    hide Tokens, Takes;
    var ts := Tokens(pat, c);
    assert ts[1..] == Tokens(pat, c') && str[s..][1..] == str[s + 1..];
    if NoneEnding(Tokens(pat, c'), str[s + 1..]) {
      NoneEndingStep(ts, str[s..]);
    }
  }

  /** An item that does not take the next character. */
  lemma Mismatch(pat: Text, c0: nat, str: Text, s0: nat, c: nat, s: nat, t: Token, rest: seq<Token>)
    requires c0 <= |pat| && s0 <= |str| && Reduces(pat, c0, str, s0, c, s)
    requires Tokens(pat, c) == [t] + rest && !t.Star? && (s == |str| || !Takes(t, str[s]))
    ensures !Matches(Tokens(pat, c0), str[s0..])
  {
    hide Tokens, Takes;
  }

  /** glob: 0 exactly when the string matches; less than that only when nothing that ends with
      the string does. */
  method Glob(pat: Text, c0: nat, str: Text, s0: nat) returns (r: int)
    requires c0 <= |pat| && s0 <= |str|
    ensures r == 0 <==> Matches(Tokens(pat, c0), str[s0..])
    ensures r < 0 ==> NoneEnding(Tokens(pat, c0), str[s0..])
    decreases |pat| - c0, 1
  {
    hide Matches, NoneEnding, Tokens, Members;
    var c, s := c0, s0;
    while true
      invariant Reduces(pat, c0, str, s0, c, s)
      decreases |pat| - c
    {
      TokensAt(pat, c);
      var ch := At(pat, c);
      if ch == 0 {
        AtEnd(str, s);
        return if At(str, s) != 0 then -1 else 0;
      } else if ch == QUERY {
        if At(str, s) == 0 {
          Mismatch(pat, c0, str, s0, c, s, One, Tokens(pat, c + 1));
          return 1;
        }
        Advance(pat, c0, str, s0, c, s, One, c + 1);
        c, s := c + 1, s + 1;
      } else if ch == LBRACK {
        var e, ok := Group(pat, c + 1, At(str, s));
        if !ok {
          if e == -1 {
            Mismatch(pat, c0, str, s0, c, s, Fails, []);
          } else {
            Mismatch(pat, c0, str, s0, c, s, Of(Members(pat[c + 1..e + 1])), Tokens(pat, e + 1));
          }
          return 1;
        }
        Advance(pat, c0, str, s0, c, s, Of(Members(pat[c + 1..e + 1])), e + 1);
        c, s := e + 1, s + 1;
      } else if ch == STAR {
        r := TryBack(pat, c + 1, str, s);
        if r == 0 {
          StarFound(pat, c, str, s);
          return 0;
        }
        if r == 1 {
          StarCut(pat, c, c + 1, str, s);
          return 1;
        }
        StarLast(pat, c0, str, s0, c, s);
        c := c + 1;
      } else if ch == BACKSLASH {
        // The next character stands for itself.
        if At(pat, c + 1) == 0 {
          Mismatch(pat, c0, str, s0, c, s, Fails, []);
          return 1;
        }
        if At(str, s) != At(pat, c + 1) {
          Mismatch(pat, c0, str, s0, c, s, Lit(pat[c + 1]), Tokens(pat, c + 2));
          return 1;
        }
        Advance(pat, c0, str, s0, c, s, Lit(pat[c + 1]), c + 2);
        c, s := c + 2, s + 1;
      } else {
        if At(str, s) != ch {
          Mismatch(pat, c0, str, s0, c, s, Lit(ch), Tokens(pat, c + 1));
          return 1;
        }
        Advance(pat, c0, str, s0, c, s, Lit(ch), c + 1);
        c, s := c + 1, s + 1;
      }
    }
  }

  /** A group: where it ends, -1 if nowhere, and whether it has ch. */
  method Group(pat: Text, p: nat, ch: Char) returns (e: int, ok: bool)
    requires p <= |pat|
    ensures e == GroupEnd(pat, p)
    ensures ok <==> e != -1 && ch in Members(pat[p..e + 1])
    ensures ok ==> ch != 0
  {
    hide FindClose, Members, Lists, Has;
    // The bracket that ends the group.
    if At(pat, p) == 0 {
      return -1, false;
    }
    var c := p + 1;
    FindStep(pat, c);
    while At(pat, c) != RBRACK
      invariant p + 1 <= c && FindClose(pat, p + 1) == FindClose(pat, c)
      decreases |pat| - c
    {
      FindStep(pat, c);
      if At(pat, c) == 0 {
        return -1, false;
      }
      c := c + 1;
    }
    FindStep(pat, c);
    e := c;
    // Its characters, the bracket with them.
    var bitlist := new bv8[BITLISTSIZE];
    GlobChars(pat, p, c + 1, bitlist);
    Listing(bitlist[..], Members(pat[p..c + 1]), ch);
    NoNul(pat[p..c + 1]);
    ok := Has(bitlist[..], ch);
  }

  /** Nothing at k or after it matches, and what is at k is too long already. */
  ghost predicate GivesUp(pat: Text, c: nat, str: Text, k: nat)
    requires k <= |str|
  {
    && NoneEnding(Tokens(pat, c), str[k..])
    && forall j :: k <= j <= |str| ==> !Matches(Tokens(pat, c), str[j..])
  }

  /** Try to match what follows a star, from the end of the string back to just before here:
      0 for a match, 1 to give up, 2 to go on at here itself. */
  method TryBack(pat: Text, c: nat, str: Text, here: nat) returns (r: int)
    requires c <= |pat| && here <= |str|
    ensures r == 0 || r == 1 || r == 2
    ensures r == 0 ==> exists k :: here < k <= |str| && Matches(Tokens(pat, c), str[k..])
    ensures r == 1 ==> exists k :: here < k <= |str| && GivesUp(pat, c, str, k)
    ensures r == 2 ==> forall j :: here < j <= |str| ==> !Matches(Tokens(pat, c), str[j..])
    decreases |pat| - c, 2
  {
    hide Matches, NoneEnding, Tokens;
    var s := |str|;
    while s != here
      invariant here <= s <= |str|
      invariant forall j :: s < j <= |str| ==> !Matches(Tokens(pat, c), str[j..])
    {
      // With nothing after the star there is no need to recurse.
      if At(pat, c) != 0 {
        r := Glob(pat, c, str, s);
      } else {
        AtEnd(str, s);
        TokensAt(pat, c);
        r := if At(str, s) != 0 then -1 else 0;
      }
      if r == 0 {
        return 0;
      }
      if r < 0 {
        assert GivesUp(pat, c, str, s);
        return 1;
      }
      s := s - 1;
    }
    return 2;
  }

  lemma FindStep(pat: Text, p: nat)
    ensures FindClose(pat, p) == if p >= |pat| then -1 else if pat[p] == RBRACK then p else FindClose(pat, p + 1)
  {
  }

  lemma Listing(bits: seq<bv8>, cs: set<int>, c: Char)
    requires Lists(bits, cs)
    ensures |bits| == BITLISTSIZE && (Has(bits, c) <==> c in cs)
  {
    hide Has;
  }

  lemma NoNul(g: seq<Char>)
    ensures 0 !in Members(g)
  {
    hide Listed;
  }

  lemma TokensAt(pat: Text, c: nat)
    requires c <= |pat|
    ensures var ch := At(pat, c); var ts := Tokens(pat, c);
      && (ch == 0 <==> c == |pat|)
      && (ch == 0 ==> ts == [])
      && (ch == QUERY ==> ts == [One] + Tokens(pat, c + 1))
      && (ch == STAR ==> ts == [Star] + Tokens(pat, c + 1))
      && (ch == LBRACK ==> var e := GroupEnd(pat, c + 1);
          ts == if e == -1 then [Fails] + [] else [Of(Members(pat[c + 1..e + 1]))] + Tokens(pat, e + 1))
      && (ch == BACKSLASH ==> ts == if c + 1 >= |pat| then [Fails] + [] else [Lit(pat[c + 1])] + Tokens(pat, c + 2))
      && (ch != 0 && ch != QUERY && ch != STAR && ch != LBRACK && ch != BACKSLASH ==> ts == [Lit(ch)] + Tokens(pat, c + 1))
  {
    hide Members, FindClose;
  }

  lemma AtEnd(str: Text, s: nat)
    requires s <= |str|
    ensures Matches([], str[s..]) <==> At(str, s) == 0
    ensures At(str, s) != 0 ==> NoneEnding([], str[s..])
  {
    if s < |str| {
      forall u: seq<Char>
        ensures !Matches([], u + str[s..])
      {
        assert |u + str[s..]| > 0;
      }
    }
  }

  lemma StarFound(pat: Text, c: nat, str: Text, s: nat)
    requires c < |pat| && s <= |str| && Tokens(pat, c) == [Star] + Tokens(pat, c + 1)
    requires exists k :: s < k <= |str| && Matches(Tokens(pat, c + 1), str[k..])
    ensures Matches(Tokens(pat, c), str[s..])
  {
    hide Tokens;
    var k :| s < k <= |str| && Matches(Tokens(pat, c + 1), str[k..]);
    assert str[s..][k - s..] == str[k..];
  }

  lemma StarCut(pat: Text, c: nat, rest: nat, str: Text, s: nat)
    requires rest == c + 1 <= |pat| && s <= |str| && Tokens(pat, c) == [Star] + Tokens(pat, c + 1)
    requires exists k :: s < k <= |str| && GivesUp(pat, rest, str, k)
    ensures !Matches(Tokens(pat, c), str[s..])
  {
    hide Tokens, Matches, NoneEnding;
    var k :| s < k <= |str| && GivesUp(pat, rest, str, k);
    var here := str[s..];
    assert here[k - s..] == str[k..];
    forall j | k - s < j <= |here|
      ensures !Matches(Tokens(pat, c + 1), here[j..])
    {
      assert here[j..] == str[s + j..];
    }
    CutOff(Tokens(pat, c), here, k - s);
  }

  lemma StarLast(pat: Text, c0: nat, str: Text, s0: nat, c: nat, s: nat)
    requires c0 <= |pat| && s0 <= |str| && Reduces(pat, c0, str, s0, c, s) && c < |pat|
    requires Tokens(pat, c) == [Star] + Tokens(pat, c + 1)
    requires forall j :: s < j <= |str| ==> !Matches(Tokens(pat, c + 1), str[j..])
    ensures Reduces(pat, c0, str, s0, c + 1, s)
  {
    hide Tokens;
    var ts, rest := Tokens(pat, c), str[s..];
    forall k | 0 < k <= |rest|
      ensures !Matches(ts[1..], rest[k..])
    {
      assert rest[k..] == str[s + k..];
    }
    assert rest[0..] == rest;
    if NoneEnding(Tokens(pat, c + 1), rest) {
      NoneEndingStar(ts, rest);
    }
  }

  // ---- groups as they are documented ----

  // The documented meaning of a group whose text, without brackets, is g is Members(g). What
  // is matched is Members(g + [RBRACK]).

  /** The text that lists the characters: without the '^' of a negated group. */
  function Bare(g: Text): Text {
    if g != [] && g[0] == CARET then g[1..] else g
  }

  /** x, if what is listed ends in "x-" with nothing to end the range; else -1. */
  function OpenRange(h: Text): (x: int)
    ensures -1 <= x < 128
    decreases |h|
  {
    if |h| < 2 then -1
    else if h[1] != DASH then OpenRange(h[1..])
    else if |h| == 2 then h[0]
    else OpenRange(h[3..])
  }

  /** What is listed before such an ending. */
  function Closed(h: Text): set<int>
    decreases |h|
  {
    if |h| == 2 && h[1] == DASH then {}
    else if h == [] then {}
    else if |h| > 2 && h[1] == DASH then Span(h[0], h[2]) + Closed(h[3..])
    else {h[0] as int} + Closed(h[1..])
  }

  /** With the closing bracket read as well, an unfinished range ends in it; else it is one
      more character. */
  lemma {:induction false} WithBracket(h: Text)
    ensures var x := OpenRange(h);
      && Listed(h) == Closed(h) + (if x == -1 then {} else {x, DASH as int})
      && Listed(h + [RBRACK]) == Closed(h) + (if x == -1 then {RBRACK as int} else Span(x, RBRACK))
    decreases |h|
  {
    hide Listed, Span;
    var k := h + [RBRACK];
    ListedStep([]);
    ListedStep(h);
    ListedStep(k);
    if h == [] {
      ListedStep(k[1..]);
      assert k[1..] == [];
    } else if |h| == 2 && h[1] == DASH {
      ListedStep(h[1..]);
      assert h[1..][1..] == [] && k[3..] == [];
    } else {
      var n := if |h| > 2 && h[1] == DASH then 3 else 1;
      assert k[n..] == h[n..] + [RBRACK];
      WithBracket(h[n..]);
    }
  }

  /** What is listed has the closing bracket already, or, if it ends in "x-", has all of the
      range from x to the bracket, and lists x and '-' otherwise if the range does not. */
  predicate Harmless(h: Text) {
    var x := OpenRange(h);
    if x == -1 then RBRACK as int in Listed(h)
    else
      && (forall c :: x <= c <= RBRACK ==> c in Closed(h) || c == x || c == DASH)
      && (x <= RBRACK || x in Closed(h)) && (x <= DASH || DASH as int in Closed(h))
  }

  /** A group, negated or not, matches what it is documented to match if and only if its
      closing bracket is harmless. */
  lemma GroupAsDocumented(g: Text)
    ensures Members(g + [RBRACK]) == Members(g) <==> Harmless(Bare(g))
  {
    hide Listed, Closed, OpenRange, Span, Members, Bare, Harmless;
    var h := Bare(g);
    var L, L' := Listed(h), Listed(h + [RBRACK]);
    InRange(h);
    InRange(h + [RBRACK]);
    MembersBare(g);
    Complements(L, L');
    HarmlessMeans(h);
  }

  lemma MembersBare(g: Text)
    ensures var all, h, not := Span(0, 127), Bare(g), g != [] && g[0] == CARET;
      && Members(g) == (if not then all - Listed(h) - {0} else Listed(h) - {0})
      && Members(g + [RBRACK]) == (if not then all - Listed(h + [RBRACK]) - {0} else Listed(h + [RBRACK]) - {0})
  {
    hide Listed, Span;
    assert g != [] ==> (g + [RBRACK])[1..] == g[1..] + [RBRACK];
    ListedStep([]);
  }

  lemma HarmlessMeans(h: Text)
    ensures Harmless(h) <==> Listed(h) == Listed(h + [RBRACK])
  {
    hide Listed, Closed, OpenRange, Span;
    WithBracket(h);
    var x, C, L, L' := OpenRange(h), Closed(h), Listed(h), Listed(h + [RBRACK]);
    if x == -1 {
      assert L + {RBRACK as int} == L' && RBRACK as int in L';
    } else {
      assert L == C + {x, DASH as int} && L' == C + Span(x, RBRACK);
      assert forall c: int :: c in L <==> c in C || c == x || c == DASH;
      assert forall c: int :: c in L' <==> c in C || x <= c <= RBRACK;
      if Harmless(h) {
        assert forall c: int :: c in L <==> c in L';
      }
      if L == L' {
        assert x in L' && DASH as int in L';
        forall c | x <= c <= RBRACK
          ensures c in C || c == x || c == DASH
        {
          assert c in L';
        }
      }
    }
  }

  /** Listed are only characters other than NUL. */
  lemma {:induction false} InRange(h: Text)
    ensures forall c :: c in Listed(h) ==> 0 < c < 128
    decreases |h|
  {
    ListedStep(h);
    if h != [] {
      var n := if |h| > 2 && h[1] == DASH then 3 else 1;
      InRange(h[n..]);
    }
  }

  lemma Complements(L: set<int>, L': set<int>)
    requires forall c :: c in L + L' ==> 0 < c < 128
    ensures Span(0, 127) - L - {0} == Span(0, 127) - L' - {0} <==> L == L'
    ensures L - {0} == L && L' - {0} == L'
  {
    hide Span;
    assert forall c :: c in L || c in L' ==> c in L + L';
    var all := Span(0, 127);
    if all - L - {0} == all - L' - {0} {
      forall c: int
        ensures c in L <==> c in L'
      {
        assert c in all - L - {0} <==> c in all - L' - {0};
      }
    }
  }

  // Groups that match more, or less, than is documented.

  /** `[a-z]` matches `]` as well. */
  lemma GroupHasItsBracket()
    ensures Matches(Tokens([LBRACK, 97, DASH, 122, RBRACK], 0), [RBRACK])
    ensures RBRACK as int !in Members([97, DASH, 122])
  {
    var g: Text := [97, DASH, 122];
    var pat: Text := [LBRACK] + g + [RBRACK];
    OneGroup(pat, g);
    WithBracket(g);
    assert g[3..] == [] && Listed([]) == {};
    assert pat == [LBRACK, 97, DASH, 122, RBRACK];
    GroupMatches(pat, g, RBRACK);
  }

  /** `[^a-z]` does not match `]`. */
  lemma NegatedLosesItsBracket()
    ensures !Matches(Tokens([LBRACK, CARET, 97, DASH, 122, RBRACK], 0), [RBRACK])
    ensures RBRACK as int in Members([CARET, 97, DASH, 122])
  {
    var h: Text := [97, DASH, 122];
    var g: Text := [CARET] + h;
    var pat: Text := [LBRACK] + g + [RBRACK];
    OneGroup(pat, g);
    WithBracket(h);
    assert h[3..] == [] && Listed([]) == {};
    assert g == [CARET, 97, DASH, 122] && pat == [LBRACK, CARET, 97, DASH, 122, RBRACK];
    assert g[1..] == h && (g + [RBRACK])[1..] == h + [RBRACK];
    GroupMatches(pat, g, RBRACK);
  }

  /** `[a-]`, documented as a or '-', matches nothing: its range ends in the bracket. */
  lemma OpenRangeIsEmpty(s: Text)
    ensures !Matches(Tokens([LBRACK, 97, DASH, RBRACK], 0), s)
    ensures Members([97, DASH]) == {97, DASH as int}
  {
    var g: Text := [97, DASH];
    var pat: Text := [LBRACK] + g + [RBRACK];
    OneGroup(pat, g);
    WithBracket(g);
    assert pat == [LBRACK, 97, DASH, RBRACK];
    if |s| == 1 {
      GroupMatches(pat, g, s[0]);
      assert s == [s[0]];
    }
  }

  /** `[X-]` matches Z. */
  lemma OpenRangeIsWider()
    ensures Matches(Tokens([LBRACK, 88, DASH, RBRACK], 0), [90])
    ensures 90 !in Members([88, DASH])
  {
    var g: Text := [88, DASH];
    var pat: Text := [LBRACK] + g + [RBRACK];
    OneGroup(pat, g);
    WithBracket(g);
    assert pat == [LBRACK, 88, DASH, RBRACK];
    GroupMatches(pat, g, 90);
  }

  /** A pattern that is one group. */
  lemma OneGroup(pat: Text, g: Text)
    requires g != [] && RBRACK !in g[1..] && pat == [LBRACK] + g + [RBRACK]
    ensures Tokens(pat, 0) == [Of(Members(g + [RBRACK]))]
  {
    hide Members;
    CloseAt(pat, 2, |g| + 1);
    assert pat[1..|g| + 2] == g + [RBRACK];
    assert Tokens(pat, |pat|) == [];
    assert [Of(Members(g + [RBRACK]))] + [] == [Of(Members(g + [RBRACK]))];
  }

  lemma {:induction false} CloseAt(pat: Text, p: nat, e: nat)
    requires p <= e < |pat| && pat[e] == RBRACK && forall i :: p <= i < e ==> pat[i] != RBRACK
    ensures FindClose(pat, p) == e
    decreases e - p
  {
    FindStep(pat, p);
    if p < e { CloseAt(pat, p + 1, e); }
  }

  lemma GroupMatches(pat: Text, g: Text, c: Char)
    requires Tokens(pat, 0) == [Of(Members(g + [RBRACK]))]
    ensures Matches(Tokens(pat, 0), [c]) <==> c in Members(g + [RBRACK])
    ensures forall s: seq<Char> :: |s| != 1 ==> !Matches(Tokens(pat, 0), s)
  {
    hide Members, Tokens;
    var ts := Tokens(pat, 0);
    assert ts[1..] == [] && [c][1..] == [];
  }
}
