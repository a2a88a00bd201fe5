/** Patterns as regexp.c reads them: the abstract syntax a pattern stands for, and
    the recursive-descent grammar that reg, regbranch, regpiece and regatom follow.
    Text is a C string without its terminator; reading one past the end gives 0. */
module RegexSyntax {

  type Byte = x: int | 0 <= x < 256
  type Text = s: seq<Byte> | forall i :: 0 <= i < |s| ==> s[i] != 0

  const NL: Byte := 10
  const DOLLAR: Byte := 36
  const LPAREN: Byte := 40
  const RPAREN: Byte := 41
  const STARCH: Byte := 42
  const PLUSCH: Byte := 43
  const DASH: Byte := 45
  const DOT: Byte := 46
  const LT: Byte := 60
  const GT: Byte := 62
  const QUERY: Byte := 63
  const LBRACK: Byte := 91
  const BACKSLASH: Byte := 92
  const RBRACK: Byte := 93
  const CARET: Byte := 94
  const BAR: Byte := 124

  /** One more than the number of groups a pattern may have. */
  const NSUBEXP := 10

  function At(s: seq<Byte>, i: int): Byte {
    if 0 <= i < |s| then s[i] else 0
  }

  predicate IsMult(c: Byte) {
    c == STARCH || c == PLUSCH || c == QUERY
  }

  /** What regbranch's loop stops at. */
  predicate EndsBranch(c: Byte) {
    c == 0 || c == RPAREN || c == NL || c == BAR
  }

  /** What ends a literal run besides a multiplier or a backslash. */
  predicate EndsRun(c: Byte) {
    c == DOT || c == LBRACK || c == LPAREN || c == RPAREN || c == BAR || c == NL
    || c == DOLLAR || c == CARET || c == 0
  }

  datatype Piece =
    | Bol
    | Eol
    | WordA
    | WordZ
    | Any
    | AnyOf(chars: seq<Byte>)
    | AnyBut(chars: seq<Byte>)
    | Exact(str: seq<Byte>)
    | Group(no: nat, alts: seq<Branch>)
    | Star(x: Piece)
    | Plus(x: Piece)
    | Opt(x: Piece)

  datatype Branch = Branch(ps: seq<Piece>)

  datatype Error =
    | TooManyParens
    | UnmatchedParens
    | JunkOnEnd
    | CouldBeEmpty
    | NestedMult
    | InvalidRange
    | UnmatchedBrackets
    | InternalUrp
    | FollowsNothing
    | TrailingBackslash
    | TooBig

  datatype Parse<+T> = Fail(error: Error) | Ok(val: T, pos: nat, npar: nat)

  // ---- the three flags, as functions of the syntax ----

  /** HASWIDTH: the flag passed up as "never matches the null string". */
  predicate WidthP(x: Piece)
    decreases x
  {
    match x
    case Any => true
    case AnyOf(_) => true
    case AnyBut(_) => true
    case Exact(_) => true
    case Plus(_) => true
    case Group(_, bs) => WidthA(bs)
    case _ => false
  }

  predicate WidthB(ps: seq<Piece>)
    decreases ps
  {
    ps != [] && (WidthP(ps[0]) || WidthB(ps[1..]))
  }

  predicate WidthA(bs: seq<Branch>)
    decreases bs
  {
    bs == [] || (WidthB(bs[0].ps) && WidthA(bs[1..]))
  }

  /** SIMPLE, for anything a multiplier can follow. */
  predicate SimpleP(x: Piece) {
    x.Any? || x.AnyOf? || x.AnyBut? || (x.Exact? && |x.str| == 1)
  }

  /** What is one node and is not made of other pieces. */
  predicate Atomic(x: Piece) {
    !x.Group? && !x.Star? && !x.Plus? && !x.Opt?
  }

  /** SPSTART. */
  predicate SpStartP(x: Piece)
    decreases x
  {
    match x
    case Star(_) => true
    case Opt(_) => true
    case Group(_, bs) => SpStartA(bs)
    case _ => false
  }

  predicate SpStartB(ps: seq<Piece>)
    decreases ps
  {
    ps != [] && SpStartP(ps[0])
  }

  predicate SpStartA(bs: seq<Branch>)
    decreases bs
  {
    bs != [] && (SpStartB(bs[0].ps) || SpStartA(bs[1..]))
  }

  // ---- the grammar ----

  /** The flag says that a piece starts with `*` or `?`; it is not set for `+`. */
  lemma SpStartMeans(x: Piece)
    requires !Atomic(x) && !x.Group?
    ensures SpStartP(x) <==> x.Star? || x.Opt?
  {
  }

  /** Characters from lo up to hi. */
  function Range(lo: int, hi: int): seq<Byte>
    requires 0 <= lo && hi < 256
    decreases hi - lo
  {
    if lo > hi then [] else [lo] + Range(lo + 1, hi)
  }

  /** The rest of a bracket group from p, up to its closing bracket. */
  function ClassRest(pat: Text, p: nat): Parse<seq<Byte>>
    decreases |pat| - p
  {
    var c := At(pat, p);
    if c == 0 || c == RBRACK then Ok([], p, 0)
    else if c == DASH then
      var d := At(pat, p + 1);
      if d == RBRACK || d == 0 then
        var r := ClassRest(pat, p + 1);
        if r.Fail? then r else Ok([DASH] + r.val, r.pos, 0)
      else if At(pat, p - 1) + 1 > d + 1 then Fail(InvalidRange)
      else
        var r := ClassRest(pat, p + 2);
        if r.Fail? then r else Ok(Range(At(pat, p - 1) + 1, d) + r.val, r.pos, 0)
    else
      var r := ClassRest(pat, p + 1);
      if r.Fail? then r else Ok([c] + r.val, r.pos, 0)
  }

  /** A leading `]` or `-` of a bracket group stands for itself. */
  function ClassLead(pat: Text, p: nat): seq<Byte> {
    if At(pat, p) == RBRACK || At(pat, p) == DASH then [At(pat, p)] else []
  }

  function ClassStart(pat: Text, pos: nat): nat {
    if At(pat, pos) == CARET then pos + 1 else pos
  }

  /** A bracket group; pos is just after the opening bracket. */
  function PClass(pat: Text, pos: nat, npar: nat): (r: Parse<Piece>)
    requires pos <= |pat|
    ensures r.Ok? ==> pos < r.pos <= |pat| && r.npar == npar && (r.val.AnyOf? || r.val.AnyBut?)
  {
    var p1 := ClassStart(pat, pos);
    var lead := ClassLead(pat, p1);
    var rest := ClassRest(pat, p1 + |lead|);
    if rest.Fail? then Fail(rest.error)
    else if At(pat, rest.pos) != RBRACK then Fail(UnmatchedBrackets)
    else
      ClassRestAdvances(pat, p1 + |lead|);
      var chars := lead + rest.val;
      Ok(if At(pat, pos) == CARET then AnyBut(chars) else AnyOf(chars), rest.pos + 1, npar)
  }

  lemma ClassRestAdvances(pat: Text, p: nat)
    ensures ClassRest(pat, p).Ok? ==> p <= ClassRest(pat, p).pos
    decreases |pat| - p
  {
  }

  /** What the literal-run loop of regatom gathers: the string, where it stopped, and
      whether a backup point was ever set. */
  datatype Run = Run(str: seq<Byte>, pos: nat, backed: bool)

  /** The loop from p on; prev is the backup point, -1 when there is none yet. */
  function RunFrom(pat: Text, p: nat, prev: int): (r: Run)
    requires p < |pat|
    requires prev == -1 || 0 <= prev <= p
    ensures prev < r.pos || r.pos == prev
    ensures r.pos <= |pat|
    ensures prev == -1 ==> r.str != [] && p < r.pos
    ensures prev == -1 && !r.backed ==> |r.str| == 1
    ensures prev != -1 ==> r.backed
    decreases |pat| - p
  {
    var ch := pat[p];
    var c := At(pat, p + 1);
    if EndsRun(c) then Run([ch], p + 1, prev != -1)
    else if IsMult(c) then
      if prev == -1 then Run([ch], p + 1, false) else Run([], prev, true)
    else if c == BACKSLASH then
      var d := At(pat, p + 2);
      if d == 0 || d == LT || d == GT then Run([ch], p + 1, prev != -1)
      else
        var r := RunFrom(pat, p + 2, p + 1);
        Run([ch] + r.str, r.pos, true)
    else
      var r := RunFrom(pat, p + 1, p + 1);
      Run([ch] + r.str, r.pos, true)
  }

  /** reg: the alternatives of a group or of the whole pattern. */
  function PReg(pat: Text, pos: nat, npar: nat, paren: bool): (r: Parse<seq<Branch>>)
    requires pos <= |pat|
    ensures r.Ok? ==> pos <= r.pos <= |pat| && npar <= r.npar && r.val != []
    decreases |pat| - pos, 5
  {
    if paren && npar >= NSUBEXP then Fail(TooManyParens)
    else
      var r := PAlts(pat, pos, if paren then npar + 1 else npar);
      if r.Fail? then r
      else if paren then
        if At(pat, r.pos) != RPAREN then Fail(UnmatchedParens) else Ok(r.val, r.pos + 1, r.npar)
      else if At(pat, r.pos) == RPAREN then Fail(UnmatchedParens)
      else if At(pat, r.pos) != 0 then Fail(JunkOnEnd)
      else r
  }

  /** One branch, then more as long as `|` or a newline follows. */
  function PAlts(pat: Text, pos: nat, npar: nat): (r: Parse<seq<Branch>>)
    requires pos <= |pat|
    ensures r.Ok? ==> pos <= r.pos <= |pat| && npar <= r.npar && r.val != []
    decreases |pat| - pos, 4
  {
    var b := PBranch(pat, pos, npar);
    if b.Fail? then Fail(b.error)
    else if At(pat, b.pos) == BAR || At(pat, b.pos) == NL then
      var r := PAlts(pat, b.pos + 1, b.npar);
      if r.Fail? then r else Ok([Branch(b.val)] + r.val, r.pos, r.npar)
    else Ok([Branch(b.val)], b.pos, b.npar)
  }

  /** regbranch: pieces up to the end of the branch. */
  function PBranch(pat: Text, pos: nat, npar: nat): (r: Parse<seq<Piece>>)
    requires pos <= |pat|
    ensures r.Ok? ==> pos <= r.pos <= |pat| && npar <= r.npar
    decreases |pat| - pos, 3
  {
    if EndsBranch(At(pat, pos)) then Ok([], pos, npar)
    else
      var p := PPiece(pat, pos, npar);
      if p.Fail? then Fail(p.error)
      else
        var r := PBranch(pat, p.pos, p.npar);
        if r.Fail? then r else Ok([p.val] + r.val, r.pos, r.npar)
  }

  /** regpiece: an atom and at most one multiplier. */
  function PPiece(pat: Text, pos: nat, npar: nat): (r: Parse<Piece>)
    requires pos < |pat|
    ensures r.Ok? ==> pos < r.pos <= |pat| && npar <= r.npar
    decreases |pat| - pos, 2
  {
    var a := PAtom(pat, pos, npar);
    if a.Fail? then a
    else
      var op := At(pat, a.pos);
      if !IsMult(op) then a
      else if !WidthP(a.val) && op != QUERY then Fail(CouldBeEmpty)
      else if IsMult(At(pat, a.pos + 1)) then Fail(NestedMult)
      else
        Ok(Multiplied(op, a.val), a.pos + 1, a.npar)
  }

  function Multiplied(op: Byte, x: Piece): Piece {
    if op == STARCH then Star(x) else if op == PLUSCH then Plus(x) else Opt(x)
  }

  /** regatom. */
  function PAtom(pat: Text, pos: nat, npar: nat): (r: Parse<Piece>)
    requires pos < |pat|
    ensures r.Ok? ==> pos < r.pos <= |pat| && npar <= r.npar
    decreases |pat| - pos, 1
  {
    var c := pat[pos];
    if c == CARET then Ok(Bol, pos + 1, npar)
    else if c == DOLLAR then Ok(Eol, pos + 1, npar)
    else if c == DOT then Ok(Any, pos + 1, npar)
    else if c == LBRACK then PClass(pat, pos + 1, npar)
    else if c == LPAREN then
      var r := PReg(pat, pos + 1, npar, true);
      if r.Fail? then Fail(r.error) else Ok(Group(npar, r.val), r.pos, r.npar)
    else if c == BAR || c == NL || c == RPAREN then Fail(InternalUrp)
    else if IsMult(c) then Fail(FollowsNothing)
    else if c == BACKSLASH then
      var d := At(pat, pos + 1);
      if d == 0 then Fail(TrailingBackslash)
      else if d == LT then Ok(WordA, pos + 2, npar)
      else if d == GT then Ok(WordZ, pos + 2, npar)
      else var r := RunFrom(pat, pos + 1, -1); Ok(Exact(r.str), r.pos, npar)
    else var r := RunFrom(pat, pos, -1); Ok(Exact(r.str), r.pos, npar)
  }

  // ---- what every accepted pattern has ----

  /** Every repeated operand has width, no literal is empty, and no byte is NUL. */
  predicate WfP(x: Piece)
    decreases x
  {
    match x
    case AnyOf(cs) => 0 !in cs
    case AnyBut(cs) => 0 !in cs
    case Exact(str) => str != [] && 0 !in str
    case Group(n, bs) => 1 <= n < NSUBEXP && bs != [] && WfA(bs)
    case Star(y) => WfP(y) && WidthP(y) && Operand(y)
    case Plus(y) => WfP(y) && WidthP(y) && Operand(y)
    case Opt(y) => WfP(y) && Operand(y)
    case _ => true
  }

  /** What a multiplier applies to: never another multiplier, and one literal character. */
  predicate Operand(x: Piece) {
    !x.Star? && !x.Plus? && !x.Opt? && (x.Exact? ==> |x.str| == 1)
  }

  predicate WfB(ps: seq<Piece>)
    decreases ps
  {
    ps == [] || (WfP(ps[0]) && WfB(ps[1..]))
  }

  predicate WfA(bs: seq<Branch>)
    decreases bs
  {
    bs == [] || (WfB(bs[0].ps) && WfA(bs[1..]))
  }

  /** The groups of x are numbered from lo up to, but not including, hi, each number
      once, a group before those inside it. */
  ghost predicate NumberedP(x: Piece, lo: nat, hi: nat)
    decreases x
  {
    match x
    case Group(n, bs) => n == lo < hi && NumberedA(bs, lo + 1, hi)
    case Star(y) => NumberedP(y, lo, hi)
    case Plus(y) => NumberedP(y, lo, hi)
    case Opt(y) => NumberedP(y, lo, hi)
    case _ => lo == hi
  }

  ghost predicate NumberedB(ps: seq<Piece>, lo: nat, hi: nat)
    decreases ps
  {
    if ps == [] then lo == hi
    else exists mid: nat :: lo <= mid <= hi && NumberedP(ps[0], lo, mid) && NumberedB(ps[1..], mid, hi)
  }

  ghost predicate NumberedA(bs: seq<Branch>, lo: nat, hi: nat)
    decreases bs
  {
    if bs == [] then lo == hi
    else exists mid: nat :: lo <= mid <= hi && NumberedB(bs[0].ps, lo, mid) && NumberedA(bs[1..], mid, hi)
  }

  lemma WfAppend(ps: seq<Piece>, qs: seq<Piece>)
    requires WfB(ps) && WfB(qs)
    ensures WfB(ps + qs)
    decreases ps
  {
    if ps == [] {
      assert ps + qs == qs;
    } else {
      WfAppend(ps[1..], qs);
      assert (ps + qs)[1..] == ps[1..] + qs;
    }
  }

  lemma RangeHasNoNul(lo: int, hi: int)
    requires 1 <= lo && hi < 256
    ensures 0 !in Range(lo, hi)
    decreases hi - lo
  {
    if lo <= hi {
      RangeHasNoNul(lo + 1, hi);
    }
  }

  lemma {:induction false} ClassHasNoNul(pat: Text, p: nat)
    ensures ClassRest(pat, p).Ok? ==> 0 !in ClassRest(pat, p).val
    decreases |pat| - p
  {
    var c := At(pat, p);
    if c == 0 || c == RBRACK {
    } else if c == DASH {
      var d := At(pat, p + 1);
      if d == RBRACK || d == 0 {
        ClassHasNoNul(pat, p + 1);
      } else {
        RangeHasNoNul(At(pat, p - 1) + 1, d);
        ClassHasNoNul(pat, p + 2);
      }
    } else {
      ClassHasNoNul(pat, p + 1);
    }
  }

  /** A multiplier never follows a run of several characters: it is left with exactly
      the one character before it, and that run never set a backup point. */
  lemma {:induction false} MultFollowsOneChar(pat: Text, p: nat, prev: int)
    requires p < |pat|
    requires prev == -1 || (0 <= prev <= p && !IsMult(At(pat, prev)))
    ensures var r := RunFrom(pat, p, prev);
      && 0 !in r.str
      && (IsMult(At(pat, r.pos)) ==> prev == -1 && !r.backed && |r.str| == 1)
    decreases |pat| - p
  {
    var c := At(pat, p + 1);
    if EndsRun(c) || IsMult(c) {
    } else if c == BACKSLASH {
      var d := At(pat, p + 2);
      if !(d == 0 || d == LT || d == GT) {
        MultFollowsOneChar(pat, p + 2, p + 1);
      }
    } else {
      MultFollowsOneChar(pat, p + 1, p + 1);
    }
  }

  lemma {:induction false} ParsedA(pat: Text, pos: nat, npar: nat)
    requires pos <= |pat| && 1 <= npar
    ensures var r := PAlts(pat, pos, npar); r.Ok? ==> WfA(r.val) && NumberedA(r.val, npar, r.npar)
    decreases |pat| - pos, 4
  {
    ParsedB(pat, pos, npar);
    var b := PBranch(pat, pos, npar);
    var r := PAlts(pat, pos, npar);
    if r.Ok? {
      assert r.val[0].ps == b.val;
      if At(pat, b.pos) == BAR || At(pat, b.pos) == NL {
        ParsedA(pat, b.pos + 1, b.npar);
        assert r.val[1..] == PAlts(pat, b.pos + 1, b.npar).val;
      } else {
        assert r.val[1..] == [];
        assert NumberedA(r.val[1..], b.npar, r.npar);
      }
    }
  }

  lemma {:induction false} ParsedB(pat: Text, pos: nat, npar: nat)
    requires pos <= |pat| && 1 <= npar
    ensures var r := PBranch(pat, pos, npar); r.Ok? ==> WfB(r.val) && NumberedB(r.val, npar, r.npar)
    decreases |pat| - pos, 3
  {
    if !EndsBranch(At(pat, pos)) {
      ParsedP(pat, pos, npar);
      var p := PPiece(pat, pos, npar);
      var r := PBranch(pat, pos, npar);
      if r.Ok? {
        ParsedB(pat, p.pos, p.npar);
        assert r.val[0] == p.val && r.val[1..] == PBranch(pat, p.pos, p.npar).val;
      }
    }
  }

  /** Every piece regpiece accepts is well formed: in particular `*` and `+` are only
      ever applied to something flagged HASWIDTH. */
  lemma {:induction false} ParsedP(pat: Text, pos: nat, npar: nat)
    requires pos < |pat| && 1 <= npar
    ensures var r := PPiece(pat, pos, npar); r.Ok? ==> WfP(r.val) && NumberedP(r.val, npar, r.npar)
    decreases |pat| - pos, 2
  {
    ParsedAtom(pat, pos, npar);
  }

  lemma {:induction false} ParsedAtom(pat: Text, pos: nat, npar: nat)
    requires pos < |pat| && 1 <= npar
    ensures var r := PAtom(pat, pos, npar); r.Ok? ==>
      && WfP(r.val) && NumberedP(r.val, npar, r.npar)
      && (IsMult(At(pat, r.pos)) ==> Operand(r.val))
    decreases |pat| - pos, 1
  {
    var c := pat[pos];
    if c == LBRACK {
      var p1 := ClassStart(pat, pos + 1);
      ClassHasNoNul(pat, p1 + |ClassLead(pat, p1)|);
    } else if c == LPAREN {
      if npar < NSUBEXP {
        ParsedA(pat, pos + 1, npar + 1);
      }
    } else if c == BACKSLASH {
      var d := At(pat, pos + 1);
      if d != 0 {
        MultFollowsOneChar(pat, pos + 1, -1);
      }
    } else {
      MultFollowsOneChar(pat, pos, -1);
    }
  }
}
