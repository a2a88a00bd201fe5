/** Which texts are patterns, and what each of them stands for: the notation itself, apart from
    how it is read. */
module RegexSpelling {
  import opened RegexSyntax

  /** In a bracket group: a character, or a dash and the character up to which it leads. */
  datatype Item = One(c: Byte) | To(hi: Byte)

  /** A literal character, and whether a backslash precedes it. */
  datatype Lit = Lit(escaped: bool, c: Byte)

  datatype Term =
    | Hat
    | Dollar
    | Dot
    | WordStart
    | WordEnd
    | Class(negated: bool, items: seq<Item>)
    | Letters(lits: seq<Lit>)
    | Parens(alts: Alts)
    | Mult(op: Byte, x: Term)

  datatype Terms = Nil | Cons(head: Term, tail: Terms)

  datatype Alts = Last(terms: Terms) | More(first: Terms, sep: Byte, rest: Alts)

  // ---- how it is written ----

  function ItemText(x: Item): seq<Byte> {
    match x
    case One(c) => [c]
    case To(hi) => [DASH, hi]
  }

  function ItemsText(xs: seq<Item>): seq<Byte> {
    if xs == [] then [] else ItemText(xs[0]) + ItemsText(xs[1..])
  }

  function LitText(x: Lit): (r: seq<Byte>)
    ensures r != []
  {
    if x.escaped then [BACKSLASH, x.c] else [x.c]
  }

  function LitsText(xs: seq<Lit>): seq<Byte> {
    if xs == [] then [] else LitText(xs[0]) + LitsText(xs[1..])
  }

  function TermText(x: Term): seq<Byte>
    decreases x
  {
    match x
    case Hat => [CARET]
    case Dollar => [DOLLAR]
    case Dot => [DOT]
    case WordStart => [BACKSLASH, LT]
    case WordEnd => [BACKSLASH, GT]
    case Class(negated, items) => [LBRACK] + (if negated then [CARET] else []) + ItemsText(items) + [RBRACK]
    case Letters(lits) => LitsText(lits)
    case Parens(alts) => [LPAREN] + AltsText(alts) + [RPAREN]
    case Mult(op, y) => TermText(y) + [op]
  }

  function TermsText(xs: Terms): seq<Byte>
    decreases xs
  {
    match xs
    case Nil => []
    case Cons(x, rest) => TermText(x) + TermsText(rest)
  }

  function AltsText(a: Alts): seq<Byte>
    decreases a
  {
    match a
    case Last(b) => TermsText(b)
    case More(b, sep, rest) => TermsText(b) + [sep] + AltsText(rest)
  }

  // ---- what may be written ----

  /** `]` stands for itself only where a group begins, a dash there or at its end. */
  predicate ItemAt(xs: seq<Item>, k: nat)
    requires k < |xs|
  {
    match xs[k]
    case One(c) => c != 0 && (c == RBRACK ==> k == 0) && (c == DASH ==> k == 0 || k == |xs| - 1)
    case To(hi) => k > 0 && hi != 0 && hi != RBRACK && LastChar(xs[k - 1]) <= hi
  }

  function LastChar(x: Item): Byte {
    match x
    case One(c) => c
    case To(hi) => hi
  }

  predicate ValidItems(negated: bool, xs: seq<Item>) {
    && xs != [] && (forall k :: 0 <= k < |xs| ==> ItemAt(xs, k))
    && (!negated ==> xs[0] != One(CARET))
  }

  /** With a backslash, anything but the two word boundaries; without one, anything that has
      no meaning of its own. */
  predicate ValidLit(x: Lit) {
    if x.escaped then x.c != 0 && x.c != LT && x.c != GT
    else !EndsRun(x.c) && !IsMult(x.c) && x.c != BACKSLASH
  }

  predicate ValidLits(xs: seq<Lit>) {
    xs != [] && forall k :: 0 <= k < |xs| ==> ValidLit(xs[k])
  }

  /** Whether a term matches at least one character, as far as its form tells. */
  predicate Wide(x: Term)
    decreases x
  {
    match x
    case Dot => true
    case Class(_, _) => true
    case Letters(_) => true
    case Parens(alts) => WideAlts(alts)
    case Mult(op, _) => op == PLUSCH
    case _ => false
  }

  predicate WideTerms(xs: Terms)
    decreases xs
  {
    xs.Cons? && (Wide(xs.head) || WideTerms(xs.tail))
  }

  predicate WideAlts(a: Alts)
    decreases a
  {
    match a
    case Last(b) => WideTerms(b)
    case More(b, _, rest) => WideTerms(b) && WideAlts(rest)
  }

  /** A multiplier goes after one character, a group or a single-character set, and not after
      another; `*` and `+` only after what has width. */
  predicate ValidTerm(x: Term)
    decreases x
  {
    match x
    case Class(negated, items) => ValidItems(negated, items)
    case Letters(lits) => ValidLits(lits)
    case Parens(alts) => ValidAlts(alts)
    case Mult(op, y) =>
      IsMult(op) && ValidTerm(y) && !y.Mult? && (y.Letters? ==> |y.lits| == 1) && (op != QUERY ==> Wide(y))
    case _ => true
  }

  /** Literal characters next to each other are one run. */
  predicate ValidTerms(xs: Terms)
    decreases xs
  {
    xs.Cons? ==> ValidTerm(xs.head) && ValidTerms(xs.tail) && !(xs.head.Letters? && xs.tail.Cons? && xs.tail.head.Letters?)
  }

  predicate ValidAlts(a: Alts)
    decreases a
  {
    match a
    case Last(b) => ValidTerms(b)
    case More(b, sep, rest) => ValidTerms(b) && (sep == BAR || sep == NL) && ValidAlts(rest)
  }

  // ---- what it stands for ----

  /** c is listed, or within one of the ranges. */
  ghost predicate Stands(xs: seq<Item>, c: int) {
    exists k :: 0 <= k < |xs| && Covers(xs, k, c)
  }

  predicate Covers(xs: seq<Item>, k: nat, c: int)
    requires k < |xs|
  {
    match xs[k]
    case One(d) => c == d
    case To(hi) => k > 0 && LastChar(xs[k - 1]) <= c <= hi
  }

  function Chars(xs: seq<Lit>): seq<Byte> {
    seq(|xs|, i requires 0 <= i < |xs| => xs[i].c)
  }

  function Groups(x: Term): nat
    decreases x
  {
    match x
    case Parens(alts) => 1 + GroupsAlts(alts)
    case Mult(_, y) => Groups(y)
    case _ => 0
  }

  function GroupsTerms(xs: Terms): nat
    decreases xs
  {
    match xs
    case Nil => 0
    case Cons(x, rest) => Groups(x) + GroupsTerms(rest)
  }

  function GroupsAlts(a: Alts): nat
    decreases a
  {
    match a
    case Last(b) => GroupsTerms(b)
    case More(b, _, rest) => GroupsTerms(b) + GroupsAlts(rest)
  }

  /** x is what the term stands for, its groups numbered from n in the order in which they open. */
  ghost predicate Means(t: Term, n: nat, x: Piece)
    decreases t
  {
    match t
    case Hat => x == Bol
    case Dollar => x == Eol
    case Dot => x == Any
    case WordStart => x == WordA
    case WordEnd => x == WordZ
    case Class(negated, items) =>
      && (if negated then x.AnyBut? else x.AnyOf?)
      && forall c: Byte :: c in x.chars <==> Stands(items, c)
    case Letters(lits) => x == Exact(Chars(lits))
    case Parens(alts) => x.Group? && x.no == n && MeansAlts(alts, n + 1, x.alts)
    case Mult(op, y) =>
      if op == STARCH then x.Star? && Means(y, n, x.x)
      else if op == PLUSCH then x.Plus? && Means(y, n, x.x)
      else x.Opt? && Means(y, n, x.x)
  }

  ghost predicate MeansTerms(ts: Terms, n: nat, ps: seq<Piece>)
    decreases ts
  {
    match ts
    case Nil => ps == []
    case Cons(t, rest) => ps != [] && Means(t, n, ps[0]) && MeansTerms(rest, n + Groups(t), ps[1..])
  }

  ghost predicate MeansAlts(a: Alts, n: nat, bs: seq<Branch>)
    decreases a
  {
    match a
    case Last(b) => |bs| == 1 && MeansTerms(b, n, bs[0].ps)
    case More(b, _, rest) => bs != [] && MeansTerms(b, n, bs[0].ps) && MeansAlts(rest, n + GroupsTerms(b), bs[1..])
  }

  // ---- reading bracket groups ----

  ghost predicate Has(pat: Text, p: nat, t: seq<Byte>) {
    p + |t| <= |pat| && pat[p..p + |t|] == t
  }

  lemma HasSplit(pat: Text, p: nat, t: seq<Byte>, u: seq<Byte>)
    requires Has(pat, p, t + u)
    ensures Has(pat, p, t) && Has(pat, p + |t|, u)
    ensures forall i :: 0 <= i < |t| ==> At(pat, p + i) == t[i]
  {
    assert pat[p..p + |t + u|][..|t|] == t && pat[p..p + |t + u|][|t|..] == u;
    forall i | 0 <= i < |t|
      ensures At(pat, p + i) == t[i]
    {
      assert pat[p..p + |t + u|][i] == t[i];
    }
  }

  lemma {:induction false} RangeIs(lo: int, hi: int, c: int)
    requires 0 <= lo && hi < 256
    ensures c in Range(lo, hi) <==> lo <= c <= hi
    decreases hi - lo
  {
    if lo <= hi {
      RangeIs(lo + 1, hi, c);
    }
  }

  /** What an item adds to the set. */
  predicate Adds(xs: seq<Item>, k: nat, c: int)
    requires k < |xs|
  {
    match xs[k]
    case One(d) => c == d
    case To(hi) => k > 0 && LastChar(xs[k - 1]) < c <= hi
  }

  ghost predicate AddsFrom(xs: seq<Item>, k: nat, c: int) {
    exists j :: k <= j < |xs| && Adds(xs, j, c)
  }

  ghost predicate SameSet(cs: seq<Byte>, xs: seq<Item>, k: nat) {
    forall c: int :: c in cs <==> AddsFrom(xs, k, c)
  }

  lemma AddsStep(xs: seq<Item>, k: nat, c: int)
    requires k < |xs|
    ensures AddsFrom(xs, k, c) <==> Adds(xs, k, c) || AddsFrom(xs, k + 1, c)
  {
    if AddsFrom(xs, k, c) {
      var j :| k <= j < |xs| && Adds(xs, j, c);
    }
  }

  /** A range starts with a character that is in the set anyway. */
  lemma {:induction false} CoveredIsAdded(xs: seq<Item>, k: nat, c: int)
    requires (forall i :: 0 <= i < |xs| ==> ItemAt(xs, i)) && k < |xs| && Covers(xs, k, c)
    ensures AddsFrom(xs, 0, c)
    decreases k
  {
    if !Adds(xs, k, c) {
      assert ItemAt(xs, k) && ItemAt(xs, k - 1);
      CoveredIsAdded(xs, k - 1, c);
    }
  }

  lemma StandsIffAdded(xs: seq<Item>, c: int)
    requires forall i :: 0 <= i < |xs| ==> ItemAt(xs, i)
    ensures Stands(xs, c) <==> AddsFrom(xs, 0, c)
  {
    if Stands(xs, c) {
      var k :| 0 <= k < |xs| && Covers(xs, k, c);
      CoveredIsAdded(xs, k, c);
    }
    if AddsFrom(xs, 0, c) {
      var k :| 0 <= k < |xs| && Adds(xs, k, c);
      assert Covers(xs, k, c);
    }
  }

  lemma ClassEnd(pat: Text, p: nat)
    requires At(pat, p) == RBRACK
    ensures ClassRest(pat, p) == Ok([], p, 0)
  {
  }

  lemma ClassOne(pat: Text, p: nat)
    requires var c := At(pat, p); c != 0 && c != RBRACK && (c == DASH ==> At(pat, p + 1) == RBRACK)
    requires ClassRest(pat, p + 1).Ok?
    ensures var r := ClassRest(pat, p + 1); ClassRest(pat, p) == Ok([At(pat, p)] + r.val, r.pos, 0)
  {
  }

  lemma ClassTo(pat: Text, p: nat)
    requires At(pat, p) == DASH && At(pat, p + 1) != 0 && At(pat, p + 1) != RBRACK && At(pat, p - 1) <= At(pat, p + 1)
    requires ClassRest(pat, p + 2).Ok?
    ensures var r := ClassRest(pat, p + 2); ClassRest(pat, p) == Ok(Range(At(pat, p - 1) + 1, At(pat, p + 1)) + r.val, r.pos, 0)
  {
  }

  lemma {:induction false} ReadsItems(pat: Text, p: nat, xs: seq<Item>, k: nat)
    requires (forall i :: 0 <= i < |xs| ==> ItemAt(xs, i)) && k <= |xs| && p > 0
    requires k == 0 && xs != [] ==> xs[0] != One(RBRACK) && xs[0] != One(DASH)
    requires k > 0 ==> At(pat, p - 1) == LastChar(xs[k - 1])
    requires Has(pat, p, ItemsText(xs[k..])) && At(pat, p + |ItemsText(xs[k..])|) == RBRACK
    ensures var r := ClassRest(pat, p);
      r.Ok? && r.pos == p + |ItemsText(xs[k..])| && SameSet(r.val, xs, k)
    decreases |xs| - k
  {
    hide ItemsText, SameSet, ClassRest, Range, Has;
    ItemsStep(xs[k..]);
    if k == |xs| {
      ClassEnd(pat, p);
      AddsNone(xs);
    } else {
      var x, rest := xs[k], ItemsText(xs[k + 1..]);
      assert xs[k..][1..] == xs[k + 1..] && ItemAt(xs, k);
      HasSplit(pat, p, ItemText(x), rest);
      assert At(pat, p) == At(pat, p + 0) == ItemText(x)[0];
      var q := p + |ItemText(x)|;
      ReadsItems(pat, q, xs, k + 1);
      if x.To? {
        assert At(pat, p + 1) == x.hi;
        ClassTo(pat, p);
      } else {
        if x.c == DASH { ItemsStep(xs[k + 1..]); }
        ClassOne(pat, p);
      }
      SetStep(ClassRest(pat, q).val, ClassRest(pat, p).val, xs, k);
    }
  }

  lemma SetStep(cs': seq<Byte>, cs: seq<Byte>, xs: seq<Item>, k: nat)
    requires k < |xs| && (xs[k].To? ==> k > 0) && SameSet(cs', xs, k + 1)
    requires cs == (match xs[k] case One(c) => [c] case To(hi) => Range(LastChar(xs[k - 1]) + 1, hi)) + cs'
    ensures SameSet(cs, xs, k)
  {
    hide AddsFrom, Range;
    forall c: int
      ensures c in cs <==> AddsFrom(xs, k, c)
    {
      AddsStep(xs, k, c);
      if xs[k].To? { RangeIs(LastChar(xs[k - 1]) + 1, xs[k].hi, c); }
      assert c in cs' <==> AddsFrom(xs, k + 1, c);
    }
  }

  lemma AddsNone(xs: seq<Item>)
    ensures SameSet([], xs, |xs|)
  {
  }

  lemma ItemsStep(xs: seq<Item>)
    ensures ItemsText(xs) == if xs == [] then [] else ItemText(xs[0]) + ItemsText(xs[1..])
  {
  }

  /** A bracket group is the set of what its items stand for. */
  lemma ReadsClass(pat: Text, pos: nat, npar: nat, negated: bool, items: seq<Item>)
    requires 0 < pos <= |pat| && ValidItems(negated, items)
    requires Has(pat, pos, (if negated then [CARET] else []) + ItemsText(items) + [RBRACK])
    ensures var r := PClass(pat, pos, npar);
      && r.Ok? && r.pos == pos + (if negated then 1 else 0) + |ItemsText(items)| + 1 && r.npar == npar
      && Means(Class(negated, items), npar, r.val)
  {
    hide ItemsText, SameSet, ClassRest, Has, PClass, Means, ItemAt, ClassStart, ClassLead, At;
    var p1, lead := pos + (if negated then 1 else 0), Lead(items);
    ClassHead(pat, pos, negated, items);
    ReadsItems(pat, p1 + |lead|, items, |lead|);
    ClassIs(pat, pos, npar, lead);
    var cs, chars := ClassRest(pat, p1 + |lead|).val, PClass(pat, pos, npar).val.chars;
    if lead == [] {
      assert chars == cs;
    } else {
      SetStep(cs, chars, items, 0);
    }
    MeansClass(negated, items, npar, PClass(pat, pos, npar).val);
  }

  function Lead(items: seq<Item>): seq<Byte>
    requires items != []
  {
    if items[0] == One(RBRACK) || items[0] == One(DASH) then [items[0].c] else []
  }

  /** How a bracket group begins. */
  lemma ClassHead(pat: Text, pos: nat, negated: bool, items: seq<Item>)
    requires 0 < pos <= |pat| && ValidItems(negated, items)
    requires Has(pat, pos, (if negated then [CARET] else []) + ItemsText(items) + [RBRACK])
    ensures var p1, lead := pos + (if negated then 1 else 0), Lead(items); var k := |lead|; var t := ItemsText(items[k..]);
      && ClassStart(pat, pos) == p1 && ClassLead(pat, p1) == lead && |ItemsText(items)| == k + |t|
      && Has(pat, p1 + k, t) && At(pat, p1 + k + |t|) == RBRACK && (negated <==> At(pat, pos) == CARET)
      && (k > 0 ==> At(pat, p1 + k - 1) == LastChar(items[k - 1]))
  {
    hide ItemsText, Has;
    ClassParts(pat, pos, negated, items);
    var p1 := pos + (if negated then 1 else 0);
    ItemsStep(items);
    assert items[0..] == items && ItemAt(items, 0);
    HasSplit(pat, p1, ItemText(items[0]), ItemsText(items[1..]));
    assert At(pat, p1 + 0) == ItemText(items[0])[0] == items[0].c;
  }

  lemma ClassParts(pat: Text, pos: nat, negated: bool, items: seq<Item>)
    requires Has(pat, pos, (if negated then [CARET] else []) + ItemsText(items) + [RBRACK])
    ensures var p1, t := pos + (if negated then 1 else 0), ItemsText(items);
      Has(pat, p1, t) && At(pat, p1 + |t|) == RBRACK && (negated ==> At(pat, pos) == CARET)
  {
    hide ItemsText, Has;
    var front, body := if negated then [CARET] else [], ItemsText(items);
    HasSplit(pat, pos, front + body, [RBRACK]);
    HasSplit(pat, pos, front, body);
    assert At(pat, pos + |front + body| + 0) == RBRACK;
    assert negated ==> At(pat, pos + 0) == CARET;
  }

  lemma ClassIs(pat: Text, pos: nat, npar: nat, lead: seq<Byte>)
    requires pos <= |pat|
    requires var p1 := ClassStart(pat, pos); ClassLead(pat, p1) == lead && ClassRest(pat, p1 + |lead|).Ok?
    requires At(pat, ClassRest(pat, ClassStart(pat, pos) + |lead|).pos) == RBRACK
    ensures var r, q := PClass(pat, pos, npar), ClassRest(pat, ClassStart(pat, pos) + |lead|);
      && r.Ok? && r.pos == q.pos + 1 && r.npar == npar
      && r.val == if At(pat, pos) == CARET then AnyBut(lead + q.val) else AnyOf(lead + q.val)
  {
    hide ClassRest, ClassLead;
    ClassRestAdvances(pat, ClassStart(pat, pos) + |lead|);
  }

  lemma MeansClass(negated: bool, items: seq<Item>, n: nat, x: Piece)
    requires if negated then x.AnyBut? else x.AnyOf?
    requires SameSet(x.chars, items, 0) && forall i :: 0 <= i < |items| ==> ItemAt(items, i)
    ensures Means(Class(negated, items), n, x)
  {
    hide Stands, AddsFrom;
    forall c: int
      ensures Stands(items, c) <==> AddsFrom(items, 0, c)
    {
      StandsIffAdded(items, c);
    }
  }

  // ---- reading literals ----

  /** A literal character at q with a multiplier of its own. */
  predicate LoneChar(pat: Text, q: nat) {
    var c, d := At(pat, q), At(pat, q + 1);
    if c == BACKSLASH then d != 0 && d != LT && d != GT && IsMult(At(pat, q + 2))
    else !EndsRun(c) && !IsMult(c) && IsMult(d)
  }

  /** What may come after a run of literal characters. */
  predicate StopsRun(pat: Text, q: nat) {
    var c, d := At(pat, q), At(pat, q + 1);
    EndsRun(c) || (c == BACKSLASH && (d == 0 || d == LT || d == GT)) || LoneChar(pat, q)
  }

  lemma LitsStep(xs: seq<Lit>)
    ensures LitsText(xs) == if xs == [] then [] else LitText(xs[0]) + LitsText(xs[1..])
  {
  }

  lemma HasLit(pat: Text, p: nat, lits: seq<Lit>)
    requires lits != [] && Has(pat, p, LitsText(lits))
    ensures var q := if lits[0].escaped then p + 1 else p;
      && At(pat, q) == lits[0].c && (lits[0].escaped ==> At(pat, p) == BACKSLASH) && Has(pat, q + 1, LitsText(lits[1..]))
      && |LitsText(lits)| == q + 1 - p + |LitsText(lits[1..])|
  {
    hide LitsText, Has;
    LitsStep(lits);
    HasSplit(pat, p, LitText(lits[0]), LitsText(lits[1..]));
    assert At(pat, p + 0) == LitText(lits[0])[0];
  }

  /** p is where the first character itself is, after its backslash if it has one. */
  lemma {:induction false} ReadsRun(pat: Text, p: nat, prev: int, lits: seq<Lit>)
    requires ValidLits(lits) && (prev == -1 || 0 <= prev <= p) && p < |pat|
    requires At(pat, p) == lits[0].c && Has(pat, p + 1, LitsText(lits[1..]))
    requires var e := p + 1 + |LitsText(lits[1..])|; StopsRun(pat, e) || (|lits| == 1 && prev == -1 && IsMult(At(pat, e)))
    ensures var r := RunFrom(pat, p, prev); r.str == Chars(lits) && r.pos == p + 1 + |LitsText(lits[1..])|
    decreases |lits|
  {
    hide LitsText, RunFrom, Has, StopsRun;
    var rest := lits[1..];
    if rest == [] {
      LitsStep(rest);
      RunEnds(pat, p, prev);
    } else {
      HasLit(pat, p + 1, rest);
      assert ValidLit(lits[1]) && rest[0] == lits[1];
      assert ValidLits(rest) by { assert forall k :: 0 <= k < |rest| ==> rest[k] == lits[k + 1]; }
      RunGoesOn(pat, p, prev);
      ReadsRun(pat, if rest[0].escaped then p + 2 else p + 1, p + 1, rest);
      assert Chars(lits) == [lits[0].c] + Chars(rest);
    }
  }

  lemma RunEnds(pat: Text, p: nat, prev: int)
    requires p < |pat| && (prev == -1 || 0 <= prev <= p) && (StopsRun(pat, p + 1) || (prev == -1 && IsMult(At(pat, p + 1))))
    ensures RunFrom(pat, p, prev).str == [pat[p]] && RunFrom(pat, p, prev).pos == p + 1
  {
  }

  lemma RunGoesOn(pat: Text, p: nat, prev: int)
    requires p < |pat| && (prev == -1 || 0 <= prev <= p)
    requires var c, d := At(pat, p + 1), At(pat, p + 2);
      if c == BACKSLASH then d != 0 && d != LT && d != GT else !EndsRun(c) && !IsMult(c)
    ensures var q := if At(pat, p + 1) == BACKSLASH then p + 2 else p + 1;
      && q < |pat| && RunFrom(pat, p, prev).str == [pat[p]] + RunFrom(pat, q, p + 1).str
      && RunFrom(pat, p, prev).pos == RunFrom(pat, q, p + 1).pos
  {
  }

  // ---- reading terms ----

  lemma {:induction false} MeansWidth(t: Term, n: nat, x: Piece)
    requires Means(t, n, x)
    ensures WidthP(x) == Wide(t)
    decreases t
  {
    if t.Parens? { MeansWidthAlts(t.alts, n + 1, x.alts); }
  }

  lemma {:induction false} MeansWidthTerms(ts: Terms, n: nat, ps: seq<Piece>)
    requires MeansTerms(ts, n, ps)
    ensures WidthB(ps) == WideTerms(ts)
    decreases ts
  {
    if ts.Cons? {
      MeansWidth(ts.head, n, ps[0]);
      MeansWidthTerms(ts.tail, n + Groups(ts.head), ps[1..]);
    }
  }

  lemma {:induction false} MeansWidthAlts(a: Alts, n: nat, bs: seq<Branch>)
    requires MeansAlts(a, n, bs)
    ensures WidthA(bs) == WideAlts(a)
    decreases a
  {
    match a
    case Last(b) =>
      MeansWidthTerms(b, n, bs[0].ps);
      assert bs[1..] == [];
    case More(b, _, rest) =>
      MeansWidthTerms(b, n, bs[0].ps);
      MeansWidthAlts(rest, n + GroupsTerms(b), bs[1..]);
  }

  /** No term begins with what ends a branch, or with a multiplier. */
  lemma {:induction false} FirstChar(x: Term)
    requires ValidTerm(x)
    ensures TermText(x) != [] && !EndsBranch(TermText(x)[0]) && !IsMult(TermText(x)[0])
    decreases x
  {
    match x
    case Letters(lits) => LitsStep(lits); assert ValidLit(lits[0]);
    case Mult(_, y) => FirstChar(y);
    case _ =>
  }

  /** What follows a run of literals in a branch stops it. */
  lemma Following(pat: Text, q: nat, rest: Terms)
    requires ValidTerms(rest) && !(rest.Cons? && rest.head.Letters?)
    requires Has(pat, q, TermsText(rest)) && EndsBranch(At(pat, q + |TermsText(rest)|))
    ensures StopsRun(pat, q)
  {
    if rest.Cons? {
      HasSplit(pat, q, TermText(rest.head), TermsText(rest.tail));
      Stops(pat, q, rest.head);
    }
  }

  /** The first character of a term that has one of its own. */
  function Head(x: Term): Byte
    requires !x.Letters? && !x.Mult?
  {
    match x
    case Hat => CARET
    case Dollar => DOLLAR
    case Dot => DOT
    case Class(_, _) => LBRACK
    case Parens(_) => LPAREN
    case _ => BACKSLASH
  }

  lemma HasHead(pat: Text, q: nat, x: Term)
    requires !x.Letters? && !x.Mult? && Has(pat, q, TermText(x))
    ensures At(pat, q) == Head(x) && (x.WordStart? ==> At(pat, q + 1) == LT) && (x.WordEnd? ==> At(pat, q + 1) == GT)
    ensures x.Class? ==> Has(pat, q + 1, (if x.negated then [CARET] else []) + ItemsText(x.items) + [RBRACK])
    ensures x.Parens? ==>
      var e := q + 1 + |AltsText(x.alts)|; Has(pat, q + 1, AltsText(x.alts)) && At(pat, e) == RPAREN && e + 1 == q + |TermText(x)|
  {
    hide Has, ItemsText, AltsText, LitsText;
    var t := TermText(x);
    var inner := t[1..];
    assert t == [Head(x)] + inner;
    HasSplit(pat, q, [Head(x)], inner);
    assert At(pat, q + 0) == Head(x);
    if x.Class? {
      assert inner == (if x.negated then [CARET] else []) + ItemsText(x.items) + [RBRACK];
    } else if x.Parens? {
      assert inner == AltsText(x.alts) + [RPAREN];
      HasSplit(pat, q + 1, AltsText(x.alts), [RPAREN]);
      assert At(pat, q + 1 + |AltsText(x.alts)| + 0) == RPAREN;
    } else if x.WordStart? || x.WordEnd? {
      assert inner == inner + [];
      HasSplit(pat, q + 1, inner, []);
      assert At(pat, q + 1 + 0) == inner[0];
    }
  }

  lemma Stops(pat: Text, q: nat, x: Term)
    requires ValidTerm(x) && !x.Letters? && Has(pat, q, TermText(x))
    ensures StopsRun(pat, q)
  {
    hide Has, LitsText;
    if x.Mult? {
      var y := x.x;
      HasSplit(pat, q, TermText(y), [x.op]);
      if y.Letters? {
        HasLit(pat, q, y.lits);
        LitsStep(y.lits[1..]);
        assert ValidLit(y.lits[0]);
        assert At(pat, q + |LitsText(y.lits)| + 0) == x.op;
      } else {
        HasHead(pat, q, y);
      }
    } else {
      HasHead(pat, q, x);
    }
  }

  /** regatom on a term without a multiplier. */
  lemma {:induction false} ReadsAtom(pat: Text, pos: nat, x: Term, n: nat)
    requires ValidTerm(x) && !x.Mult? && 1 <= n && n + Groups(x) <= NSUBEXP && Has(pat, pos, TermText(x)) && pos < |pat|
    requires var e := pos + |TermText(x)|; x.Letters? ==> StopsRun(pat, e) || (|x.lits| == 1 && IsMult(At(pat, e)))
    ensures var r := PAtom(pat, pos, n);
      r.Ok? && r.pos == pos + |TermText(x)| && r.npar == n + Groups(x) && Means(x, n, r.val)
    decreases x, 1
  {
    hide Has, LitsText, ItemsText, RunFrom, StopsRun, AltsText, PClass, PAlts;
    if x.Letters? {
      HasLit(pat, pos, x.lits);
      assert ValidLit(x.lits[0]);
      ReadsRun(pat, if x.lits[0].escaped then pos + 1 else pos, -1, x.lits);
    } else {
      HasHead(pat, pos, x);
      if x.Class? {
        ReadsClass(pat, pos + 1, n, x.negated, x.items);
      } else if x.Parens? {
        ReadsAlts(pat, pos + 1, x.alts, n + 1);
      }
    }
  }

  /** regpiece on a term. */
  lemma {:induction false} ReadsTerm(pat: Text, pos: nat, x: Term, n: nat)
    requires ValidTerm(x) && 1 <= n && n + Groups(x) <= NSUBEXP && Has(pat, pos, TermText(x)) && pos < |pat|
    requires var e := pos + |TermText(x)|; !IsMult(At(pat, e)) && (x.Letters? ==> StopsRun(pat, e))
    ensures var r := PPiece(pat, pos, n);
      r.Ok? && r.pos == pos + |TermText(x)| && r.npar == n + Groups(x) && Means(x, n, r.val)
    decreases x, 2
  {
    hide Has, PAtom, StopsRun;
    if x.Mult? {
      HasSplit(pat, pos, TermText(x.x), [x.op]);
      assert At(pat, pos + |TermText(x.x)| + 0) == x.op;
      ReadsAtom(pat, pos, x.x, n);
      MeansWidth(x.x, n, PAtom(pat, pos, n).val);
    } else {
      ReadsAtom(pat, pos, x, n);
    }
  }

  lemma StartsTerm(pat: Text, pos: nat, xs: Terms)
    requires ValidTerms(xs) && Has(pat, pos, TermsText(xs)) && xs.Cons?
    ensures !EndsBranch(At(pat, pos)) && !IsMult(At(pat, pos)) && pos < |pat|
    ensures Has(pat, pos, TermText(xs.head)) && Has(pat, pos + |TermText(xs.head)|, TermsText(xs.tail))
  {
    hide Has, TermText;
    HasSplit(pat, pos, TermText(xs.head), TermsText(xs.tail));
    FirstChar(xs.head);
    assert At(pat, pos + 0) == TermText(xs.head)[0];
  }

  /** regbranch on a branch. */
  lemma {:induction false} ReadsTerms(pat: Text, pos: nat, xs: Terms, n: nat)
    requires ValidTerms(xs) && 1 <= n && n + GroupsTerms(xs) <= NSUBEXP && Has(pat, pos, TermsText(xs))
    requires EndsBranch(At(pat, pos + |TermsText(xs)|))
    ensures var r := PBranch(pat, pos, n);
      r.Ok? && r.pos == pos + |TermsText(xs)| && r.npar == n + GroupsTerms(xs) && MeansTerms(xs, n, r.val)
    decreases xs, 0
  {
    hide Has, PPiece, StopsRun, TermText, Means, At, EndsBranch, IsMult;
    assert forall c :: EndsBranch(c) ==> !IsMult(c) by { EndsAreNot(); }
    if xs.Cons? {
      var t := TermText(xs.head);
      StartsTerm(pat, pos, xs);
      if xs.tail.Cons? { StartsTerm(pat, pos + |t|, xs.tail); }
      if xs.head.Letters? { Following(pat, pos + |t|, xs.tail); }
      ReadsTerm(pat, pos, xs.head, n);
      ReadsTerms(pat, pos + |t|, xs.tail, n + Groups(xs.head));
    }
  }

  lemma EndsAreNot()
    ensures forall c :: EndsBranch(c) ==> !IsMult(c)
  {
  }

  lemma HasMore(pat: Text, pos: nat, b: Terms, sep: Byte, rest: Alts)
    requires Has(pat, pos, AltsText(More(b, sep, rest)))
    ensures var e := pos + |TermsText(b)|;
      && Has(pat, pos, TermsText(b)) && At(pat, e) == sep && Has(pat, e + 1, AltsText(rest)) && e < |pat|
      && e + 1 + |AltsText(rest)| == pos + |AltsText(More(b, sep, rest))|
  {
    hide TermsText;
    var t, u := TermsText(b), AltsText(rest);
    assert AltsText(More(b, sep, rest)) == t + ([sep] + u);
    HasSplit(pat, pos, t, [sep] + u);
    HasSplit(pat, pos + |t|, [sep], u);
    assert At(pat, pos + |t| + 0) == sep;
  }

  /** The alternatives, up to what closes them. */
  lemma {:induction false} ReadsAlts(pat: Text, pos: nat, a: Alts, n: nat)
    requires ValidAlts(a) && 1 <= n && n + GroupsAlts(a) <= NSUBEXP && Has(pat, pos, AltsText(a)) && pos <= |pat|
    requires At(pat, pos + |AltsText(a)|) == RPAREN || At(pat, pos + |AltsText(a)|) == 0
    ensures var r := PAlts(pat, pos, n);
      r.Ok? && r.pos == pos + |AltsText(a)| && r.npar == n + GroupsAlts(a) && MeansAlts(a, n, r.val)
    decreases a, 0
  {
    hide Has, PBranch, TermsText, MeansTerms;
    match a
    case Last(b) => ReadsTerms(pat, pos, b, n);
    case More(b, sep, rest) =>
      HasMore(pat, pos, b, sep, rest);
      ReadsTerms(pat, pos, b, n);
      ReadsAlts(pat, pos + |TermsText(b)| + 1, rest, n + GroupsTerms(b));
  }

  // ---- everything that is read is spelled so ----

  /** What may follow in a bracket group after prev. */
  predicate ValidRest(prev: Byte, ys: seq<Item>)
    decreases |ys|
  {
    ys != [] ==>
      && ValidRest(LastChar(ys[0]), ys[1..])
      && match ys[0]
         case One(c) => c != 0 && c != RBRACK && (c == DASH ==> |ys| == 1)
         case To(hi) => hi != 0 && hi != RBRACK && prev <= hi
  }

  lemma {:induction false} RestAt(prev: Byte, ys: seq<Item>, k: nat)
    requires ValidRest(prev, ys) && k < |ys|
    ensures match ys[k]
      case One(c) => c != 0 && c != RBRACK && (c == DASH ==> k == |ys| - 1)
      case To(hi) => hi != 0 && hi != RBRACK && (if k == 0 then prev else LastChar(ys[k - 1])) <= hi
    decreases k
  {
    if k > 0 {
      RestAt(LastChar(ys[0]), ys[1..], k - 1);
    }
  }

  lemma HasJoin(pat: Text, p: nat, t: seq<Byte>, u: seq<Byte>)
    requires Has(pat, p, t) && Has(pat, p + |t|, u)
    ensures Has(pat, p, t + u)
  {
    assert pat[p..p + |t + u|] == pat[p..p + |t|] + pat[p + |t|..p + |t| + |u|];
  }

  lemma {:induction false} SpelledItems(pat: Text, p: nat) returns (ys: seq<Item>)
    requires p > 0 && ClassRest(pat, p).Ok? && At(pat, ClassRest(pat, p).pos) == RBRACK
    ensures ValidRest(At(pat, p - 1), ys) && Has(pat, p, ItemsText(ys)) && p + |ItemsText(ys)| == ClassRest(pat, p).pos
    ensures ys != [] && ys[0].To? ==> At(pat, p) == DASH
    ensures ys == [] ==> At(pat, p) == RBRACK
    decreases |pat| - p
  {
    hide Has, ItemsText;
    var c := At(pat, p);
    ys := [];
    if c == RBRACK {
      ItemsStep([]);
      HasNothing(pat, p);
    } else {
      var d := At(pat, p + 1);
      var x := if c == DASH && d != RBRACK && d != 0 then To(d) else One(c);
      var q := p + |ItemText(x)|;
      ClassGoesOn(pat, p);
      var rest := SpelledItems(pat, q);
      ys := [x] + rest;
      assert ys[1..] == rest;
      ItemsStep(ys);
      HasItem(pat, p, x);
      HasJoin(pat, p, ItemText(x), ItemsText(rest));
      if x == One(DASH) { ItemsStep(rest); NothingMore(pat, q, rest); }
    }
  }

  lemma NothingMore(pat: Text, q: nat, rest: seq<Item>)
    requires At(pat, q) == RBRACK && ClassRest(pat, q).Ok? && q + |ItemsText(rest)| == ClassRest(pat, q).pos
    ensures rest == []
  {
    ItemsStep(rest);
  }

  lemma ClassGoesOn(pat: Text, p: nat)
    requires ClassRest(pat, p).Ok? && At(pat, p) != RBRACK && At(pat, ClassRest(pat, p).pos) == RBRACK
    ensures At(pat, p) != 0
    ensures var c, d := At(pat, p), At(pat, p + 1); var to := c == DASH && d != RBRACK && d != 0;
      var q := if to then p + 2 else p + 1;
      && ClassRest(pat, q).Ok? && ClassRest(pat, q).pos == ClassRest(pat, p).pos
      && (to ==> At(pat, p - 1) <= d) && (c == DASH && !to ==> d == RBRACK)
  {
  }

  lemma HasNothing(pat: Text, p: nat)
    requires At(pat, p) != 0
    ensures Has(pat, p, [])
  {
  }

  lemma HasItem(pat: Text, p: nat, x: Item)
    requires match x
      case One(c) => c != 0 && At(pat, p) == c
      case To(hi) => hi != 0 && At(pat, p) == DASH && At(pat, p + 1) == hi
    ensures Has(pat, p, ItemText(x))
  {
  }

  lemma SpelledClass(pat: Text, pos: nat, npar: nat) returns (x: Term)
    requires 0 < pos <= |pat| && PClass(pat, pos, npar).Ok?
    ensures x.Class? && ValidTerm(x) && Groups(x) == 0
    ensures Has(pat, pos, (if x.negated then [CARET] else []) + ItemsText(x.items) + [RBRACK])
    ensures PClass(pat, pos, npar).pos + 1 == pos + |TermText(x)|
  {
    hide Has, ItemsText, ClassRest, ClassLead, ValidRest, ItemAt, PClass;
    var negated := At(pat, pos) == CARET;
    var p1 := ClassStart(pat, pos);
    var lead := ClassLead(pat, p1);
    ClassIsRead(pat, pos, npar);
    LeadIs(pat, p1);
    var ys := SpelledItems(pat, p1 + |lead|);
    var items := if lead == [] then ys else [One(lead[0])] + ys;
    ItemsFit(lead, At(pat, p1 - 1), ys);
    if lead != [] {
      assert items[1..] == ys;
      ItemsStep(items);
      HasItem(pat, p1, One(lead[0]));
      HasJoin(pat, p1, lead, ItemsText(ys));
    }
    ClassJoin(pat, pos, negated, items);
    x := Class(negated, items);
    if !negated { NotCaret(pat, pos, items); }
  }

  lemma ClassIsRead(pat: Text, pos: nat, npar: nat)
    requires pos <= |pat| && PClass(pat, pos, npar).Ok?
    ensures var p1 := ClassStart(pat, pos); var r := ClassRest(pat, p1 + |ClassLead(pat, p1)|);
      r.Ok? && At(pat, r.pos) == RBRACK && PClass(pat, pos, npar).pos == r.pos + 1
  {
    hide ClassRest, ClassLead;
  }

  lemma LeadIs(pat: Text, p: nat)
    ensures var lead := ClassLead(pat, p);
      if lead == [] then At(pat, p) != DASH && At(pat, p) != RBRACK
      else lead == [At(pat, p)] && (lead == [DASH] || lead == [RBRACK])
  {
  }

  lemma ItemsFit(lead: seq<Byte>, prev: Byte, ys: seq<Item>)
    requires lead == [] || lead == [DASH] || lead == [RBRACK]
    requires ValidRest(if lead == [] then prev else lead[0], ys) && (lead == [] ==> ys != [] && ys[0].One?)
    ensures var items := if lead == [] then ys else [One(lead[0])] + ys; forall k :: 0 <= k < |items| ==> ItemAt(items, k)
  {
    hide ValidRest;
    var items := if lead == [] then ys else [One(lead[0])] + ys;
    forall k | 0 <= k < |items|
      ensures ItemAt(items, k)
    {
      if lead == [] { RestAt(prev, ys, k); } else if k > 0 { RestAt(lead[0], ys, k - 1); }
    }
  }

  lemma ClassJoin(pat: Text, pos: nat, negated: bool, items: seq<Item>)
    requires (negated ==> At(pat, pos) == CARET) && pos <= |pat|
    requires var p1, t := pos + (if negated then 1 else 0), ItemsText(items); Has(pat, p1, t) && At(pat, p1 + |t|) == RBRACK
    ensures Has(pat, pos, (if negated then [CARET] else []) + ItemsText(items) + [RBRACK])
  {
    hide ItemsText, Has, At;
    var t := ItemsText(items);
    HasItem(pat, pos + (if negated then 1 else 0) + |t|, One(RBRACK));
    if negated {
      HasItem(pat, pos, One(CARET));
      HasJoin(pat, pos, [CARET], t);
      HasJoin(pat, pos, [CARET] + t, [RBRACK]);
    } else {
      HasJoin(pat, pos, t, [RBRACK]);
      assert [] + t + [RBRACK] == t + [RBRACK];
    }
  }

  lemma NotCaret(pat: Text, p: nat, items: seq<Item>)
    requires items != [] && Has(pat, p, ItemsText(items)) && At(pat, p) != CARET
    ensures items[0] != One(CARET)
  {
    hide Has, ItemsText;
    ItemsStep(items);
    HasSplit(pat, p, ItemText(items[0]), ItemsText(items[1..]));
    assert At(pat, p + 0) == ItemText(items[0])[0];
  }

  /** s is where the current character begins, p where it is itself; lits is empty when a
      multiplier takes it away from a longer run. */
  lemma {:induction false} SpelledRun(pat: Text, s: nat, p: nat, prev: int) returns (lits: seq<Lit>)
    requires p < |pat| && (p == s || (p == s + 1 && At(pat, s) == BACKSLASH)) && ValidLit(Lit(p > s, pat[p]))
    requires prev == -1 || prev == s
    ensures forall k :: 0 <= k < |lits| ==> ValidLit(lits[k])
    ensures Has(pat, s, LitsText(lits)) && s + |LitsText(lits)| == RunFrom(pat, p, prev).pos
    ensures var e := RunFrom(pat, p, prev).pos; StopsRun(pat, e) || (|lits| == 1 && prev == -1 && IsMult(At(pat, e)))
    ensures prev == -1 ==> lits != []
    decreases |pat| - p
  {
    hide Has, LitsText;
    var x := Lit(p > s, pat[p]);
    var c, d := At(pat, p + 1), At(pat, p + 2);
    HasLitHere(pat, s, p);
    LitsStep([]);
    if !EndsRun(c) && IsMult(c) && prev != -1 {
      HasNothing(pat, s);
      lits := [];
    } else if EndsRun(c) || IsMult(c) || (c == BACKSLASH && (d == 0 || d == LT || d == GT)) {
      lits := [x];
      LitsStep(lits);
      assert lits[1..] == [] && LitText(x) + [] == LitText(x);
    } else {
      var q := if c == BACKSLASH then p + 2 else p + 1;
      var rest := SpelledRun(pat, p + 1, q, p + 1);
      lits := [x] + rest;
      assert lits[1..] == rest;
      LitsStep(lits);
      HasJoin(pat, s, LitText(x), LitsText(rest));
    }
  }

  lemma HasLitHere(pat: Text, s: nat, p: nat)
    requires p < |pat| && (p == s || (p == s + 1 && At(pat, s) == BACKSLASH))
    ensures Has(pat, s, LitText(Lit(p > s, pat[p]))) && |LitText(Lit(p > s, pat[p]))| == p + 1 - s
  {
  }

  lemma HasTerm(pat: Text, pos: nat, x: Term)
    requires x.Hat? || x.Dollar? || x.Dot? || x.WordStart? || x.WordEnd?
    requires pos < |pat| && pat[pos] == Head(x) && (x.WordStart? ==> At(pat, pos + 1) == LT) && (x.WordEnd? ==> At(pat, pos + 1) == GT)
    ensures Has(pat, pos, TermText(x))
  {
  }

  lemma HasClass(pat: Text, pos: nat, x: Term)
    requires x.Class? && At(pat, pos) == LBRACK
    requires Has(pat, pos + 1, (if x.negated then [CARET] else []) + ItemsText(x.items) + [RBRACK])
    ensures Has(pat, pos, TermText(x))
  {
    hide Has, ItemsText;
    var inner := (if x.negated then [CARET] else []) + ItemsText(x.items) + [RBRACK];
    HasItem(pat, pos, One(LBRACK));
    HasJoin(pat, pos, [LBRACK], inner);
    assert TermText(x) == [LBRACK] + inner;
  }

  lemma HasParens(pat: Text, pos: nat, a: Alts)
    requires At(pat, pos) == LPAREN && Has(pat, pos + 1, AltsText(a)) && At(pat, pos + 1 + |AltsText(a)|) == RPAREN
    ensures Has(pat, pos, TermText(Parens(a))) && |TermText(Parens(a))| == |AltsText(a)| + 2
  {
    hide Has, AltsText;
    HasItem(pat, pos, One(LPAREN));
    HasItem(pat, pos + 1 + |AltsText(a)|, One(RPAREN));
    HasJoin(pat, pos, [LPAREN], AltsText(a));
    HasJoin(pat, pos, [LPAREN] + AltsText(a), [RPAREN]);
  }

  lemma {:induction false} SpelledAtom(pat: Text, pos: nat, n: nat) returns (x: Term)
    requires pos < |pat| && 1 <= n <= NSUBEXP && PAtom(pat, pos, n).Ok?
    ensures ValidTerm(x) && !x.Mult? && Has(pat, pos, TermText(x))
    ensures var r := PAtom(pat, pos, n);
      && r.pos == pos + |TermText(x)| && r.npar == n + Groups(x) <= NSUBEXP
      && (x.Letters? ==> StopsRun(pat, r.pos) || (|x.lits| == 1 && IsMult(At(pat, r.pos)))) && (x.Letters? <==> r.val.Exact?)
    decreases |pat| - pos, 1
  {
    hide Has, LitsText, ItemsText, AltsText, StopsRun, RunFrom, PClass, PAlts;
    var c := pat[pos];
    if c == CARET || c == DOLLAR || c == DOT {
      x := if c == CARET then Hat else if c == DOLLAR then Dollar else Dot;
      HasTerm(pat, pos, x);
    } else if c == LBRACK {
      x := SpelledClass(pat, pos + 1, n);
      HasClass(pat, pos, x);
    } else if c == LPAREN {
      var a := SpelledAlts(pat, pos + 1, n + 1);
      x := Parens(a);
      HasParens(pat, pos, a);
    } else if c == BACKSLASH && (At(pat, pos + 1) == LT || At(pat, pos + 1) == GT) {
      x := if At(pat, pos + 1) == LT then WordStart else WordEnd;
      HasTerm(pat, pos, x);
    } else {
      var lits := SpelledRun(pat, pos, if c == BACKSLASH then pos + 1 else pos, -1);
      x := Letters(lits);
    }
  }

  lemma {:induction false} SpelledTerm(pat: Text, pos: nat, n: nat) returns (x: Term)
    requires pos < |pat| && 1 <= n <= NSUBEXP && PPiece(pat, pos, n).Ok?
    ensures ValidTerm(x) && Has(pat, pos, TermText(x))
    ensures var r := PPiece(pat, pos, n);
      && r.pos == pos + |TermText(x)| && r.npar == n + Groups(x) <= NSUBEXP && !IsMult(At(pat, r.pos))
      && (x.Letters? ==> StopsRun(pat, r.pos)) && (x.Letters? <==> r.val.Exact?)
    decreases |pat| - pos, 2
  {
    hide Has, PAtom, TermText, Means;
    var a := PAtom(pat, pos, n);
    x := SpelledAtom(pat, pos, n);
    var op := At(pat, a.pos);
    if IsMult(op) {
      ReadsAtom(pat, pos, x, n);
      MeansWidth(x, n, a.val);
      HasItem(pat, a.pos, One(op));
      HasJoin(pat, pos, TermText(x), [op]);
      var y := x;
      x := Mult(op, y);
      assert TermText(x) == TermText(y) + [op] by { MultText(op, y); }
    }
  }

  lemma MultText(op: Byte, y: Term)
    ensures TermText(Mult(op, y)) == TermText(y) + [op]
  {
  }

  /** After a run that has been stopped, no other run begins. */
  lemma NoRunNext(pat: Text, q: nat, n: nat)
    requires StopsRun(pat, q) && q < |pat| && !EndsBranch(At(pat, q)) && PPiece(pat, q, n).Ok?
    ensures !PPiece(pat, q, n).val.Exact?
  {
    hide PClass, PReg;
  }

  lemma {:induction false} SpelledTerms(pat: Text, pos: nat, n: nat) returns (xs: Terms)
    requires pos <= |pat| && 1 <= n <= NSUBEXP && PBranch(pat, pos, n).Ok?
    ensures ValidTerms(xs) && Has(pat, pos, TermsText(xs))
    ensures var r := PBranch(pat, pos, n);
      && r.pos == pos + |TermsText(xs)| && r.npar == n + GroupsTerms(xs) <= NSUBEXP && EndsBranch(At(pat, r.pos))
    ensures xs.Cons? && xs.head.Letters? ==> pos < |pat| && !EndsBranch(At(pat, pos)) && PPiece(pat, pos, n).Ok? && PPiece(pat, pos, n).val.Exact?
    decreases |pat| - pos, 3
  {
    hide Has, PPiece, TermText, StopsRun;
    if EndsBranch(At(pat, pos)) {
      xs := Nil;
      assert Has(pat, pos, []) by { HasEmpty(pat, pos); }
    } else {
      var p := PPiece(pat, pos, n);
      var x := SpelledTerm(pat, pos, n);
      var rest := SpelledTerms(pat, p.pos, p.npar);
      xs := Cons(x, rest);
      HasJoin(pat, pos, TermText(x), TermsText(rest));
      if x.Letters? && rest.Cons? && rest.head.Letters? { NoRunNext(pat, p.pos, p.npar); }
    }
  }

  lemma HasEmpty(pat: Text, p: nat)
    requires p <= |pat|
    ensures Has(pat, p, [])
  {
  }

  lemma {:induction false} SpelledAlts(pat: Text, pos: nat, n: nat) returns (a: Alts)
    requires pos <= |pat| && 1 <= n <= NSUBEXP && PAlts(pat, pos, n).Ok?
    ensures ValidAlts(a) && Has(pat, pos, AltsText(a))
    ensures var r := PAlts(pat, pos, n); r.pos == pos + |AltsText(a)| && r.npar == n + GroupsAlts(a) <= NSUBEXP
    decreases |pat| - pos, 4
  {
    hide Has, PBranch, TermsText;
    var b := PBranch(pat, pos, n);
    var xs := SpelledTerms(pat, pos, n);
    var sep := At(pat, b.pos);
    if sep == BAR || sep == NL {
      var rest := SpelledAlts(pat, b.pos + 1, b.npar);
      a := More(xs, sep, rest);
      HasItem(pat, b.pos, One(sep));
      HasJoin(pat, pos, TermsText(xs), [sep]);
      HasJoin(pat, pos, TermsText(xs) + [sep], AltsText(rest));
    } else {
      a := Last(xs);
    }
  }

  // ---- the whole pattern ----

  /** The text is a pattern spelled like a. */
  ghost predicate Spells(a: Alts, pat: Text) {
    ValidAlts(a) && AltsText(a) == pat && GroupsAlts(a) < NSUBEXP
  }

  /** Reading a pattern gives what its spelling stands for. */
  lemma ReadsPattern(pat: Text, a: Alts)
    requires Spells(a, pat)
    ensures var r := PReg(pat, 0, 1, false); r.Ok? && r.pos == |pat| && MeansAlts(a, 1, r.val)
  {
    hide PAlts, MeansAlts, AltsText, ValidAlts;
    assert pat[0..|pat|] == pat && Has(pat, 0, AltsText(a));
    ReadsAlts(pat, 0, a, 1);
  }

  /** A text is read if and only if it is a pattern. */
  lemma PatternIff(pat: Text)
    ensures PReg(pat, 0, 1, false).Ok? <==> exists a :: Spells(a, pat)
  {
    hide PAlts, ValidAlts, AltsText;
    if PReg(pat, 0, 1, false).Ok? {
      var a := SpelledAlts(pat, 0, 1);
      assert Has(pat, 0, AltsText(a)) && |AltsText(a)| == |pat|;
      assert pat[0..|pat|] == pat;
      assert Spells(a, pat);
    }
    if a :| Spells(a, pat) {
      ReadsPattern(pat, a);
    }
  }

  // ---- texts that are no patterns, and what is said about them ----

  /** A branch that begins with an atom that is refused. */
  lemma RefusedAtom(pat: Text)
    requires pat != [] && !EndsBranch(pat[0]) && PAtom(pat, 0, 1).Fail?
    ensures PReg(pat, 0, 1, false) == Fail(PAtom(pat, 0, 1).error)
  {
    hide PAtom;
    RefusedPiece(pat);
  }

  /** One with a multiplier that is refused. */
  lemma RefusedPiece(pat: Text)
    requires pat != [] && !EndsBranch(pat[0]) && PPiece(pat, 0, 1).Fail?
    ensures PReg(pat, 0, 1, false) == Fail(PPiece(pat, 0, 1).error)
  {
    hide PPiece;
    assert At(pat, 0) == pat[0];
    assert PBranch(pat, 0, 1) == Fail(PPiece(pat, 0, 1).error);
    assert PAlts(pat, 0, 1) == Fail(PPiece(pat, 0, 1).error);
  }

  /** `*`, `\`, `[a`, `[b-a]`, `(`, `)`, `^*` and `a**`. */
  lemma Refused()
    ensures PReg([STARCH], 0, 1, false) == Fail(FollowsNothing)
    ensures PReg([BACKSLASH], 0, 1, false) == Fail(TrailingBackslash)
    ensures PReg([LBRACK, 97], 0, 1, false) == Fail(UnmatchedBrackets)
    ensures PReg([LBRACK, 98, DASH, 97, RBRACK], 0, 1, false) == Fail(InvalidRange)
    ensures PReg([LPAREN], 0, 1, false) == Fail(UnmatchedParens)
    ensures PReg([RPAREN], 0, 1, false) == Fail(UnmatchedParens)
    ensures PReg([CARET, STARCH], 0, 1, false) == Fail(CouldBeEmpty)
    ensures PReg([97, STARCH, STARCH], 0, 1, false) == Fail(NestedMult)
  {
    RefusedAtom([STARCH]);
    RefusedAtom([BACKSLASH]);
    RefusedClass();
    RefusedParens();
    RefusedPiece([CARET, STARCH]);
    RefusedPiece([97, STARCH, STARCH]);
  }

  lemma RefusedParens()
    ensures PReg([LPAREN], 0, 1, false) == Fail(UnmatchedParens)
    ensures PReg([RPAREN], 0, 1, false) == Fail(UnmatchedParens)
  {
    var a: Text, b: Text := [LPAREN], [RPAREN];
    assert PBranch(a, 1, 2) == Ok([], 1, 2);
    assert PAlts(a, 1, 2) == Ok([Branch([])], 1, 2);
    assert PReg(a, 1, 1, true) == Fail(UnmatchedParens);
    assert PAtom(a, 0, 1) == Fail(UnmatchedParens);
    RefusedAtom(a);
    assert PBranch(b, 0, 1) == Ok([], 0, 1);
    assert PAlts(b, 0, 1) == Ok([Branch([])], 0, 1);
  }

  lemma RefusedClass()
    ensures PReg([LBRACK, 97], 0, 1, false) == Fail(UnmatchedBrackets)
    ensures PReg([LBRACK, 98, DASH, 97, RBRACK], 0, 1, false) == Fail(InvalidRange)
  {
    var a: Text, b: Text := [LBRACK, 97], [LBRACK, 98, DASH, 97, RBRACK];
    assert ClassRest(a, 2) == Ok([], 2, 0);
    assert ClassRest(b, 2) == Fail(InvalidRange);
    RefusedAtom(a);
    RefusedAtom(b);
  }
}
