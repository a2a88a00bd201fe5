/** regcomp, regtry and regexec: compiling a pattern in two passes, the shortcuts dug out of
    its program, and the search for the leftmost match. */
module Regexps {
  import opened RegexSyntax
  import Spelling = RegexSpelling
  import opened RegexLayout
  import opened RegexCompiler
  import opened RegexMeaning
  import opened RegexCaptures
  import opened RegexCode
  import opened RegexMatcher
  import opened RegexProgram

  // ---- what the shortcuts mean ----

  /** Every match starts with c. */
  ghost predicate Begins(bs: seq<Branch>, c: Byte) {
    forall s: Text, i: nat :: i <= |s| && MatchesAt(bs, s, i) ==> At(s, i) == c
  }

  /** Every match starts at the beginning of the subject. */
  ghost predicate Anchored(bs: seq<Branch>) {
    forall s: Text, i: nat :: i <= |s| && MatchesAt(bs, s, i) ==> i == 0
  }

  /** The len bytes of the program at p, if p is not NULL, occur wherever the pattern matches. */
  ghost predicate MustBe(bs: seq<Branch>, code: seq<Byte>, p: int, len: nat) {
    p != NULL ==> 0 <= p && 0 < len && p + len <= |code| && code[p] != 0 && Necessary(bs, code[p..p + len])
  }

  /** The nodes that following next offsets from scan passes, up to one that has none. */
  predicate Trail(code: seq<Byte>, scan: int, path: seq<nat>)
    decreases |path|
  {
    && path != [] && path[0] == scan && scan + 3 <= |code|
    && if |path| == 1 then RegNext(code, scan) == NULL else Trail(code, RegNext(code, scan), path[1..])
  }

  /** The length of the literal at p; -1 if the node at p is no literal. */
  function LitLen(code: seq<Byte>, p: nat): (r: int)
    ensures r >= -1
  {
    if p + 3 <= |code| && Op(code, p) == EXACTLY then StrLen(code, p + 3) else -1
  }

  /** Among the literals on path, the one at longest is of the greatest length, len, and the
      last of that length. */
  ghost predicate Longest(code: seq<Byte>, path: seq<nat>, longest: int, len: nat) {
    if longest == NULL then len == 0 && forall j :: 0 <= j < |path| ==> LitLen(code, path[j]) == -1
    else exists k :: LongestIs(code, path, longest, len, k)
  }

  predicate LongestIs(code: seq<Byte>, path: seq<nat>, longest: int, len: nat, k: int) {
    && 0 <= k < |path| && longest == path[k] + 3 && LitLen(code, path[k]) == len
    && (forall j :: 0 <= j < k ==> LitLen(code, path[j]) <= len)
    && (forall j :: k < j < |path| ==> LitLen(code, path[j]) < len)
  }

  // ---- the program of a whole pattern ----

  lemma NotOne(bs: seq<Branch>)
    requires |bs| != 1 && WfA(bs)
    ensures StartOf(bs) == 0 && !BolOf(bs)
  {
  }

  lemma ProgramRuns(bs: seq<Branch>)
    requires bs != [] && WfA(bs)
    ensures var code := Program(bs);
      && Runs(code, 1, Cons(A(bs), Nil)) && Leads(code, 1, Cons(A(bs), Nil))
      && |code| == SizeA(bs) + 4 && code[0] == MAGIC
      && AtGoal(code, 1, A(bs), 1 + SizeA(bs)) && Sits(code, 1 + SizeA(bs), Node(END, 0))
  {
    hide LayA, Node, SizeA, WfA, Leads;
    var code := Program(bs);
    var body, end := LayA(bs, SizeA(bs), |bs|), Node(END, 0);
    assert code == [MAGIC] + (body + end);
    assert Sits(code, 1, body + end);
    SitsParts(code, 1, body, end);
    assert Runs(code, 1 + SizeA(bs), Nil);
    RunsLeads(code, 1 + SizeA(bs), Nil);
    JoinAlts(code, 1, bs, Nil, 1 + SizeA(bs));
    RunsLeads(code, 1, Cons(A(bs), Nil));
  }

  /** The first BRANCH leads to END exactly when it is the only one. */
  lemma TopNode(bs: seq<Branch>)
    requires bs != [] && WfA(bs) && |Program(bs)| < LIMIT
    ensures var code := Program(bs); var next := RegNext(code, 1);
      && 0 <= next && next + 3 <= |code| && (Op(code, next) == END <==> |bs| == 1)
    ensures |bs| == 1 ==> Runs(Program(bs), 4, Cons(B(bs[0].ps), Nil))
  {
    hide LayA, LayB, Sits, Program, Runs, Leads;
    var code := Program(bs);
    ProgramRuns(bs);
    var e := SizeA(bs);
    assert Sits(code, 1, LayA(bs, e, |bs|)) by { GoalSits(code, 1, bs, 1 + e); }
    AltHead(code, 1, bs, e);
    var n := 3 + SizeB(bs[0].ps);
    if |bs| == 1 {
      SitsNode(code, 1, BRANCH, e);
      SitsNode(code, 1 + e, END, 0);
      EndRuns(code, 1 + e);
      Join(code, 4, B(bs[0].ps), Nil, 1 + e);
    } else {
      SitsNode(code, 1, BRANCH, n);
      AltHead(code, 1 + n, bs[1..], e - n);
      SitsNode(code, 1 + n, BRANCH, if |bs[1..]| == 1 then e - n else 3 + SizeB(bs[1].ps));
    }
  }

  lemma EndRuns(code: seq<Byte>, a: nat)
    requires Sits(code, a, Node(END, 0))
    ensures Runs(code, a, Nil) && Leads(code, a, Nil)
  {
  }

  lemma GoalSits(code: seq<Byte>, a: nat, bs: seq<Branch>, q: nat)
    requires AtGoal(code, a, A(bs), q)
    ensures Sits(code, a, LayA(bs, q - a, |bs|))
  {
  }

  /** The first piece of the only alternative, if there is one such piece. */
  predicate StartsWith(bs: seq<Branch>) {
    |bs| == 1 && bs[0].ps != []
  }

  function StartOf(bs: seq<Branch>): Byte
    requires WfA(bs)
  {
    if StartsWith(bs) && bs[0].ps[0].Exact? then
      assert WfB(bs[0].ps) && WfP(bs[0].ps[0]);
      bs[0].ps[0].str[0]
    else 0
  }

  predicate BolOf(bs: seq<Branch>) {
    StartsWith(bs) && bs[0].ps[0].Bol?
  }

  /** Only a literal begins with EXACTLY and only ^ with BOL. */
  lemma FirstOp(code: seq<Byte>, a: nat, x: Piece, q: nat)
    requires WfP(x) && Direct(code, a, x, q) && q < LIMIT
    ensures a + 3 <= |code| && (Op(code, a) == EXACTLY <==> x.Exact?) && (Op(code, a) == BOL <==> x.Bol?)
    ensures x.Exact? ==> a + 3 < |code| && code[a + 3] == x.str[0]
  {
    hide LayP, Sits;
    SitsGoal(code, a, P(x), q);
    match x
    case Group(n, bs) =>
      ToTailGroup(code, a, n, bs, q - a);
      SitsNode(code, a, OPEN + n, 3);
    case Star(y) => FirstOpRepeat(code, a, x, q);
    case Plus(y) => FirstOpRepeat(code, a, x, q);
    case Opt(y) =>
      SitsOpt(code, a, y, q - a);
      SitsNode(code, a, BRANCH, SizeP(y) + 3);
    case Exact(str) =>
      NodeOf(code, a, x, q);
      OperandView(code, a, x, q - a);
      StringAt(code, a + 3, str);
    case _ => NodeOf(code, a, x, q);
  }

  lemma FirstOpRepeat(code: seq<Byte>, a: nat, x: Piece, q: nat)
    requires (x.Star? || x.Plus?) && WfP(x) && Direct(code, a, x, q) && q < LIMIT
    ensures a + 3 <= |code| && Op(code, a) != EXACTLY && Op(code, a) != BOL
  {
    hide LayP, Sits;
    SitsGoal(code, a, P(x), q);
    var y := x.x;
    if SimpleP(y) {
      RepeatParts(code, a, x, q);
    } else if x.Star? {
      SitsStar(code, a, y, q - a);
      SitsNode(code, a, BRANCH, SizeP(y) + 6);
    } else {
      SitsPlus(code, a, y, q - a);
      ToTailGroup(code, a, y.no, y.alts, SizeP(y));
      SitsNode(code, a, OPEN + y.no, 3);
    }
  }

  /** With one alternative, its first node tells how a match begins. */
  lemma FirstNodeIs(bs: seq<Branch>, code: seq<Byte>)
    requires |bs| == 1 && WfA(bs) && Small(code) && Runs(code, 4, Cons(B(bs[0].ps), Nil))
    ensures 7 <= |code|
    ensures Op(code, 4) == EXACTLY <==> StartOf(bs) != 0
    ensures Op(code, 4) == EXACTLY ==> 7 < |code| && code[7] == StartOf(bs)
    ensures Op(code, 4) == BOL <==> BolOf(bs)
    ensures StartOf(bs) != 0 ==> !BolOf(bs)
  {
    hide LayP, LayPs, Sits, Leads;
    var ps := bs[0].ps;
    var q := Split(code, 4, B(ps), Nil);
    SitsGoal(code, 4, B(ps), q);
    Inside(code, q, Nil);
    if ps == [] {
      SitsNode(code, 4, NOTHING, q - 4);
    } else {
      if |ps| == 1 { FirstOf1(code, 4, ps, q); } else { FirstOf2(code, 4, ps, q); }
      FirstOp(code, 4, ps[0], if |ps| == 1 then q else 4 + SizeP(ps[0]));
      assert ps[0].Exact? ==> ps[0].str[0] in ps[0].str;
    }
  }

  lemma FirstTells(bs: seq<Branch>)
    requires WfA(bs)
    ensures StartOf(bs) != 0 ==> Begins(bs, StartOf(bs))
    ensures BolOf(bs) ==> Anchored(bs)
  {
    hide MatchesAt;
    forall s: Text, i: nat | i <= |s| && MatchesAt(bs, s, i)
      ensures StartOf(bs) != 0 ==> At(s, i) == StartOf(bs)
      ensures BolOf(bs) ==> i == 0
    {
      FirstMeans(bs, s, i);
    }
  }

  lemma FirstMeans(bs: seq<Branch>, s: Text, i: nat)
    requires WfA(bs) && i <= |s| && MatchesAt(bs, s, i)
    ensures StartOf(bs) != 0 ==> At(s, i) == StartOf(bs)
    ensures BolOf(bs) ==> i == 0
  {
    if StartsWith(bs) {
      var j: nat, tr :| DA(bs, s, i, j, tr);
      assert !DA(bs[1..], s, i, j, tr);
      var m, t1, t2 := BranchSplit(bs[0].ps, s, i, j, tr);
      if bs[0].ps[0].Exact? {
        var str := bs[0].ps[0].str;
        assert WfB(bs[0].ps) && WfP(bs[0].ps[0]);
        assert s[i..i + |str|][0] == s[i];
      }
    }
  }

  lemma WfOne(bs: seq<Branch>)
    requires |bs| == 1 && WfA(bs)
    ensures WfTodo(Cons(B(bs[0].ps), Nil))
  {
  }

  lemma PassBranch(bs: seq<Branch>)
    requires |bs| == 1
    ensures MustPass(bs, Cons(B(bs[0].ps), Nil))
  {
    forall s: Text, i: nat | MatchesAt(bs, s, i)
      ensures CanPass(Cons(B(bs[0].ps), Nil), s)
    {
      var j: nat, tr :| DA(bs, s, i, j, tr);
      assert !DA(bs[1..], s, i, j, tr);
      JoinTodo(B(bs[0].ps), Nil, s, i, j, j, tr, []);
    }
  }

  // ---- strchr, strncmp ----

  /** The first c in s from i on, NULL if there is none. */
  function StrChr(s: Text, i: nat, c: Byte): (r: int)
    requires i <= |s| && c != 0
    ensures r == NULL ==> forall k :: i <= k < |s| ==> s[k] != c
    ensures r != NULL ==> i <= r < |s| && s[r] == c && forall k :: i <= k < r ==> s[k] != c
    decreases |s| - i
  {
    if i == |s| then NULL else if s[i] == c then i else StrChr(s, i + 1, c)
  }

  /** The captures of a match that starts at i, as the trace r.tr of it tells them. */
  ghost predicate Caught(startp: seq<int>, endp: seq<int>, i: nat, r: Outcome) {
    && |startp| == NSUBEXP == |endp| && r.Match? && startp[0] == i && endp[0] == r.end
    && forall n :: 1 <= n < NSUBEXP ==> startp[n] == LastOpen(r.tr, n) && endp[n] == LastClose(r.tr, n)
  }

  /** r, found at i, is a match, and there is none further left. */
  ghost predicate Leftmost(bs: seq<Branch>, s: Text, i: nat) {
    i <= |s| && MatchesAt(bs, s, i) && forall j: nat :: j < i ==> !MatchesAt(bs, s, j)
  }

  /** What the captures of a match say: the whole match, and for each group nothing, or the
      span of its last iteration, a match of the group's own alternatives within the whole. */
  lemma CaughtSpans(bs: seq<Branch>, s: Text, startp: seq<int>, endp: seq<int>, i: nat, n: nat, hi: nat)
    requires bs != [] && WfA(bs) && NumberedA(bs, 1, hi) && i <= |s| && 1 <= n < NSUBEXP
    requires Caught(startp, endp, i, Search(bs, s, i))
    ensures var r := Search(bs, s, i);
      && DA(bs, s, startp[0], endp[0], r.tr) && startp[0] <= endp[0] <= |s|
      && (|| (startp[n] == NULL && endp[n] == NULL && Silent(r.tr, n))
          || (startp[0] <= startp[n] <= endp[n] <= endp[0]
              && exists body, u, v, w ::
                HasGroupA(bs, n, body) && RunAt(r.tr, n, body, s, u, startp[n], v, endp[n], w)))
  {
    SearchMeans(bs, s, i);
    var r := Search(bs, s, i);
    SpanOfGroup(bs, s, i, r.end, r.tr, n, 1, hi);
  }

  class Regexp {
    var program: array<Byte>
    var startp: array<int>
    var endp: array<int>
    var regstart: Byte     // the first character of every match, 0 if not known
    var reganch: bool      // every match begins at the start
    var regmust: int       // where in the program a string that every match has is, or NULL
    var regmlen: nat       // its length

    /** The alternatives the program was compiled from. */
    ghost var bs: seq<Branch>

    /** The program is that of bs. */
    ghost predicate Compiled()
      reads this, program
    {
      bs != [] && WfA(bs) && program.Length < LIMIT && program[..] == Program(bs)
    }

    ghost predicate Valid()
      reads this, program
    {
      && Compiled() && startp != endp && startp.Length == NSUBEXP == endp.Length
      && (regstart != 0 ==> Begins(bs, regstart))
      && (reganch ==> Anchored(bs))
      && MustBe(bs, program[..], regmust, regmlen)
    }

    constructor (program: array<Byte>, ghost bs: seq<Branch>)
      requires bs != [] && WfA(bs) && program.Length < LIMIT && program[..] == Program(bs)
      ensures Valid() && this.program == program && this.bs == bs && fresh(startp) && fresh(endp)
    {
      this.program := program;
      startp := new int[NSUBEXP];
      endp := new int[NSUBEXP];
      regstart, reganch, regmust, regmlen := 0, false, NULL, 0;
      this.bs := bs;
    }

    /** What the shortcuts are set to. */
    ghost predicate Dug(spstart: bool)
      requires Compiled()
      reads this, program
    {
      && regstart == StartOf(bs) && reganch == BolOf(bs)
      && if |bs| == 1 && spstart
         then exists path :: Trail(program[..], 4, path) && Longest(program[..], path, regmust, regmlen)
         else regmust == NULL && regmlen == 0
    }

    /** Sets the shortcuts from the first nodes of the program. */
    method DigOut(spstart: bool)
      requires Valid()
      modifies `regstart, `reganch, `regmust, `regmlen
      ensures Valid() && Dug(spstart)
    {
      hide Program, Runs, Begins, Anchored, Necessary, LayA, AtGoal, Leads, MustPass, Trail, Longest, StartOf, BolOf, WfA;
      regstart, reganch, regmust, regmlen := 0, false, NULL, 0;
      ProgramRuns(bs);
      TopNode(bs);
      FirstTells(bs);
      var scan := 1;
      if program[RegNext(program[..], scan)] == END {
        scan := scan + 3;
        FirstNodeIs(bs, program[..]);
        if program[scan] == EXACTLY {
          regstart := program[scan + 3];
        } else if program[scan] == BOL {
          reganch := true;
        }
        if spstart {
          PassBranch(bs);
          ghost var path;
          regmust, regmlen, path := FindMust(scan);
        }
      } else {
        NotOne(bs);
      }
    }

    /** The longest literal on the main chain; the last of several as long. */
    method FindMust(start: nat) returns (longest: int, len: nat, ghost path: seq<nat>)
      requires Compiled() && |bs| == 1 && Runs(program[..], start, Cons(B(bs[0].ps), Nil))
      requires MustPass(bs, Cons(B(bs[0].ps), Nil))
      ensures MustBe(bs, program[..], longest, len)
      ensures Trail(program[..], start, path) && Longest(program[..], path, longest, len)
    {
      hide Program, Runs, Leads, Onward, MustBe, MustPass, Trail, TrailTo, Longest, StrLen, MustLiteral, SkipRank, WfTodo, WfA;
      var code := program[..];
      ghost var todo := Cons(B(bs[0].ps), Nil);
      WfOne(bs);
      RunsOnward(code, start, todo);
      var scan: int := start;
      longest, len := NULL, 0;
      path := [];
      NothingYet(bs, code, start);
      while scan != NULL
        invariant scan != NULL ==> 0 <= scan && scan + 3 <= |code| && OnWay(bs, code, scan, todo)
        invariant MustBe(bs, code, longest, len) && TrailTo(code, start, path, scan) && Longest(code, path, longest, len)
        decreases scan != NULL, Steps(todo), Near(code, scan, todo), Far(code, scan, todo)
      {
        ghost var todo', str := MustStep(bs, code, scan, todo);
        longest, len := Longer(code, scan, longest, len, path, bs, str);
        TrailMore(code, start, path, scan);
        path := path + [scan];
        CloserMeans(code, scan, todo, todo');
        scan := RegNext(code, scan);
        todo := todo';
      }
      TrailEnds(code, start, path);
    }

    /** regtry: a match at one position. */
    method RegTry(subject: Text, at: nat) returns (ok: bool)
      requires Valid() && at <= |subject|
      modifies startp, endp
      ensures ok <==> MatchesAt(bs, subject, at)
      ensures ok ==> Caught(startp[..], endp[..], at, Search(bs, subject, at))
      ensures !ok ==> forall n :: 0 <= n < NSUBEXP ==> startp[n] == NULL && endp[n] == NULL
    {
      hide Program, Leads, Runs, Begins, Anchored, Necessary, MatchesAt, Exec;
      ProgramRuns(bs);
      SearchMeans(bs, subject, at);
      var m := new Matcher(program[..], subject, startp, endp);
      m.reginput := at;
      var i := 0;
      while i < NSUBEXP
        invariant 0 <= i <= NSUBEXP
        invariant forall n :: 0 <= n < i ==> startp[n] == NULL && endp[n] == NULL
        modifies startp, endp
      {
        startp[i] := NULL;
        endp[i] := NULL;
        i := i + 1;
      }
      ghost var r := Search(bs, subject, at);
      ok := m.RegMatch(1, Cons(A(bs), Nil));
      if ok {
        assert forall n: nat :: n < NSUBEXP ==> startp[n] == LastOpen(r.tr, n) && endp[n] == LastClose(r.tr, n);
        startp[0] := at;
        endp[0] := m.reginput;
      }
    }

    /** regexec: with all its shortcuts, it finds the leftmost
        match exactly when there is one. */
    method RegExec(subject: Text) returns (ok: bool)
      requires Valid()
      modifies startp, endp
      ensures ok <==> exists i: nat :: i <= |subject| && MatchesAt(bs, subject, i)
      ensures ok ==>
        && startp[0] >= 0 && Leftmost(bs, subject, startp[0])
        && Caught(startp[..], endp[..], startp[0], Search(bs, subject, startp[0]))
    {
      hide Program, Begins, Anchored, MatchesAt, Exec, Necessary, Caught;
      // The required string, if there is one, has to occur.
      if regmust != NULL {
        var found := LookFor(subject);
        if !found {
          if exists i: nat :: i <= |subject| && MatchesAt(bs, subject, i) {
            var i: nat :| i <= |subject| && MatchesAt(bs, subject, i);
            NeedsIt(bs, program[regmust..regmust + regmlen], subject, i);
          }
          return false;
        }
      }
      // Anchored: one position will do.
      if reganch {
        ok := RegTry(subject, 0);
        OnlyAtZero(bs, subject);
        if ok { Catch(bs, subject, startp[..], endp[..], 0); }
        return;
      }
      // Anywhere in the subject.
      var s := 0;
      if regstart != 0 {
        ok := StartScan(subject);
        return;
      }
      while true
        invariant Valid() && 0 <= s <= |subject|
        invariant forall j: nat :: j < s ==> !MatchesAt(bs, subject, j)
        decreases |subject| - s
      {
        ok := RegTry(subject, s);
        if ok {
          Catch(bs, subject, startp[..], endp[..], s);
          return;
        }
        if At(subject, s) == 0 {
          assert s == |subject|;
          return false;
        }
        s := s + 1;
      }
    }

    /** Only positions at the character that begins every match. */
    method StartScan(subject: Text) returns (ok: bool)
      requires Valid() && regstart != 0
      modifies startp, endp
      ensures ok <==> exists i: nat :: i <= |subject| && MatchesAt(bs, subject, i)
      ensures ok ==>
        && startp[0] >= 0 && Leftmost(bs, subject, startp[0])
        && Caught(startp[..], endp[..], startp[0], Search(bs, subject, startp[0]))
    {
      hide Program, Begins, Anchored, MatchesAt, Exec, Necessary, Caught;
      var s := 0;
      while true
        invariant Valid() && 0 <= s <= |subject|
        invariant forall j: nat :: j < s ==> !MatchesAt(bs, subject, j)
        decreases |subject| - s
      {
        var t := StrChr(subject, s, regstart);
        if t == NULL {
          NotBefore(bs, regstart, subject, s, |subject| + 1);
          return false;
        }
        NotBefore(bs, regstart, subject, s, t);
        ok := RegTry(subject, t);
        if ok {
          Catch(bs, subject, startp[..], endp[..], t);
          return;
        }
        s := t + 1;
      }
    }

    /** Whether the "must appear" string is there. */
    method LookFor(subject: Text) returns (found: bool)
      requires regmust != NULL && 0 <= regmust && regmust + regmlen <= program.Length && regmlen > 0 && program[regmust] != 0
      ensures found <==> Occurs(program[regmust..regmust + regmlen], subject)
    {
      var must := program[regmust..regmust + regmlen];
      var s := 0;
      while true
        invariant 0 <= s <= |subject|
        invariant forall i: nat :: i < s ==> !OccursAt(must, subject, i)
        decreases |subject| - s
      {
        var t := StrChr(subject, s, program[regmust]);
        if t == NULL {
          forall i: nat
            ensures !OccursAt(must, subject, i)
          {
            if i + |must| <= |subject| { assert subject[i..i + |must|][0] == subject[i]; }
          }
          return false;
        }
        if t + regmlen <= |subject| && subject[t..t + regmlen] == must {
          assert OccursAt(must, subject, t);
          return true;
        }
        forall i: nat | i < t + 1
          ensures !OccursAt(must, subject, i)
        {
          if i + |must| <= |subject| { assert subject[i..i + |must|][0] == subject[i]; }
        }
        s := t + 1;
      }
    }
  }

  lemma NeedsIt(bs: seq<Branch>, str: seq<Byte>, s: Text, i: nat)
    requires Necessary(bs, str) && MatchesAt(bs, s, i)
    ensures Occurs(str, s)
  {
  }

  lemma OnlyAtZero(bs: seq<Branch>, s: Text)
    requires Anchored(bs)
    ensures (exists i: nat :: i <= |s| && MatchesAt(bs, s, i)) <==> MatchesAt(bs, s, 0)
  {
  }

  lemma NotBefore(bs: seq<Branch>, c: Byte, s: Text, from: nat, to: nat)
    requires Begins(bs, c) && c != 0 && from <= to <= |s| + 1
    requires forall k :: from <= k < to && k < |s| ==> s[k] != c
    ensures forall j: nat :: from <= j < to ==> !MatchesAt(bs, s, j)
  {
    hide MatchesAt;
    forall j: nat | from <= j < to
      ensures !MatchesAt(bs, s, j)
    {
      assert At(s, j) != c;
    }
  }

  lemma Catch(bs: seq<Branch>, s: Text, startp: seq<int>, endp: seq<int>, i: nat)
    requires bs != [] && WfA(bs) && i <= |s| && Caught(startp, endp, i, Search(bs, s, i))
    ensures startp[0] == i
  {
  }

  // ---- the walk for regmust ----

  ghost function Near(code: seq<Byte>, scan: int, todo: Todo): int {
    if scan >= 0 && Leads(code, scan, todo) then 0 else 1
  }

  ghost function Far(code: seq<Byte>, scan: int, todo: Todo): int {
    if scan < 0 || scan + 3 > |code| then 0
    else if Leads(code, scan, todo) then SkipRank(code, scan, todo) else |code| - scan
  }

  /** path is where the walk from start has been; it is at scan now. */
  predicate TrailTo(code: seq<Byte>, start: nat, path: seq<nat>, scan: int)
    decreases |path|
  {
    if path == [] then scan == start
    else
      && path[0] == start && start + 3 <= |code|
      && (if RegNext(code, start) == NULL then |path| == 1 && scan == NULL
          else RegNext(code, start) >= 0 && TrailTo(code, RegNext(code, start), path[1..], scan))
  }

  lemma {:induction false} TrailMore(code: seq<Byte>, start: nat, path: seq<nat>, scan: nat)
    requires TrailTo(code, start, path, scan) && scan + 3 <= |code| && RegNext(code, scan) >= NULL
    ensures TrailTo(code, start, path + [scan], RegNext(code, scan))
    decreases |path|
  {
    if path == [] {
      assert [scan][1..] == [];
    } else {
      assert (path + [scan])[1..] == path[1..] + [scan];
      TrailMore(code, RegNext(code, start), path[1..], scan);
    }
  }

  lemma {:induction false} TrailEnds(code: seq<Byte>, start: nat, path: seq<nat>)
    requires TrailTo(code, start, path, NULL)
    ensures Trail(code, start, path)
    decreases |path|
  {
    if RegNext(code, start) != NULL {
      TrailEnds(code, RegNext(code, start), path[1..]);
    }
  }

  ghost predicate OnWay(bs: seq<Branch>, code: seq<Byte>, scan: nat, todo: Todo) {
    WfTodo(todo) && Onward(code, scan, todo) && MustPass(bs, todo)
  }

  lemma NothingYet(bs: seq<Branch>, code: seq<Byte>, start: nat)
    ensures MustBe(bs, code, NULL, 0) && TrailTo(code, start, [], start) && Longest(code, [], NULL, 0)
  {
  }

  /** A literal at least as long as the longest so far takes its place. */
  method Longer(code: seq<Byte>, scan: nat, longest: int, len: nat, ghost path: seq<nat>, ghost bs: seq<Branch>, ghost str: seq<Byte>)
    returns (longest': int, len': nat)
    requires scan + 3 <= |code| && Longest(code, path, longest, len) && MustBe(bs, code, longest, len)
    requires Op(code, scan) == EXACTLY ==> MustLiteral(bs, code, scan + 3, str)
    ensures Longest(code, path + [scan], longest', len') && MustBe(bs, code, longest', len')
  {
    hide Longest, MustLiteral;
    if code[scan] == EXACTLY && StrLen(code, scan + 3) >= len {
      MustIs(bs, code, scan + 3, str);
      LongestMore(code, path, longest, len, scan);
      return scan + 3, StrLen(code, scan + 3);
    }
    LongestSame(code, path, longest, len, scan);
    return longest, len;
  }

  lemma CloserMeans(code: seq<Byte>, scan: nat, todo: Todo, todo': Todo)
    requires scan + 3 <= |code| && RegNext(code, scan) >= NULL
    requires RegNext(code, scan) != NULL ==>
      RegNext(code, scan) + 3 <= |code| && Closer(code, scan, todo, RegNext(code, scan), todo')
    ensures var next := RegNext(code, scan);
      next != NULL ==>
        || Steps(todo') < Steps(todo)
        || (Steps(todo') == Steps(todo) && Near(code, next, todo') < Near(code, scan, todo))
        || (Steps(todo') == Steps(todo) && Near(code, next, todo') == Near(code, scan, todo)
            && 0 <= Far(code, next, todo') < Far(code, scan, todo))
  {
    hide Leads, SkipRank, Steps;
  }

  lemma LongestMore(code: seq<Byte>, path: seq<nat>, longest: int, len: nat, scan: nat)
    requires Longest(code, path, longest, len) && LitLen(code, scan) >= len
    ensures Longest(code, path + [scan], scan + 3, LitLen(code, scan))
  {
    hide LitLen;
    var more := path + [scan];
    assert forall j :: 0 <= j < |path| ==> more[j] == path[j];
    if longest != NULL {
      var k :| LongestIs(code, path, longest, len, k);
    }
    assert LongestIs(code, more, scan + 3, LitLen(code, scan), |path|);
  }

  lemma LongestSame(code: seq<Byte>, path: seq<nat>, longest: int, len: nat, scan: nat)
    requires Longest(code, path, longest, len) && (LitLen(code, scan) < len || LitLen(code, scan) == -1)
    ensures Longest(code, path + [scan], longest, len)
  {
    hide LitLen;
    var more := path + [scan];
    assert forall j :: 0 <= j < |path| ==> more[j] == path[j];
    if longest != NULL {
      var k :| LongestIs(code, path, longest, len, k);
      assert LongestIs(code, more, longest, len, k);
    }
  }

  lemma RunsOnward(code: seq<Byte>, a: nat, todo: Todo)
    requires Runs(code, a, todo) && WfTodo(todo)
    ensures Onward(code, a, todo) && a + 3 <= |code|
  {
    RunsLeads(code, a, todo);
    LeadsOnward(code, a, todo);
    Inside(code, a, todo);
  }

  lemma MustIs(bs: seq<Branch>, code: seq<Byte>, p: nat, str: seq<Byte>)
    requires MustLiteral(bs, code, p, str)
    ensures var n := StrLen(code, p);
      n > 0 && p + n <= |code| && code[p] != 0 && Necessary(bs, code[p..p + n])
  {
    hide Necessary;
    StrLenIs(code, p, str);
    StringAt(code, p, str);
    assert str[0] in str;
  }

  // ---- compiling ----

  lemma ParsedWhole(pat: Text)
    ensures var P := PReg(pat, 0, 1, false); P.Ok? ==> P.val != [] && WfA(P.val) && NumberedA(P.val, 1, P.npar)
  {
    hide PAlts;
    ParsedA(pat, 0, 1);
  }

  lemma ProgramSize(bs: seq<Branch>)
    ensures |Program(bs)| == SizeA(bs) + 4 && LayReg(bs, false, 1) == LayA(bs, SizeA(bs), |bs|) + Node(END, 0)
    ensures Program(bs) == [MAGIC] + LayReg(bs, false, 1)
  {
    hide LayA, Node;
    var body, end := LayA(bs, SizeA(bs), |bs|), Node(END, 0);
    assert [] + body == body;
    assert [MAGIC] + body + end == [MAGIC] + (body + end);
  }

  /** A counting pass has counted the whole program. */
  lemma Counted(c: Compiler, m: seq<Byte>, bs: seq<Branch>)
    requires c.Valid() && c.dummy && |m| == 1 && Step(true, m, c.out, LayReg(bs, false, 1))
    ensures c.regsize == |Program(bs)|
  {
    hide Program, LayReg;
    ProgramSize(bs);
  }

  /** An emitting pass has emitted the whole program and nothing else. */
  lemma Emitted(c: Compiler, m: seq<Byte>, bs: seq<Branch>)
    requires c.Valid() && !c.dummy && m == [MAGIC] && Step(false, m, c.out, LayReg(bs, false, 1))
    requires c.code.Length == |Program(bs)|
    ensures c.code[..] == Program(bs)
  {
    hide Program, LayReg;
    ProgramSize(bs);
    assert c.code[..] == c.code[..c.regcode];
  }

  /** What is read is what is spelled. */
  lemma Notation(exp: Text)
    ensures PReg(exp, 0, 1, false).Ok? <==> exists a :: Spelling.Spells(a, exp)
    ensures forall a :: Spelling.Spells(a, exp) ==> Spelling.MeansAlts(a, 1, PReg(exp, 0, 1, false).val)
  {
    hide PReg, Spelling.Spells, Spelling.MeansAlts;
    Spelling.PatternIff(exp);
    forall a | Spelling.Spells(a, exp)
      ensures Spelling.MeansAlts(a, 1, PReg(exp, 0, 1, false).val)
    {
      Spelling.ReadsPattern(exp, a);
    }
  }

  /** regcomp: the program of a pattern, in two passes. It fails exactly when the
      grammar rejects the pattern or its program is too big; otherwise the second pass fills
      the space that the first one counted with exactly the pattern's program. What the grammar
      accepts is exactly what can be spelled, with the meaning of that spelling. */
  method RegComp(exp: Text) returns (r: Regexp?, error: Error)
    ensures var P := PReg(exp, 0, 1, false);
      && (r == null <==> P.Fail? || |Program(P.val)| >= LIMIT)
      && (r == null ==> error == if P.Fail? then P.error else TooBig)
      && (r != null ==>
        && r.Valid() && r.bs == P.val && r.program[..] == Program(P.val)
        && NumberedA(r.bs, 1, P.npar) && r.Dug(SpStartA(P.val)) && fresh(r) && fresh(r.startp) && fresh(r.endp) && fresh(r.program))
    ensures r != null ==> exists a :: Spelling.Spells(a, exp)
    ensures forall a :: Spelling.Spells(a, exp) ==> if r == null then error == TooBig else Spelling.MeansAlts(a, 1, r.bs)
  {
    hide PReg, LayReg, Program, Begins, Anchored, Necessary, Spelling.Spells, Spelling.MeansAlts;
    ghost var P := PReg(exp, 0, 1, false);
    Notation(exp);
    ParsedWhole(exp);
    // Count, and see whether the pattern is accepted.
    var c := new Compiler(exp);
    c.RegC(MAGIC);
    ghost var m := c.out;
    var ret, flags := c.Reg(false);
    error := TooBig;
    if ret == Null {
      return null, c.error;
    }
    Counted(c, m, P.val);
    // Offsets have to fit.
    if c.regsize >= LIMIT {
      return null, TooBig;
    }
    // Emit.
    ProgramSize(P.val);
    c.Restart();
    c.RegC(MAGIC);
    m := c.out;
    ret, flags := c.Reg(false);
    assert ret != Null;
    Emitted(c, m, P.val);
    r := new Regexp(c.code, P.val);
    r.DigOut(flags.spstart);
  }
}
