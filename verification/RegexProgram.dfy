/** Why regmust may be trusted: on the walk along next offsets from a program's only branch,
    every literal is one that each match of the pattern must have. */
module RegexProgram {
  import opened RegexSyntax
  import opened RegexLayout
  import opened RegexMeaning
  import opened RegexCode
  import opened RegexMatcher

  // ---- what every match must have ----

  /** str occurs in s. */
  ghost predicate Occurs(str: seq<Byte>, s: Text) {
    exists i: nat :: OccursAt(str, s, i)
  }

  predicate OccursAt(str: seq<Byte>, s: Text, i: nat) {
    i + |str| <= |s| && s[i..i + |str|] == str
  }

  /** Every string the pattern matches in has str somewhere. */
  ghost predicate Necessary(bs: seq<Branch>, str: seq<Byte>) {
    forall s: Text, i: nat :: MatchesAt(bs, s, i) ==> Occurs(str, s)
  }

  /** Every match of the pattern goes on, at some point, to match all of todo. */
  ghost predicate MustPass(bs: seq<Branch>, todo: Todo) {
    forall s: Text, i: nat :: MatchesAt(bs, s, i) ==> CanPass(todo, s)
  }

  ghost predicate CanPass(todo: Todo, s: Text) {
    exists i: nat, j: nat, tr :: DTodo(todo, s, i, j, tr)
  }

  lemma PassOn(bs: seq<Branch>, t: Goal, k: Todo)
    requires MustPass(bs, Cons(t, k))
    ensures MustPass(bs, k)
  {
    forall s: Text, i: nat | MatchesAt(bs, s, i)
      ensures CanPass(k, s)
    {
      var i', j, tr :| DTodo(Cons(t, k), s, i', j, tr);
      var m, t1, t2 := SplitTodo(t, k, s, i', j, tr);
    }
  }

  lemma PassLiteral(bs: seq<Branch>, str: seq<Byte>, k: Todo)
    requires MustPass(bs, Cons(P(Exact(str)), k))
    ensures Necessary(bs, str)
  {
    forall s: Text, i: nat | MatchesAt(bs, s, i)
      ensures Occurs(str, s)
    {
      var i', j, tr :| DTodo(Cons(P(Exact(str)), k), s, i', j, tr);
      var m, t1, t2 := SplitTodo(P(Exact(str)), k, s, i', j, tr);
      assert OccursAt(str, s, i');
    }
  }

  /** A group and the goals it comes to. */
  lemma PassGroup(bs: seq<Branch>, n: nat, body: seq<Branch>, k: Todo)
    requires MustPass(bs, Cons(P(Group(n, body)), k))
    ensures MustPass(bs, Cons(C(n), k))
  {
    forall s: Text, i: nat | MatchesAt(bs, s, i)
      ensures CanPass(Cons(C(n), k), s)
    {
      var i', j, tr :| DTodo(Cons(P(Group(n, body)), k), s, i', j, tr);
      var m, t1, t2 := SplitTodo(P(Group(n, body)), k, s, i', j, tr);
      JoinTodo(C(n), k, s, m, m, j, [Close(n, m)], t2);
    }
  }

  // ---- walking the main chain of a program ----

  /** From scan, over BRANCH nodes, one gets to code that carries out todo. */
  ghost predicate Onward(code: seq<Byte>, scan: nat, todo: Todo)
    decreases |code| - scan
  {
    || Leads(code, scan, todo)
    || (scan + 3 <= |code| && Op(code, scan) == BRANCH && 0 < NextOff(code, scan)
        && Onward(code, scan + NextOff(code, scan), todo))
  }

  lemma OnwardStep(code: seq<Byte>, a: nat, off: nat, k: Todo)
    requires Sits(code, a, Node(BRANCH, off)) && 0 < off < LIMIT && Onward(code, a + off, k)
    ensures Onward(code, a, k) && a + 3 <= |code| && NextOff(code, a) == off && Op(code, a) == BRANCH
  {
    SitsNode(code, a, BRANCH, off);
  }

  lemma OnwardEmpty(code: seq<Byte>, a: nat, q: nat, k: Todo)
    requires Sits(code, a, Node(BRANCH, 3)) && Sits(code, a + 3, Node(NOTHING, q - a - 3))
    requires a + 6 <= q < LIMIT && Leads(code, q, k)
    ensures Onward(code, a, k)
  {
    hide Leads, Sits;
    Skip(code, a + 3, q - a - 3, k);
    OnwardStep(code, a, 3, k);
  }

  /** The next offset of the BRANCH that begins a choice leads on to what follows it. */
  lemma {:induction false} OnwardA(code: seq<Byte>, a: nat, bs: seq<Branch>, k: Todo)
    requires bs != [] && WfA(bs) && WfTodo(k) && Small(code) && Runs(code, a, Cons(A(bs), k))
    ensures a + 3 <= |code| && NextOff(code, a) > 0 && Op(code, a) == BRANCH
    ensures Onward(code, a + NextOff(code, a), k) && Onward(code, a, k)
    decreases bs
  {
    hide LayB, LayA, Sits, Leads, Runs, Onward;
    var q := Split(code, a, A(bs), k);
    Inside(code, q, k);
    var n := 3 + SizeB(bs[0].ps);
    AltHead(code, a, bs, q - a);
    if |bs| == 1 {
      LeadsOnward(code, q, k);
      OnwardStep(code, a, q - a, k);
    } else {
      JoinAlts(code, a + n, bs[1..], k, q);
      OnwardA(code, a + n, bs[1..], k);
      OnwardStep(code, a, n, k);
    }
  }

  lemma LeadsOnward(code: seq<Byte>, a: nat, k: Todo)
    requires Leads(code, a, k)
    ensures Onward(code, a, k)
  {
  }

  lemma OnwardLoop(code: seq<Byte>, a: nat, x: Piece, k: Todo)
    requires WfP(x) && WfTodo(k) && Small(code) && Runs(code, a, Cons(P(x), k))
    requires (x.Star? && !SimpleP(x.x)) || x.Opt?
    ensures a + 3 <= |code| && NextOff(code, a) > 0 && Op(code, a) == BRANCH
    ensures Onward(code, a + NextOff(code, a), k)
  {
    hide LayP, Sits, Leads, Runs, Onward;
    var q := Split(code, a, P(x), k);
    Inside(code, q, k);
    var n := SizeP(x.x);
    if x.Opt? {
      SitsOpt(code, a, x.x, q - a);
      OnwardEmpty(code, a + n + 3, q, k);
      OnwardStep(code, a, n + 3, k);
    } else if Direct(code, a, x, q) {
      SitsStar(code, a, x.x, q - a);
      OnwardEmpty(code, a + n + 6, q, k);
      OnwardStep(code, a, n + 6, k);
    } else {
      SitsPlus(code, a - n, x.x, q - a + n);
      OnwardEmpty(code, a + 6, q, k);
      OnwardStep(code, a, 6, k);
    }
  }

  /** Steps left on the walk. */
  function Steps(todo: Todo): nat {
    if todo.Nil? then 0 else StepsT(todo.t) + Steps(todo.k)
  }

  function StepsT(t: Goal): (n: nat)
    ensures n >= 1
  {
    match t
    case P(x) => StepsP(x)
    case B(ps) => StepsB(ps)
    case _ => 1
  }

  function StepsP(x: Piece): (n: nat)
    ensures n >= 1
  {
    if x.Group? then 2 else if x.Plus? then 4 else 1
  }

  function StepsB(ps: seq<Piece>): (n: nat)
    ensures n >= 1
  {
    if ps == [] then 1 else StepsP(ps[0]) + StepsB(ps[1..]) + 1
  }

  /** The same code, seen as the goal of its first node; the walk is not longer for it. */
  lemma {:induction false} PlainMust(bs: seq<Branch>, code: seq<Byte>, a: nat, todo: Todo) returns (todo': Todo)
    requires WfTodo(todo) && Runs(code, a, todo) && MustPass(bs, todo)
    ensures WfTodo(todo') && Runs(code, a, todo') && MustPass(bs, todo') && Plain(todo')
    ensures Steps(todo') <= Steps(todo)
    decreases Steps(todo)
  {
    if Plain(todo) {
      return todo;
    }
    hide Runs, MustPass;
    if todo.t.B? {
      todo' := PlainB(bs, code, a, todo.t.ps, todo.k);
    } else {
      todo' := PlainPlus(bs, code, a, todo.t.x.x, todo.k);
    }
    todo' := PlainMust(bs, code, a, todo');
  }

  lemma PlainB(bs: seq<Branch>, code: seq<Byte>, a: nat, ps: seq<Piece>, k: Todo) returns (todo': Todo)
    requires ps != [] && WfB(ps) && WfTodo(k) && Runs(code, a, Cons(B(ps), k)) && MustPass(bs, Cons(B(ps), k))
    ensures WfTodo(todo') && Runs(code, a, todo') && MustPass(bs, todo') && Steps(todo') < Steps(Cons(B(ps), k))
  {
    hide Sits, Leads, LayP, LayPs, Runs, AtGoal, DTodo;
    var q := Split(code, a, B(ps), k);
    assert StepsB(ps) == StepsP(ps[0]) + StepsB(ps[1..]) + 1;
    if |ps| == 1 {
      FirstOf1(code, a, ps, q);
      Join(code, a, P(ps[0]), k, q);
      todo' := Cons(P(ps[0]), k);
    } else {
      FirstOf2(code, a, ps, q);
      var rest := B(ps[1..]);
      Join(code, a + SizeP(ps[0]), rest, k, q);
      Join(code, a, P(ps[0]), Cons(rest, k), a + SizeP(ps[0]));
      todo' := Cons(P(ps[0]), Cons(rest, k));
    }
    forall s: Text, i: nat | MatchesAt(bs, s, i)
      ensures CanPass(todo', s)
    {
      var i', j, tr :| DTodo(Cons(B(ps), k), s, i', j, tr);
      var m, t1, t2 := SplitTodo(B(ps), k, s, i', j, tr);
      if |ps| == 1 {
        SingleB(ps, s, i', m, t1);
        JoinTodo(P(ps[0]), k, s, i', m, j, t1, t2);
      } else {
        var c, u1, u2 := BranchSplit(ps, s, i', m, t1);
        JoinTodo(B(ps[1..]), k, s, c, m, j, u2, t2);
        JoinTodo(P(ps[0]), Cons(B(ps[1..]), k), s, i', c, j, u1, u2 + t2);
      }
    }
  }

  lemma PlainPlus(bs: seq<Branch>, code: seq<Byte>, a: nat, y: Piece, k: Todo) returns (todo': Todo)
    requires WfP(Plus(y)) && !SimpleP(y) && WfTodo(k) && Runs(code, a, Cons(P(Plus(y)), k))
    requires MustPass(bs, Cons(P(Plus(y)), k))
    ensures WfTodo(todo') && Runs(code, a, todo') && MustPass(bs, todo') && Steps(todo') < Steps(Cons(P(Plus(y)), k))
  {
    hide Sits, Leads, LayP, Runs, DTodo;
    var q := Split(code, a, P(Plus(y)), k);
    var m := a + SizeP(y);
    PlusParts(code, a, y, q);
    Join(code, m, P(Star(y)), k, q);
    Join(code, a, P(y), Cons(P(Star(y)), k), m);
    todo' := Cons(P(y), Cons(P(Star(y)), k));
    forall s: Text, i: nat | MatchesAt(bs, s, i)
      ensures CanPass(todo', s)
    {
      var i', j, tr :| DTodo(Cons(P(Plus(y)), k), s, i', j, tr);
      var m, t1, t2 := SplitTodo(P(Plus(y)), k, s, i', j, tr);
      var c, u1, u2 := PlusSplit(y, s, i', m, t1);
      JoinTodo(P(Star(y)), k, s, c, m, j, u2, t2);
      JoinTodo(P(y), Cons(P(Star(y)), k), s, i', c, j, u1, u2 + t2);
    }
  }

  lemma PlusSplit(y: Piece, s: Text, i: nat, j: nat, tr: seq<Event>)
    returns (m: nat, t1: seq<Event>, t2: seq<Event>)
    requires DP(Plus(y), s, i, j, tr)
    ensures DP(y, s, i, m, t1) && DP(Star(y), s, m, j, t2) && tr == t1 + t2
  {
    var n: nat :| n >= 1 && DIter(y, n, s, i, j, tr);
    m, t1, t2 := IterSplit(y, n, s, i, j, tr);
  }

  /** How far the walk still is from its end: goals, and nodes passed over before them. */
  ghost predicate Closer(code: seq<Byte>, scan: nat, todo: Todo, scan': nat, todo': Todo)
    requires scan + 3 <= |code| && scan' + 3 <= |code|
  {
    || Steps(todo') < Steps(todo)
    || (todo' == todo &&
        if Leads(code, scan, todo)
        then Leads(code, scan', todo) && SkipRank(code, scan', todo) < SkipRank(code, scan, todo)
        else Leads(code, scan', todo) || scan < scan')
  }

  /** A literal in the program that every match must have. */
  ghost predicate MustLiteral(bs: seq<Branch>, code: seq<Byte>, p: nat, str: seq<Byte>) {
    str != [] && 0 !in str && Sits(code, p, str + [0]) && Necessary(bs, str)
  }

  /** One step of the walk: a literal met on the way is one every match must have, and the
      next node, if there is one, is closer to the end. */
  lemma MustStep(bs: seq<Branch>, code: seq<Byte>, scan: nat, todo: Todo) returns (todo': Todo, str: seq<Byte>)
    requires WfTodo(todo) && Onward(code, scan, todo) && MustPass(bs, todo) && Small(code)
    ensures scan + 3 <= |code|
    ensures Op(code, scan) == EXACTLY ==> MustLiteral(bs, code, scan + 3, str)
    ensures Op(code, scan) == BACK ==> NextOff(code, scan) <= scan
    ensures NextOff(code, scan) != 0 ==>
      var next := if Op(code, scan) == BACK then scan - NextOff(code, scan) else scan + NextOff(code, scan);
      && next + 3 <= |code| && WfTodo(todo') && Onward(code, next, todo') && MustPass(bs, todo')
      && Closer(code, scan, todo, next, todo')
  {
    hide Runs, Leads, MustPass, Sits, Necessary, LayP;
    todo', str := todo, [];
    if Runs(code, scan, todo) {
      var plain := PlainMust(bs, code, scan, todo);
      todo', str := MustNode(bs, code, scan, plain);
      if NextOff(code, scan) != 0 {
        OnwardInside(code, scan + NextOff(code, scan), todo');
      }
    } else if Leads(code, scan, todo) {
      SkipView(code, scan, todo);
      var b := if Op(code, scan) == BACK then scan - NextOff(code, scan) else scan + NextOff(code, scan);
      LeadsOnward(code, b, todo);
    } else {
      OnwardInside(code, scan + NextOff(code, scan), todo);
    }
  }

  lemma OnwardInside(code: seq<Byte>, a: nat, todo: Todo)
    requires WfTodo(todo) && Onward(code, a, todo)
    ensures a + 3 <= |code|
  {
    if Leads(code, a, todo) {
      Inside(code, a, todo);
    }
  }

  lemma MustNode(bs: seq<Branch>, code: seq<Byte>, scan: nat, todo: Todo) returns (todo': Todo, str: seq<Byte>)
    requires WfTodo(todo) && Runs(code, scan, todo) && Plain(todo) && MustPass(bs, todo) && Small(code)
    ensures scan + 3 <= |code| && Op(code, scan) != BACK
    ensures Op(code, scan) == EXACTLY ==> MustLiteral(bs, code, scan + 3, str)
    ensures NextOff(code, scan) != 0 ==>
      WfTodo(todo') && Onward(code, scan + NextOff(code, scan), todo') && MustPass(bs, todo') && Steps(todo') < Steps(todo)
  {
    hide Runs, Leads, MustPass, Sits, Necessary, LayP, Onward;
    OpView(code, scan, todo);
    todo', str := todo, [];
    if todo.Nil? {
      EndNode(code, scan);
    } else {
      var k := todo.k;
      todo' := k;
      PassOn(bs, todo.t, k);
      if OneNode(todo.t) {
        NodeView(code, scan, todo.t, k);
        LeadsOnward(code, scan + NextOff(code, scan), k);
        if todo.t.P? && todo.t.x.Exact? {
          var q := Split(code, scan, todo.t, k);
          str := todo.t.x.str;
          OperandView(code, scan, todo.t.x, q - scan);
          PassLiteral(bs, str, k);
        }
      } else if todo.t.A? {
        OnwardA(code, scan, todo.t.bs, k);
      } else if todo.t.x.Group? {
        var n, body := todo.t.x.no, todo.t.x.alts;
        GroupView(code, scan, n, body, k);
        OnwardA(code, scan + 3, body, Cons(C(n), k));
        PassGroup(bs, n, body, k);
        todo' := Cons(C(n), k);
      } else {
        OnwardLoop(code, scan, todo.t.x, k);
      }
    }
  }

  lemma EndNode(code: seq<Byte>, a: nat)
    requires Runs(code, a, Nil)
    ensures a + 3 <= |code| && NextOff(code, a) == 0
  {
    SitsNode(code, a, END, 0);
  }
}
