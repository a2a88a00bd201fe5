/** regexec, regtry, regmatch and regrepeat: running a compiled program on a string. */
module RegexCode {
  import opened RegexSyntax
  import opened RegexLayout
  import opened RegexMeaning

  /** The code at a carries out goal t and then goes on at q. */
  ghost predicate AtGoal(code: seq<Byte>, a: nat, t: Goal, q: nat) {
    match t
    case P(x) => Direct(code, a, x, q) || (x.Star? && !SimpleP(x.x) && InPlus(code, a, x.x, q))
    case B(ps) => a + SizeB(ps) <= q && Sits(code, a, LayB(ps, q - a))
    case A(bs) => a + SizeA(bs) <= q && Sits(code, a, LayA(bs, q - a, |bs|))
    case C(n) => 1 <= n < NSUBEXP && a + 3 <= q && Sits(code, a, Node(CLOSE + n, q - a))
  }

  ghost predicate Direct(code: seq<Byte>, a: nat, x: Piece, q: nat) {
    a + SizeP(x) <= q && Sits(code, a, LayP(x, q - a))
  }

  /** a is where the loop part of y+ begins: from there on the program does y*. */
  ghost predicate InPlus(code: seq<Byte>, a: nat, y: Piece, q: nat) {
    SizeP(y) <= a && Direct(code, a - SizeP(y), Plus(y), q)
  }

  /** The node at a begins code that carries out everything in todo. */
  ghost predicate Runs(code: seq<Byte>, a: nat, todo: Todo)
    decreases todo, 0, 0
  {
    match todo
    case Nil => Sits(code, a, Node(END, 0))
    case Cons(t, k) =>
      && (t.A? ==> k.Nil? || k.t.C?)
      && exists q: nat :: AtGoal(code, a, t, q) && Leads(code, q, k)
  }

  /** From a, over NOTHING nodes and then at most one BACK, one gets to such code. */
  ghost predicate Leads(code: seq<Byte>, a: nat, todo: Todo)
    decreases todo, 1, |code| - a
  {
    || Runs(code, a, todo)
    || (a + 3 <= |code| && 0 < NextOff(code, a) &&
        if Op(code, a) == NOTHING then Leads(code, a + NextOff(code, a), todo)
        else Op(code, a) == BACK && NextOff(code, a) <= a && Runs(code, a - NextOff(code, a), todo))
  }

  ghost predicate Small(code: seq<Byte>) {
    |code| < LIMIT
  }

  lemma Split(code: seq<Byte>, a: nat, t: Goal, k: Todo) returns (q: nat)
    requires Runs(code, a, Cons(t, k))
    ensures AtGoal(code, a, t, q) && Leads(code, q, k) && (t.A? ==> k.Nil? || k.t.C?)
  {
    q :| AtGoal(code, a, t, q) && Leads(code, q, k);
  }

  lemma Join(code: seq<Byte>, a: nat, t: Goal, k: Todo, q: nat)
    requires AtGoal(code, a, t, q) && Leads(code, q, k) && !t.A?
    ensures Runs(code, a, Cons(t, k)) && Leads(code, a, Cons(t, k))
  {
  }

  lemma Skip(code: seq<Byte>, a: nat, off: nat, todo: Todo)
    requires Sits(code, a, Node(NOTHING, off)) && 0 < off < LIMIT && Leads(code, a + off, todo)
    ensures Leads(code, a, todo)
  {
    SitsNode(code, a, NOTHING, off);
  }

  lemma Loop(code: seq<Byte>, a: nat, off: nat, todo: Todo)
    requires Sits(code, a, Node(BACK, off)) && 0 < off < LIMIT && off <= a && Runs(code, a - off, todo)
    ensures Leads(code, a, todo)
  {
    hide Runs, Sits, Node, Hi, Lo;
    SitsNode(code, a, BACK, off);
  }

  // ---- what is at a node, by the goal that it begins ----

  /** The goals that have a node of their own to begin with. */
  ghost predicate Plain(todo: Todo) {
    todo.Cons? ==>
      match todo.t
      case B(ps) => ps == []
      case P(x) => x.Plus? ==> SimpleP(x.x)
      case _ => true
  }

  /** A branch begins with its first piece, x+ with x: the same code, seen as the goal its
      first node belongs to. */
  lemma {:induction false} Unfold(code: seq<Byte>, a: nat, todo: Todo, s: Text, i: nat) returns (todo': Todo)
    requires WfTodo(todo) && Runs(code, a, todo) && i <= |s| && Small(code)
    ensures WfTodo(todo') && Runs(code, a, todo') && Plain(todo')
    ensures Exec(todo', s, i) == Exec(todo, s, i) && Weight(todo') <= Weight(todo)
    decreases Weight(todo)
  {
    hide Exec, Weight, Runs;
    if Plain(todo) {
      return todo;
    }
    if todo.t.B? {
      todo' := UnfoldB(code, a, todo.t.ps, todo.k, s, i);
    } else {
      todo' := UnfoldPlus(code, a, todo.t.x.x, todo.k, s, i);
    }
    todo' := Unfold(code, a, todo', s, i);
  }

  lemma UnfoldB(code: seq<Byte>, a: nat, ps: seq<Piece>, k: Todo, s: Text, i: nat) returns (todo': Todo)
    requires ps != [] && WfB(ps) && WfTodo(k) && Runs(code, a, Cons(B(ps), k)) && i <= |s|
    ensures WfTodo(todo') && Runs(code, a, todo') && Weight(todo') < Weight(Cons(B(ps), k))
    ensures Exec(todo', s, i) == Exec(Cons(B(ps), k), s, i)
  {
    hide Sits, Leads, LayP, LayPs, Runs, AtGoal;
    var q := Split(code, a, B(ps), k);
    if |ps| == 1 {
      LighterB1(ps, k);
      FirstOf1(code, a, ps, q);
      Join(code, a, P(ps[0]), k, q);
      todo' := Cons(P(ps[0]), k);
    } else {
      LighterB(ps, k);
      FirstOf2(code, a, ps, q);
      var rest := B(ps[1..]);
      var m := a + SizeP(ps[0]);
      Join(code, m, rest, k, q);
      Join(code, a, P(ps[0]), Cons(rest, k), m);
      todo' := Cons(P(ps[0]), Cons(rest, k));
    }
  }

  lemma UnfoldPlus(code: seq<Byte>, a: nat, y: Piece, k: Todo, s: Text, i: nat) returns (todo': Todo)
    requires WfP(Plus(y)) && !SimpleP(y) && WfTodo(k) && Runs(code, a, Cons(P(Plus(y)), k)) && i <= |s|
    ensures WfTodo(todo') && Runs(code, a, todo') && Weight(todo') < Weight(Cons(P(Plus(y)), k))
    ensures Exec(todo', s, i) == Exec(Cons(P(Plus(y)), k), s, i)
  {
    hide Sits, Leads, LayP, Runs;
    var q := Split(code, a, P(Plus(y)), k);
    var m := a + SizeP(y);
    PlusParts(code, a, y, q);
    Join(code, m, P(Star(y)), k, q);
    Join(code, a, P(y), Cons(P(Star(y)), k), m);
    todo' := Cons(P(y), Cons(P(Star(y)), k));
  }

  lemma FirstOf1(code: seq<Byte>, a: nat, ps: seq<Piece>, q: nat)
    requires |ps| == 1 && AtGoal(code, a, B(ps), q)
    ensures Direct(code, a, ps[0], q) && AtGoal(code, a, P(ps[0]), q)
  {
    hide Sits, LayP;
    assert SizePs(ps) == SizeP(ps[0]) + SizePs(ps[1..]) && ps[1..] == [];
    assert LayB(ps, q - a) == LayP(ps[0], q - a);
  }

  lemma FirstOf2(code: seq<Byte>, a: nat, ps: seq<Piece>, q: nat)
    requires |ps| > 1 && AtGoal(code, a, B(ps), q)
    ensures var m := a + SizeP(ps[0]); Direct(code, a, ps[0], m) && AtGoal(code, a, P(ps[0]), m) && AtGoal(code, m, B(ps[1..]), q)
  {
    hide Sits, LayP;
    var n := SizeP(ps[0]);
    assert SizePs(ps) == n + SizePs(ps[1..]);
    assert LayB(ps, q - a) == LayP(ps[0], n) + LayPs(ps[1..], q - a - n);
    SitsParts(code, a, LayP(ps[0], n), LayPs(ps[1..], q - a - n));
  }

  lemma PlusParts(code: seq<Byte>, a: nat, y: Piece, q: nat)
    requires !SimpleP(y) && Direct(code, a, Plus(y), q)
    ensures Direct(code, a, y, a + SizeP(y)) && AtGoal(code, a + SizeP(y), P(Star(y)), q)
  {
    hide Sits, LayP, SizeP, SimpleP;
    SitsPlus(code, a, y, q - a);
    PlusIs(y, q - a);
  }

  // ---- what each node tells about the goal it belongs to ----

  /** The opcode that such code begins with. */
  function OpOf(todo: Todo): Byte
    requires WfTodo(todo)
  {
    if todo.Nil? then END
    else
      match todo.t
      case C(n) => CLOSE + n
      case B(_) => NOTHING
      case A(_) => BRANCH
      case P(x) =>
        match x
        case Group(n, _) => OPEN + n
        case Star(y) => if SimpleP(y) then STAR else BRANCH
        case Plus(_) => PLUS
        case Opt(_) => BRANCH
        case _ => TailOp(x)
  }

  /** The goals that one node carries out, whose next offset leads on to the rest. */
  predicate OneNode(t: Goal) {
    match t
    case C(_) => true
    case B(_) => true
    case A(_) => false
    case P(x) => Atomic(x) || ((x.Star? || x.Plus?) && SimpleP(x.x))
  }

  lemma Inside(code: seq<Byte>, a: nat, todo: Todo)
    requires WfTodo(todo)
    ensures Runs(code, a, todo) ==> a + 3 <= |code|
    ensures Leads(code, a, todo) ==> a + 3 <= |code|
  {
    if Runs(code, a, todo) {
      if todo.Cons? {
        var q := Split(code, a, todo.t, todo.k);
        SitsGoal(code, a, todo.t, q);
      }
    }
  }

  lemma SitsGoal(code: seq<Byte>, a: nat, t: Goal, q: nat)
    requires AtGoal(code, a, t, q) && (t.A? ==> t.bs != [])
    ensures a + 3 <= |code|
  {
    hide LayP, LayA, LayB;
    match t
    case P(x) =>
      if Direct(code, a, x, q) {
        SitsInside(code, a, LayP(x, q - a));
      } else {
        SitsInside(code, a - SizeP(x.x), LayP(Plus(x.x), q - a + SizeP(x.x)));
      }
    case B(ps) => SitsInside(code, a, LayB(ps, q - a));
    case A(bs) => SitsInside(code, a, LayA(bs, q - a, |bs|));
    case C(n) => SitsInside(code, a, Node(CLOSE + n, q - a));
  }
  lemma NodeOf(code: seq<Byte>, a: nat, x: Piece, q: nat)
    requires Atomic(x) && Direct(code, a, x, q) && q < LIMIT
    ensures a + SizeP(x) <= |code| && Op(code, a) == TailOp(x) && NextOff(code, a) == q - a
  {
    hide LayP;
    SitsInside(code, a, LayP(x, q - a));
    ToTailAtom(code, a, x, q - a);
    SitsNode(code, a, TailOp(x), q - a);
  }

  /** A goal of one node: its opcode, and where its next offset leads. */
  lemma NodeView(code: seq<Byte>, a: nat, t: Goal, k: Todo)
    requires Runs(code, a, Cons(t, k)) && Plain(Cons(t, k)) && WfTodo(Cons(t, k)) && OneNode(t) && Small(code)
    ensures a + 3 <= |code| && Op(code, a) == OpOf(Cons(t, k)) && 3 <= NextOff(code, a)
    ensures Leads(code, a + NextOff(code, a), k)
  {
    hide LayP, Sits, Leads, Runs;
    var q := Split(code, a, t, k);
    Inside(code, a, Cons(t, k));
    Inside(code, q, k);
    match t
    case C(n) => SitsNode(code, a, CLOSE + n, q - a);
    case B(ps) => SitsNode(code, a, NOTHING, q - a);
    case P(x) =>
      if Atomic(x) {
        NodeOf(code, a, x, q);
      } else {
        RepeatParts(code, a, x, q);
      }
  }

  lemma RepeatParts(code: seq<Byte>, a: nat, x: Piece, q: nat)
    requires (x.Star? || x.Plus?) && SimpleP(x.x) && AtGoal(code, a, P(x), q) && q < LIMIT
    ensures a + 3 + SizeP(x.x) <= q
    ensures a + 3 + SizeP(x.x) <= |code| && Sits(code, a + 3, LayP(x.x, 0))
    ensures Op(code, a) == (if x.Star? then STAR else PLUS) && NextOff(code, a) == q - a
  {
    hide Sits;
    var op := if x.Star? then STAR else PLUS;
    assert Sits(code, a, Node(op, q - a) + LayP(x.x, 0));
    SitsParts(code, a, Node(op, q - a), LayP(x.x, 0));
    SitsNode(code, a, op, q - a);
    SitsInside(code, a, Node(op, q - a) + LayP(x.x, 0));
  }

  /** The operand string of a class or a literal. */
  lemma OperandView(code: seq<Byte>, a: nat, x: Piece, k: int)
    requires Sits(code, a, LayP(x, k))
    ensures x.AnyOf? ==> Sits(code, a + 3, x.chars + [0])
    ensures x.AnyBut? ==> Sits(code, a + 3, x.chars + [0])
    ensures x.Exact? ==> Sits(code, a + 3, x.str + [0])
  {
    hide Sits, Node;
    match x
    case AnyOf(cs) => FirstNode(code, a, ANYOF, k, cs);
    case AnyBut(cs) => FirstNode(code, a, ANYBUT, k, cs);
    case Exact(str) => FirstNode(code, a, EXACTLY, k, str);
    case _ =>
  }

  lemma GroupView(code: seq<Byte>, a: nat, n: nat, bs: seq<Branch>, k: Todo)
    requires Runs(code, a, Cons(P(Group(n, bs)), k)) && WfTodo(Cons(P(Group(n, bs)), k)) && Small(code)
    ensures a + 3 <= |code| && Op(code, a) == OPEN + n && NextOff(code, a) == 3
    ensures Runs(code, a + 3, Cons(A(bs), Cons(C(n), k)))
  {
    hide LayP, LayA, Sits, Leads;
    var q := Split(code, a, P(Group(n, bs)), k);
    Inside(code, q, k);
    ToTailGroup(code, a, n, bs, q - a);
    SitsNode(code, a, OPEN + n, 3);
    var m := a + 3 + SizeA(bs);
    assert AtGoal(code, m, C(n), q);
    assert Runs(code, m, Cons(C(n), k));
    assert Leads(code, m, Cons(C(n), k)) by { RunsLeads(code, m, Cons(C(n), k)); }
    assert AtGoal(code, a + 3, A(bs), m);
  }

  lemma RunsLeads(code: seq<Byte>, a: nat, todo: Todo)
    requires Runs(code, a, todo)
    ensures Leads(code, a, todo)
  {
  }

  // ---- choices ----

  /** scan is a BRANCH; the nodes its chain goes over carry out alts in turn. */
  ghost predicate Chain(code: seq<Byte>, scan: nat, alts: seq<Todo>)
    decreases |alts|
  {
    && alts != [] && scan + 3 <= |code| && Op(code, scan) == BRANCH
    && Leads(code, scan + 3, alts[0])
    && 3 <= NextOff(code, scan) && scan + NextOff(code, scan) + 3 <= |code|
    && if |alts| == 1 then Op(code, scan + NextOff(code, scan)) != BRANCH
       else Chain(code, scan + NextOff(code, scan), alts[1..])
  }

  predicate WfAlts(alts: seq<Todo>, w: nat) {
    forall k :: 0 <= k < |alts| ==> WfTodo(alts[k]) && Weight(alts[k]) < w
  }

  /** The first of alts that succeeds. */
  function FirstOf(alts: seq<Todo>, s: Text, i: nat): Outcome
    requires forall k :: 0 <= k < |alts| ==> WfTodo(alts[k])
    requires i <= |s|
  {
    if alts == [] then NoMatch else OrElse(Exec(alts[0], s, i), FirstOf(alts[1..], s, i))
  }

  lemma Chain1(code: seq<Byte>, scan: nat, todo: Todo, off: nat)
    requires Sits(code, scan, Node(BRANCH, off)) && 3 <= off < LIMIT && Leads(code, scan + 3, todo)
    requires scan + off + 3 <= |code| && Op(code, scan + off) != BRANCH
    ensures Chain(code, scan, [todo])
  {
    SitsNode(code, scan, BRANCH, off);
  }

  lemma Chain2(code: seq<Byte>, scan: nat, todo: Todo, off: nat, alts: seq<Todo>)
    requires Sits(code, scan, Node(BRANCH, off)) && 3 <= off < LIMIT && Leads(code, scan + 3, todo)
    requires Chain(code, scan + off, alts)
    ensures Chain(code, scan, [todo] + alts)
  {
    SitsNode(code, scan, BRANCH, off);
    assert ([todo] + alts)[1..] == alts;
  }

  /** The empty alternative that ends x*, x+ and x?. */
  lemma EmptyAlt(code: seq<Byte>, scan: nat, k: Todo, q: nat)
    requires Sits(code, scan, Node(BRANCH, 3)) && Sits(code, scan + 3, Node(NOTHING, q - scan - 3))
    requires scan + 6 <= q < LIMIT && Leads(code, q, k)
    ensures Chain(code, scan, [k]) && Leads(code, scan + 3, k)
  {
    hide Leads, Sits;
    Skip(code, scan + 3, q - scan - 3, k);
    SitsNode(code, scan + 3, NOTHING, q - scan - 3);
    SitsInside(code, scan + 3, Node(NOTHING, q - scan - 3));
    Chain1(code, scan, k, 3);
  }

  lemma StarView(code: seq<Byte>, a: nat, y: Piece, k: Todo)
    requires !SimpleP(y) && WfP(Star(y)) && WfTodo(k) && Small(code) && Runs(code, a, Cons(P(Star(y)), k))
    ensures Chain(code, a, [Cons(P(y), Cons(P(Star(y)), k)), k])
  {
    hide LayP, Sits, Leads, Runs, Chain;
    var todo := Cons(P(Star(y)), k);
    var n := SizeP(y);
    var q := Split(code, a, P(Star(y)), k);
    Inside(code, q, k);
    if Direct(code, a, Star(y), q) {
      SitsStar(code, a, y, q - a);
      EmptyAlt(code, a + n + 6, k, q);
      Loop(code, a + n + 3, n + 3, todo);
      Join(code, a + 3, P(y), todo, a + n + 3);
      Chain2(code, a, Cons(P(y), todo), n + 6, [k]);
      assert [Cons(P(y), todo)] + [k] == [Cons(P(y), todo), k];
    } else {
      SitsPlus(code, a - n, y, q - a + n);
      EmptyAlt(code, a + 6, k, q);
      RunsLeads(code, a, todo);
      Join(code, a - n, P(y), todo, a);
      Loop(code, a + 3, n + 3, Cons(P(y), todo));
      Chain2(code, a, Cons(P(y), todo), 6, [k]);
      assert [Cons(P(y), todo)] + [k] == [Cons(P(y), todo), k];
    }
  }

  lemma OptView(code: seq<Byte>, a: nat, y: Piece, k: Todo)
    requires WfP(Opt(y)) && WfTodo(k) && Small(code) && Runs(code, a, Cons(P(Opt(y)), k))
    ensures Chain(code, a, [Cons(P(y), k), k])
  {
    hide LayP, Sits, Leads, Runs, Chain;
    var n := SizeP(y);
    var q := Split(code, a, P(Opt(y)), k);
    Inside(code, q, k);
    SitsOpt(code, a, y, q - a);
    EmptyAlt(code, a + n + 3, k, q);
    Join(code, a + 3, P(y), k, a + n + 6);
    Chain2(code, a, Cons(P(y), k), n + 3, [k]);
    assert [Cons(P(y), k)] + [k] == [Cons(P(y), k), k];
  }

  /** What follows the alternatives of a group, or of the whole pattern, is no BRANCH. */
  lemma NoBranchAfter(code: seq<Byte>, q: nat, k: Todo)
    requires (k.Nil? || k.t.C?) && Leads(code, q, k) && Small(code) && WfTodo(k)
    ensures q + 3 <= |code| && Op(code, q) != BRANCH
  {
    hide Sits;
    Inside(code, q, k);
    if Runs(code, q, k) {
      if k.Nil? {
        SitsNode(code, q, END, 0);
      } else {
        NodeView(code, q, k.t, k.k);
      }
    }
  }

  function AltsOf(bs: seq<Branch>, k: Todo): (r: seq<Todo>)
    ensures |r| == |bs|
  {
    if bs == [] then [] else [Cons(B(bs[0].ps), k)] + AltsOf(bs[1..], k)
  }

  lemma {:induction false} AltsView(code: seq<Byte>, a: nat, bs: seq<Branch>, k: Todo)
    requires bs != [] && WfA(bs) && WfTodo(k) && Small(code) && Runs(code, a, Cons(A(bs), k))
    ensures Chain(code, a, AltsOf(bs, k))
    decreases bs
  {
    hide LayB, LayA, Sits, Leads, Chain, Runs;
    var q := Split(code, a, A(bs), k);
    Inside(code, q, k);
    NoBranchAfter(code, q, k);
    var n := 3 + SizeB(bs[0].ps);
    var first := Cons(B(bs[0].ps), k);
    AltHead(code, a, bs, q - a);
    Join(code, a + 3, B(bs[0].ps), k, q);
    if |bs| == 1 {
      Chain1(code, a, first, q - a);
      assert AltsOf(bs, k) == [first] + AltsOf(bs[1..], k) && bs[1..] == [];
      assert [first] + [] == [first];
    } else {
      JoinAlts(code, a + n, bs[1..], k, q);
      AltsView(code, a + n, bs[1..], k);
      Chain2(code, a, first, n, AltsOf(bs[1..], k));
    }
  }

  lemma JoinAlts(code: seq<Byte>, a: nat, bs: seq<Branch>, k: Todo, q: nat)
    requires AtGoal(code, a, A(bs), q) && Leads(code, q, k) && (k.Nil? || k.t.C?)
    ensures Runs(code, a, Cons(A(bs), k))
  {
  }

  lemma AltHead(code: seq<Byte>, a: nat, bs: seq<Branch>, e: nat)
    requires bs != [] && SizeA(bs) <= e && Sits(code, a, LayA(bs, e, |bs|))
    ensures var n := 3 + SizeB(bs[0].ps);
      && Sits(code, a, Node(BRANCH, if |bs| == 1 then e else n)) && Sits(code, a + 3, LayB(bs[0].ps, e - 3))
      && (|bs| > 1 ==> n + SizeA(bs[1..]) <= e && Sits(code, a + n, LayA(bs[1..], e - n, |bs| - 1)))
  {
    hide LayB, Sits, Node;
    var n := 3 + SizeB(bs[0].ps);
    var N := Node(BRANCH, if |bs| == 1 then e else n);
    SitsParts(code, a, N + LayB(bs[0].ps, e - 3), LayA(bs[1..], Tail(e, n), |bs| - 1));
    SitsParts(code, a, N, LayB(bs[0].ps, e - 3));
  }

  /** A BRANCH node offers alternatives, each lighter than the goal it begins, that come
      to the same when tried in order. */
  lemma ChoiceView(code: seq<Byte>, a: nat, todo: Todo, s: Text, i: nat) returns (alts: seq<Todo>)
    requires todo.Cons? && WfTodo(todo) && Plain(todo) && Runs(code, a, todo) && Small(code) && i <= |s|
    requires OpOf(todo) == BRANCH
    ensures Chain(code, a, alts) && WfAlts(alts, Weight(todo)) && FirstOf(alts, s, i) == Exec(todo, s, i)
  {
    hide Chain, Runs;
    var k := todo.k;
    if todo.t.A? {
      var bs := todo.t.bs;
      AltsView(code, a, bs, k);
      AltsInOrder(bs, k, s, i);
      alts := AltsOf(bs, k);
    } else if todo.t.x.Star? {
      var y := todo.t.x.x;
      StarView(code, a, y, k);
      alts := [Cons(P(y), todo), k];
      TwoAlts(Cons(P(y), todo), k, s, i);
    } else {
      var y := todo.t.x.x;
      OptView(code, a, y, k);
      alts := [Cons(P(y), k), k];
      TwoAlts(Cons(P(y), k), k, s, i);
    }
  }

  lemma TwoAlts(a: Todo, b: Todo, s: Text, i: nat)
    requires WfTodo(a) && WfTodo(b) && i <= |s|
    ensures FirstOf([a, b], s, i) == OrElse(Exec(a, s, i), Exec(b, s, i))
  {
    hide Exec;
    assert [a, b][1..] == [b] && [b][1..] == [];
    assert FirstOf([b], s, i) == OrElse(Exec(b, s, i), NoMatch);
  }

  lemma {:induction false} AltsInOrder(bs: seq<Branch>, k: Todo, s: Text, i: nat)
    requires bs != [] && WfA(bs) && WfTodo(k) && i <= |s|
    ensures WfAlts(AltsOf(bs, k), Weight(Cons(A(bs), k)))
    ensures FirstOf(AltsOf(bs, k), s, i) == Exec(Cons(A(bs), k), s, i)
    decreases bs
  {
    var first := Cons(B(bs[0].ps), k);
    if |bs| == 1 {
      assert bs[1..] == [] && AltsOf(bs, k) == [first];
      assert [first][1..] == [];
    } else {
      AltsInOrder(bs[1..], k, s, i);
      assert AltsOf(bs, k)[1..] == AltsOf(bs[1..], k);
    }
  }
}

module RegexMatcher {
  import opened RegexSyntax
  import opened RegexLayout
  import opened RegexMeaning
  import opened RegexCaptures
  import opened RegexCode

  /** No capture. */
  const NULL := -1

  // ---- repeating something simple ----

  /** How often the one-character piece y matches from i on, at most. */
  function MaxReps(y: Piece, s: Text, i: nat): (n: nat)
    requires SimpleP(y) && i <= |s|
    ensures i + n <= |s|
    decreases |s| - i
  {
    if Atom(y, s, i) then 1 + MaxReps(y, s, i + 1) else 0
  }

  /** What k makes of the positions from hi down to lo. */
  function TryDown(k: Todo, s: Text, lo: int, hi: int): Outcome
    requires WfTodo(k) && 0 <= lo && hi <= |s|
    decreases hi - lo
  {
    if lo > hi then NoMatch else OrElse(Exec(k, s, hi), TryDown(k, s, lo, hi - 1))
  }

  lemma {:induction false} TryDownSplit(k: Todo, s: Text, lo: nat, hi: int)
    requires WfTodo(k) && lo <= hi <= |s|
    ensures TryDown(k, s, lo, hi) == OrElse(TryDown(k, s, lo + 1, hi), Exec(k, s, lo))
    decreases hi - lo
  {
    hide Exec;
    if lo < hi {
      TryDownSplit(k, s, lo, hi - 1);
    }
  }

  /** Trying the longest repetition first, then backing up one character at a time, is the
      search for x* of a one-character x. */
  lemma {:induction false} StarIsDown(y: Piece, k: Todo, s: Text, i: nat)
    requires SimpleP(y) && WfP(y) && WfTodo(k) && i <= |s|
    ensures Exec(Cons(P(Star(y)), k), s, i) == TryDown(k, s, i, i + MaxReps(y, s, i))
    decreases |s| - i
  {
    StarUnrolls(y, k, s, i);
    if Atom(y, s, i) {
      StarIsDown(y, k, s, i + 1);
      TryDownSplit(k, s, i, i + MaxReps(y, s, i));
    } else {
      TryDownSplit(k, s, i, i);
    }
  }

  lemma StarUnrolls(y: Piece, k: Todo, s: Text, i: nat)
    requires SimpleP(y) && WfP(y) && WfTodo(k) && i <= |s|
    ensures var more := if Atom(y, s, i) then Exec(Cons(P(Star(y)), k), s, i + 1) else NoMatch;
      Exec(Cons(P(Star(y)), k), s, i) == OrElse(more, Exec(k, s, i))
  {
    var todo := Cons(P(Star(y)), k);
    assert Exec(Cons(P(y), todo), s, i) == if Atom(y, s, i) then Exec(todo, s, i + Uses(y)) else NoMatch;
  }

  lemma PlusIsDown(y: Piece, k: Todo, s: Text, i: nat)
    requires SimpleP(y) && WfP(y) && WfTodo(k) && i <= |s|
    ensures Exec(Cons(P(Plus(y)), k), s, i) == TryDown(k, s, i + 1, i + MaxReps(y, s, i))
  {
    var k' := Cons(P(Star(y)), k);
    assert Exec(Cons(P(Plus(y)), k), s, i) == Exec(Cons(P(y), k'), s, i);
    assert Exec(Cons(P(y), k'), s, i) == if Atom(y, s, i) then Exec(k', s, i + Uses(y)) else NoMatch;
    if Atom(y, s, i) {
      StarIsDown(y, k, s, i + 1);
    }
  }

  /** A literal node: nothing matches from here unless its first character is next. */
  lemma LiteralFirst(code: seq<Byte>, a: nat, todo: Todo, s: Text, i: nat)
    requires WfTodo(todo) && Leads(code, a, todo) && Small(code) && i <= |s|
    requires a + 3 <= |code| && Op(code, a) == EXACTLY
    ensures a + 3 < |code| && code[a + 3] != 0
    ensures Exec(todo, s, i).Match? ==> At(s, i) == code[a + 3]
  {
    hide Sits, LayP;
    assert Runs(code, a, todo);
    var todo' := Unfold(code, a, todo, s, i);
    OpView(code, a, todo');
    ExactHead(code, a, todo', s, i);
  }

  lemma ExactHead(code: seq<Byte>, a: nat, todo: Todo, s: Text, i: nat)
    requires WfTodo(todo) && Runs(code, a, todo) && Plain(todo) && Small(code) && i <= |s|
    requires OpOf(todo) == EXACTLY
    ensures a + 3 < |code| && code[a + 3] != 0
    ensures Exec(todo, s, i).Match? ==> At(s, i) == code[a + 3]
  {
    hide Sits, LayP, Leads;
    var x := todo.t.x;
    assert x.Exact?;
    var q := Split(code, a, todo.t, todo.k);
    OperandView(code, a, x, q - a);
    StringAt(code, a + 3, x.str);
    if Exec(todo, s, i).Match? {
      assert Atom(x, s, i);
      assert s[i] == s[i..i + |x.str|][0] == x.str[0];
    }
  }

  /** An operand string as the bytes of the program. */
  lemma StringAt(code: seq<Byte>, p: nat, str: seq<Byte>)
    requires Sits(code, p, str + [0])
    ensures p + |str| < |code| && code[p..p + |str|] == str && code[p + |str|] == 0
    ensures forall k :: 0 <= k < |str| ==> code[p + k] == str[k]
  {
    var F := code[p..p + |str| + 1];
    assert F == str + [0];
    assert code[p..p + |str|] == F[..|str|] == str;
    assert forall k :: 0 <= k < |str| ==> code[p + k] == F[k];
    assert code[p + |str|] == F[|str|];
  }

  lemma OpView(code: seq<Byte>, a: nat, todo: Todo)
    requires WfTodo(todo) && Runs(code, a, todo) && Plain(todo) && Small(code)
    ensures a + 3 <= |code| && Op(code, a) == OpOf(todo)
  {
    hide Sits, LayP, Leads, Chain, Runs;
    Inside(code, a, todo);
    if todo.Nil? {
      EndView(code, a);
    } else if OneNode(todo.t) {
      NodeView(code, a, todo.t, todo.k);
    } else if todo.t.P? && todo.t.x.Group? {
      GroupView(code, a, todo.t.x.no, todo.t.x.alts, todo.k);
    } else {
      var alts := ChoiceView(code, a, todo, [], 0);
      ChainHead(code, a, alts);
    }
  }

  lemma EndView(code: seq<Byte>, a: nat)
    requires Runs(code, a, Nil)
    ensures a + 3 <= |code| && Op(code, a) == END
  {
    SitsNode(code, a, END, 0);
  }

  lemma ChainHead(code: seq<Byte>, a: nat, alts: seq<Todo>)
    requires Chain(code, a, alts)
    ensures a + 3 <= |code| && Op(code, a) == BRANCH
  {
  }

  /** strchr over an operand string. */
  predicate InString(code: seq<Byte>, p: nat, c: Byte)
    requires p <= |code|
    decreases |code| - p
  {
    p < |code| && code[p] != 0 && (code[p] == c || InString(code, p + 1, c))
  }

  lemma {:induction false} InStringIs(code: seq<Byte>, p: nat, str: seq<Byte>, c: Byte)
    requires Sits(code, p, str + [0]) && 0 !in str
    ensures InString(code, p, c) <==> c in str
    decreases |str|
  {
    StringAt(code, p, str);
    if str != [] {
      assert str[0] in str && forall d :: d in str[1..] ==> d in str;
      StringAt'(code, p, str);
      InStringIs(code, p + 1, str[1..], c);
      assert c in str <==> c == str[0] || c in str[1..];
    }
  }

  lemma StringAt'(code: seq<Byte>, p: nat, str: seq<Byte>)
    requires str != [] && Sits(code, p, str + [0])
    ensures Sits(code, p + 1, str[1..] + [0])
  {
    assert str + [0] == [str[0]] + (str[1..] + [0]);
    SitsParts(code, p, [str[0]], str[1..] + [0]);
  }

  /** strlen of an operand string. */
  function StrLen(code: seq<Byte>, p: nat): nat
    requires p <= |code|
    decreases |code| - p
  {
    if p < |code| && code[p] != 0 then 1 + StrLen(code, p + 1) else 0
  }

  lemma {:induction false} StrLenIs(code: seq<Byte>, p: nat, str: seq<Byte>)
    requires Sits(code, p, str + [0]) && 0 !in str
    ensures StrLen(code, p) == |str|
    decreases |str|
  {
    StringAt(code, p, str);
    if str != [] {
      assert str[0] in str && forall d :: d in str[1..] ==> d in str;
      StringAt'(code, p, str);
      StrLenIs(code, p + 1, str[1..]);
    }
  }

  /** regnext: the node that the offset stored at scan leads to, NULL for none. */
  function RegNext(code: seq<Byte>, scan: nat): int
    requires scan + 3 <= |code|
  {
    var offset := NextOff(code, scan);
    if offset == 0 then NULL else if Op(code, scan) == BACK then scan - offset else scan + offset
  }

  /** A run of the matcher over one program and one subject string. */
  class Matcher {
    const code: seq<Byte>
    const subject: Text
    var reginput: int
    var startp: array<int>
    var endp: array<int>

    ghost predicate Valid()
      reads `startp, `endp
    {
      startp != endp && startp.Length == NSUBEXP && endp.Length == NSUBEXP && Small(code)
    }

    /** No capture has been set. */
    ghost predicate Clear()
      requires Valid()
      reads `startp, `endp, startp, endp
    {
      forall n :: 0 <= n < NSUBEXP ==> startp[n] == NULL && endp[n] == NULL
    }

    /** The captures are the last boundaries of each group in tr. */
    ghost predicate Captured(tr: seq<Event>)
      requires Valid()
      reads `startp, `endp, startp, endp
    {
      forall n: nat :: n < NSUBEXP ==> startp[n] == LastOpen(tr, n) && endp[n] == LastClose(tr, n)
    }

    /** What a call that started with r to be found has done. */
    ghost predicate Did(ok: bool, r: Outcome)
      requires Valid()
      reads this, startp, endp
    {
      && (ok <==> r.Match?)
      && (r.Match? ==> reginput == r.end && Captured(r.tr))
      && (r.NoMatch? ==> Clear())
    }

    constructor (code: seq<Byte>, subject: Text, startp: array<int>, endp: array<int>)
      requires startp != endp && startp.Length == NSUBEXP && endp.Length == NSUBEXP && Small(code)
      ensures Valid() && this.code == code && this.subject == subject && this.startp == startp && this.endp == endp
    {
      this.code, this.subject, this.startp, this.endp := code, subject, startp, endp;
      reginput := 0;
    }

    /** A node that is matched without recursion. */
    method MatchAtom(scan: nat, ghost x: Piece, ghost k: Todo) returns (ok: bool)
      requires Valid() && 0 <= reginput <= |subject| && Atomic(x) && WfP(x) && WfTodo(k)
      requires Runs(code, scan, Cons(P(x), k)) && scan + 3 <= |code| && Op(code, scan) == TailOp(x)
      modifies `reginput
      ensures ok <==> Atom(x, subject, old(reginput))
      ensures 0 <= reginput <= |subject|
      ensures ok ==> reginput == old(reginput) + Uses(x)
    {
      hide LayP, Leads, Sits, Exec;
      ghost var q := Split(code, scan, P(x), k);
      OperandView(code, scan, x, q - scan);
      var op := code[scan];
      if op == BOL {
        return reginput == 0;
      } else if op == EOL {
        return At(subject, reginput) == 0;
      } else if op == WORDA {
        if !IsWord(At(subject, reginput)) {
          return false;
        }
        return !(reginput > 0 && IsWord(At(subject, reginput - 1)));
      } else if op == WORDZ {
        return !IsWord(At(subject, reginput));
      } else if op == ANY {
        if At(subject, reginput) == 0 {
          return false;
        }
        reginput := reginput + 1;
        return true;
      } else if op == EXACTLY {
        ok := MatchExactly(scan + 3, x.str);
        return;
      } else if op == ANYOF {
        InStringIs(code, scan + 3, x.chars, At(subject, reginput));
        if At(subject, reginput) == 0 || !InString(code, scan + 3, At(subject, reginput)) {
          return false;
        }
        reginput := reginput + 1;
        return true;
      } else {
        InStringIs(code, scan + 3, x.chars, At(subject, reginput));
        if At(subject, reginput) == 0 || InString(code, scan + 3, At(subject, reginput)) {
          return false;
        }
        reginput := reginput + 1;
        return true;
      }
    }

    method MatchExactly(opnd: nat, ghost str: seq<Byte>) returns (ok: bool)
      requires 0 <= reginput <= |subject| && opnd <= |code|
      requires str != [] && 0 !in str && Sits(code, opnd, str + [0])
      modifies `reginput
      ensures ok <==> Atom(Exact(str), subject, old(reginput))
      ensures 0 <= reginput <= |subject|
      ensures ok ==> reginput == old(reginput) + |str|
    {
      StringAt(code, opnd, str);
      assert str[0] in str;
      // The first character is compared before the rest.
      if code[opnd] != At(subject, reginput) {
        assert !Atom(Exact(str), subject, reginput) by {
          if reginput + |str| <= |subject| {
            assert subject[reginput..reginput + |str|][0] == subject[reginput];
          }
        }
        return false;
      }
      var len := StrLen(code, opnd);
      StrLenIs(code, opnd, str);
      if len > 1 && !(reginput + len <= |subject| && subject[reginput..reginput + len] == code[opnd..opnd + len]) {
        return false;
      }
      assert |str| == 1 ==> subject[reginput..reginput + 1] == [subject[reginput]] == str;
      reginput := reginput + len;
      return true;
    }

    /** regrepeat: how often a one-character operand matches in a row. */
    method RegRepeat(p: nat, ghost y: Piece) returns (count: nat)
      requires 0 <= reginput <= |subject| && SimpleP(y) && WfP(y) && Sits(code, p, LayP(y, 0)) && p + 3 <= |code|
      modifies `reginput
      ensures count == MaxReps(y, subject, old(reginput)) && reginput == old(reginput) + count <= |subject|
    {
      hide Sits, Exec, LayP;
      ToTailAtom(code, p, y, 0);
      SitsNode(code, p, TailOp(y), 0);
      OperandView(code, p, y, 0);
      if code[p] == ANY {
        AllReps(subject, reginput);
        count := |subject| - reginput;
      } else if code[p] == EXACTLY {
        count := RepeatExactly(p + 3, y.str);
      } else {
        count := RepeatClass(p + 3, code[p] == ANYOF, y);
      }
      reginput := reginput + count;
    }

    method RepeatExactly(opnd: nat, ghost str: seq<Byte>) returns (count: nat)
      requires 0 <= reginput <= |subject| && |str| == 1 && 0 !in str && Sits(code, opnd, str + [0])
      ensures count == MaxReps(Exact(str), subject, reginput)
    {
      StringAt(code, opnd, str);
      assert str[0] in str;
      var scan := reginput;
      count := 0;
      while code[opnd] == At(subject, scan)
        invariant reginput + count == scan <= |subject|
        invariant MaxReps(Exact(str), subject, reginput) == count + MaxReps(Exact(str), subject, scan)
        decreases |subject| - scan
      {
        assert subject[scan..scan + 1] == [subject[scan]] == str;
        count := count + 1;
        scan := scan + 1;
      }
      assert !Atom(Exact(str), subject, scan) by {
        if scan < |subject| { assert subject[scan..scan + 1][0] == subject[scan]; }
      }
    }

    /** The class, or its complement. */
    method RepeatClass(opnd: nat, of: bool, ghost y: Piece) returns (count: nat)
      requires 0 <= reginput <= |subject| && opnd <= |code|
      requires if of then y.AnyOf? && 0 !in y.chars && Sits(code, opnd, y.chars + [0])
        else y.AnyBut? && 0 !in y.chars && Sits(code, opnd, y.chars + [0])
      ensures count == MaxReps(y, subject, reginput)
    {
      hide Sits, InString;
      var scan := reginput;
      count := 0;
      InStringIs(code, opnd, y.chars, At(subject, scan));
      while At(subject, scan) != 0 && InString(code, opnd, At(subject, scan)) == of
        invariant reginput + count == scan <= |subject|
        invariant MaxReps(y, subject, reginput) == count + MaxReps(y, subject, scan)
        invariant InString(code, opnd, At(subject, scan)) <==> At(subject, scan) in y.chars
        decreases |subject| - scan
      {
        count := count + 1;
        scan := scan + 1;
        InStringIs(code, opnd, y.chars, At(subject, scan));
      }
    }

    /** regmatch - main matching routine; what the code at prog carries out is todo. */
    method RegMatch(prog: nat, ghost todo: Todo) returns (ok: bool)
      requires Valid() && Clear() && 0 <= reginput <= |subject| && WfTodo(todo) && Leads(code, prog, todo)
      modifies `reginput, startp, endp
      ensures Valid() && Did(ok, Exec(todo, subject, old(reginput)))
      decreases |subject| - reginput, Weight(todo), 1
    {
      hide Runs, Leads, Exec, Weight, Captured, Chain, Sits;
      ghost var i0 := reginput;
      var scan: int := prog;
      ghost var cur := todo;
      Inside(code, scan, cur);
      while true
        invariant 0 <= scan && scan + 3 <= |code|
        invariant Valid() && Clear() && i0 <= reginput <= |subject| && WfTodo(cur) && Leads(code, scan, cur)
        invariant Exec(todo, subject, i0) == Exec(cur, subject, reginput)
        invariant reginput == i0 ==> Weight(cur) <= Weight(todo)
        modifies `reginput, startp, endp
        decreases |subject| - reginput, Weight(cur), SkipRank(code, scan, cur)
      {
        var next := RegNext(code, scan);
        var op := code[scan];
        ghost var runs := Runs(code, scan, cur);
        if runs {
          cur := Unfold(code, scan, cur, subject, reginput);
          OpView(code, scan, cur);
        } else {
          SkipView(code, scan, cur);
        }
        if op == NOTHING || op == BACK {
          if runs {
            EmptyStep(code, scan, cur, subject, reginput);
            cur := cur.k;
          }
        } else if IsAtomOp(op) {
          AtomStep(code, scan, cur, subject, reginput);
          var m := MatchAtom(scan, cur.t.x, cur.k);
          if !m {
            return false;
          }
          cur := cur.k;
        } else if OPEN < op < OPEN + NSUBEXP {
          ok := MatchOpen(scan, next, cur);
          return;
        } else if CLOSE < op < CLOSE + NSUBEXP {
          ok := MatchClose(scan, next, cur);
          return;
        } else if op == BRANCH {
          ghost var alts := ChoiceView(code, scan, cur, subject, reginput);
          ChainNext(code, scan, alts);
          if code[next] != BRANCH {
            next := scan + 3;
            OneAlt(alts, subject, reginput);
            cur := alts[0];
          } else {
            ok := MatchBranch(scan, alts, Weight(cur));
            return;
          }
        } else if op == STAR || op == PLUS {
          ok := MatchRepeat(scan, next, cur);
          return;
        } else {
          assert op == END;
          ExecNil(subject, reginput);
          NothingCaptured();
          return true;
        }
        scan := next;
        Inside(code, scan, cur);
      }
    }

    lemma NothingCaptured()
      requires Valid() && Clear()
      ensures Captured([])
    {
    }

    /** An OPEN node: what follows decides; the start is kept unless a later run set it. */
    method MatchOpen(scan: nat, next: int, ghost cur: Todo) returns (ok: bool)
      requires Valid() && Clear() && 0 <= reginput <= |subject| && WfTodo(cur) && Plain(cur) && Runs(code, scan, cur)
      requires cur.Cons? && cur.t.P? && cur.t.x.Group? && scan + 3 <= |code| && next == RegNext(code, scan)
      modifies `reginput, startp, endp
      ensures Valid() && Did(ok, Exec(cur, subject, old(reginput)))
      decreases |subject| - reginput, Weight(cur), 0
    {
      hide Runs, Leads, Exec, Weight, LastOpen, LastClose;
      ghost var n, bs, k := cur.t.x.no, cur.t.x.alts, cur.k;
      ghost var todo := Cons(A(bs), Cons(C(n), k));
      GroupView(code, scan, n, bs, k);
      RunsLeads(code, scan + 3, todo);
      LighterGroup(n, bs, k);
      ExecGroup(n, bs, k, subject, reginput);
      var no := code[scan] - OPEN;
      var save := reginput;
      ok := RegMatch(next, todo);
      if ok {
        Prepend(Open(no, save), Exec(todo, subject, save).tr);
        if startp[no] == NULL {
          startp[no] := save;
        }
      }
    }

    method MatchClose(scan: nat, next: int, ghost cur: Todo) returns (ok: bool)
      requires Valid() && Clear() && 0 <= reginput <= |subject| && WfTodo(cur) && Plain(cur) && Runs(code, scan, cur)
      requires cur.Cons? && cur.t.C? && scan + 3 <= |code| && next == RegNext(code, scan)
      modifies `reginput, startp, endp
      ensures Valid() && Did(ok, Exec(cur, subject, old(reginput)))
      decreases |subject| - reginput, Weight(cur), 0
    {
      hide Runs, Leads, Exec, Weight, LastOpen, LastClose;
      ghost var n, k := cur.t.no, cur.k;
      NodeView(code, scan, cur.t, k);
      Lighter(cur.t, k);
      ExecClose(n, k, subject, reginput);
      var no := code[scan] - CLOSE;
      var save := reginput;
      ok := RegMatch(next, k);
      if ok {
        Prepend(Close(no, save), Exec(k, subject, save).tr);
        if endp[no] == NULL {
          endp[no] := save;
        }
      }
    }

    /** A chain of BRANCH nodes: try each operand in turn. */
    method MatchBranch(first: nat, ghost alts: seq<Todo>, ghost w: nat) returns (ok: bool)
      requires Valid() && Clear() && 0 <= reginput <= |subject|
      requires Chain(code, first, alts) && WfAlts(alts, w)
      modifies `reginput, startp, endp
      ensures Valid() && Did(ok, FirstOf(alts, subject, old(reginput)))
      decreases |subject| - reginput, w, 0
    {
      hide Leads, Exec, Weight, Captured;
      var scan: int := first;
      ghost var rest := alts;
      ghost var i0 := reginput;
      while true
        invariant Valid() && Clear() && reginput == i0
        invariant 0 <= scan && Chain(code, scan, rest) && WfAlts(rest, w)
        invariant FirstOf(rest, subject, i0) == FirstOf(alts, subject, i0)
        modifies `reginput, startp, endp
        decreases |rest|
      {
        var save := reginput;
        ok := RegMatch(scan + 3, rest[0]);
        if ok {
          return true;
        }
        reginput := save;
        scan := RegNext(code, scan);
        rest := rest[1..];
        if scan == NULL || code[scan] != BRANCH {
          break;
        }
      }
      return false;
    }

    /** STAR and PLUS: as many as there are, then one less at a time, as long as what
        follows does not match. */
    method MatchRepeat(scan: nat, next: int, ghost cur: Todo) returns (ok: bool)
      requires Valid() && Clear() && 0 <= reginput <= |subject| && WfTodo(cur) && Plain(cur) && Runs(code, scan, cur)
      requires cur.Cons? && cur.t.P? && (cur.t.x.Star? || cur.t.x.Plus?) && SimpleP(cur.t.x.x)
      requires scan + 3 <= |code| && next == RegNext(code, scan)
      modifies `reginput, startp, endp
      ensures Valid() && Did(ok, Exec(cur, subject, old(reginput)))
      decreases |subject| - reginput, Weight(cur), 0
    {
      hide Runs, Leads, Exec, Weight, Captured, Sits, LayP, MaxReps;
      ghost var y, k := cur.t.x.x, cur.k;
      RepeatView(code, scan, cur.t.x, k);
      Lighter(cur.t, k);
      if cur.t.x.Star? { StarIsDown(y, k, subject, reginput); } else { PlusIsDown(y, k, subject, reginput); }
      // A literal that follows tells which character has to come next.
      var nextch: Byte := 0;
      if code[next] == EXACTLY {
        LiteralFirst(code, next, k, subject, reginput);
        nextch := code[next + 3];
      }
      var min := if code[scan] == STAR then 0 else 1;
      var save := reginput;
      var no: int := RegRepeat(scan + 3, y);
      while no >= min
        invariant Valid() && Clear() && min - 1 <= no && reginput == save + no <= |subject|
        invariant TryDown(k, subject, save + min, save + no) == Exec(cur, subject, save)
        modifies `reginput, startp, endp
        decreases no
      {
        // Only where that character comes next is it worth trying.
        if nextch != 0 {
          LiteralFirst(code, next, k, subject, reginput);
        }
        if nextch == 0 || At(subject, reginput) == nextch {
          ok := RegMatch(next, k);
          if ok {
            return true;
          }
        }
        // One repetition less.
        no := no - 1;
        reginput := save + no;
      }
      return false;
    }

  }

  lemma {:induction false} AllReps(s: Text, i: nat)
    requires i <= |s|
    ensures MaxReps(Any, s, i) == |s| - i
    decreases |s| - i
  {
    if i < |s| {
      AllReps(s, i + 1);
    }
  }

  predicate IsAtomOp(op: Byte) {
    BOL <= op <= ANYBUT || op == EXACTLY || op == WORDA || op == WORDZ
  }

  /** Nodes that are only passed over come before the one that begins the goal. */
  ghost function SkipRank(code: seq<Byte>, a: nat, todo: Todo): nat
    requires a + 3 <= |code|
  {
    if Runs(code, a, todo) then 0 else if Op(code, a) == BACK then 1 else |code| - a + 2
  }

  lemma SkipView(code: seq<Byte>, a: nat, todo: Todo)
    requires Leads(code, a, todo) && !Runs(code, a, todo) && WfTodo(todo)
    ensures a + 3 <= |code| && (Op(code, a) == NOTHING || Op(code, a) == BACK) && 0 < NextOff(code, a)
    ensures Op(code, a) == BACK ==> NextOff(code, a) <= a
    ensures var b := if Op(code, a) == BACK then a - NextOff(code, a) else a + NextOff(code, a);
      Leads(code, b, todo) && b + 3 <= |code| && SkipRank(code, b, todo) < SkipRank(code, a, todo)
  {
    hide Runs;
    var b := if Op(code, a) == BACK then a - NextOff(code, a) else a + NextOff(code, a);
    Inside(code, b, todo);
  }

  lemma Lighter(t: Goal, k: Todo)
    requires WfGoal(t) && WfTodo(k)
    ensures !Wide(t) ==> Weight(k) < Weight(Cons(t, k))
  {
  }

  lemma EmptyStep(code: seq<Byte>, a: nat, cur: Todo, s: Text, i: nat)
    requires WfTodo(cur) && Plain(cur) && Runs(code, a, cur) && Small(code) && i <= |s|
    requires OpOf(cur) == NOTHING || OpOf(cur) == BACK
    ensures cur.Cons? && a + 3 <= |code| && Op(code, a) == NOTHING && NextOff(code, a) > 0
    ensures Leads(code, a + NextOff(code, a), cur.k)
    ensures Weight(cur.k) < Weight(cur) && Exec(cur, s, i) == Exec(cur.k, s, i)
  {
    hide Runs, Leads;
    NodeView(code, a, cur.t, cur.k);
  }

  lemma AtomStep(code: seq<Byte>, a: nat, cur: Todo, s: Text, i: nat)
    requires WfTodo(cur) && Plain(cur) && Runs(code, a, cur) && Small(code) && i <= |s|
    requires IsAtomOp(OpOf(cur))
    ensures cur.Cons? && cur.t.P? && Atomic(cur.t.x) && a + 3 <= |code| && Op(code, a) == TailOp(cur.t.x)
    ensures NextOff(code, a) > 0 && Op(code, a) != BACK && Leads(code, a + NextOff(code, a), cur.k)
    ensures Uses(cur.t.x) == 0 ==> Weight(cur.k) < Weight(cur)
    ensures Exec(cur, s, i) == if Atom(cur.t.x, s, i) then Exec(cur.k, s, i + Uses(cur.t.x)) else NoMatch
  {
    hide Runs, Leads;
    NodeView(code, a, cur.t, cur.k);
  }

  lemma ChainNext(code: seq<Byte>, scan: nat, alts: seq<Todo>)
    requires Chain(code, scan, alts)
    ensures alts != [] && scan + 3 <= |code| && Op(code, scan) == BRANCH && Leads(code, scan + 3, alts[0])
    ensures NextOff(code, scan) > 0 && scan + NextOff(code, scan) + 3 <= |code|
    ensures Op(code, scan + NextOff(code, scan)) != BRANCH <==> |alts| == 1
  {
  }

  lemma OneAlt(alts: seq<Todo>, s: Text, i: nat)
    requires |alts| == 1 && WfTodo(alts[0]) && i <= |s|
    ensures FirstOf(alts, s, i) == Exec(alts[0], s, i)
  {
    hide Exec;
    assert FirstOf(alts[1..], s, i) == NoMatch;
  }

  lemma ExecNil(s: Text, i: nat)
    requires i <= |s|
    ensures Exec(Nil, s, i) == Match(i, [])
  {
  }

  lemma ExecGroup(n: nat, bs: seq<Branch>, k: Todo, s: Text, i: nat)
    requires WfP(Group(n, bs)) && WfTodo(k) && i <= |s|
    ensures Exec(Cons(P(Group(n, bs)), k), s, i) == Mark(Open(n, i), Exec(Cons(A(bs), Cons(C(n), k)), s, i))
  {
  }

  lemma ExecClose(n: nat, k: Todo, s: Text, i: nat)
    requires 1 <= n < NSUBEXP && WfTodo(k) && i <= |s|
    ensures Exec(Cons(C(n), k), s, i) == Mark(Close(n, i), Exec(k, s, i))
  {
  }

  /** What is set already stays. */
  function Later(known: int, now: bool, pos: int): int {
    if known != NULL then known else if now then pos else NULL
  }

  lemma Prepend(e: Event, tr: seq<Event>)
    ensures forall m: nat :: LastOpen([e] + tr, m) == Later(LastOpen(tr, m), e.Open? && e.no == m, e.pos)
    ensures forall m: nat :: LastClose([e] + tr, m) == Later(LastClose(tr, m), e.Close? && e.no == m, e.pos)
  {
    assert ([e] + tr)[1..] == tr;
  }

  lemma RepeatView(code: seq<Byte>, a: nat, x: Piece, k: Todo)
    requires WfTodo(Cons(P(x), k)) && Runs(code, a, Cons(P(x), k)) && Small(code)
    requires (x.Star? || x.Plus?) && SimpleP(x.x)
    ensures a + 6 <= |code| && Sits(code, a + 3, LayP(x.x, 0))
    ensures Op(code, a) == (if x.Star? then STAR else PLUS) && NextOff(code, a) > 0
    ensures Leads(code, a + NextOff(code, a), k) && a + NextOff(code, a) + 3 <= |code|
  {
    hide Leads, Sits, LayP, Runs;
    var q := Split(code, a, P(x), k);
    Inside(code, q, k);
    RepeatParts(code, a, x, q);
  }
}
