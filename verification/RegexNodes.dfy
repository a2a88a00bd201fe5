/** Where the nodes of a program are, and that every offset in it leads to one of them. */
module RegexNodes {
  import opened RegexSyntax
  import opened RegexLayout
  import opened RegexMeaning
  import opened RegexCode
  import opened RegexMatcher
  import opened Regexps

  /** The addresses of the nodes of piece x when its code is at a. */
  ghost function NodesP(x: Piece, a: nat): set<nat>
    decreases x
  {
    match x
    case Group(_, bs) => NodesA(bs, a + 3) + {a, a + 3 + SizeA(bs)}
    case Star(y) =>
      var n := SizeP(y);
      if SimpleP(y) then {a, a + 3} else NodesP(y, a + 3) + {a, a + n + 3, a + n + 6, a + n + 9}
    case Plus(y) =>
      var n := SizeP(y);
      if SimpleP(y) then {a, a + 3} else NodesP(y, a) + {a + n, a + n + 3, a + n + 6, a + n + 9}
    case Opt(y) =>
      var n := SizeP(y);
      NodesP(y, a + 3) + {a, a + n + 3, a + n + 6}
    case _ => {a}
  }

  ghost function NodesB(ps: seq<Piece>, a: nat): set<nat>
    decreases ps
  {
    if ps == [] then {a}
    else NodesP(ps[0], a) + if |ps| == 1 then {} else NodesB(ps[1..], a + SizeP(ps[0]))
  }

  ghost function NodesA(bs: seq<Branch>, a: nat): set<nat>
    decreases bs
  {
    if bs == [] then {} else {a} + NodesB(bs[0].ps, a + 3) + NodesA(bs[1..], a + 3 + SizeB(bs[0].ps))
  }

  /** All of a program's nodes. */
  ghost function NodesOf(bs: seq<Branch>): set<nat> {
    NodesA(bs, 1) + {1 + SizeA(bs)}
  }

  /** The node at p leads to one of nodes; it leads nowhere only if it ends the program or
      is the operand of a STAR or PLUS. */
  ghost predicate Lands(code: seq<Byte>, p: nat, nodes: set<nat>) {
    && p + 3 <= |code|
    && if RegNext(code, p) == NULL then Op(code, p) == END || (p >= 3 && (Op(code, p - 3) == STAR || Op(code, p - 3) == PLUS))
       else RegNext(code, p) in nodes
  }

  ghost predicate AllLand(code: seq<Byte>, some: set<nat>, nodes: set<nat>) {
    forall p :: p in some ==> Lands(code, p, nodes)
  }

  lemma LandMore(code: seq<Byte>, some: set<nat>, nodes: set<nat>, more: set<nat>)
    requires AllLand(code, some, nodes) && nodes <= more
    ensures AllLand(code, some, more)
  {
  }

  lemma LandBoth(code: seq<Byte>, some: set<nat>, other: set<nat>, nodes: set<nat>)
    requires AllLand(code, some, nodes) && AllLand(code, other, nodes)
    ensures AllLand(code, some + other, nodes)
  {
    hide Lands;
  }

  lemma LandTwo(code: seq<Byte>, some: set<nat>, p: nat, q: nat, nodes: set<nat>)
    requires AllLand(code, some, nodes) && Lands(code, p, nodes) && Lands(code, q, nodes)
    ensures AllLand(code, some + {p, q}, nodes)
  {
    hide Lands;
  }

  lemma LandThree(code: seq<Byte>, some: set<nat>, p: nat, q: nat, r: nat, nodes: set<nat>)
    requires AllLand(code, some, nodes) && Lands(code, p, nodes) && Lands(code, q, nodes) && Lands(code, r, nodes)
    ensures AllLand(code, some + {p, q, r}, nodes)
  {
    hide Lands;
  }

  lemma LandFour(code: seq<Byte>, some: set<nat>, p: nat, q: nat, r: nat, t: nat, nodes: set<nat>)
    requires AllLand(code, some, nodes)
    requires Lands(code, p, nodes) && Lands(code, q, nodes) && Lands(code, r, nodes) && Lands(code, t, nodes)
    ensures AllLand(code, some + {p, q, r, t}, nodes)
  {
    hide Lands;
  }

  lemma One(code: seq<Byte>, p: nat, nodes: set<nat>)
    requires Lands(code, p, nodes)
    ensures AllLand(code, {p}, nodes)
  {
  }

  lemma NodeLands(code: seq<Byte>, a: nat, op: Byte, off: nat, nodes: set<nat>)
    requires Sits(code, a, Node(op, off)) && 0 < off < LIMIT
    requires if op == BACK then off <= a && a - off in nodes else a + off in nodes
    ensures Lands(code, a, nodes)
  {
    SitsInside(code, a, Node(op, off));
    SitsNode(code, a, op, off);
  }

  lemma {:induction false} FirstIsNode(x: Piece, a: nat)
    requires WfP(x)
    ensures a in NodesP(x, a)
    decreases x
  {
    if x.Plus? && !SimpleP(x.x) {
      FirstIsNode(x.x, a);
    }
  }

  lemma FirstOfBranch(ps: seq<Piece>, a: nat)
    requires WfB(ps)
    ensures a in NodesB(ps, a)
  {
    if ps != [] {
      FirstIsNode(ps[0], a);
    }
  }

  lemma {:induction false} LandsP(code: seq<Byte>, a: nat, x: Piece, q: nat)
    requires WfP(x) && Direct(code, a, x, q) && q < LIMIT
    ensures AllLand(code, NodesP(x, a), NodesP(x, a) + {q})
    decreases x
  {
    hide LayP, Sits, Lands, SizeP, SizeA, LayA, AllLand, NodesP, NodesA, Direct, Node;
    match x
    case Group(n, bs) =>
      GroupAt(code, a, n, bs, q);
      LandsA(code, a + 3, bs, a + 3 + SizeA(bs));
      LandsGroup(code, a, n, a + 3 + SizeA(bs), NodesA(bs, a + 3), q);
      NodesGroup(n, bs, a);
    case Star(y) =>
      if SimpleP(y) {
        LandsSimple(code, a, x, q);
      } else {
        StarAt(code, a, y, q);
        LandsP(code, a + 3, y, a + 3 + SizeP(y));
        LandsStar(code, a, SizeP(y), NodesP(y, a + 3), q);
        NodesStar(y, a);
      }
    case Plus(y) =>
      if SimpleP(y) {
        LandsSimple(code, a, x, q);
      } else {
        PlusAt(code, a, y, q);
        LandsP(code, a, y, a + SizeP(y));
        FirstIsNode(y, a);
        LandsPlus(code, a, SizeP(y), NodesP(y, a), q);
        NodesPlus(y, a);
      }
    case Opt(y) =>
      OptAt(code, a, y, q);
      LandsP(code, a + 3, y, a + SizeP(y) + 6);
      LandsOpt(code, a, SizeP(y), NodesP(y, a + 3), q);
      NodesOpt(y, a);
    case _ => LandsAtom(code, a, x, q);
  }

  lemma NodesStar(y: Piece, a: nat)
    requires !SimpleP(y)
    ensures var n := SizeP(y); NodesP(Star(y), a) == NodesP(y, a + 3) + {a, a + n + 3, a + n + 6, a + n + 9}
  {
    hide SizeP, SimpleP, NodesA, NodesB, SizeA;
  }

  lemma NodesPlus(y: Piece, a: nat)
    requires !SimpleP(y)
    ensures var n := SizeP(y); NodesP(Plus(y), a) == NodesP(y, a) + {a + n, a + n + 3, a + n + 6, a + n + 9}
  {
    hide SizeP, SimpleP, NodesA, NodesB, SizeA;
  }

  lemma NodesOpt(y: Piece, a: nat)
    ensures var n := SizeP(y); NodesP(Opt(y), a) == NodesP(y, a + 3) + {a, a + n + 3, a + n + 6}
  {
    hide SizeP, SimpleP, NodesA, NodesB, SizeA;
  }

  lemma NodesGroup(n: nat, bs: seq<Branch>, a: nat)
    ensures NodesP(Group(n, bs), a) == NodesA(bs, a + 3) + {a, a + 3 + SizeA(bs)}
  {
    hide SizeA, NodesA;
  }

  lemma StarAt(code: seq<Byte>, a: nat, y: Piece, q: nat)
    requires Direct(code, a, Star(y), q) && !SimpleP(y)
    ensures var n := SizeP(y);
      && a + n + 12 <= q
      && Sits(code, a, Node(BRANCH, n + 6)) && Direct(code, a + 3, y, a + 3 + n) && Sits(code, a + n + 3, Node(BACK, n + 3))
      && Sits(code, a + n + 6, Node(BRANCH, 3)) && Sits(code, a + n + 9, Node(NOTHING, q - a - n - 9))
  {
    hide LayP, Sits, Node, SimpleP, SizeP;
    StarIs(y, q - a);
    SitsStar(code, a, y, q - a);
  }

  lemma PlusAt(code: seq<Byte>, a: nat, y: Piece, q: nat)
    requires Direct(code, a, Plus(y), q) && !SimpleP(y)
    ensures var n := SizeP(y);
      && a + n + 12 <= q
      && Direct(code, a, y, a + n) && Sits(code, a + n, Node(BRANCH, 6)) && Sits(code, a + n + 3, Node(BACK, n + 3))
      && Sits(code, a + n + 6, Node(BRANCH, 3)) && Sits(code, a + n + 9, Node(NOTHING, q - a - n - 9))
  {
    hide LayP, Sits, Node, SimpleP, SizeP;
    PlusIs(y, q - a);
    SitsPlus(code, a, y, q - a);
  }

  lemma OptAt(code: seq<Byte>, a: nat, y: Piece, q: nat)
    requires Direct(code, a, Opt(y), q)
    ensures var n := SizeP(y);
      && a + n + 9 <= q
      && Sits(code, a, Node(BRANCH, n + 3)) && Direct(code, a + 3, y, a + n + 6)
      && Sits(code, a + n + 3, Node(BRANCH, 3)) && Sits(code, a + n + 6, Node(NOTHING, q - a - n - 6))
  {
    hide LayP, Sits, Node, SimpleP, SizeP;
    OptIs(y, q - a);
    SitsOpt(code, a, y, q - a);
  }

  lemma GroupAt(code: seq<Byte>, a: nat, n: nat, bs: seq<Branch>, q: nat)
    requires Direct(code, a, Group(n, bs), q) && WfP(Group(n, bs)) && q < LIMIT
    ensures Sits(code, a, Node(OPEN + n, 3)) && Sits(code, a + 3, LayA(bs, SizeA(bs), |bs|))
    ensures a + 3 + SizeA(bs) < q && Sits(code, a + 3 + SizeA(bs), Node(CLOSE + n, q - a - 3 - SizeA(bs)))
  {
    hide Sits, LayP, LayA, SizeA, Reaches, Node, WfA, SizeP;
    GroupSits(code, a, n, bs, q);
    ToTailGroup(code, a, n, bs, q - a);
    assert (CLOSE + n) % 256 == CLOSE + n && Tail(q - a, SizeA(bs) + 3) == q - a - 3 - SizeA(bs);
  }

  lemma GroupSits(code: seq<Byte>, a: nat, n: nat, bs: seq<Branch>, q: nat)
    requires Direct(code, a, Group(n, bs), q)
    ensures SizeP(Group(n, bs)) == SizeA(bs) + 6 && Sits(code, a, LayP(Group(n, bs), q - a)) && a + SizeA(bs) + 6 <= q
  {
    hide Sits, LayP, SizeA, SizeP;
    GroupIs(n, bs, q - a);
  }

  lemma LandsAtom(code: seq<Byte>, a: nat, x: Piece, q: nat)
    requires Atomic(x) && Direct(code, a, x, q) && q < LIMIT
    ensures AllLand(code, NodesP(x, a), NodesP(x, a) + {q})
  {
    hide LayP, Sits;
    NodeOf(code, a, x, q);
    assert NodesP(x, a) == {a};
    assert RegNext(code, a) == q;
  }

  lemma LandsSimple(code: seq<Byte>, a: nat, x: Piece, q: nat)
    requires (x.Star? || x.Plus?) && SimpleP(x.x) && WfP(x) && Direct(code, a, x, q) && q < LIMIT
    ensures AllLand(code, NodesP(x, a), NodesP(x, a) + {q})
  {
    hide LayP, Sits;
    RepeatParts(code, a, x, q);
    ToTailAtom(code, a + 3, x.x, 0);
    SitsNode(code, a + 3, TailOp(x.x), 0);
    assert NodesP(x, a) == {a, a + 3};
  }

  // The loops, with the nodes of the operand as a plain set.

  lemma LandsGroup(code: seq<Byte>, a: nat, n: nat, m: nat, ys: set<nat>, q: nat)
    requires 1 <= n < NSUBEXP && q < LIMIT && a + 3 in ys && m < q
    requires Sits(code, a, Node(OPEN + n, 3)) && Sits(code, m, Node(CLOSE + n, q - m))
    requires AllLand(code, ys, ys + {m})
    ensures AllLand(code, ys + {a, m}, ys + {a, m} + {q})
  {
    hide Sits, AllLand, Node, Lands;
    var all := ys + {a, m} + {q};
    LandMore(code, ys, ys + {m}, all);
    NodeLands(code, a, OPEN + n, 3, all);
    NodeLands(code, m, CLOSE + n, q - m, all);
    LandTwo(code, ys, a, m, all);
  }

  lemma LandsStar(code: seq<Byte>, a: nat, n: nat, ys: set<nat>, q: nat)
    requires a + n + 12 <= q < LIMIT
    requires Sits(code, a, Node(BRANCH, n + 6)) && Sits(code, a + n + 3, Node(BACK, n + 3))
    requires Sits(code, a + n + 6, Node(BRANCH, 3)) && Sits(code, a + n + 9, Node(NOTHING, q - a - n - 9))
    requires AllLand(code, ys, ys + {a + 3 + n})
    ensures var some := ys + {a, a + n + 3, a + n + 6, a + n + 9}; AllLand(code, some, some + {q})
  {
    hide Sits, AllLand, Node, Lands;
    var all := ys + {a, a + n + 3, a + n + 6, a + n + 9} + {q};
    LandMore(code, ys, ys + {a + 3 + n}, all);
    NodeLands(code, a, BRANCH, n + 6, all);
    NodeLands(code, a + n + 3, BACK, n + 3, all);
    NodeLands(code, a + n + 6, BRANCH, 3, all);
    NodeLands(code, a + n + 9, NOTHING, q - a - n - 9, all);
    LandFour(code, ys, a, a + n + 3, a + n + 6, a + n + 9, all);
  }

  lemma LandsPlus(code: seq<Byte>, a: nat, n: nat, ys: set<nat>, q: nat)
    requires a + n + 12 <= q < LIMIT && a in ys
    requires Sits(code, a + n, Node(BRANCH, 6)) && Sits(code, a + n + 3, Node(BACK, n + 3))
    requires Sits(code, a + n + 6, Node(BRANCH, 3)) && Sits(code, a + n + 9, Node(NOTHING, q - a - n - 9))
    requires AllLand(code, ys, ys + {a + n})
    ensures var some := ys + {a + n, a + n + 3, a + n + 6, a + n + 9}; AllLand(code, some, some + {q})
  {
    hide Sits, AllLand, Node, Lands;
    var all := ys + {a + n, a + n + 3, a + n + 6, a + n + 9} + {q};
    LandMore(code, ys, ys + {a + n}, all);
    NodeLands(code, a + n, BRANCH, 6, all);
    NodeLands(code, a + n + 3, BACK, n + 3, all);
    NodeLands(code, a + n + 6, BRANCH, 3, all);
    NodeLands(code, a + n + 9, NOTHING, q - a - n - 9, all);
    LandFour(code, ys, a + n, a + n + 3, a + n + 6, a + n + 9, all);
  }

  lemma LandsOpt(code: seq<Byte>, a: nat, n: nat, ys: set<nat>, q: nat)
    requires a + n + 9 <= q < LIMIT
    requires Sits(code, a, Node(BRANCH, n + 3)) && Sits(code, a + n + 3, Node(BRANCH, 3))
    requires Sits(code, a + n + 6, Node(NOTHING, q - a - n - 6))
    requires AllLand(code, ys, ys + {a + n + 6})
    ensures var some := ys + {a, a + n + 3, a + n + 6}; AllLand(code, some, some + {q})
  {
    hide Sits, AllLand, Node, Lands;
    var all := ys + {a, a + n + 3, a + n + 6} + {q};
    LandMore(code, ys, ys + {a + n + 6}, all);
    NodeLands(code, a, BRANCH, n + 3, all);
    NodeLands(code, a + n + 3, BRANCH, 3, all);
    NodeLands(code, a + n + 6, NOTHING, q - a - n - 6, all);
    LandThree(code, ys, a, a + n + 3, a + n + 6, all);
  }

  lemma {:induction false} LandsB(code: seq<Byte>, a: nat, ps: seq<Piece>, q: nat)
    requires WfB(ps) && AtGoal(code, a, B(ps), q) && q < LIMIT
    ensures AllLand(code, NodesB(ps, a), NodesB(ps, a) + {q})
    decreases ps
  {
    hide LayP, Sits, AllLand, SizeP, NodesP;
    if ps == [] {
      EmptyAt(code, a, q);
      NodeLands(code, a, NOTHING, q - a, {a} + {q});
      One(code, a, {a} + {q});
    } else if |ps| == 1 {
      FirstOf1(code, a, ps, q);
      LandsP(code, a, ps[0], q);
      assert NodesB(ps, a) == NodesP(ps[0], a) + {} == NodesP(ps[0], a);
    } else {
      FirstOf2(code, a, ps, q);
      var m := a + SizeP(ps[0]);
      Before(ps[1..], m, code, q);
      LandsP(code, a, ps[0], m);
      LandsB(code, m, ps[1..], q);
      FirstOfBranch(ps[1..], m);
      var all := NodesB(ps, a) + {q};
      LandMore(code, NodesP(ps[0], a), NodesP(ps[0], a) + {m}, all);
      LandMore(code, NodesB(ps[1..], m), NodesB(ps[1..], m) + {q}, all);
      LandBoth(code, NodesP(ps[0], a), NodesB(ps[1..], m), all);
    }
  }

  lemma EmptyAt(code: seq<Byte>, a: nat, q: nat)
    requires AtGoal(code, a, B([]), q)
    ensures a < q && Sits(code, a, Node(NOTHING, q - a))
  {
  }

  lemma Before(ps: seq<Piece>, m: nat, code: seq<Byte>, q: nat)
    requires AtGoal(code, m, B(ps), q)
    ensures m < q
  {
    hide Sits;
  }

  lemma {:induction false} LandsA(code: seq<Byte>, a: nat, bs: seq<Branch>, q: nat)
    requires WfA(bs) && bs != [] && a + SizeA(bs) <= q < LIMIT && Sits(code, a, LayA(bs, q - a, |bs|))
    ensures AllLand(code, NodesA(bs, a), NodesA(bs, a) + {q}) && a in NodesA(bs, a)
    decreases bs
  {
    hide Sits, AllLand, SizeB, LayB, NodesB;
    AltHead(code, a, bs, q - a);
    var n := 3 + SizeB(bs[0].ps);
    var ps, rest := bs[0].ps, NodesA(bs[1..], a + n);
    var all := NodesA(bs, a) + {q};
    BodyGoal(code, a + 3, ps, q);
    LandsB(code, a + 3, ps, q);
    LandMore(code, NodesB(ps, a + 3), NodesB(ps, a + 3) + {q}, all);
    if |bs| == 1 {
      assert bs[1..] == [] && rest == {};
      NodeLands(code, a, BRANCH, q - a, all);
      One(code, a, all);
      LandBoth(code, {a}, NodesB(ps, a + 3), all);
      assert NodesA(bs, a) == {a} + NodesB(ps, a + 3);
    } else {
      LandsA(code, a + n, bs[1..], q);
      LandMore(code, rest, rest + {q}, all);
      NodeLands(code, a, BRANCH, n, all);
      One(code, a, all);
      LandBoth(code, {a}, NodesB(ps, a + 3), all);
      LandBoth(code, {a} + NodesB(ps, a + 3), rest, all);
    }
  }

  lemma BodyGoal(code: seq<Byte>, a: nat, ps: seq<Piece>, q: nat)
    requires a + SizeB(ps) <= q && Sits(code, a, LayB(ps, q - a))
    ensures AtGoal(code, a, B(ps), q)
  {
  }

  /** In a whole program, every node's offset, forward or back, leads to the start of a node;
      only END and the operands of STAR and PLUS lead nowhere. */
  lemma EveryNextIsANode(bs: seq<Branch>)
    requires bs != [] && WfA(bs) && |Program(bs)| < LIMIT
    ensures AllLand(Program(bs), NodesOf(bs), NodesOf(bs))
  {
    hide Program, AllLand, Sits, LayA;
    ProgramRuns(bs);
    var code, q := Program(bs), 1 + SizeA(bs);
    GoalSits(code, 1, bs, q);
    LandsA(code, 1, bs, q);
    EndLands(code, q);
    LandBoth(code, NodesA(bs, 1), {q}, NodesOf(bs));
  }

  lemma EndLands(code: seq<Byte>, q: nat)
    requires Sits(code, q, Node(END, 0))
    ensures forall nodes :: AllLand(code, {q}, nodes)
  {
    SitsInside(code, q, Node(END, 0));
    SitsNode(code, q, END, 0);
  }
}
