/** The byte program a pattern compiles to, and what regtail's walk does to it.
    A node is an opcode and a two-byte offset to the next node, 0 for "none yet".
    Offsets are relative, so the code of a fragment does not depend on where it sits:
    k is the distance from its first byte to the node that follows it, or 0 while
    the fragment's tail is still dangling. */
module RegexLayout {
  import opened RegexSyntax

  const END: Byte := 0
  const BOL: Byte := 1
  const EOL: Byte := 2
  const ANY: Byte := 3
  const ANYOF: Byte := 4
  const ANYBUT: Byte := 5
  const BRANCH: Byte := 6
  const BACK: Byte := 7
  const EXACTLY: Byte := 8
  const NOTHING: Byte := 9
  const STAR: Byte := 10
  const PLUS: Byte := 11
  const WORDA: Byte := 12
  const WORDZ: Byte := 13
  const OPEN: Byte := 20
  const CLOSE: Byte := 30

  const MAGIC: Byte := 156

  /** regcomp refuses programs of this size or more. */
  const LIMIT := 32767

  function Hi(off: int): Byte { (off / 256) % 256 }
  function Lo(off: int): Byte { off % 256 }

  function Node(op: Byte, off: int): (r: seq<Byte>)
    ensures |r| == 3
  {
    [op, Hi(off), Lo(off)]
  }

  /** NEXT: the offset stored in the node at p. */
  function NextOff(code: seq<Byte>, p: int): (r: int)
    requires 0 <= p && p + 3 <= |code|
    ensures 0 <= r < 65536
  {
    (code[p + 1] as int) * 256 + code[p + 2] as int
  }

  function Op(code: seq<Byte>, p: int): Byte
    requires 0 <= p < |code|
  {
    code[p]
  }

  /** The offset of a tail node t bytes into a fragment. */
  function Tail(k: int, t: int): int {
    if k == 0 then 0 else k - t
  }

  function SizeP(x: Piece): (n: nat)
    ensures n >= 3
    decreases x
  {
    match x
    case AnyOf(cs) => |cs| + 4
    case AnyBut(cs) => |cs| + 4
    case Exact(str) => |str| + 4
    case Group(_, bs) => SizeA(bs) + 6
    case Star(y) => if SimpleP(y) then SizeP(y) + 3 else SizeP(y) + 12
    case Plus(y) => if SimpleP(y) then SizeP(y) + 3 else SizeP(y) + 12
    case Opt(y) => SizeP(y) + 9
    case _ => 3
  }

  /** The pieces of a branch, without the NOTHING that stands for an empty one. */
  function SizePs(ps: seq<Piece>): (n: nat)
    ensures ps != [] ==> n >= 3
    decreases ps, 0
  {
    if ps == [] then 0 else SizeP(ps[0]) + SizePs(ps[1..])
  }

  function SizeB(ps: seq<Piece>): (n: nat)
    ensures n >= 3
    decreases ps, 1
  {
    if ps == [] then 3 else SizePs(ps)
  }

  function SizeA(bs: seq<Branch>): (n: nat)
    decreases bs
  {
    if bs == [] then 0 else 3 + SizeB(bs[0].ps) + SizeA(bs[1..])
  }

  function LayP(x: Piece, k: int): (r: seq<Byte>)
    ensures |r| == SizeP(x)
    decreases x
  {
    match x
    case Bol => Node(BOL, k)
    case Eol => Node(EOL, k)
    case WordA => Node(WORDA, k)
    case WordZ => Node(WORDZ, k)
    case Any => Node(ANY, k)
    case AnyOf(cs) => Node(ANYOF, k) + cs + [0]
    case AnyBut(cs) => Node(ANYBUT, k) + cs + [0]
    case Exact(str) => Node(EXACTLY, k) + str + [0]
    case Group(n, bs) =>
      Node((OPEN + n) % 256, 3) + LayA(bs, SizeA(bs), |bs|) + Node((CLOSE + n) % 256, Tail(k, SizeA(bs) + 3))
    case Star(y) =>
      var n := SizeP(y);
      if SimpleP(y) then Node(STAR, k) + LayP(y, 0)
      else Node(BRANCH, n + 6) + LayP(y, n) + StarTail(n, k)
    case Plus(y) =>
      var n := SizeP(y);
      if SimpleP(y) then Node(PLUS, k) + LayP(y, 0)
      else LayP(y, n) + PlusTail(n, k)
    case Opt(y) =>
      var n := SizeP(y);
      Node(BRANCH, n + 3) + LayP(y, n + 3) + Node(BRANCH, 3) + Node(NOTHING, Tail(k, n + 6))
  }

  /** x* is (x&|): after x, loop back to the first BRANCH, or the empty second one. */
  function StarTail(n: nat, k: int): (r: seq<Byte>)
    ensures |r| == 9
  {
    Node(BACK, n + 3) + Node(BRANCH, 3) + Node(NOTHING, Tail(k, n + 9))
  }

  /** x+ is x(&|). */
  function PlusTail(n: nat, k: int): (r: seq<Byte>)
    ensures |r| == 12
  {
    Node(BRANCH, 6) + Node(BACK, n + 3) + Node(BRANCH, 3) + Node(NOTHING, Tail(k, n + 9))
  }

  /** Pieces in sequence, each one's tail at the next. */
  function LayPs(ps: seq<Piece>, k: int): (r: seq<Byte>)
    ensures |r| == SizePs(ps)
    decreases ps, 0
  {
    if ps == [] then []
    else if |ps| == 1 then LayP(ps[0], k)
    else LayP(ps[0], SizeP(ps[0])) + LayPs(ps[1..], Tail(k, SizeP(ps[0])))
  }

  function LayB(ps: seq<Piece>, k: int): (r: seq<Byte>)
    ensures |r| == SizeB(ps)
    decreases ps, 1
  {
    if ps == [] then Node(NOTHING, k) else LayPs(ps, k)
  }

  /** Alternatives: a chain of BRANCH nodes. The last one's next is e away from the
      first; the bodies of the first d branches have their tails there too. */
  function LayA(bs: seq<Branch>, e: int, d: int): (r: seq<Byte>)
    ensures |r| == SizeA(bs)
    decreases bs
  {
    if bs == [] then []
    else
      var n := 3 + SizeB(bs[0].ps);
      Node(BRANCH, if |bs| == 1 then e else n) + LayB(bs[0].ps, if d > 0 then Tail(e, 3) else 0)
      + LayA(bs[1..], Tail(e, n), d - 1)
  }

  /** The whole program of a pattern with these alternatives. */
  function Program(bs: seq<Branch>): seq<Byte> {
    [MAGIC] + LayA(bs, SizeA(bs), |bs|) + Node(END, 0)
  }

  // ---- walking to the tail of a chain and patching it ----

  /** Following next offsets forward from p ends at t, whose offset is 0. */
  ghost predicate Walks(code: seq<Byte>, p: int, t: int)
    decreases |code| - p
  {
    0 <= p && p + 3 <= |code| &&
    var off := NextOff(code, p);
    if off == 0 then p == t else Op(code, p) != BACK && Walks(code, p + off, t)
  }

  /** Following next offsets forward from p comes to q. */
  ghost predicate Reaches(code: seq<Byte>, p: int, q: int)
    decreases |code| - p
  {
    0 <= p &&
    (p == q || (p + 3 <= |code| && NextOff(code, p) != 0 && Op(code, p) != BACK
                && Reaches(code, p + NextOff(code, p), q)))
  }

  function SetNext(code: seq<Byte>, t: int, off: int): (r: seq<Byte>)
    requires 0 <= t && t + 3 <= |code|
    ensures |r| == |code|
  {
    code[t + 1 := Hi(off)][t + 2 := Lo(off)]
  }

  /** F sits in code at a. */
  predicate Sits(code: seq<Byte>, a: int, F: seq<Byte>) {
    0 <= a && a + |F| <= |code| && code[a..a + |F|] == F
  }

  lemma SitsParts(code: seq<Byte>, a: int, F: seq<Byte>, G: seq<Byte>)
    requires Sits(code, a, F + G)
    ensures Sits(code, a, F) && Sits(code, a + |F|, G)
  {
    assert code[a..a + |F|] == (F + G)[..|F|];
    assert code[a + |F|..a + |F| + |G|] == (F + G)[|F|..];
  }

  lemma SitsNode(code: seq<Byte>, a: int, op: Byte, off: int)
    requires Sits(code, a, Node(op, off)) && 0 <= off < 65536
    ensures 0 <= a && a + 3 <= |code| && Op(code, a) == op && NextOff(code, a) == off
  {
    var F := Node(op, off);
    assert code[a] == code[a..a + 3][0] && code[a + 1] == code[a..a + 3][1] && code[a + 2] == code[a..a + 3][2];
  }

  /** Distance from a piece's first byte to the node that carries its tail. */
  function TailP(x: Piece): (t: nat)
    ensures t + 3 <= SizeP(x)
  {
    match x
    case Group(_, bs) => SizeA(bs) + 3
    case Star(y) => if SimpleP(y) then 0 else SizeP(y) + 9
    case Plus(y) => if SimpleP(y) then 0 else SizeP(y) + 9
    case Opt(y) => SizeP(y) + 6
    case _ => 0
  }

  function TailPs(ps: seq<Piece>): (t: nat)
    requires ps != []
    ensures t + 3 <= SizePs(ps)
    decreases ps
  {
    if |ps| == 1 then TailP(ps[0]) else SizeP(ps[0]) + TailPs(ps[1..])
  }

  function TailB(ps: seq<Piece>): (t: nat)
    ensures t + 3 <= SizeB(ps)
  {
    if ps == [] then 0 else TailPs(ps)
  }

  /** Distance to the last BRANCH node of a chain. */
  function LastA(bs: seq<Branch>): (t: nat)
    requires bs != []
    ensures t + 6 <= SizeA(bs)
    decreases bs
  {
    if |bs| == 1 then 0 else 3 + SizeB(bs[0].ps) + LastA(bs[1..])
  }

  lemma ReachTrans(code: seq<Byte>, p: int, q: int, r: int)
    requires Reaches(code, p, q) && Reaches(code, q, r)
    ensures Reaches(code, p, r)
    decreases |code| - p
  {
    if p != q {
      ReachTrans(code, p + NextOff(code, p), q, r);
    }
  }

  lemma ReachThenWalk(code: seq<Byte>, p: int, q: int, t: int)
    requires Reaches(code, p, q) && Walks(code, q, t)
    ensures Walks(code, p, t)
    decreases |code| - p
  {
    if p != q {
      ReachThenWalk(code, p + NextOff(code, p), q, t);
    }
  }

  lemma OneStep(code: seq<Byte>, a: int, op: Byte, off: int)
    requires Sits(code, a, Node(op, off)) && 0 < off < 65536 && op != BACK
    ensures Reaches(code, a, a + off)
  {
    SitsNode(code, a, op, off);
    assert Reaches(code, a + off, a + off);
  }

  lemma DanglingNode(code: seq<Byte>, a: int, op: Byte)
    requires Sits(code, a, Node(op, 0))
    ensures Walks(code, a, a)
  {
    SitsNode(code, a, op, 0);
  }

  /** Walking a chain of alternatives goes from its first BRANCH to what follows it. */
  lemma {:induction false} ReachA(code: seq<Byte>, a: int, bs: seq<Branch>, e: int, d: int)
    requires bs != [] && Sits(code, a, LayA(bs, e, d)) && SizeA(bs) <= e < 65536
    ensures Reaches(code, a, a + e)
    decreases bs
  {
    hide Sits, Node, Reaches, Walks, Hi, Lo;
    var n := 3 + SizeB(bs[0].ps);
    var head := Node(BRANCH, if |bs| == 1 then e else n);
    var body := LayB(bs[0].ps, if d > 0 then Tail(e, 3) else 0);
    SitsParts(code, a, head + body, LayA(bs[1..], Tail(e, n), d - 1));
    SitsParts(code, a, head, body);
    OneStep(code, a, BRANCH, if |bs| == 1 then e else n);
    if |bs| > 1 {
      ReachA(code, a + n, bs[1..], e - n, d - 1);
      ReachTrans(code, a, a + n, a + e);
    }
  }

  lemma {:induction false} WalkA(code: seq<Byte>, a: int, bs: seq<Branch>)
    requires bs != [] && Sits(code, a, LayA(bs, 0, 0)) && SizeA(bs) < 65536
    ensures Walks(code, a, a + LastA(bs)) && 0 <= a && a + SizeA(bs) <= |code|
    ensures Op(code, a + LastA(bs)) != BACK
    decreases bs
  {
    hide Sits, Node, Reaches, Walks, Hi, Lo;
    var n := 3 + SizeB(bs[0].ps);
    var head := Node(BRANCH, if |bs| == 1 then 0 else n);
    var body := LayB(bs[0].ps, 0);
    SitsParts(code, a, head + body, LayA(bs[1..], 0, -1));
    SitsParts(code, a, head, body);
    SitsInside(code, a, LayA(bs, 0, 0));
    if |bs| == 1 {
      SitsNode(code, a, BRANCH, 0);
      DanglingNode(code, a, BRANCH);
    } else {
      OneStep(code, a, BRANCH, n);
      UnlinkedBodies(bs[1..], 0, -1, 0);
      WalkA(code, a + n, bs[1..]);
      ReachThenWalk(code, a, a + n, a + LastA(bs));
    }
  }

  /** With no body linked yet, how many below zero does not matter. */
  lemma {:induction false} UnlinkedBodies(bs: seq<Branch>, e: int, d: int, d': int)
    requires d <= 0 && d' <= 0
    ensures LayA(bs, e, d) == LayA(bs, e, d')
    decreases bs
  {
    if bs != [] {
      UnlinkedBodies(bs[1..], Tail(e, 3 + SizeB(bs[0].ps)), d - 1, d' - 1);
    }
  }

  lemma FirstNode(code: seq<Byte>, a: int, op: Byte, k: int, chars: seq<Byte>)
    requires Sits(code, a, Node(op, k) + chars + [0])
    ensures Sits(code, a, Node(op, k)) && Sits(code, a + 3, chars + [0])
  {
    hide Sits, Node, Reaches, Walks, Hi, Lo;
    assert Node(op, k) + chars + [0] == Node(op, k) + (chars + [0]);
    SitsParts(code, a, Node(op, k), chars + [0]);
  }

  // ---- the code of each piece, one equation at a time ----

  lemma PlainIs(x: Piece, k: int)
    requires x.Bol? || x.Eol? || x.WordA? || x.WordZ? || x.Any?
    ensures LayP(x, k) == Node(TailOp(x), k) && TailP(x) == 0
  {
    hide Node;
  }

  lemma CharsIs(x: Piece, k: int)
    requires x.AnyOf? || x.AnyBut? || x.Exact?
    ensures LayP(x, k) == Node(TailOp(x), k) + (if x.Exact? then x.str else x.chars) + [0] && TailP(x) == 0
  {
    hide Node;
  }

  lemma GroupIs(n: nat, bs: seq<Branch>, k: int)
    ensures SizeP(Group(n, bs)) == SizeA(bs) + 6 && TailP(Group(n, bs)) == SizeA(bs) + 3
    ensures LayP(Group(n, bs), k) ==
      Node((OPEN + n) % 256, 3) + LayA(bs, SizeA(bs), |bs|) + Node((CLOSE + n) % 256, Tail(k, SizeA(bs) + 3))
  {
    hide Node, LayA, SizeA, Tail;
  }

  lemma SimpleIs(y: Piece, k: int)
    requires SimpleP(y)
    ensures LayP(Star(y), k) == Node(STAR, k) + LayP(y, 0) && SizeP(Star(y)) == SizeP(y) + 3 && TailP(Star(y)) == 0
    ensures LayP(Plus(y), k) == Node(PLUS, k) + LayP(y, 0) && SizeP(Plus(y)) == SizeP(y) + 3 && TailP(Plus(y)) == 0
  {
    hide Node, SimpleP;
  }

  lemma LoopSizes(y: Piece)
    ensures !SimpleP(y) ==> SizeP(Star(y)) == SizeP(Plus(y)) == SizeP(y) + 12 && TailP(Star(y)) == TailP(Plus(y)) == SizeP(y) + 9
    ensures SizeP(Opt(y)) == SizeP(y) + 9 && TailP(Opt(y)) == SizeP(y) + 6
  {
    hide SimpleP, SizeA;
  }

  lemma StarIs(y: Piece, k: int)
    requires !SimpleP(y)
    ensures SizeP(Star(y)) == SizeP(y) + 12 && TailP(Star(y)) == SizeP(y) + 9
    ensures var n := SizeP(y);
      LayP(Star(y), k) == Node(BRANCH, n + 6) + LayP(y, n) + (Node(BACK, n + 3) + Node(BRANCH, 3) + Node(NOTHING, Tail(k, n + 9)))
  {
    hide Node, Tail, SimpleP, SizeP, TailP, SizeA, LayA;
    LoopSizes(y);
  }

  lemma PlusIs(y: Piece, k: int)
    requires !SimpleP(y)
    ensures SizeP(Plus(y)) == SizeP(y) + 12 && TailP(Plus(y)) == SizeP(y) + 9
    ensures var n := SizeP(y);
      LayP(Plus(y), k) == LayP(y, n) + (Node(BRANCH, 6) + Node(BACK, n + 3) + Node(BRANCH, 3) + Node(NOTHING, Tail(k, n + 9)))
  {
    hide Node, Tail, SimpleP, SizeP, TailP, SizeA, LayA;
    LoopSizes(y);
  }

  lemma OptIs(y: Piece, k: int)
    ensures SizeP(Opt(y)) == SizeP(y) + 9 && TailP(Opt(y)) == SizeP(y) + 6
    ensures var n := SizeP(y);
      LayP(Opt(y), k) == Node(BRANCH, n + 3) + LayP(y, n + 3) + Node(BRANCH, 3) + Node(NOTHING, Tail(k, n + 6))
  {
    hide Node, Tail, SimpleP, SizeP, TailP, SizeA, LayA;
    LoopSizes(y);
  }

  lemma SitsStar(code: seq<Byte>, a: int, y: Piece, k: int)
    requires !SimpleP(y) && Sits(code, a, LayP(Star(y), k))
    ensures var n := SizeP(y);
      && Sits(code, a, Node(BRANCH, n + 6)) && Sits(code, a + 3, LayP(y, n))
      && Sits(code, a + n + 3, Node(BACK, n + 3)) && Sits(code, a + n + 6, Node(BRANCH, 3))
      && Sits(code, a + n + 9, Node(NOTHING, Tail(k, n + 9)))
  {
    hide *;
    var n := SizeP(y);
    var B, L, K, B', N := Node(BRANCH, n + 6), LayP(y, n), Node(BACK, n + 3), Node(BRANCH, 3), Node(NOTHING, Tail(k, n + 9));
    StarIs(y, k);
    SitsParts(code, a, B + L, K + B' + N);
    SitsParts(code, a, B, L);
    SitsParts(code, a + n + 3, K + B', N);
    SitsParts(code, a + n + 3, K, B');
  }

  lemma SitsPlus(code: seq<Byte>, a: int, y: Piece, k: int)
    requires !SimpleP(y) && Sits(code, a, LayP(Plus(y), k))
    ensures var n := SizeP(y);
      && Sits(code, a, LayP(y, n)) && Sits(code, a + n, Node(BRANCH, 6))
      && Sits(code, a + n + 3, Node(BACK, n + 3)) && Sits(code, a + n + 6, Node(BRANCH, 3))
      && Sits(code, a + n + 9, Node(NOTHING, Tail(k, n + 9)))
  {
    hide *;
    var n := SizeP(y);
    var L, B, K, B', N := LayP(y, n), Node(BRANCH, 6), Node(BACK, n + 3), Node(BRANCH, 3), Node(NOTHING, Tail(k, n + 9));
    PlusIs(y, k);
    SitsParts(code, a, L, B + K + B' + N);
    SitsParts(code, a + n, B + K + B', N);
    SitsParts(code, a + n, B + K, B');
    SitsParts(code, a + n, B, K);
  }

  lemma SitsOpt(code: seq<Byte>, a: int, y: Piece, k: int)
    requires Sits(code, a, LayP(Opt(y), k))
    ensures var n := SizeP(y);
      && Sits(code, a, Node(BRANCH, n + 3)) && Sits(code, a + 3, LayP(y, n + 3))
      && Sits(code, a + n + 3, Node(BRANCH, 3)) && Sits(code, a + n + 6, Node(NOTHING, Tail(k, n + 6)))
  {
    hide *;
    var n := SizeP(y);
    var B, L, B', N := Node(BRANCH, n + 3), LayP(y, n + 3), Node(BRANCH, 3), Node(NOTHING, Tail(k, n + 6));
    OptIs(y, k);
    SitsParts(code, a, B + L + B', N);
    SitsParts(code, a, B + L, B');
    SitsParts(code, a, B, L);
  }

  /** The opcode of the node that carries a piece's tail. */
  function TailOp(x: Piece): Byte {
    match x
    case Bol => BOL
    case Eol => EOL
    case WordA => WORDA
    case WordZ => WORDZ
    case Any => ANY
    case AnyOf(_) => ANYOF
    case AnyBut(_) => ANYBUT
    case Exact(_) => EXACTLY
    case Group(n, _) => (CLOSE + n) % 256
    case Star(y) => if SimpleP(y) then STAR else NOTHING
    case Plus(y) => if SimpleP(y) then PLUS else NOTHING
    case Opt(_) => NOTHING
  }

  /** Walking a piece from its first node comes to the node that carries its tail,
      whether or not that tail is linked. */
  lemma {:induction false} ToTail(code: seq<Byte>, a: int, x: Piece, k: int)
    requires WfP(x) && Sits(code, a, LayP(x, k)) && SizeP(x) < 60000
    ensures Reaches(code, a, a + TailP(x))
    ensures Sits(code, a + TailP(x), Node(TailOp(x), Tail(k, TailP(x))))
    decreases x, 0
  {
    hide Sits, Node, Walks, Hi, Lo, Reaches, LayP;
    match x
    case Group(n, bs) => ToTailGroup(code, a, n, bs, k);
    case Star(y) => ToTailStar(code, a, y, k);
    case Plus(y) =>
      if !SimpleP(y) {
        SitsPlus(code, a, y, k);
        ReachP(code, a, y, SizeP(y));
      }
      ToTailPlus(code, a, y, k);
    case Opt(y) => ToTailOpt(code, a, y, k);
    case _ => ToTailAtom(code, a, x, k);
  }

  lemma ToTailAtom(code: seq<Byte>, a: int, x: Piece, k: int)
    requires Atomic(x) && Sits(code, a, LayP(x, k))
    ensures Reaches(code, a, a) && Tail(k, 0) == k
    ensures Sits(code, a, Node(TailOp(x), k))
  {
    hide Sits, Node, Hi, Lo;
    SitsInside(code, a, LayP(x, k));
    match x
    case AnyOf(cs) => FirstNode(code, a, ANYOF, k, cs);
    case AnyBut(cs) => FirstNode(code, a, ANYBUT, k, cs);
    case Exact(str) => FirstNode(code, a, EXACTLY, k, str);
    case _ =>
  }

  lemma SitsInside(code: seq<Byte>, a: int, F: seq<Byte>)
    requires Sits(code, a, F)
    ensures 0 <= a <= |code| - |F|
  {
  }

  lemma ToTailStar(code: seq<Byte>, a: int, y: Piece, k: int)
    requires Sits(code, a, LayP(Star(y), k)) && SizeP(y) + 12 < 65536
    ensures var t := TailP(Star(y));
      Reaches(code, a, a + t) && Sits(code, a + t, Node(TailOp(Star(y)), Tail(k, t)))
  {
    hide Sits, Node, Walks, Hi, Lo, Reaches, LayP, SizeP, TailP, SimpleP, Tail;
    if SimpleP(y) {
      SimpleIs(y, k);
      SitsParts(code, a, Node(STAR, k), LayP(y, 0));
      AtItself(code, a, STAR, k);
    } else {
      StarIs(y, k);
      SitsStar(code, a, y, k);
      TwoSteps(code, a, BRANCH, SizeP(y) + 6, BRANCH, 3);
    }
  }

  lemma ToTailPlus(code: seq<Byte>, a: int, y: Piece, k: int)
    requires Sits(code, a, LayP(Plus(y), k)) && SizeP(y) + 12 < 65536
    requires !SimpleP(y) ==> Reaches(code, a, a + SizeP(y))
    ensures var t := TailP(Plus(y));
      Reaches(code, a, a + t) && Sits(code, a + t, Node(TailOp(Plus(y)), Tail(k, t)))
  {
    hide Sits, Node, Walks, Hi, Lo, Reaches, LayP, SizeP, TailP, SimpleP, Tail;
    if SimpleP(y) {
      SimpleIs(y, k);
      SitsParts(code, a, Node(PLUS, k), LayP(y, 0));
      AtItself(code, a, PLUS, k);
    } else {
      var n := SizeP(y);
      PlusIs(y, k);
      SitsPlus(code, a, y, k);
      TwoSteps(code, a + n, BRANCH, 6, BRANCH, 3);
      ReachTrans(code, a, a + n, a + n + 9);
    }
  }

  lemma ToTailOpt(code: seq<Byte>, a: int, y: Piece, k: int)
    requires Sits(code, a, LayP(Opt(y), k)) && SizeP(y) + 12 < 65536
    ensures var t := TailP(Opt(y));
      Reaches(code, a, a + t) && Sits(code, a + t, Node(TailOp(Opt(y)), Tail(k, t)))
  {
    hide Sits, Node, Walks, Hi, Lo, Reaches, LayP, SizeP, TailP, SimpleP, Tail;
    OptIs(y, k);
    SitsOpt(code, a, y, k);
    TwoSteps(code, a, BRANCH, SizeP(y) + 3, BRANCH, 3);
  }

  lemma AtItself(code: seq<Byte>, a: int, op: Byte, k: int)
    requires Sits(code, a, Node(op, k))
    ensures Reaches(code, a, a) && Tail(k, 0) == k
  {
  }

  lemma TwoSteps(code: seq<Byte>, a: int, op: Byte, off: int, op': Byte, off': int)
    requires Sits(code, a, Node(op, off)) && 0 < off < 65536 && op != BACK
    requires Sits(code, a + off, Node(op', off')) && 0 < off' < 65536 && op' != BACK
    ensures Reaches(code, a, a + off + off')
  {
    OneStep(code, a, op, off);
    OneStep(code, a + off, op', off');
    ReachTrans(code, a, a + off, a + off + off');
  }

  lemma ToTailGroup(code: seq<Byte>, a: int, n: nat, bs: seq<Branch>, k: int)
    requires 1 <= n < NSUBEXP && bs != [] && Sits(code, a, LayP(Group(n, bs), k)) && SizeA(bs) + 6 < 65536
    ensures Reaches(code, a, a + SizeA(bs) + 3)
    ensures Sits(code, a + SizeA(bs) + 3, Node((CLOSE + n) % 256, Tail(k, SizeA(bs) + 3)))
    ensures Sits(code, a, Node(OPEN + n, 3)) && Sits(code, a + 3, LayA(bs, SizeA(bs), |bs|))
  {
    hide Sits, Node, Walks, Hi, Lo, Reaches, LayP, LayA, SizeP, SizeA, Tail;
    var m := SizeA(bs);
    assert (OPEN + n) % 256 == OPEN + n;
    GroupIs(n, bs, k);
    SitsParts(code, a, Node(OPEN + n, 3) + LayA(bs, m, |bs|), Node((CLOSE + n) % 256, Tail(k, m + 3)));
    SitsParts(code, a, Node(OPEN + n, 3), LayA(bs, m, |bs|));
    OneStep(code, a, OPEN + n, 3);
    ReachA(code, a + 3, bs, m, |bs|);
    ReachTrans(code, a, a + 3, a + 3 + m);
  }

  lemma NeverBack(x: Piece)
    requires WfP(x)
    ensures TailOp(x) != BACK
  {
    hide WfA, WidthP;
  }

  /** A piece whose tail is linked leads, node by node, to what follows it. */
  lemma {:induction false} ReachP(code: seq<Byte>, a: int, x: Piece, k: int)
    requires WfP(x) && Sits(code, a, LayP(x, k)) && SizeP(x) <= k < 60000
    ensures Reaches(code, a, a + k)
    decreases x, 1
  {
    hide Sits, Node, Walks, Hi, Lo, Reaches, LayP, SizeP, TailP, TailOp, SimpleP, WfP, WidthP;
    ToTail(code, a, x, k);
    NeverBack(x);
    OneStep(code, a + TailP(x), TailOp(x), k - TailP(x));
    ReachTrans(code, a, a + TailP(x), a + k);
  }

  /** regtail's walk over a piece with a dangling tail stops at the node that carries it. */
  lemma WalkP(code: seq<Byte>, a: int, x: Piece)
    requires WfP(x) && Sits(code, a, LayP(x, 0)) && SizeP(x) < 60000
    ensures Walks(code, a, a + TailP(x))
  {
    hide Sits, Node, Walks, Hi, Lo, Reaches, LayP, SizeP, TailP, SimpleP, WfP, WidthP, TailOp;
    ToTail(code, a, x, 0);
    DanglingNode(code, a + TailP(x), TailOp(x));
    ReachThenWalk(code, a, a + TailP(x), a + TailP(x));
  }

  lemma {:induction false} WalkPs(code: seq<Byte>, a: int, ps: seq<Piece>)
    requires ps != [] && WfB(ps) && Sits(code, a, LayPs(ps, 0)) && SizePs(ps) < 60000
    ensures Walks(code, a, a + TailPs(ps)) && 0 <= a && a + SizePs(ps) <= |code|
    ensures Op(code, a + TailPs(ps)) != BACK
    decreases ps
  {
    hide Sits, Node, Reaches, Walks, Hi, Lo, LayP;
    SitsInside(code, a, LayPs(ps, 0));
    if |ps| == 1 {
      WalkP(code, a, ps[0]);
      ToTail(code, a, ps[0], 0);
      SitsNode(code, a + TailP(ps[0]), TailOp(ps[0]), 0);
    } else {
      var n := SizeP(ps[0]);
      SitsParts(code, a, LayP(ps[0], n), LayPs(ps[1..], 0));
      ReachP(code, a, ps[0], n);
      WalkPs(code, a + n, ps[1..]);
      ReachThenWalk(code, a, a + n, a + TailPs(ps));
    }
  }

  lemma WalkB(code: seq<Byte>, a: int, ps: seq<Piece>)
    requires WfB(ps) && Sits(code, a, LayB(ps, 0)) && SizeB(ps) < 60000
    ensures Walks(code, a, a + TailB(ps)) && 0 <= a && a + SizeB(ps) <= |code|
    ensures Op(code, a + TailB(ps)) != BACK
  {
    hide Sits, Node, Reaches, Walks, Hi, Lo;
    if ps == [] {
      SitsInside(code, a, Node(NOTHING, 0));
      SitsNode(code, a, NOTHING, 0);
      DanglingNode(code, a, NOTHING);
    } else {
      WalkPs(code, a, ps);
    }
  }

  // ---- patching ----

  lemma PatchLast(F: seq<Byte>, op: Byte, off: int)
    ensures SetNext(F + Node(op, 0), |F|, off) == F + Node(op, off)
  {
  }

  lemma PatchFirst(op: Byte, off: int, G: seq<Byte>)
    ensures SetNext(Node(op, 0) + G, 0, off) == Node(op, off) + G
  {
  }

  /** Setting the offset regtail stops at is exactly linking the piece's tail. */
  lemma PatchP(x: Piece, k: int)
    requires k != 0
    ensures SetNext(LayP(x, 0), TailP(x), k - TailP(x)) == LayP(x, k)
  {
    hide Node, SetNext, LayP, LayA, SizeP, SizeA, TailP, SimpleP, Hi, Lo;
    match x
    case AnyOf(cs) =>
      CharsIs(x, 0);
      CharsIs(x, k);
      PatchFirst2(ANYOF, k, cs, [0]);
    case AnyBut(cs) =>
      CharsIs(x, 0);
      CharsIs(x, k);
      PatchFirst2(ANYBUT, k, cs, [0]);
    case Exact(str) =>
      CharsIs(x, 0);
      CharsIs(x, k);
      PatchFirst2(EXACTLY, k, str, [0]);
    case Group(n, bs) => PatchGroup(n, bs, k);
    case Star(y) => PatchStar(y, k);
    case Plus(y) => PatchPlus(y, k);
    case Opt(y) => PatchOpt(y, k);
    case _ =>
      PlainIs(x, 0);
      PlainIs(x, k);
      PatchNode(TailOp(x), k);
  }

  lemma PatchGroup(n: nat, bs: seq<Branch>, k: int)
    requires k != 0
    ensures var x := Group(n, bs); SetNext(LayP(x, 0), TailP(x), k - TailP(x)) == LayP(x, k)
  {
    hide Node, SetNext, LayP, LayA, SizeP, SizeA, TailP, Hi, Lo;
    GroupIs(n, bs, 0);
    GroupIs(n, bs, k);
    PatchLast(Node((OPEN + n) % 256, 3) + LayA(bs, SizeA(bs), |bs|), (CLOSE + n) % 256, k - SizeA(bs) - 3);
  }

  lemma PatchOpt(y: Piece, k: int)
    requires k != 0
    ensures var x := Opt(y); SetNext(LayP(x, 0), TailP(x), k - TailP(x)) == LayP(x, k)
  {
    hide Node, SetNext, LayP, SizeP, TailP, Hi, Lo;
    OptIs(y, 0);
    OptIs(y, k);
    PatchLast(Node(BRANCH, SizeP(y) + 3) + LayP(y, SizeP(y) + 3) + Node(BRANCH, 3), NOTHING, k - SizeP(y) - 6);
  }

  /** The code of x*, x+ and x? up to the node that carries the tail. */
  function StarHead(y: Piece): seq<Byte> {
    Node(BRANCH, SizeP(y) + 6) + LayP(y, SizeP(y)) + Node(BACK, SizeP(y) + 3) + Node(BRANCH, 3)
  }

  function PlusHead(y: Piece): seq<Byte> {
    LayP(y, SizeP(y)) + Node(BRANCH, 6) + Node(BACK, SizeP(y) + 3) + Node(BRANCH, 3)
  }

  lemma LayStar(y: Piece, k: int)
    requires !SimpleP(y)
    ensures LayP(Star(y), k) == StarHead(y) + Node(NOTHING, Tail(k, SizeP(y) + 9)) && |StarHead(y)| == SizeP(y) + 9
  {
    hide Node, LayP, SizeP, SimpleP, Tail;
    var n, N := SizeP(y), Node(NOTHING, Tail(k, SizeP(y) + 9));
    StarIs(y, k);
    Five(Node(BRANCH, n + 6), LayP(y, n), Node(BACK, n + 3), Node(BRANCH, 3), N);
  }

  lemma LayPlus(y: Piece, k: int)
    requires !SimpleP(y)
    ensures LayP(Plus(y), k) == PlusHead(y) + Node(NOTHING, Tail(k, SizeP(y) + 9)) && |PlusHead(y)| == SizeP(y) + 9
  {
    hide Node, LayP, SizeP, SimpleP, Tail;
    var n, N := SizeP(y), Node(NOTHING, Tail(k, SizeP(y) + 9));
    PlusIs(y, k);
    Five(LayP(y, n), Node(BRANCH, 6), Node(BACK, n + 3), Node(BRANCH, 3), N);
  }

  lemma Five(a: seq<Byte>, b: seq<Byte>, c: seq<Byte>, d: seq<Byte>, e: seq<Byte>)
    ensures a + b + (c + d + e) == a + b + c + d + e == a + (b + c + d + e)
  {
  }

  lemma PatchStar(y: Piece, k: int)
    requires k != 0
    ensures var x := Star(y); SetNext(LayP(x, 0), TailP(x), k - TailP(x)) == LayP(x, k)
  {
    hide Node, SetNext, LayP, StarHead, SizeP, TailP, SimpleP, Hi, Lo;
    if SimpleP(y) {
      SimpleIs(y, 0);
      SimpleIs(y, k);
      PatchFirst(STAR, k, LayP(y, 0));
    } else {
      StarIs(y, 0);
      LayStar(y, 0);
      LayStar(y, k);
      PatchLast(StarHead(y), NOTHING, k - SizeP(y) - 9);
    }
  }

  lemma PatchPlus(y: Piece, k: int)
    requires k != 0
    ensures var x := Plus(y); SetNext(LayP(x, 0), TailP(x), k - TailP(x)) == LayP(x, k)
  {
    hide Node, SetNext, LayP, PlusHead, SizeP, TailP, SimpleP, Hi, Lo;
    if SimpleP(y) {
      SimpleIs(y, 0);
      SimpleIs(y, k);
      PatchFirst(PLUS, k, LayP(y, 0));
    } else {
      PlusIs(y, 0);
      LayPlus(y, 0);
      LayPlus(y, k);
      PatchLast(PlusHead(y), NOTHING, k - SizeP(y) - 9);
    }
  }

  lemma PatchNode(op: Byte, off: int)
    ensures SetNext(Node(op, 0), 0, off) == Node(op, off)
  {
  }

  lemma PatchFirst2(op: Byte, off: int, G: seq<Byte>, H: seq<Byte>)
    ensures SetNext(Node(op, 0) + G + H, 0, off) == Node(op, off) + G + H
  {
  }

  lemma PatchInside(F: seq<Byte>, G: seq<Byte>, H: seq<Byte>, t: int, off: int)
    requires 0 <= t && t + 3 <= |G|
    ensures SetNext(F + G + H, |F| + t, off) == F + SetNext(G, t, off) + H
  {
  }

  lemma {:induction false} PatchPs(ps: seq<Piece>, k: int)
    requires ps != [] && k > SizePs(ps) - 3
    ensures SetNext(LayPs(ps, 0), TailPs(ps), k - TailPs(ps)) == LayPs(ps, k)
    decreases ps
  {
    hide Node, SetNext, LayP;
    if |ps| == 1 {
      PatchP(ps[0], k);
    } else {
      var n := SizeP(ps[0]);
      PatchPs(ps[1..], k - n);
      PatchAfter(LayP(ps[0], n), LayPs(ps[1..], 0), TailPs(ps[1..]), k - TailPs(ps));
    }
  }

  lemma PatchB(ps: seq<Piece>, k: int)
    requires k >= SizeB(ps)
    ensures SetNext(LayB(ps, 0), TailB(ps), k - TailB(ps)) == LayB(ps, k)
  {
    hide Node, SetNext;
    if ps == [] {
      PatchNode(NOTHING, k);
    } else {
      PatchPs(ps, k);
    }
  }

  /** Linking the last BRANCH of a chain to what follows it. */
  lemma {:induction false} PatchA(bs: seq<Branch>, e: int)
    requires bs != [] && e >= SizeA(bs)
    ensures SetNext(LayA(bs, 0, 0), LastA(bs), e - LastA(bs)) == LayA(bs, e, 0)
    decreases bs
  {
    hide Node, SetNext, LayA, LayB, SizeB;
    var n := 3 + SizeB(bs[0].ps);
    var body, rest := LayB(bs[0].ps, 0), bs[1..];
    LayACons(bs, 0, 0);
    LayACons(bs, e, 0);
    if |bs| == 1 {
      LayANone(0, -1);
      LayANone(e - n, -1);
      assert rest == [];
      assert Node(BRANCH, 0) + body + [] == Node(BRANCH, 0) + body;
      assert Node(BRANCH, e) + body + [] == Node(BRANCH, e) + body;
      PatchFirst(BRANCH, e, body);
    } else {
      UnlinkedBodies(rest, 0, -1, 0);
      UnlinkedBodies(rest, e - n, -1, 0);
      PatchA(rest, e - n);
      PatchAfter(Node(BRANCH, n) + body, LayA(rest, 0, 0), LastA(rest), e - LastA(bs));
    }
  }

  /** Adding one more branch, after the last BRANCH has been linked to it. */
  lemma {:induction false} SnocA(bs: seq<Branch>, b: Branch)
    requires bs != []
    ensures LayA(bs + [b], 0, 0)
      == SetNext(LayA(bs, 0, 0), LastA(bs), SizeA(bs) - LastA(bs)) + (Node(BRANCH, 0) + LayB(b.ps, 0))
    ensures SizeA(bs + [b]) == SizeA(bs) + 3 + SizeB(b.ps)
    ensures LastA(bs + [b]) == SizeA(bs)
    decreases bs
  {
    PatchA(bs, SizeA(bs));
    SnocA'(bs, b);
    SizeSnocA(bs, b);
  }

  lemma {:induction false} SizeSnocA(bs: seq<Branch>, b: Branch)
    ensures SizeA(bs + [b]) == SizeA(bs) + 3 + SizeB(b.ps)
    ensures LastA(bs + [b]) == SizeA(bs)
    decreases bs
  {
    if bs == [] {
      assert (bs + [b])[1..] == [];
    } else {
      assert (bs + [b])[1..] == bs[1..] + [b];
      SizeSnocA(bs[1..], b);
    }
  }

  lemma LayANone(e: int, d: int)
    ensures LayA([], e, d) == [] && SizeA([]) == 0
  {
  }

  lemma {:induction false} SnocA'(bs: seq<Branch>, b: Branch)
    requires bs != []
    ensures LayA(bs + [b], 0, 0) == LayA(bs, SizeA(bs), 0) + (Node(BRANCH, 0) + LayB(b.ps, 0))
    decreases bs
  {
    hide Node, SetNext, LayA, LayB, SizeB, SizeA;
    var cs := bs + [b];
    var n := 3 + SizeB(bs[0].ps);
    var body, last := LayB(bs[0].ps, 0), Node(BRANCH, 0) + LayB(b.ps, 0);
    assert cs[1..] == bs[1..] + [b] && cs[0] == bs[0];
    LayACons(cs, 0, 0);
    LayACons(bs, SizeA(bs), 0);
    LayANone(0, -1);
    if |bs| == 1 {
      assert bs[1..] == [] && cs[1..] == [b] && [b][1..] == [];
      LayACons([b], 0, -1);
      LayANone(Tail(n, n), -1);
      assert last + [] == last;
      assert Node(BRANCH, n) + body + [] == Node(BRANCH, n) + body;
    } else {
      SnocA'(bs[1..], b);
      UnlinkedBodies(cs[1..], 0, -1, 0);
      UnlinkedBodies(bs[1..], SizeA(bs[1..]), -1, 0);
      Together(Node(BRANCH, n) + body, LayA(bs[1..], SizeA(bs[1..]), 0), last);
    }
  }

  /** Where branch i's BRANCH node is. */
  function BranchAt(bs: seq<Branch>, i: nat): (t: nat)
    requires i < |bs|
    ensures t + 3 + SizeB(bs[i].ps) <= SizeA(bs)
    decreases bs
  {
    if i == 0 then 0 else 3 + SizeB(bs[0].ps) + BranchAt(bs[1..], i - 1)
  }

  lemma {:induction false} SitsBranch(code: seq<Byte>, a: int, bs: seq<Branch>, e: int, d: int, i: nat)
    requires i < |bs| && Sits(code, a, LayA(bs, e, d)) && e >= SizeA(bs)
    ensures Sits(code, a + BranchAt(bs, i), Node(BRANCH, if i == |bs| - 1 then e - BranchAt(bs, i) else 3 + SizeB(bs[i].ps)))
    ensures Sits(code, a + BranchAt(bs, i) + 3, LayB(bs[i].ps, if i < d then e - BranchAt(bs, i) - 3 else 0))
    decreases bs
  {
    hide Sits, Node, LayA, LayB;
    LayACons(bs, e, d);
    var n := 3 + SizeB(bs[0].ps);
    var head := Node(BRANCH, if |bs| == 1 then e else n);
    var body := LayB(bs[0].ps, if d > 0 then Tail(e, 3) else 0);
    SitsParts(code, a, head + body, LayA(bs[1..], Tail(e, n), d - 1));
    SitsParts(code, a, head, body);
    if i > 0 {
      SitsBranch(code, a + n, bs[1..], e - n, d - 1, i - 1);
    }
  }

  lemma {:induction false} BranchAfter(bs: seq<Branch>, i: nat)
    requires i < |bs|
    ensures BranchAt(bs, i) + 3 + SizeB(bs[i].ps) == if i + 1 < |bs| then BranchAt(bs, i + 1) else SizeA(bs)
    decreases bs
  {
    hide SizeB;
    if i > 0 {
      BranchAfter(bs[1..], i - 1);
    } else if |bs| > 1 {
      assert BranchAt(bs, 1) == 3 + SizeB(bs[0].ps) + BranchAt(bs[1..], 0);
    } else {
      assert SizeA(bs[1..]) == 0;
    }
  }

  /** The code of a chain: its first BRANCH node, that branch's body, and the rest. */
  lemma LayACons(bs: seq<Branch>, e: int, d: int)
    requires bs != []
    ensures var n := 3 + SizeB(bs[0].ps);
      LayA(bs, e, d) == Node(BRANCH, if |bs| == 1 then e else n) + LayB(bs[0].ps, if d > 0 then Tail(e, 3) else 0)
                        + LayA(bs[1..], Tail(e, n), d - 1)
    ensures SizeA(bs) == 3 + SizeB(bs[0].ps) + SizeA(bs[1..])
  {
    hide Node, LayB;
  }

  lemma PatchAfter(F: seq<Byte>, G: seq<Byte>, t: int, off: int)
    requires 0 <= t && t + 3 <= |G|
    ensures SetNext(F + G, |F| + t, off) == F + SetNext(G, t, off)
  {
  }

  /** Linking the body of branch d when the ones before it are linked. */
  lemma {:induction false} PatchBody(bs: seq<Branch>, e: int, d: nat)
    requires d < |bs| && e >= SizeA(bs)
    ensures var t := BranchAt(bs, d) + 3 + TailB(bs[d].ps);
      && t + 3 <= SizeA(bs)
      && SetNext(LayA(bs, e, d), t, e - t) == LayA(bs, e, d + 1)
    decreases bs
  {
    hide Node, SetNext, LayA, LayB;
    if d == 0 {
      PatchFirstBody(bs, e);
    } else {
      var n := 3 + SizeB(bs[0].ps);
      var head := Node(BRANCH, if |bs| == 1 then e else n);
      LayACons(bs, e, d);
      LayACons(bs, e, d + 1);
      PatchBody(bs[1..], e - n, d - 1);
      var t := BranchAt(bs[1..], d - 1) + 3 + TailB(bs[d].ps);
      PatchAfter(head + LayB(bs[0].ps, e - 3), LayA(bs[1..], e - n, d - 1), t, e - n - t);
    }
  }

  lemma PatchFirstBody(bs: seq<Branch>, e: int)
    requires bs != [] && e >= SizeA(bs)
    ensures var t := 3 + TailB(bs[0].ps);
      t + 3 <= SizeA(bs) && SetNext(LayA(bs, e, 0), t, e - t) == LayA(bs, e, 1)
  {
    hide Node, SetNext, LayA, LayB;
    var n := 3 + SizeB(bs[0].ps);
    var head := Node(BRANCH, if |bs| == 1 then e else n);
    var t := TailB(bs[0].ps);
    LayACons(bs, e, 0);
    LayACons(bs, e, 1);
    UnlinkedBodies(bs[1..], Tail(e, n), -1, 0);
    PatchB(bs[0].ps, e - 3);
    PatchInside(head, LayB(bs[0].ps, 0), LayA(bs[1..], Tail(e, n), -1), t, e - 3 - t);
  }

  lemma LayPsCons(ps: seq<Piece>, k: int)
    requires ps != []
    ensures SizePs(ps) == SizeP(ps[0]) + SizePs(ps[1..])
    ensures LayPs(ps, k) ==
      if |ps| == 1 then LayP(ps[0], k) else LayP(ps[0], SizeP(ps[0])) + LayPs(ps[1..], Tail(k, SizeP(ps[0])))
  {
    hide LayP, SizeP, Tail;
  }

  lemma LayPsNone(k: int)
    ensures LayPs([], k) == [] && SizePs([]) == 0
  {
  }

  lemma Together(a: seq<Byte>, b: seq<Byte>, c: seq<Byte>)
    ensures a + (b + c) == a + b + c
  {
  }

  /** Adding one more piece to a branch, once its tail has been linked to it. */
  lemma {:induction false} SnocPs(ps: seq<Piece>, x: Piece, k: int)
    requires k == 0 || k > SizePs(ps)
    ensures LayPs(ps + [x], k) == LayPs(ps, SizePs(ps)) + LayP(x, Tail(k, SizePs(ps)))
    ensures SizePs(ps + [x]) == SizePs(ps) + SizeP(x)
    decreases ps
  {
    hide LayP, SizeP, LayPs, SizePs;
    var qs := ps + [x];
    LayPsCons(qs, k);
    if ps == [] {
      assert qs[1..] == [];
      LayPsNone(SizePs(ps));
      LayPsNone(k);
      assert [] + LayP(x, k) == LayP(x, k);
    } else {
      var n := SizeP(ps[0]);
      assert qs[1..] == ps[1..] + [x] && qs[0] == ps[0];
      LayPsCons(ps, SizePs(ps));
      SnocPs(ps[1..], x, Tail(k, n));
      LayPsNone(SizePs(ps) - n);
      Together(LayP(ps[0], n), LayPs(ps[1..], SizePs(ps[1..])), LayP(x, Tail(k, SizePs(ps))));
      if |ps| == 1 {
        assert ps[1..] == [];
        assert [] + LayP(x, Tail(k, n)) == LayP(x, Tail(k, n));
      }
    }
  }

  lemma {:induction false} SizePsAppend(ps: seq<Piece>, qs: seq<Piece>)
    ensures SizePs(ps + qs) == SizePs(ps) + SizePs(qs)
    decreases ps
  {
    if ps == [] {
      assert ps + qs == qs;
    } else {
      assert (ps + qs)[1..] == ps[1..] + qs;
      SizePsAppend(ps[1..], qs);
    }
  }

  lemma {:induction false} SizeAAppend(bs: seq<Branch>, cs: seq<Branch>)
    ensures SizeA(bs + cs) == SizeA(bs) + SizeA(cs)
    decreases bs
  {
    if bs == [] {
      assert bs + cs == cs;
    } else {
      assert (bs + cs)[1..] == bs[1..] + cs;
      SizeAAppend(bs[1..], cs);
    }
  }
}
