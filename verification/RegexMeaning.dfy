/** What a pattern means: the spans of a subject string it matches, and the trace of group
    boundaries passed on the way. Exec is the backtracking search for such a match that
    regmatch carries out, over a list of what is still to be matched. */
module RegexMeaning {
  import opened RegexSyntax

  /** A group boundary passed at a position. */
  datatype Event = Open(no: nat, pos: nat) | Close(no: nat, pos: nat)

  /** isalnum or underscore, in the C locale. */
  predicate IsWord(c: Byte) {
    48 <= c <= 57 || 65 <= c <= 90 || 97 <= c <= 122 || c == 95
  }

  // ---- the meaning of a pattern, as a relation ----

  /** Piece x matches s from i to j, passing tr. */
  ghost predicate DP(x: Piece, s: Text, i: nat, j: nat, tr: seq<Event>)
    decreases x, 0, 0
  {
    match x
    case Bol => i == 0 && j == i && tr == []
    case Eol => i == |s| && j == i && tr == []
    case WordA => IsWord(At(s, i)) && !(i > 0 && IsWord(At(s, i - 1))) && j == i && tr == []
    case WordZ => !IsWord(At(s, i)) && j == i && tr == []
    case Any => i < |s| && j == i + 1 && tr == []
    case AnyOf(cs) => i < |s| && s[i] in cs && j == i + 1 && tr == []
    case AnyBut(cs) => i < |s| && s[i] !in cs && j == i + 1 && tr == []
    case Exact(str) => i + |str| <= |s| && s[i..i + |str|] == str && j == i + |str| && tr == []
    case Group(n, bs) =>
      |tr| >= 2 && tr[0] == Open(n, i) && tr[|tr| - 1] == Close(n, j) && DA(bs, s, i, j, tr[1..|tr| - 1])
    case Star(y) => exists n: nat :: DIter(y, n, s, i, j, tr)
    case Plus(y) => exists n: nat :: n >= 1 && DIter(y, n, s, i, j, tr)
    case Opt(y) => DP(y, s, i, j, tr) || (i == j && tr == [])
  }

  /** n matches of x in a row. */
  ghost predicate DIter(x: Piece, n: nat, s: Text, i: nat, j: nat, tr: seq<Event>)
    decreases x, 1, n
  {
    if n == 0 then i == j && tr == []
    else exists m: nat, t1, t2 :: DP(x, s, i, m, t1) && DIter(x, n - 1, s, m, j, t2) && tr == t1 + t2
  }

  ghost predicate DB(ps: seq<Piece>, s: Text, i: nat, j: nat, tr: seq<Event>)
    decreases ps, 0, 0
  {
    if ps == [] then i == j && tr == []
    else exists m: nat, t1, t2 :: DP(ps[0], s, i, m, t1) && DB(ps[1..], s, m, j, t2) && tr == t1 + t2
  }

  ghost predicate DA(bs: seq<Branch>, s: Text, i: nat, j: nat, tr: seq<Event>)
    decreases bs, 0, 0
  {
    bs != [] && (DB(bs[0].ps, s, i, j, tr) || DA(bs[1..], s, i, j, tr))
  }

  // ---- HASWIDTH ----

  /** A piece flagged HASWIDTH never matches the null string. */
  lemma {:induction false} WidthSoundP(x: Piece, s: Text, i: nat, j: nat, tr: seq<Event>)
    requires WfP(x) && DP(x, s, i, j, tr)
    ensures i <= j && (WidthP(x) ==> i < j)
    decreases x, 0, 0
  {
    match x
    case Group(n, bs) => WidthSoundA(bs, s, i, j, tr[1..|tr| - 1]);
    case Star(y) =>
      var n: nat :| DIter(y, n, s, i, j, tr);
      IterAdvances(y, n, s, i, j, tr);
    case Plus(y) =>
      var n: nat :| n >= 1 && DIter(y, n, s, i, j, tr);
      IterAdvances(y, n, s, i, j, tr);
    case Opt(y) => if DP(y, s, i, j, tr) { WidthSoundP(y, s, i, j, tr); }
    case _ =>
  }

  /** Each time round a loop whose body has width uses up input. */
  lemma {:induction false} IterAdvances(x: Piece, n: nat, s: Text, i: nat, j: nat, tr: seq<Event>)
    requires WfP(x) && WidthP(x) && DIter(x, n, s, i, j, tr)
    ensures i + n <= j
    decreases x, 1, n
  {
    if n > 0 {
      var m: nat, t1, t2 :| DP(x, s, i, m, t1) && DIter(x, n - 1, s, m, j, t2) && tr == t1 + t2;
      WidthSoundP(x, s, i, m, t1);
      IterAdvances(x, n - 1, s, m, j, t2);
    }
  }

  lemma {:induction false} WidthSoundB(ps: seq<Piece>, s: Text, i: nat, j: nat, tr: seq<Event>)
    requires WfB(ps) && DB(ps, s, i, j, tr)
    ensures i <= j && (WidthB(ps) ==> i < j)
    decreases ps, 0, 0
  {
    if ps != [] {
      var m: nat, t1, t2 :| DP(ps[0], s, i, m, t1) && DB(ps[1..], s, m, j, t2) && tr == t1 + t2;
      WidthSoundP(ps[0], s, i, m, t1);
      WidthSoundB(ps[1..], s, m, j, t2);
    }
  }

  lemma {:induction false} WidthSoundA(bs: seq<Branch>, s: Text, i: nat, j: nat, tr: seq<Event>)
    requires WfA(bs) && DA(bs, s, i, j, tr)
    ensures i <= j && (WidthA(bs) ==> i < j)
    decreases bs, 0, 0
  {
    if DB(bs[0].ps, s, i, j, tr) {
      WidthSoundB(bs[0].ps, s, i, j, tr);
    } else {
      WidthSoundA(bs[1..], s, i, j, tr);
    }
  }

  // ---- the search ----

  /** What remains to be matched: pieces, the rest of a branch, the alternatives not yet
      tried, and groups to be closed. */
  datatype Goal = P(x: Piece) | B(ps: seq<Piece>) | A(bs: seq<Branch>) | C(no: nat)

  datatype Todo = Nil | Cons(t: Goal, k: Todo)

  datatype Outcome = NoMatch | Match(end: nat, tr: seq<Event>)

  predicate WfGoal(t: Goal) {
    match t
    case P(x) => WfP(x)
    case B(ps) => WfB(ps)
    case A(bs) => bs != [] && WfA(bs)
    case C(n) => 1 <= n < NSUBEXP
  }

  predicate WfTodo(todo: Todo) {
    todo.Cons? ==> WfGoal(todo.t) && WfTodo(todo.k)
  }

  predicate Wide(t: Goal) {
    match t
    case P(x) => WidthP(x)
    case B(ps) => WidthB(ps)
    case A(bs) => WidthA(bs)
    case C(_) => false
  }

  function CostP(x: Piece): (n: nat)
    ensures n >= 1
    decreases x, 0
  {
    match x
    case Group(_, bs) => CostA(bs) + 2
    case Star(y) => CostP(y) + 1
    case Plus(y) => CostP(y) + 1
    case Opt(y) => CostP(y) + 1
    case _ => 1
  }

  function CostB(ps: seq<Piece>): (n: nat)
    ensures n >= 1
    decreases ps, 0
  {
    if ps == [] then 1 else CostP(ps[0]) + CostB(ps[1..]) + 1
  }

  function CostA(bs: seq<Branch>): nat
    decreases bs, 0
  {
    if bs == [] then 0 else CostB(bs[0].ps) + CostA(bs[1..]) + 1
  }

  function Cost(t: Goal): (n: nat)
    requires WfGoal(t)
    ensures n >= 1
  {
    match t
    case P(x) => CostP(x)
    case B(ps) => CostB(ps)
    case A(bs) => CostA(bs)
    case C(_) => 1
  }

  /** The work ahead before input is bound to be used up: what stands behind a goal that
      has width does not count. */
  function Weight(todo: Todo): nat
    requires WfTodo(todo)
  {
    match todo
    case Nil => 0
    case Cons(t, k) => if Wide(t) then Cost(t) else Cost(t) + Weight(k)
  }

  lemma LighterB1(ps: seq<Piece>, k: Todo)
    requires |ps| == 1 && WfB(ps) && WfTodo(k)
    ensures Weight(Cons(P(ps[0]), k)) < Weight(Cons(B(ps), k))
  {
    assert ps[1..] == [];
    assert CostB(ps) == CostP(ps[0]) + CostB([]) + 1;
    assert WidthB(ps) == WidthP(ps[0]);
  }

  lemma LighterB(ps: seq<Piece>, k: Todo)
    requires |ps| > 1 && WfB(ps) && WfTodo(k)
    ensures Weight(Cons(P(ps[0]), Cons(B(ps[1..]), k))) < Weight(Cons(B(ps), k))
  {
    var rest := Cons(B(ps[1..]), k);
    assert CostB(ps) == CostP(ps[0]) + CostB(ps[1..]) + 1;
    assert Weight(rest) == CostB(ps[1..]) + if WidthB(ps[1..]) then 0 else Weight(k);
  }

  lemma LighterGroup(n: nat, bs: seq<Branch>, k: Todo)
    requires WfP(Group(n, bs)) && WfTodo(k)
    ensures Weight(Cons(A(bs), Cons(C(n), k))) < Weight(Cons(P(Group(n, bs)), k))
  {
    assert Weight(Cons(C(n), k)) == 1 + Weight(k);
  }

  function OrElse(a: Outcome, b: Outcome): Outcome {
    if a.Match? then a else b
  }

  function Mark(e: Event, r: Outcome): Outcome {
    if r.Match? then Match(r.end, [e] + r.tr) else NoMatch
  }

  /** Whether a piece that is matched without recursion matches at i, and how much of the
      input it uses up. */
  predicate Atom(x: Piece, s: Text, i: nat) {
    match x
    case Bol => i == 0
    case Eol => i == |s|
    case WordA => IsWord(At(s, i)) && !(i > 0 && IsWord(At(s, i - 1)))
    case WordZ => !IsWord(At(s, i))
    case Any => i < |s|
    case AnyOf(cs) => i < |s| && s[i] in cs
    case AnyBut(cs) => i < |s| && s[i] !in cs
    case Exact(str) => i + |str| <= |s| && s[i..i + |str|] == str
    case _ => false
  }

  function Uses(x: Piece): nat {
    match x
    case Any => 1
    case AnyOf(_) => 1
    case AnyBut(_) => 1
    case Exact(str) => |str|
    case _ => 0
  }

  /** The first match of everything in todo, in the order the alternatives are tried. */
  function Exec(todo: Todo, s: Text, i: nat): (r: Outcome)
    requires WfTodo(todo) && i <= |s|
    ensures r.Match? ==> i <= r.end <= |s|
    decreases |s| - i, Weight(todo)
  {
    match todo
    case Nil => Match(i, [])
    case Cons(t, k) =>
      match t
      case C(n) => Mark(Close(n, i), Exec(k, s, i))
      case B(ps) =>
        if ps == [] then Exec(k, s, i)
        else if |ps| == 1 then LighterB1(ps, k); Exec(Cons(P(ps[0]), k), s, i)
        else LighterB(ps, k); Exec(Cons(P(ps[0]), Cons(B(ps[1..]), k)), s, i)
      case A(bs) =>
        if |bs| == 1 then Exec(Cons(B(bs[0].ps), k), s, i)
        else OrElse(Exec(Cons(B(bs[0].ps), k), s, i), Exec(Cons(A(bs[1..]), k), s, i))
      case P(x) =>
        match x
        case Group(n, bs) => LighterGroup(n, bs, k); Mark(Open(n, i), Exec(Cons(A(bs), Cons(C(n), k)), s, i))
        case Star(y) => OrElse(Exec(Cons(P(y), todo), s, i), Exec(k, s, i))
        case Plus(y) => Exec(Cons(P(y), Cons(P(Star(y)), k)), s, i)
        case Opt(y) => OrElse(Exec(Cons(P(y), k), s, i), Exec(k, s, i))
        case _ => if Atom(x, s, i) then Exec(k, s, i + Uses(x)) else NoMatch
  }

  // ---- the search finds a match exactly when there is one ----

  ghost predicate DGoal(t: Goal, s: Text, i: nat, j: nat, tr: seq<Event>) {
    match t
    case P(x) => DP(x, s, i, j, tr)
    case B(ps) => DB(ps, s, i, j, tr)
    case A(bs) => DA(bs, s, i, j, tr)
    case C(n) => i == j && tr == [Close(n, i)]
  }

  /** Everything in todo matches, one thing after the other. */
  ghost predicate DTodo(todo: Todo, s: Text, i: nat, j: nat, tr: seq<Event>) {
    match todo
    case Nil => i == j && tr == []
    case Cons(t, k) =>
      exists m: nat, t1, t2 :: DGoal(t, s, i, m, t1) && DTodo(k, s, m, j, t2) && tr == t1 + t2
  }

  lemma JoinTodo(t: Goal, k: Todo, s: Text, i: nat, m: nat, j: nat, t1: seq<Event>, t2: seq<Event>)
    requires DGoal(t, s, i, m, t1) && DTodo(k, s, m, j, t2)
    ensures DTodo(Cons(t, k), s, i, j, t1 + t2)
  {
  }

  lemma SplitTodo(t: Goal, k: Todo, s: Text, i: nat, j: nat, tr: seq<Event>)
    returns (m: nat, t1: seq<Event>, t2: seq<Event>)
    requires DTodo(Cons(t, k), s, i, j, tr)
    ensures DGoal(t, s, i, m, t1) && DTodo(k, s, m, j, t2) && tr == t1 + t2
  {
    m, t1, t2 :| DGoal(t, s, i, m, t1) && DTodo(k, s, m, j, t2) && tr == t1 + t2;
  }

  /** What the search finds is a match. */
  lemma {:induction false} Sound(todo: Todo, s: Text, i: nat)
    requires WfTodo(todo) && i <= |s|
    ensures var r := Exec(todo, s, i); r.Match? ==> DTodo(todo, s, i, r.end, r.tr)
    decreases |s| - i, Weight(todo)
  {
    if todo.Cons? && Exec(todo, s, i).Match? {
      match todo.t
      case C(n) => SoundC(n, todo.k, s, i);
      case B(ps) => SoundB(ps, todo.k, s, i);
      case A(bs) => SoundA(bs, todo.k, s, i);
      case P(x) =>
        match x
        case Group(n, bs) => SoundGroup(n, bs, todo.k, s, i);
        case Star(y) => SoundStar(y, todo.k, s, i);
        case Plus(y) => SoundPlus(y, todo.k, s, i);
        case Opt(y) => SoundOpt(y, todo.k, s, i);
        case _ => SoundAtom(x, todo.k, s, i);
    }
  }

  lemma SoundC(n: nat, k: Todo, s: Text, i: nat)
    requires 1 <= n < NSUBEXP && WfTodo(k) && i <= |s| && Exec(Cons(C(n), k), s, i).Match?
    ensures var r := Exec(Cons(C(n), k), s, i); DTodo(Cons(C(n), k), s, i, r.end, r.tr)
    decreases |s| - i, Weight(Cons(C(n), k)), 0
  {
    Sound(k, s, i);
    var r := Exec(k, s, i);
    JoinTodo(C(n), k, s, i, i, r.end, [Close(n, i)], r.tr);
  }

  lemma SoundB(ps: seq<Piece>, k: Todo, s: Text, i: nat)
    requires WfB(ps) && WfTodo(k) && i <= |s| && Exec(Cons(B(ps), k), s, i).Match?
    ensures var r := Exec(Cons(B(ps), k), s, i); DTodo(Cons(B(ps), k), s, i, r.end, r.tr)
    decreases |s| - i, Weight(Cons(B(ps), k)), 0
  {
    hide DTodo, DP;
    var r := Exec(Cons(B(ps), k), s, i);
    if ps == [] {
      Sound(k, s, i);
      assert DB(ps, s, i, i, []);
      JoinTodo(B(ps), k, s, i, i, r.end, [], r.tr);
      assert [] + r.tr == r.tr;
    } else if |ps| == 1 {
      LighterB1(ps, k);
      Sound(Cons(P(ps[0]), k), s, i);
      var m, t1, t2 := SplitTodo(P(ps[0]), k, s, i, r.end, r.tr);
      SingleB(ps, s, i, m, t1);
      JoinTodo(B(ps), k, s, i, m, r.end, t1, t2);
    } else {
      LighterB(ps, k);
      var k' := Cons(B(ps[1..]), k);
      Sound(Cons(P(ps[0]), k'), s, i);
      var m, t1, t2 := SplitTodo(P(ps[0]), k', s, i, r.end, r.tr);
      var m', t3, t4 := SplitTodo(B(ps[1..]), k, s, m, r.end, t2);
      assert DB(ps, s, i, m', t1 + t3);
      JoinTodo(B(ps), k, s, i, m', r.end, t1 + t3, t4);
      assert t1 + t3 + t4 == r.tr;
    }
  }

  lemma BranchSplit(ps: seq<Piece>, s: Text, i: nat, j: nat, tr: seq<Event>)
    returns (m: nat, t1: seq<Event>, t2: seq<Event>)
    requires ps != [] && DB(ps, s, i, j, tr)
    ensures DP(ps[0], s, i, m, t1) && DB(ps[1..], s, m, j, t2) && tr == t1 + t2
  {
    m, t1, t2 :| DP(ps[0], s, i, m, t1) && DB(ps[1..], s, m, j, t2) && tr == t1 + t2;
  }

  lemma IterSplit(x: Piece, n: nat, s: Text, i: nat, j: nat, tr: seq<Event>)
    returns (m: nat, t1: seq<Event>, t2: seq<Event>)
    requires n > 0 && DIter(x, n, s, i, j, tr)
    ensures DP(x, s, i, m, t1) && DIter(x, n - 1, s, m, j, t2) && tr == t1 + t2
  {
    m, t1, t2 :| DP(x, s, i, m, t1) && DIter(x, n - 1, s, m, j, t2) && tr == t1 + t2;
  }

  lemma SingleB(ps: seq<Piece>, s: Text, i: nat, j: nat, tr: seq<Event>)
    requires |ps| == 1
    ensures DB(ps, s, i, j, tr) <==> DP(ps[0], s, i, j, tr)
  {
    assert ps[1..] == [];
    if DP(ps[0], s, i, j, tr) {
      assert DB(ps[1..], s, j, j, []) && tr == tr + [];
    }
    if DB(ps, s, i, j, tr) {
      var m, t1, t2 := BranchSplit(ps, s, i, j, tr);
      assert m == j && t2 == [] && tr == t1;
    }
  }

  lemma SoundA(bs: seq<Branch>, k: Todo, s: Text, i: nat)
    requires bs != [] && WfA(bs) && WfTodo(k) && i <= |s| && Exec(Cons(A(bs), k), s, i).Match?
    ensures var r := Exec(Cons(A(bs), k), s, i); DTodo(Cons(A(bs), k), s, i, r.end, r.tr)
    decreases |s| - i, Weight(Cons(A(bs), k)), 0
  {
    hide DTodo, DB;
    var r := Exec(Cons(A(bs), k), s, i);
    var first := Cons(B(bs[0].ps), k);
    if Exec(first, s, i).Match? {
      Sound(first, s, i);
      var m, t1, t2 := SplitTodo(B(bs[0].ps), k, s, i, r.end, r.tr);
      JoinTodo(A(bs), k, s, i, m, r.end, t1, t2);
    } else {
      Sound(Cons(A(bs[1..]), k), s, i);
      var m, t1, t2 := SplitTodo(A(bs[1..]), k, s, i, r.end, r.tr);
      JoinTodo(A(bs), k, s, i, m, r.end, t1, t2);
    }
  }

  lemma SoundGroup(n: nat, bs: seq<Branch>, k: Todo, s: Text, i: nat)
    requires WfP(Group(n, bs)) && WfTodo(k) && i <= |s| && Exec(Cons(P(Group(n, bs)), k), s, i).Match?
    ensures var r := Exec(Cons(P(Group(n, bs)), k), s, i); DTodo(Cons(P(Group(n, bs)), k), s, i, r.end, r.tr)
    decreases |s| - i, Weight(Cons(P(Group(n, bs)), k)), 0
  {
    hide DTodo, DA;
    LighterGroup(n, bs, k);
    var k' := Cons(C(n), k);
    Sound(Cons(A(bs), k'), s, i);
    var r := Exec(Cons(A(bs), k'), s, i);
    var m, t1, t2 := SplitTodo(A(bs), k', s, i, r.end, r.tr);
    var m', t3, t4 := SplitTodo(C(n), k, s, m, r.end, t2);
    var tr := [Open(n, i)] + t1 + [Close(n, m)];
    assert tr[1..|tr| - 1] == t1;
    JoinTodo(P(Group(n, bs)), k, s, i, m, r.end, tr, t4);
    assert tr + t4 == [Open(n, i)] + r.tr;
  }

  lemma StarMore(y: Piece, s: Text, i: nat, m: nat, j: nat, t1: seq<Event>, t2: seq<Event>)
    requires DP(y, s, i, m, t1) && DP(Star(y), s, m, j, t2)
    ensures DP(Star(y), s, i, j, t1 + t2) && DP(Plus(y), s, i, j, t1 + t2)
  {
    var n: nat :| DIter(y, n, s, m, j, t2);
    assert DIter(y, n + 1, s, i, j, t1 + t2);
  }

  lemma StarNone(y: Piece, s: Text, i: nat)
    ensures DP(Star(y), s, i, i, [])
  {
    assert DIter(y, 0, s, i, i, []);
  }

  /** The search for x*: x and then x* again, or else what follows; both are less work. */
  lemma ExecStar(y: Piece, k: Todo, s: Text, i: nat)
    requires WfP(Star(y)) && WfTodo(k) && i <= |s|
    ensures var todo := Cons(P(Star(y)), k);
      && WfTodo(todo) && WfTodo(Cons(P(y), todo))
      && Weight(Cons(P(y), todo)) < Weight(todo) && Weight(k) < Weight(todo)
      && Exec(todo, s, i) == OrElse(Exec(Cons(P(y), todo), s, i), Exec(k, s, i))
  {
  }

  lemma SoundStar(y: Piece, k: Todo, s: Text, i: nat)
    requires WfP(Star(y)) && WfTodo(k) && i <= |s| && Exec(Cons(P(Star(y)), k), s, i).Match?
    ensures var r := Exec(Cons(P(Star(y)), k), s, i); DTodo(Cons(P(Star(y)), k), s, i, r.end, r.tr)
    decreases |s| - i, Weight(Cons(P(Star(y)), k)), 0
  {
    hide DTodo, DP, Exec, Weight, WfP, WfTodo;
    var todo := Cons(P(Star(y)), k);
    ExecStar(y, k, s, i);
    var r := Exec(todo, s, i);
    if Exec(Cons(P(y), todo), s, i).Match? {
      Sound(Cons(P(y), todo), s, i);
      var m, t1, t2 := SplitTodo(P(y), todo, s, i, r.end, r.tr);
      var m', t3, t4 := SplitTodo(P(Star(y)), k, s, m, r.end, t2);
      StarMore(y, s, i, m, m', t1, t3);
      JoinTodo(P(Star(y)), k, s, i, m', r.end, t1 + t3, t4);
      assert t1 + t3 + t4 == r.tr;
    } else {
      Sound(k, s, i);
      StarNone(y, s, i);
      JoinTodo(P(Star(y)), k, s, i, i, r.end, [], r.tr);
      assert [] + r.tr == r.tr;
    }
  }

  lemma SoundPlus(y: Piece, k: Todo, s: Text, i: nat)
    requires WfP(Plus(y)) && WfTodo(k) && i <= |s| && Exec(Cons(P(Plus(y)), k), s, i).Match?
    ensures var r := Exec(Cons(P(Plus(y)), k), s, i); DTodo(Cons(P(Plus(y)), k), s, i, r.end, r.tr)
    decreases |s| - i, Weight(Cons(P(Plus(y)), k)), 0
  {
    hide DTodo, DP;
    var k' := Cons(P(Star(y)), k);
    var r := Exec(Cons(P(y), k'), s, i);
    Sound(Cons(P(y), k'), s, i);
    var m, t1, t2 := SplitTodo(P(y), k', s, i, r.end, r.tr);
    var m', t3, t4 := SplitTodo(P(Star(y)), k, s, m, r.end, t2);
    StarMore(y, s, i, m, m', t1, t3);
    JoinTodo(P(Plus(y)), k, s, i, m', r.end, t1 + t3, t4);
    assert t1 + t3 + t4 == r.tr;
  }

  lemma SoundOpt(y: Piece, k: Todo, s: Text, i: nat)
    requires WfP(Opt(y)) && WfTodo(k) && i <= |s| && Exec(Cons(P(Opt(y)), k), s, i).Match?
    ensures var r := Exec(Cons(P(Opt(y)), k), s, i); DTodo(Cons(P(Opt(y)), k), s, i, r.end, r.tr)
    decreases |s| - i, Weight(Cons(P(Opt(y)), k)), 0
  {
    hide DTodo;
    var r := Exec(Cons(P(Opt(y)), k), s, i);
    if Exec(Cons(P(y), k), s, i).Match? {
      Sound(Cons(P(y), k), s, i);
      var m, t1, t2 := SplitTodo(P(y), k, s, i, r.end, r.tr);
      JoinTodo(P(Opt(y)), k, s, i, m, r.end, t1, t2);
    } else {
      Sound(k, s, i);
      JoinTodo(P(Opt(y)), k, s, i, i, r.end, [], r.tr);
      assert [] + r.tr == r.tr;
    }
  }

  lemma AtomMeans(x: Piece, s: Text, i: nat, j: nat, tr: seq<Event>)
    requires Atomic(x) && i <= |s|
    ensures DP(x, s, i, j, tr) <==> Atom(x, s, i) && j == i + Uses(x) && tr == []
  {
  }

  lemma SoundAtom(x: Piece, k: Todo, s: Text, i: nat)
    requires Atomic(x) && WfP(x) && WfTodo(k) && i <= |s| && Exec(Cons(P(x), k), s, i).Match?
    ensures var r := Exec(Cons(P(x), k), s, i); DTodo(Cons(P(x), k), s, i, r.end, r.tr)
    decreases |s| - i, Weight(Cons(P(x), k)), 0
  {
    hide DTodo;
    var j := i + Uses(x);
    AtomMeans(x, s, i, j, []);
    Sound(k, s, j);
    var r := Exec(k, s, j);
    JoinTodo(P(x), k, s, i, j, r.end, [], r.tr);
    assert [] + r.tr == r.tr;
  }

  /** Where there is a match, the search finds one. */
  lemma {:induction false} Complete(todo: Todo, s: Text, i: nat, j: nat, tr: seq<Event>)
    requires WfTodo(todo) && i <= |s| && DTodo(todo, s, i, j, tr)
    ensures Exec(todo, s, i).Match?
    decreases |s| - i, Weight(todo)
  {
    if todo.Cons? {
      hide DTodo, Exec, DP, DA, DB, Weight;
      var m, t1, t2 := SplitTodo(todo.t, todo.k, s, i, j, tr);
      match todo.t
      case C(n) => CompleteC(n, todo.k, s, i, j, t2);
      case B(ps) => CompleteB(ps, todo.k, s, i, m, j, t1, t2);
      case A(bs) => CompleteA(bs, todo.k, s, i, m, j, t1, t2);
      case P(x) =>
        match x
        case Group(n, bs) => CompleteGroup(n, bs, todo.k, s, i, m, j, t1, t2);
        case Star(y) => CompleteStar(y, todo.k, s, i, m, j, t1, t2);
        case Plus(y) => CompletePlus(y, todo.k, s, i, m, j, t1, t2);
        case Opt(y) => CompleteOpt(y, todo.k, s, i, m, j, t1, t2);
        case _ => CompleteAtom(x, todo.k, s, i, m, j, t1, t2);
    }
  }

  lemma CompleteC(n: nat, k: Todo, s: Text, i: nat, j: nat, t2: seq<Event>)
    requires WfTodo(Cons(C(n), k)) && i <= |s| && DTodo(k, s, i, j, t2)
    ensures Exec(Cons(C(n), k), s, i).Match?
    decreases |s| - i, Weight(Cons(C(n), k)), 0
  {
    hide DTodo;
    Complete(k, s, i, j, t2);
  }

  lemma CompleteAtom(x: Piece, k: Todo, s: Text, i: nat, m: nat, j: nat, t1: seq<Event>, t2: seq<Event>)
    requires Atomic(x) && WfP(x) && WfTodo(k) && i <= |s| && DP(x, s, i, m, t1) && DTodo(k, s, m, j, t2)
    ensures Exec(Cons(P(x), k), s, i).Match?
    decreases |s| - i, Weight(Cons(P(x), k)), 0
  {
    hide DTodo;
    AtomMeans(x, s, i, m, t1);
    Complete(k, s, m, j, t2);
  }

  lemma CompleteGroup(n: nat, bs: seq<Branch>, k: Todo, s: Text, i: nat, m: nat, j: nat, t1: seq<Event>, t2: seq<Event>)
    requires WfP(Group(n, bs)) && WfTodo(k) && i <= |s| && DP(Group(n, bs), s, i, m, t1) && DTodo(k, s, m, j, t2)
    ensures Exec(Cons(P(Group(n, bs)), k), s, i).Match?
    decreases |s| - i, Weight(Cons(P(Group(n, bs)), k)), 0
  {
    hide DTodo, DA;
    var v := t1[1..|t1| - 1];
    LighterGroup(n, bs, k);
    JoinTodo(C(n), k, s, m, m, j, [Close(n, m)], t2);
    JoinTodo(A(bs), Cons(C(n), k), s, i, m, j, v, [Close(n, m)] + t2);
    Complete(Cons(A(bs), Cons(C(n), k)), s, i, j, v + ([Close(n, m)] + t2));
  }

  lemma CompleteOpt(y: Piece, k: Todo, s: Text, i: nat, m: nat, j: nat, t1: seq<Event>, t2: seq<Event>)
    requires WfP(Opt(y)) && WfTodo(k) && i <= |s| && DP(Opt(y), s, i, m, t1) && DTodo(k, s, m, j, t2)
    ensures Exec(Cons(P(Opt(y)), k), s, i).Match?
    decreases |s| - i, Weight(Cons(P(Opt(y)), k)), 0
  {
    hide DTodo;
    if DP(y, s, i, m, t1) {
      JoinTodo(P(y), k, s, i, m, j, t1, t2);
      Complete(Cons(P(y), k), s, i, j, t1 + t2);
    } else {
      Complete(k, s, i, j, t2);
    }
  }

  lemma CompleteB(ps: seq<Piece>, k: Todo, s: Text, i: nat, m: nat, j: nat, t1: seq<Event>, t2: seq<Event>)
    requires WfB(ps) && WfTodo(k) && i <= |s| && DB(ps, s, i, m, t1) && DTodo(k, s, m, j, t2)
    ensures Exec(Cons(B(ps), k), s, i).Match?
    decreases |s| - i, Weight(Cons(B(ps), k)), 0
  {
    hide DTodo, DP;
    if ps == [] {
      Complete(k, s, i, j, t2);
    } else if |ps| == 1 {
      SingleB(ps, s, i, m, t1);
      LighterB1(ps, k);
      JoinTodo(P(ps[0]), k, s, i, m, j, t1, t2);
      Complete(Cons(P(ps[0]), k), s, i, j, t1 + t2);
    } else {
      var c: nat, u1, u2 :| DP(ps[0], s, i, c, u1) && DB(ps[1..], s, c, m, u2) && t1 == u1 + u2;
      LighterB(ps, k);
      JoinTodo(B(ps[1..]), k, s, c, m, j, u2, t2);
      JoinTodo(P(ps[0]), Cons(B(ps[1..]), k), s, i, c, j, u1, u2 + t2);
      Complete(Cons(P(ps[0]), Cons(B(ps[1..]), k)), s, i, j, u1 + (u2 + t2));
    }
  }

  lemma CompleteA(bs: seq<Branch>, k: Todo, s: Text, i: nat, m: nat, j: nat, t1: seq<Event>, t2: seq<Event>)
    requires bs != [] && WfA(bs) && WfTodo(k) && i <= |s| && DA(bs, s, i, m, t1) && DTodo(k, s, m, j, t2)
    ensures Exec(Cons(A(bs), k), s, i).Match?
    decreases |s| - i, Weight(Cons(A(bs), k)), 0
  {
    hide DTodo, DB;
    if DB(bs[0].ps, s, i, m, t1) {
      JoinTodo(B(bs[0].ps), k, s, i, m, j, t1, t2);
      Complete(Cons(B(bs[0].ps), k), s, i, j, t1 + t2);
    } else {
      JoinTodo(A(bs[1..]), k, s, i, m, j, t1, t2);
      Complete(Cons(A(bs[1..]), k), s, i, j, t1 + t2);
    }
  }

  lemma CompleteStar(y: Piece, k: Todo, s: Text, i: nat, m: nat, j: nat, t1: seq<Event>, t2: seq<Event>)
    requires WfP(Star(y)) && WfTodo(k) && i <= |s| && DP(Star(y), s, i, m, t1) && DTodo(k, s, m, j, t2)
    ensures Exec(Cons(P(Star(y)), k), s, i).Match?
    decreases |s| - i, Weight(Cons(P(Star(y)), k)), 0
  {
    hide DTodo;
    var n: nat :| DIter(y, n, s, i, m, t1);
    if n == 0 {
      Complete(k, s, i, j, t2);
    } else {
      var c, u1, u2 := IterSplit(y, n, s, i, m, t1);
      assert DP(Star(y), s, c, m, u2);
      var todo := Cons(P(Star(y)), k);
      JoinTodo(P(Star(y)), k, s, c, m, j, u2, t2);
      JoinTodo(P(y), todo, s, i, c, j, u1, u2 + t2);
      Complete(Cons(P(y), todo), s, i, j, u1 + (u2 + t2));
    }
  }

  lemma CompletePlus(y: Piece, k: Todo, s: Text, i: nat, m: nat, j: nat, t1: seq<Event>, t2: seq<Event>)
    requires WfP(Plus(y)) && WfTodo(k) && i <= |s| && DP(Plus(y), s, i, m, t1) && DTodo(k, s, m, j, t2)
    ensures Exec(Cons(P(Plus(y)), k), s, i).Match?
    decreases |s| - i, Weight(Cons(P(Plus(y)), k)), 0
  {
    hide DTodo;
    var n: nat :| n >= 1 && DIter(y, n, s, i, m, t1);
    var c, u1, u2 := IterSplit(y, n, s, i, m, t1);
    assert DP(Star(y), s, c, m, u2);
    var k' := Cons(P(Star(y)), k);
    JoinTodo(P(Star(y)), k, s, c, m, j, u2, t2);
    JoinTodo(P(y), k', s, i, c, j, u1, u2 + t2);
    Complete(Cons(P(y), k'), s, i, j, u1 + (u2 + t2));
  }

  /** The pattern matches somewhere from i on. */
  ghost predicate MatchesAt(bs: seq<Branch>, s: Text, i: nat) {
    exists j: nat, tr :: DA(bs, s, i, j, tr)
  }

  /** The search over a whole pattern. */
  function Search(bs: seq<Branch>, s: Text, i: nat): Outcome
    requires bs != [] && WfA(bs) && i <= |s|
  {
    Exec(Cons(A(bs), Nil), s, i)
  }

  /** The search succeeds at i exactly when the pattern means a match there, and what it
      finds is one. */
  lemma SearchMeans(bs: seq<Branch>, s: Text, i: nat)
    requires bs != [] && WfA(bs) && i <= |s|
    ensures var r := Search(bs, s, i);
      && (r.Match? <==> MatchesAt(bs, s, i))
      && (r.Match? ==> DA(bs, s, i, r.end, r.tr))
  {
    var todo := Cons(A(bs), Nil);
    var r := Search(bs, s, i);
    Sound(todo, s, i);
    if r.Match? {
      var m, t1, t2 := SplitTodo(A(bs), Nil, s, i, r.end, r.tr);
      assert t1 + [] == t1;
      assert DA(bs, s, i, r.end, r.tr);
    }
    if MatchesAt(bs, s, i) {
      var j: nat, tr :| DA(bs, s, i, j, tr);
      JoinTodo(A(bs), Nil, s, i, j, j, tr, []);
      Complete(todo, s, i, j, tr + []);
    }
  }
}
