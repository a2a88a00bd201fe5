/** Who waits for whom: only for targets whose 1ATAIL came earlier, so waiting is well founded. */
module Make1Waits {
  import opened Make1State
  import opened Make1Counters
  import opened Make1Steps

  /** Its 1ATAIL is behind it. */
  predicate Tailed(x: Target) {
    x.progress.Active? || x.progress.Running? || x.progress.Done?
  }

  /** t, told by u, may wait for it: u's 1ATAIL came first, or still comes first. */
  predicate MayWait(w: World, u: nat, t: nat)
    requires u < |w.ts| == |w.stamp|
  {
    && t < |w.ts| && !w.ts[t].progress.Init?
    && (|| (Tailed(w.ts[u]) && (Tailed(w.ts[t]) ==> w.stamp[u] < w.stamp[t]))
        || (w.ts[u].progress.OnStack? && w.ts[t].progress.OnStack?))
  }

  ghost predicate Waits(w: World)
    requires |w.ts| == |w.stamp|
  {
    forall u, t :: 0 <= u < |w.ts| && t in w.ts[u].parents ==> MayWait(w, u, t)
  }

  ghost predicate Stamped(w: World)
    requires |w.ts| == |w.stamp|
  {
    forall t :: 0 <= t < |w.ts| && Tailed(w.ts[t]) ==> w.stamp[t] < w.clock
  }

  /** lo and hi are the 1ATAILs of a target that waits and of one that it waits for. */
  predicate TailPair(w: World, lo: Entry, hi: Entry) {
    lo.kind.ATail? && hi.kind.ATail? && hi.t < |w.ts| && lo.t in w.ts[hi.t].parents
  }

  ghost predicate TailsInOrder(w: World) {
    forall i, j :: 0 <= i < |w.stack| && 0 <= j < |w.stack| && TailPair(w, w.stack[i], w.stack[j]) ==> i < j
  }

  /** Target t's dependency c has been visited, or is about to be. */
  predicate Asked(w: World, t: nat, c: nat)
    requires c < |w.ts|
  {
    !w.ts[c].progress.Init? || Entry(A, c, t, 0) in w.stack
  }

  ghost predicate DepsAsked(g: Graph, w: World)
    requires WfGraph(g) && |w.ts| == |g.depends|
  {
    forall t, c :: 0 <= t < |w.ts| && c in g.depends[t] && !w.ts[t].progress.Init? ==> Asked(w, t, c)
  }

  ghost predicate Ordered(g: Graph, w: World) {
    WfWorld(g, w) && Waits(w) && Stamped(w) && TailsInOrder(w) && DepsAsked(g, w)
  }

  // ---- steps that neither visit a target nor end its visit ----

  /** Targets are visited, told and stamped as before, and the same visits are on the stack. */
  ghost predicate Calm(w: World, w': World) {
    && |w'.ts| == |w.ts| && w'.stamp == w.stamp && w'.clock == w.clock
    && (forall t :: 0 <= t < |w.ts| ==> SameVisit(w.ts[t], w'.ts[t]))
    && (forall i :: 0 <= i < |w'.stack| && IsVisit(w'.stack[i]) ==> i < |w.stack| && w'.stack[i] == w.stack[i])
    && (forall i :: 0 <= i < |w.stack| && w.stack[i].kind.A? ==> i < |w'.stack| && w'.stack[i] == w.stack[i])
  }

  predicate SameVisit(x: Target, x': Target) {
    x'.parents == x.parents && x'.progress.Init? == x.progress.Init? && x'.progress.OnStack? == x.progress.OnStack?
  }

  predicate IsVisit(e: Entry) {
    e.kind.A? || e.kind.ATail?
  }

  lemma CalmKeeps(g: Graph, w: World, w': World)
    requires Ordered(g, w) && WfWorld(g, w') && Calm(w, w')
    ensures Ordered(g, w')
  {
    hide WfEntry, WfTarget;
    forall u, t | 0 <= u < |w'.ts| && t in w'.ts[u].parents
      ensures MayWait(w', u, t)
    {
      assert MayWait(w, u, t);
    }
    forall t, c | 0 <= t < |w'.ts| && c in g.depends[t] && !w'.ts[t].progress.Init?
      ensures Asked(w', t, c)
    {
      assert Asked(w, t, c);
    }
    forall i, j | 0 <= i < |w'.stack| && 0 <= j < |w'.stack| && TailPair(w', w'.stack[i], w'.stack[j])
      ensures i < j
    {
      assert TailPair(w, w.stack[i], w.stack[j]);
    }
  }

  lemma CalmB(g: Graph, w: World, cmds: seq<Cmd>)
    requires Conserved(g, w) && w.stack != [] && Top(w.stack).kind.B?
    ensures Calm(w, StepB(g, w, cmds))
  {
    hide SumsOf, DepStatus, AskAbove, WfTarget;
    WaitingB(g, w);
  }

  lemma CalmC(g: Graph, w: World)
    requires Conserved(g, w) && w.stack != [] && Top(w.stack).kind.C?
    ensures Calm(w, StepC(g, w))
  {
    hide SumsOf, AskAbove, Fits, Finish, WfTarget;
    CalmFinish(g, w);
  }

  lemma VisitsOf(st: seq<Entry>, es: seq<Entry>)
    requires st != [] && !IsVisit(Top(st)) && forall k :: 0 <= k < |es| ==> !IsVisit(es[k])
    ensures var st' := Rest(st) + es;
      && (forall i :: 0 <= i < |st'| && IsVisit(st'[i]) ==> i < |st| && st'[i] == st[i])
      && (forall i :: 0 <= i < |st| && st[i].kind.A? ==> i < |st'| && st'[i] == st[i])
  {
  }

  lemma CalmFinish(g: Graph, w: World)
    requires Conserved(g, w) && w.stack != [] && Top(w.stack).kind.C?
    ensures Calm(w, Finish(g, w))
  {
    hide SumsOf, AskAbove, ActStatus, Distribute, Tell, FitsAt, WfTarget, WfEntry, FirstWaiter;
    BusyTop(g, w);
    var t, w' := Top(w.stack).t, Finish(g, w);
    var ps := w.ts[t].parents + FirstWaiter(w.sems, g.semaphore[t]);
    TellHas(ps);
    VisitsOf(w.stack, Tell(ps));
  }

  lemma CalmD(g: Graph, w: World)
    requires Conserved(g, w) && w.stack != [] && Top(w.stack).kind.D? && w.ts[Top(w.stack).t].cmds != []
    ensures Calm(w, StepD(g, w))
  {
    hide SumsOf, AskAbove, WfTarget;
    BusyTop(g, w);
  }

  // ---- 1A ----

  /** p begins to wait for c, which is being built. */
  lemma OrderedAsk(g: Graph, w: World)
    requires Conserved(g, w) && Ordered(g, w) && w.stack != [] && Top(w.stack).kind.A?
    requires !w.ts[Top(w.stack).t].progress.Init?
    ensures Ordered(g, StepA(g, w))
  {
    hide SumsOf, AskAbove, FitsAt, WfTarget;
    var e, w' := Top(w.stack), StepA(g, w);
    assert WfEntry(g, e);
    WfA(g, w);
    AskingA(g, w);
    if Awaited(w.ts[e.t].progress) { NoTail(g, w, e.t); }
    forall u, t | 0 <= u < |w'.ts| && t in w'.ts[u].parents
      ensures MayWait(w', u, t)
    {
      assert t in w.ts[u].parents ==> MayWait(w, u, t);
    }
    forall t, c | 0 <= t < |w'.ts| && c in g.depends[t] && !w'.ts[t].progress.Init?
      ensures Asked(w', t, c)
    {
      assert Asked(w, t, c);
      if Entry(A, c, t, 0) in w.stack { InRest(w.stack, Entry(A, c, t, 0)); }
    }
    forall i, j | 0 <= i < |w'.stack| && 0 <= j < |w'.stack| && TailPair(w', w'.stack[i], w'.stack[j])
      ensures i < j
    {
      assert w'.stack[j] == w.stack[j] && w'.stack[i] == w.stack[i];
      assert TailPair(w, w.stack[i], w.stack[j]);
    }
  }

  lemma InRest(st: seq<Entry>, e: Entry)
    requires st != [] && e in st
    ensures e in Rest(st) || e == Top(st)
  {
  }

  /** A target that is not being visited has no 1ATAIL on the stack. */
  lemma NoTail(g: Graph, w: World, t: nat)
    requires Conserved(g, w) && t < |w.ts| && !w.ts[t].progress.OnStack?
    ensures forall i :: 0 <= i < |w.stack| ==> !(w.stack[i].kind.ATail? && w.stack[i].t == t)
  {
    hide AskAbove, Owed, Queued, Count;
    assert FitsAt(w, t);
    forall i | 0 <= i < |w.stack|
      ensures !(w.stack[i].kind.ATail? && w.stack[i].t == t)
    {
      CountsOne(w.stack, t, Tails, i);
    }
  }

  /** The first visit of c begins. */
  lemma OrderedStart(g: Graph, w: World)
    requires Conserved(g, w) && Ordered(g, w) && w.stack != [] && Top(w.stack).kind.A?
    requires w.ts[Top(w.stack).t].progress.Init?
    ensures Ordered(g, StepA(g, w))
  {
    hide SumsOf, AskAbove, FitsAt, WfTarget, AskFor, TailsInOrder;
    var e, w' := Top(w.stack), StepA(g, w);
    assert WfEntry(g, e);
    WfA(g, w);
    AskingA(g, w);
    var c := e.t;
    forall u, t | 0 <= u < |w'.ts| && t in w'.ts[u].parents
      ensures MayWait(w', u, t)
    {
      assert t in w.ts[u].parents ==> MayWait(w, u, t);
    }
    StartAsked(g, w);
    StartTails(g, w);
  }

  lemma StartAsked(g: Graph, w: World)
    requires Conserved(g, w) && Ordered(g, w) && w.stack != [] && Top(w.stack).kind.A?
    requires w.ts[Top(w.stack).t].progress.Init? && WfWorld(g, StepA(g, w))
    ensures DepsAsked(g, StepA(g, w))
  {
    hide SumsOf, AskAbove, FitsAt, WfTarget, AskFor, TailsInOrder, Waits;
    var e, w' := Top(w.stack), StepA(g, w);
    AskForHas(g.depends[e.t], e.t);
    forall t, d | 0 <= t < |w'.ts| && d in g.depends[t] && !w'.ts[t].progress.Init?
      ensures Asked(w', t, d)
    {
      if t == e.t {
        var k :| 0 <= k < |g.depends[t]| && g.depends[t][k] == d;
        assert Entry(A, g.depends[t][k], t, 0) in AskFor(g.depends[t], t);
      } else {
        assert Asked(w, t, d);
        if Entry(A, d, t, 0) in w.stack {
          InRest(w.stack, Entry(A, d, t, 0));
        }
      }
    }
  }

  lemma StartTails(g: Graph, w: World)
    requires Conserved(g, w) && Ordered(g, w) && w.stack != [] && Top(w.stack).kind.A?
    requires w.ts[Top(w.stack).t].progress.Init?
    ensures TailsInOrder(StepA(g, w))
  {
    hide SumsOf, AskAbove, FitsAt, WfTarget, AskFor, DepsAsked;
    var e, w' := Top(w.stack), StepA(g, w);
    assert WfEntry(g, e);
    AskingA(g, w);
    AskForHas(g.depends[e.t], e.t);
    NoTail(g, w, e.t);
    NotAwaited(w, e.t);
    forall i, j | 0 <= i < |w'.stack| && 0 <= j < |w'.stack| && TailPair(w', w'.stack[i], w'.stack[j])
      ensures i < j
    {
      var top := |w.stack| - 1;
      assert i <= top && j <= top;
      if j < top && i < top {
        assert w'.stack[i] == w.stack[i] && w'.stack[j] == w.stack[j];
        assert TailPair(w, w.stack[i], w.stack[j]);
      }
    }
  }

  /** Nobody is to tell a target that has not been visited. */
  lemma NotAwaited(w: World, c: nat)
    requires |w.ts| == |w.stamp| && Waits(w) && c < |w.ts| && w.ts[c].progress.Init?
    ensures forall u :: 0 <= u < |w.ts| ==> c !in w.ts[u].parents
  {
    forall u | 0 <= u < |w.ts|
      ensures c !in w.ts[u].parents
    {
      assert !MayWait(w, u, c);
    }
  }

  // ---- 1ATAIL ----

  lemma OrderedATail(g: Graph, w: World)
    requires Conserved(g, w) && Ordered(g, w) && w.stack != [] && Top(w.stack).kind.ATail?
    ensures Ordered(g, StepATail(g, w))
  {
    hide SumsOf, AskAbove, WfTarget, FitsAt;
    var e, w' := Top(w.stack), StepATail(g, w);
    var t0 := e.t;
    assert WfEntry(g, e);
    WfATail(g, w);
    TailStarted(g, w);
    forall u, t | 0 <= u < |w'.ts| && t in w'.ts[u].parents
      ensures MayWait(w', u, t)
    {
      assert MayWait(w, u, t);
      if w.ts[u].progress.OnStack? {
        TopIsLast(g, w, u);
      }
    }
    forall t, c | 0 <= t < |w'.ts| && c in g.depends[t] && !w'.ts[t].progress.Init?
      ensures Asked(w', t, c)
    {
      assert Asked(w, t, c);
      if Entry(A, c, t, 0) in w.stack { InRest(w.stack, Entry(A, c, t, 0)); }
    }
    forall i, j | 0 <= i < |w'.stack| && 0 <= j < |w'.stack| && TailPair(w', w'.stack[i], w'.stack[j])
      ensures i < j
    {
      assert w'.stack[j] == w.stack[j] && w'.stack[i] == w.stack[i];
      assert TailPair(w, w.stack[i], w.stack[j]);
    }
  }

  lemma TailStarted(g: Graph, w: World)
    requires Conserved(g, w) && w.stack != [] && Top(w.stack).kind.ATail?
    ensures w.ts[Top(w.stack).t].progress.OnStack?
  {
    hide AskAbove, Owed, Queued;
    var t := Top(w.stack).t;
    assert WfEntry(g, Top(w.stack)) && FitsAt(w, t);
    TopSums(w, t, Tails);
  }

  /** What the target on top waits for is not being visited any more. */
  lemma TopIsLast(g: Graph, w: World, u: nat)
    requires Conserved(g, w) && Ordered(g, w) && w.stack != [] && Top(w.stack).kind.ATail?
    requires u < |w.ts| && w.ts[u].progress.OnStack?
    ensures Top(w.stack).t !in w.ts[u].parents
  {
    hide AskAbove, Owed, Queued, Count;
    assert FitsAt(w, u);
    var j := CountSome(w.stack, u, Tails);
    assert !TailPair(w, w.stack[|w.stack| - 1], w.stack[j]);
  }

  // ---- every step ----

  lemma NextOrdered(g: Graph, w: World, w': World)
    requires Conserved(g, w) && Ordered(g, w) && Next(g, w, w')
    ensures Ordered(g, w')
  {
    hide Conserved, Ordered, StepA, StepATail, StepB, StepC, StepD, Calm;
    assert WfWorld(g, w) && WfWorld(g, w') by { NextKeeps(g, w, w'); Formed(g, w); Formed(g, w'); }
    if StepTop(g, w, w') {
      match Top(w.stack).kind
      case A => if w.ts[Top(w.stack).t].progress.Init? { OrderedStart(g, w); } else { OrderedAsk(g, w); }
      case ATail => OrderedATail(g, w);
      case B =>
        var cmds :| w' == StepB(g, w, cmds);
        CalmB(g, w, cmds);
        CalmKeeps(g, w, w');
      case C => CalmC(g, w); CalmKeeps(g, w, w');
      case D => CalmD(g, w); CalmKeeps(g, w, w');
    } else {
      var t, status :| Finishes(w, t, status) && w' == Closure(w, t, status);
      assert Calm(w, w') by { CalmClosure(w, t, status); }
      CalmKeeps(g, w, w');
    }
  }

  lemma Formed(g: Graph, w: World)
    requires Conserved(g, w)
    ensures WfWorld(g, w)
  {
  }

  lemma CalmClosure(w: World, t: nat, status: nat)
    ensures Calm(w, Closure(w, t, status))
  {
  }
}
