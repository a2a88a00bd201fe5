/** Counter conservation: what a target's asynccnt counts, through every step of make1. */
module Make1Counters {
  import opened Make1State

  /** What is still going on about a target: entries on the stack, promises to tell it, places
      in semaphore queues. */
  datatype Sums = Sums(tokens: nat, asks: nat, tails: nat, holds: nat, ends: nat, owed: nat, queued: nat)

  function SumsOf(w: World, t: nat): Sums {
    Sums(Count(w.stack, t, Tokens), Count(w.stack, t, Asks), Count(w.stack, t, Tails),
         Count(w.stack, t, Holds), Count(w.stack, t, Ends), Owed(w.ts, t), Queued(w.sems, t))
  }

  /** Released by 1B and not yet done: in 1C or 1D, or its command is running. */
  predicate IsBusy(y: Sums, run: bool) {
    y.holds > 0 || run
  }

  /** Nothing more will come to decrease its asynccnt. */
  predicate Free(y: Sums) {
    y.tokens == 0 && y.owed == 0 && y.queued == 0
  }

  /** A target's fields agree with what is going on about it; rel is how often 1B released it. */
  predicate Fits(x: Target, y: Sums, run: bool, rel: nat) {
    match x.progress
    case Init => y == Sums(0, 0, 0, 0, 0, 0, 0) && !run && rel == 0 && x.parents == [] && x.cmds == []
    case OnStack => y.tails == 1 && !IsBusy(y, run) && y.queued == 0 && rel == 0 && x.cmds == []
                    && x.asynccnt == y.tokens + y.owed && y.ends == 0
    case Active =>
      && y.tails == 0 && y.asks == 0 && x.cmds == [] && y.ends == 0 && !run
      && (if IsBusy(y, run) then Free(y) && y.holds == 1 && rel == 1 && x.asynccnt == 0
          else rel == 0 && x.asynccnt == y.tokens + y.owed + y.queued && x.asynccnt > 0)
    case Running =>
      && y.tails == 0 && y.asks == 0 && Free(y) && y.holds + (if run then 1 else 0) == 1 && rel == 1 && x.asynccnt == 0
      && (y.ends > 0 || run ==> x.cmds != []) && y.ends <= y.holds
    case Done => y.tails == 0 && y.asks == 0 && Free(y) && !IsBusy(y, run) && rel == 1 && y.ends == 0
  }

  ghost predicate FitsAt(w: World, t: nat)
    requires t < |w.ts| && t < |w.released|
  {
    Fits(w.ts[t], SumsOf(w, t), t in w.running, w.released[t])
  }

  /** Every 1A that a target asks for lies above the target's own 1ATAIL. */
  ghost predicate AskAbove(st: seq<Entry>) {
    forall i, j :: 0 <= i < |st| && 0 <= j < |st| && AskOf(st[j], st[i]) ==> i < j
  }

  predicate AskOf(ask: Entry, tail: Entry) {
    tail.kind.ATail? && ask.kind.A? && ask.parent == tail.t
  }

  /** The counting invariant. */
  ghost predicate Conserved(g: Graph, w: World) {
    && WfWorld(g, w) && AskAbove(w.stack)
    && forall t :: 0 <= t < |w.ts| ==> FitsAt(w, t)
  }

  // ---- how each step changes the sums ----

  lemma SplitTop(st: seq<Entry>, t: nat, q: Query)
    requires st != []
    ensures Count(st, t, q) == Count(Rest(st), t, q) + Val(Top(st), t, q)
    ensures st == Rest(st) + [Top(st)]
  {
  }

  lemma SumsA(g: Graph, w: World, t: nat)
    requires WfWorld(g, w) && w.stack != [] && Top(w.stack).kind.A? && t < |w.ts|
    requires w.ts[Top(w.stack).t].progress.Init? ==> w.ts[Top(w.stack).t].parents == []
    requires Awaited(w.ts[Top(w.stack).t].progress) ==> Top(w.stack).parent != Top(w.stack).t
    ensures var e, y, y' := Top(w.stack), SumsOf(w, t), SumsOf(StepA(g, w), t);
      var c := e.t;
      var starts, told := w.ts[c].progress.Init?, e.parent == t && Awaited(w.ts[c].progress);
      var own := starts && t == c;
      && y'.tokens == y.tokens + (if own then 1 else 0)
      && y'.asks + (if e.parent == t then 1 else 0) == y.asks + (if own then |g.depends[t]| else 0)
      && y'.tails == y.tails + (if own then 1 else 0)
      && y'.holds == y.holds && y'.ends == y.ends && y'.queued == y.queued
      && y'.owed == y.owed + (if told then 1 else 0)
  {
    hide Occ;
    var e, w' := Top(w.stack), StepA(g, w);
    StackA(g, w, t, Tokens);
    StackA(g, w, t, Asks);
    StackA(g, w, t, Tails);
    StackA(g, w, t, Holds);
    StackA(g, w, t, Ends);
    OwedA(g, w, t);
  }

  lemma StackA(g: Graph, w: World, t: nat, q: Query)
    requires WfWorld(g, w) && w.stack != [] && Top(w.stack).kind.A? && t < |w.ts|
    requires Awaited(w.ts[Top(w.stack).t].progress) ==> Top(w.stack).parent != Top(w.stack).t
    ensures var e := Top(w.stack); var starts := w.ts[e.t].progress.Init?;
      Count(StepA(g, w).stack, t, q) + Val(e, t, q) == Count(w.stack, t, q)
        + if starts then Val(e.(kind := ATail), t, q) + (if q.Asks? && t == e.t then |g.depends[t]| else 0) else 0
  {
    hide Count, Val, WfTarget;
    var e := Top(w.stack);
    SplitTop(w.stack, t, q);
    if w.ts[e.t].progress.Init? {
      var tail, asks := [e.(kind := ATail)], AskFor(g.depends[e.t], e.t);
      CountAppend(Rest(w.stack) + tail, asks, t, q);
      CountPush(Rest(w.stack), e.(kind := ATail), t, q);
      CountAskFor(g.depends[e.t], e.t, t, q);
    }
  }

  lemma OwedA(g: Graph, w: World, t: nat)
    requires WfWorld(g, w) && w.stack != [] && t < |w.ts|
    requires Awaited(w.ts[Top(w.stack).t].progress) ==> Top(w.stack).parent != Top(w.stack).t
    ensures var e := Top(w.stack);
      Owed(StepA(g, w).ts, t) == Owed(w.ts, t) + if e.parent == t && Awaited(w.ts[e.t].progress) then 1 else 0
  {
    hide Occ, Owed;
    var e := Top(w.stack);
    var c, p := e.t, e.parent;
    var ts1 := w.ts;
    if p != NONE && Awaited(w.ts[c].progress) {
      var x := w.ts[c].(parents := w.ts[c].parents + [p]);
      OwedUpdate(w.ts, c, x, t);
      OccPush(w.ts[c].parents, p, t);
      var ts2 := w.ts[c := x];
      OwedUpdate(ts2, p, ts2[p].(asynccnt := ts2[p].asynccnt + 1), t);
      ts1 := Register(w.ts, c, p);
    }
    if ts1[c].progress.Init? {
      OwedUpdate(ts1, c, ts1[c].(asynccnt := 1, progress := OnStack), t);
    }
  }

  lemma OccPush(ps: seq<nat>, p: nat, t: nat)
    ensures Occ(ps + [p], t) == Occ(ps, t) + if t == p then 1 else 0
  {
  }

  lemma OccAppend(ps: seq<nat>, qs: seq<nat>, t: nat)
    ensures Occ(ps + qs, t) == Occ(ps, t) + Occ(qs, t)
  {
  }

  /** Changing a target without touching what it owes leaves everyone's owed count. */
  lemma OwedSame(ts: seq<Target>, u: nat, x: Target, t: nat)
    requires u < |ts| && Share(x, t) == Share(ts[u], t)
    ensures Owed(ts[u := x], t) == Owed(ts, t)
  {
    OwedUpdate(ts, u, x, t);
  }

  lemma StackPop(st: seq<Entry>, t: nat, q: Query)
    requires st != []
    ensures Count(Rest(st), t, q) + Val(Top(st), t, q) == Count(st, t, q)
  {
  }

  lemma StackTurn(st: seq<Entry>, e: Entry, t: nat, q: Query)
    requires st != []
    ensures Count(Rest(st) + [e], t, q) + Val(Top(st), t, q) == Count(st, t, q) + Val(e, t, q)
  {
    CountPush(Rest(st), e, t, q);
  }

  lemma SumsTurn(w: World, w': World, e: Entry, t: nat)
    requires w.stack != [] && w'.stack == Rest(w.stack) + [e] && Owed(w'.ts, t) == Owed(w.ts, t)
    requires Queued(w'.sems, t) == Queued(w.sems, t)
    ensures var o, y, y' := Top(w.stack), SumsOf(w, t), SumsOf(w', t);
      && y'.tokens + Val(o, t, Tokens) == y.tokens + Val(e, t, Tokens)
      && y'.asks + Val(o, t, Asks) == y.asks + Val(e, t, Asks)
      && y'.tails + Val(o, t, Tails) == y.tails + Val(e, t, Tails)
      && y'.holds + Val(o, t, Holds) == y.holds + Val(e, t, Holds)
      && y'.ends + Val(o, t, Ends) == y.ends + Val(e, t, Ends)
      && y'.owed == y.owed && y'.queued == y.queued
  {
    hide Count, Val, Owed, Queued;
    StackTurn(w.stack, e, t, Tokens);
    StackTurn(w.stack, e, t, Asks);
    StackTurn(w.stack, e, t, Tails);
    StackTurn(w.stack, e, t, Holds);
    StackTurn(w.stack, e, t, Ends);
  }

  lemma SumsPop(w: World, w': World, t: nat)
    requires w.stack != [] && w'.stack == Rest(w.stack) && Owed(w'.ts, t) == Owed(w.ts, t)
    ensures var o, y, y' := Top(w.stack), SumsOf(w, t), SumsOf(w', t);
      && y'.tokens + Val(o, t, Tokens) == y.tokens && y'.asks + Val(o, t, Asks) == y.asks
      && y'.tails + Val(o, t, Tails) == y.tails && y'.holds + Val(o, t, Holds) == y.holds
      && y'.ends + Val(o, t, Ends) == y.ends
      && y'.owed == y.owed && y'.queued == Queued(w'.sems, t)
  {
    hide Val, Owed, Queued;
  }

  // ---- what the top entry tells about its target ----

  lemma TopSums(w: World, t: nat, q: Query)
    requires w.stack != []
    ensures Count(w.stack, t, q) >= Val(Top(w.stack), t, q)
  {
  }

  /** No ask of t is left when t's 1ATAIL is on top. */
  lemma NoAsksLeft(w: World)
    requires w.stack != [] && Top(w.stack).kind.ATail? && AskAbove(w.stack)
    ensures Count(w.stack, Top(w.stack).t, Asks) == 0
  {
    var e := Top(w.stack);
    forall j | 0 <= j < |w.stack|
      ensures Val(w.stack[j], e.t, Asks) == 0
    {
      assert !AskOf(w.stack[j], w.stack[|w.stack| - 1]);
    }
    CountNone(w.stack, e.t, Asks);
  }

  lemma AsksOnStack(w: World, p: nat)
    requires p < |w.ts| == |w.released| && FitsAt(w, p) && Count(w.stack, p, Asks) > 0
    ensures w.ts[p].progress.OnStack?
  {
    hide Count, Owed, Queued;
  }

  // ---- every step keeps the invariant ----

  lemma KeepA(g: Graph, w: World)
    requires Conserved(g, w) && w.stack != [] && Top(w.stack).kind.A?
    ensures var w' := StepA(g, w); forall t :: 0 <= t < |w'.ts| ==> FitsAt(w', t)
  {
    hide Count, Owed, Queued, SumsOf, AskAbove, Fits;
    var e, w' := Top(w.stack), StepA(g, w);
    AskingA(g, w);
    forall t: nat | t < |w'.ts|
      ensures FitsAt(w', t)
    {
      KeepAt_A(g, w, t);
    }
  }

  /** Who asks is still on the stack, and has not asked itself unless it is being visited. */
  lemma AskingA(g: Graph, w: World)
    requires Conserved(g, w) && w.stack != [] && Top(w.stack).kind.A?
    ensures var e := Top(w.stack);
      && (e.parent != NONE ==> w.ts[e.parent].progress.OnStack?)
      && (w.ts[e.t].progress.Init? ==> w.ts[e.t].parents == [])
      && (Awaited(w.ts[e.t].progress) ==> e.parent != e.t)
  {
    hide Count, Owed, Queued, SumsOf, AskAbove;
    var e := Top(w.stack);
    assert WfEntry(g, e) && FitsAt(w, e.t);
    if e.parent != NONE {
      TopSums(w, e.parent, Asks);
      AsksOnStack(w, e.parent);
    }
  }

  lemma KeepAt_A(g: Graph, w: World, t: nat)
    requires Conserved(g, w) && w.stack != [] && Top(w.stack).kind.A? && t < |w.ts|
    requires var e := Top(w.stack);
      && (e.parent != NONE ==> w.ts[e.parent].progress.OnStack?)
      && (w.ts[e.t].progress.Init? ==> w.ts[e.t].parents == [])
      && (Awaited(w.ts[e.t].progress) ==> e.parent != e.t)
    ensures FitsAt(StepA(g, w), t)
  {
    hide Count, Owed, Queued, SumsOf, AskAbove, WfTarget;
    assert FitsAt(w, t);
    SumsA(g, w, t);
  }

  lemma KeepATail(g: Graph, w: World)
    requires Conserved(g, w) && w.stack != [] && Top(w.stack).kind.ATail?
    ensures var w' := StepATail(g, w); forall t :: 0 <= t < |w'.ts| ==> FitsAt(w', t)
  {
    hide Count, Owed, Queued, SumsOf, AskAbove, Occ;
    var e, w' := Top(w.stack), StepATail(g, w);
    assert WfEntry(g, e);
    NoAsksLeft(w);
    TopSums(w, e.t, Tails);
    TailsAreTokens(w.stack, e.t);
    assert FitsAt(w, e.t);
    AsksOf(w, e.t);
    assert w.ts[e.t].progress.OnStack?;
    forall t: nat | t < |w'.ts|
      ensures FitsAt(w', t)
    {
      assert FitsAt(w, t);
      AsksOf(w, t);
      OwedSame(w.ts, e.t, w'.ts[e.t], t);
      SumsTurn(w, w', e.(kind := B), t);
    }
  }

  lemma AsksOf(w: World, t: nat)
    ensures SumsOf(w, t).asks == Count(w.stack, t, Asks) && SumsOf(w, t).tails == Count(w.stack, t, Tails)
    ensures SumsOf(w, t).tokens == Count(w.stack, t, Tokens) && SumsOf(w, t).holds == Count(w.stack, t, Holds)
    ensures SumsOf(w, t).ends == Count(w.stack, t, Ends)
    ensures SumsOf(w, t).owed == Owed(w.ts, t) && SumsOf(w, t).queued == Queued(w.sems, t)
  {
  }

  lemma KeepB(g: Graph, w: World, cmds: seq<Cmd>)
    requires Conserved(g, w) && w.stack != [] && Top(w.stack).kind.B?
    ensures var w' := StepB(g, w, cmds); forall t :: 0 <= t < |w'.ts| ==> FitsAt(w', t)
  {
    hide Count, Owed, Queued, SumsOf, AskAbove, Fits;
    var w' := StepB(g, w, cmds);
    forall t: nat | t < |w'.ts|
      ensures FitsAt(w', t)
    {
      KeepAt_B(g, w, cmds, t);
    }
  }

  /** The target of a 1B on top has started and is not released. */
  lemma WaitingB(g: Graph, w: World)
    requires Conserved(g, w) && w.stack != [] && Top(w.stack).kind.B?
    ensures var t := Top(w.stack).t; var x, y := w.ts[t], SumsOf(w, t);
      && t < |w.ts| && y.tokens >= 1 && x.asynccnt >= 1
      && (x.progress.Active? || x.progress.OnStack?) && !IsBusy(y, t in w.running) && w.released[t] == 0
      && x.asynccnt == y.tokens + y.owed + y.queued
      && (x.asynccnt == 1 ==> x.progress.Active? && y.owed == 0 && y.queued == 0)
  {
    hide Owed, Queued, AskAbove;
    var e := Top(w.stack);
    assert WfEntry(g, e) && FitsAt(w, e.t);
    TopSums(w, e.t, Tokens);
    if w.ts[e.t].progress.OnStack? {
      TailAndB(w.stack, e.t);
    }
  }

  lemma TailAndB(st: seq<Entry>, t: nat)
    requires st != [] && Top(st) .kind.B? && Top(st).t == t && Count(st, t, Tails) == 1
    ensures Count(st, t, Tokens) >= 2
  {
    TailsAreTokens(Rest(st), t);
  }

  lemma {:induction false} TailsAreTokens(st: seq<Entry>, t: nat)
    ensures Count(st, t, Tokens) >= Count(st, t, Tails)
    decreases |st|
  {
    if st != [] {
      TailsAreTokens(Rest(st), t);
    }
  }

  lemma KeepAt_B(g: Graph, w: World, cmds: seq<Cmd>, t: nat)
    requires Conserved(g, w) && w.stack != [] && Top(w.stack).kind.B? && t < |w.ts|
    ensures FitsAt(StepB(g, w, cmds), t)
  {
    hide Count, Owed, Queued, SumsOf, AskAbove, Occ, DepStatus, WfTarget;
    var e, w' := Top(w.stack), StepB(g, w, cmds);
    var u, s := e.t, g.semaphore[e.t];
    assert FitsAt(w, t);
    WaitingB(g, w);
    OwedSame(w.ts, u, w'.ts[u], t);
    if w.ts[u].asynccnt - 1 != 0 {
      SumsPop(w, w', t);
      AsksOf(w, t);
    } else if s != NONE && w.sems[s].asynccnt != 0 {
      assert w'.ts == w.ts;
      QueuedUpdate(w.sems, s, w'.sems[s], t);
      OccPush(w.sems[s].parents, u, t);
      SumsPop(w, w', t);
      AsksOf(w, t);
    } else {
      HoldQueued(w.sems, s, 1, t);
      SumsTurn(w, w', e.(kind := C), t);
    }
  }

  lemma HoldQueued(sems: seq<Semaphore>, s: int, d: int, t: nat)
    requires s < |sems|
    ensures Queued(Hold(sems, s, d), t) == Queued(sems, t)
  {
    if s >= 0 {
      QueuedUpdate(sems, s, sems[s].(asynccnt := sems[s].asynccnt + d), t);
    }
  }

  /** The target of a 1C or 1D on top is released and not done. */
  lemma BusyTop(g: Graph, w: World)
    requires Conserved(g, w) && w.stack != [] && (Top(w.stack).kind.C? || Top(w.stack).kind.D?)
    ensures var t := Top(w.stack).t; var x, y := w.ts[t], SumsOf(w, t);
      && t < |w.ts| && (x.progress.Active? || x.progress.Running?) && y.holds == 1 && t !in w.running
      && Free(y) && y.tails == 0 && y.asks == 0 && w.released[t] == 1
      && (Top(w.stack).kind.D? ==> x.progress.Running? && x.cmds != [])
      && (x.cmds != [] ==> x.progress.Running?) && (Top(w.stack).kind.C? ==> y.ends == 0)
  {
    hide Owed, Queued, AskAbove;
    var e := Top(w.stack);
    assert WfEntry(g, e) && FitsAt(w, e.t);
    TopSums(w, e.t, Holds);
    TopSums(w, e.t, Ends);
    if e.kind.C? {
      EndsAreHolds(Rest(w.stack), e.t);
    }
  }

  lemma {:induction false} EndsAreHolds(st: seq<Entry>, t: nat)
    ensures Count(st, t, Holds) >= Count(st, t, Ends)
    decreases |st|
  {
    if st != [] {
      EndsAreHolds(Rest(st), t);
    }
  }

  lemma KeepLaunch(g: Graph, w: World)
    requires Conserved(g, w) && w.stack != [] && Top(w.stack).kind.C?
    requires var x := w.ts[Top(w.stack).t]; x.cmds != [] && x.status == EXEC_CMD_OK
    ensures var w' := StepC(g, w); forall t :: 0 <= t < |w'.ts| ==> FitsAt(w', t)
  {
    hide Count, Owed, Queued, SumsOf, AskAbove, Occ, Finish, WfTarget;
    var e, w' := Top(w.stack), StepC(g, w);
    BusyTop(g, w);
    forall t: nat | t < |w'.ts|
      ensures FitsAt(w', t)
    {
      assert FitsAt(w, t);
      AsksOf(w, t);
      if g.noexec {
        SumsTurn(w, w', e.(kind := D, status := EXEC_CMD_OK), t);
      } else {
        SumsPop(w, w', t);
      }
    }
  }

  lemma KeepD(g: Graph, w: World)
    requires Conserved(g, w) && w.stack != [] && Top(w.stack).kind.D?
    ensures w.ts[Top(w.stack).t].cmds != []
    ensures var w' := StepD(g, w); forall t :: 0 <= t < |w'.ts| ==> FitsAt(w', t)
  {
    hide Count, Owed, Queued, SumsOf, AskAbove, Occ, WfTarget;
    BusyTop(g, w);
    var e, w' := Top(w.stack), StepD(g, w);
    forall t: nat | t < |w'.ts|
      ensures FitsAt(w', t)
    {
      assert FitsAt(w, t) && FitsAt(w, e.t);
      AsksOf(w, t);
      OwedSame(w.ts, e.t, w'.ts[e.t], t);
      SumsTurn(w, w', e.(kind := C), t);
    }
  }

  lemma KeepClosure(g: Graph, w: World, t: nat, status: nat)
    requires Conserved(g, w) && Finishes(w, t, status)
    ensures var w' := Closure(w, t, status); forall u :: 0 <= u < |w'.ts| ==> FitsAt(w', u)
  {
    hide Count, Owed, Queued, SumsOf, AskAbove, Occ, WfTarget;
    var w' := Closure(w, t, status);
    var e := Entry(D, t, NONE, status);
    forall u: nat | u < |w'.ts|
      ensures FitsAt(w', u)
    {
      assert FitsAt(w, u);
      AsksOf(w, u);
      AsksOf(w', u);
      CountPush(w.stack, e, u, Tokens);
      CountPush(w.stack, e, u, Asks);
      CountPush(w.stack, e, u, Tails);
      CountPush(w.stack, e, u, Holds);
      CountPush(w.stack, e, u, Ends);
    }
  }

  lemma KeepFinish(g: Graph, w: World)
    requires Conserved(g, w) && w.stack != [] && Top(w.stack).kind.C?
    ensures var w' := Finish(g, w); forall t :: 0 <= t < |w'.ts| ==> FitsAt(w', t)
  {
    hide Count, Owed, Queued, SumsOf, AskAbove, Fits;
    BusyTop(g, w);
    var w' := Finish(g, w);
    forall t: nat | t < |w'.ts|
      ensures FitsAt(w', t)
    {
      KeepAt_Finish(g, w, t);
    }
  }

  /** Telling parents turns what was owed into 1B entries. */
  lemma SumsFinish(g: Graph, w: World, t: nat)
    requires Conserved(g, w) && w.stack != [] && Top(w.stack).kind.C? && t < |w.ts|
    requires !w.ts[Top(w.stack).t].progress.Done?
    ensures var u, y, y' := Top(w.stack).t, SumsOf(w, t), SumsOf(Finish(g, w), t);
      var told := Occ(w.ts[u].parents, t);
      var woken := Occ(FirstWaiter(w.sems, g.semaphore[u]), t);
      && y'.tokens == y.tokens + told + woken && y'.owed + told == y.owed && y'.queued + woken == y.queued
      && y'.asks == y.asks && y'.tails == y.tails
      && y'.holds + (if t == u then 1 else 0) == y.holds && y'.ends == y.ends
  {
    hide Count, Owed, Queued, Occ, AskAbove, ActStatus, Distribute, Fits, Tell, WfTarget;
    var e, w' := Top(w.stack), Finish(g, w);
    var u, s := e.t, g.semaphore[e.t];
    var ps, fs := w.ts[u].parents, FirstWaiter(w.sems, s);
    StackFinish(w.stack, ps + fs, t, Tokens);
    StackFinish(w.stack, ps + fs, t, Asks);
    StackFinish(w.stack, ps + fs, t, Tails);
    StackFinish(w.stack, ps + fs, t, Holds);
    StackFinish(w.stack, ps + fs, t, Ends);
    OccAppend(ps, fs, t);
    OwedUpdate(w.ts, u, w'.ts[u], t);
    HoldQueued(w.sems, s, -1, t);
    DropQueued(Hold(w.sems, s, -1), s, t);
    SameWaiter(w.sems, s);
  }

  lemma SameWaiter(sems: seq<Semaphore>, s: int)
    requires s < |sems|
    ensures FirstWaiter(Hold(sems, s, -1), s) == FirstWaiter(sems, s)
  {
  }

  lemma StackFinish(st: seq<Entry>, ps: seq<nat>, t: nat, q: Query)
    requires st != []
    ensures Count(Rest(st) + Tell(ps), t, q) + Val(Top(st), t, q) == Count(st, t, q) + if q.Tokens? then Occ(ps, t) else 0
  {
    hide Occ, Val;
    CountAppend(Rest(st), Tell(ps), t, q);
    CountTell(ps, t, q);
  }

  lemma DropQueued(sems: seq<Semaphore>, s: int, t: nat)
    requires s < |sems|
    ensures Queued(DropWaiter(sems, s), t) + Occ(FirstWaiter(sems, s), t) == Queued(sems, t)
  {
    if s >= 0 && sems[s].parents != [] {
      var ps := sems[s].parents;
      assert ps == [ps[0]] + ps[1..];
      QueuedUpdate(sems, s, sems[s].(parents := ps[1..]), t);
    }
  }

  lemma KeepAt_Finish(g: Graph, w: World, t: nat)
    requires Conserved(g, w) && w.stack != [] && Top(w.stack).kind.C? && t < |w.ts|
    ensures FitsAt(Finish(g, w), t)
  {
    hide Count, Owed, Queued, SumsOf, AskAbove, Occ, ActStatus, Distribute, Tell, WfTarget;
    assert FitsAt(w, t);
    BusyTop(g, w);
    SumsFinish(g, w, t);
  }
}
