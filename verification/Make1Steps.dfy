/** Every step keeps the state well formed and the counters conserved. */
module Make1Steps {
  import opened Make1State
  import opened Make1Counters

  lemma {:induction false} AskForHas(deps: seq<nat>, p: nat)
    ensures forall k :: 0 <= k < |deps| ==> var e := AskFor(deps, p)[k]; e.kind.A? && e.parent == p && e.status == 0 && e.t in deps
    ensures forall k :: 0 <= k < |deps| ==> Entry(A, deps[k], p, 0) in AskFor(deps, p)
    decreases |deps|
  {
    if deps != [] {
      AskForHas(deps[1..], p);
      var r := AskFor(deps, p);
      forall k | 0 <= k < |deps|
        ensures r[k].kind.A? && r[k].parent == p && r[k].status == 0 && r[k].t in deps
      {
        if k < |deps| - 1 {
          assert r[k] == AskFor(deps[1..], p)[k];
        }
      }
      forall k | 0 <= k < |deps|
        ensures Entry(A, deps[k], p, 0) in r
      {
        if k > 0 {
          assert deps[k] == deps[1..][k - 1];
        } else {
          assert r[|deps| - 1] == Entry(A, deps[0], p, 0);
        }
      }
    }
  }

  lemma {:induction false} TellHas(ps: seq<nat>)
    ensures forall k :: 0 <= k < |ps| ==> var e := Tell(ps)[k]; e.kind.B? && e.parent == NONE && e.status == 0 && e.t in ps
    ensures forall k :: 0 <= k < |ps| ==> Entry(B, ps[k], NONE, 0) in Tell(ps)
    decreases |ps|
  {
    if ps != [] {
      TellHas(ps[1..]);
      var r := Tell(ps);
      forall k | 0 <= k < |ps|
        ensures r[k].kind.B? && r[k].parent == NONE && r[k].status == 0 && r[k].t in ps
      {
        if k < |ps| - 1 {
          assert r[k] == Tell(ps[1..])[k];
        }
      }
      forall k | 0 <= k < |ps|
        ensures Entry(B, ps[k], NONE, 0) in r
      {
        if k > 0 {
          assert ps[k] == ps[1..][k - 1];
        } else {
          assert r[|ps| - 1] == Entry(B, ps[0], NONE, 0);
        }
      }
    }
  }

  // ---- well formed ----

  ghost predicate WfStack(g: Graph, st: seq<Entry>) {
    forall i :: 0 <= i < |st| ==> WfEntry(g, st[i])
  }

  ghost predicate WfTargets(g: Graph, ts: seq<Target>) {
    forall t :: 0 <= t < |ts| ==> WfTarget(g, ts[t])
  }

  ghost predicate WfSems(g: Graph, sems: seq<Semaphore>) {
    forall s, k :: 0 <= s < |sems| && 0 <= k < |sems[s].parents| ==> sems[s].parents[k] < |g.depends|
  }

  lemma WfTurn(g: Graph, st: seq<Entry>, e: Entry)
    requires WfStack(g, st) && st != [] && WfEntry(g, e)
    ensures WfStack(g, Rest(st) + [e])
  {
  }

  lemma WfJoin(g: Graph, a: seq<Entry>, b: seq<Entry>)
    requires WfStack(g, a) && WfStack(g, b)
    ensures WfStack(g, a + b)
  {
    hide WfEntry;
  }

  lemma WfSet(g: Graph, ts: seq<Target>, t: nat, x: Target)
    requires WfTargets(g, ts) && t < |ts| && WfTarget(g, x)
    ensures WfTargets(g, ts[t := x])
  {
    hide WfTarget;
  }

  lemma WfA(g: Graph, w: World)
    requires WfWorld(g, w) && w.stack != [] && Top(w.stack).kind.A?
    ensures WfWorld(g, StepA(g, w))
  {
    hide WfEntry, WfTarget;
    var e, w' := Top(w.stack), StepA(g, w);
    assert WfEntry(g, e);
    Plain(g, e);
    assert WfStack(g, Rest(w.stack));
    WfRegister(g, w.ts, e.t, e.parent);
    if w.ts[e.t].progress.Init? {
      assert WfEntry(g, e.(kind := ATail)) by { AnyKind(g, e, ATail); }
      AskForHas(g.depends[e.t], e.t);
      WfAsks(g, e.t);
      WfTurn(g, w.stack, e.(kind := ATail));
      WfJoin(g, Rest(w.stack) + [e.(kind := ATail)], AskFor(g.depends[e.t], e.t));
    }
    assert WfTargets(g, w'.ts) && WfStack(g, w'.stack);
  }

  lemma AnyKind(g: Graph, e: Entry, k: Kind)
    requires WfEntry(g, e) && !k.A?
    ensures WfEntry(g, e.(kind := k)) && WfEntry(g, e.(kind := k, status := EXEC_CMD_OK))
  {
  }

  lemma WfAsks(g: Graph, t: nat)
    requires WfGraph(g) && t < |g.depends|
    ensures WfStack(g, AskFor(g.depends[t], t))
  {
    AskForHas(g.depends[t], t);
  }

  lemma WfRegister(g: Graph, ts: seq<Target>, t: nat, p: int)
    requires WfTargets(g, ts) && t < |ts| == |g.depends| && NONE <= p < |ts|
    ensures p != NONE ==> WfTargets(g, Register(ts, t, p))
    ensures p != NONE ==> WfTargets(g, Register(ts, t, p)[t := Register(ts, t, p)[t].(asynccnt := 1, progress := OnStack)])
    ensures WfTargets(g, ts[t := ts[t].(asynccnt := 1, progress := OnStack)])
  {
  }

  lemma WfATail(g: Graph, w: World)
    requires WfWorld(g, w) && w.stack != [] && Top(w.stack).kind.ATail?
    ensures WfWorld(g, StepATail(g, w))
  {
    var e := Top(w.stack);
    assert WfEntry(g, e);
    AnyKind(g, e, B);
    WfTurn(g, w.stack, e.(kind := B));
    WfSet(g, w.ts, e.t, w.ts[e.t].(progress := Active));
  }

  lemma WfB(g: Graph, w: World, cmds: seq<Cmd>)
    requires WfWorld(g, w) && w.stack != [] && Top(w.stack).kind.B?
    ensures WfWorld(g, StepB(g, w, cmds))
  {
    hide WfEntry, DepStatus;
    var e, w' := Top(w.stack), StepB(g, w, cmds);
    assert WfEntry(g, e);
    Plain(g, e);
    AnyKind(g, e, C);
    WfTurn(g, w.stack, e.(kind := C));
    assert WfTarget(g, w.ts[e.t]);
    assert WfTarget(g, w'.ts[e.t]);
    WfSet(g, w.ts, e.t, w'.ts[e.t]);
    assert w'.ts == w.ts[e.t := w'.ts[e.t]];
    assert WfStack(g, w'.stack);
    assert WfSems(g, w'.sems);
  }

  lemma WfC(g: Graph, w: World)
    requires WfWorld(g, w) && w.stack != [] && Top(w.stack).kind.C?
    ensures WfWorld(g, StepC(g, w))
  {
    hide WfEntry, Finish;
    var e, w' := Top(w.stack), StepC(g, w);
    assert WfEntry(g, e);
    Plain(g, e);
    AnyKind(g, e, D);
    WfTurn(g, w.stack, e.(kind := D, status := EXEC_CMD_OK));
    WfFinish(g, w);
    assert WfStack(g, w'.stack);
  }

  lemma WfFinish(g: Graph, w: World)
    requires WfWorld(g, w) && w.stack != []
    ensures WfWorld(g, Finish(g, w))
  {
    hide WfEntry, ActStatus, Distribute, Tell;
    var e, w' := Top(w.stack), Finish(g, w);
    assert WfEntry(g, e);
    Plain(g, e);
    var u, s := e.t, g.semaphore[e.t];
    assert WfTarget(g, w.ts[u]);
    var ps := w.ts[u].parents + FirstWaiter(w.sems, s);
    WfTold(g, ps);
    assert WfStack(g, Rest(w.stack));
    WfJoin(g, Rest(w.stack), Tell(ps));
    WfSet(g, w.ts, u, w'.ts[u]);
    assert WfSems(g, w'.sems);
  }

  lemma WfTold(g: Graph, ps: seq<nat>)
    requires forall k :: 0 <= k < |ps| ==> ps[k] < |g.depends|
    ensures WfStack(g, Tell(ps))
  {
    TellHas(ps);
  }

  lemma WfD(g: Graph, w: World)
    requires WfWorld(g, w) && w.stack != [] && Top(w.stack).kind.D? && w.ts[Top(w.stack).t].cmds != []
    ensures WfWorld(g, StepD(g, w))
  {
    hide WfEntry;
    var e, w' := Top(w.stack), StepD(g, w);
    assert WfEntry(g, e);
    Plain(g, e);
    AnyKind(g, e, C);
    WfTurn(g, w.stack, e.(kind := C));
    assert WfTarget(g, w.ts[e.t]);
    WfSet(g, w.ts, e.t, w'.ts[e.t]);
  }

  lemma Plain(g: Graph, e: Entry)
    requires WfEntry(g, e)
    ensures e.t < |g.depends| && NONE <= e.parent < |g.depends| && e.status <= EXEC_CMD_FAIL
  {
  }

  lemma WfClosure(g: Graph, w: World, t: nat, status: nat)
    requires WfWorld(g, w) && Finishes(w, t, status)
    ensures WfWorld(g, Closure(w, t, status))
  {
    WfJoin(g, w.stack, [Entry(D, t, NONE, status)]);
  }

  // ---- where the 1A entries are ----

  lemma AboveRest(st: seq<Entry>)
    requires AskAbove(st) && st != []
    ensures AskAbove(Rest(st))
  {
  }

  lemma AboveTurn(st: seq<Entry>, e: Entry)
    requires AskAbove(st) && st != [] && !e.kind.A? && !e.kind.ATail?
    ensures AskAbove(Rest(st) + [e])
  {
  }

  lemma AbovePush(st: seq<Entry>, es: seq<Entry>)
    requires AskAbove(st) && forall k :: 0 <= k < |es| ==> !es[k].kind.A? && !es[k].kind.ATail?
    ensures AskAbove(st + es)
  {
  }

  lemma AboveStart(st: seq<Entry>, tail: Entry, asks: seq<Entry>)
    requires AskAbove(st) && tail.kind.ATail? && Count(st, tail.t, Asks) == 0
    requires forall k :: 0 <= k < |asks| ==> asks[k].kind.A? && asks[k].parent == tail.t
    ensures AskAbove(st + [tail] + asks)
  {
    var st' := st + [tail] + asks;
    forall i, j | 0 <= i < |st'| && 0 <= j < |st'| && AskOf(st'[j], st'[i])
      ensures i < j
    {
      if i == |st| && j < i {
        CountsOne(st, tail.t, Asks, j);
      }
    }
  }

  lemma AboveA(g: Graph, w: World)
    requires Conserved(g, w) && w.stack != [] && Top(w.stack).kind.A?
    ensures AskAbove(StepA(g, w).stack)
  {
    hide AskAbove, Count, WfTarget;
    var e := Top(w.stack);
    assert WfEntry(g, e);
    AboveRest(w.stack);
    AskingA(g, w);
    if w.ts[e.t].progress.Init? {
      assert FitsAt(w, e.t);
      SplitTop(w.stack, e.t, Asks);
      AskForHas(g.depends[e.t], e.t);
      AboveStart(Rest(w.stack), e.(kind := ATail), AskFor(g.depends[e.t], e.t));
    }
  }

  lemma AboveFinish(g: Graph, w: World)
    requires WfWorld(g, w) && w.stack != [] && AskAbove(w.stack)
    ensures AskAbove(Finish(g, w).stack)
  {
    hide AskAbove;
    var t := Top(w.stack).t;
    var ps := w.ts[t].parents + FirstWaiter(w.sems, g.semaphore[t]);
    AboveRest(w.stack);
    TellHas(ps);
    AbovePush(Rest(w.stack), Tell(ps));
  }

  // ---- all steps ----

  lemma StepKeeps(g: Graph, w: World, w': World)
    requires Conserved(g, w) && StepTop(g, w, w')
    ensures Conserved(g, w')
  {
    hide AskAbove, FitsAt, WfWorld, WfEntry, StepA, StepATail, StepB, StepC, StepD;
    match Top(w.stack).kind
    case A => WfA(g, w); AboveA(g, w); KeepA(g, w);
    case ATail => WfATail(g, w); AboveATail(g, w); KeepATail(g, w);
    case B =>
      var cmds :| w' == StepB(g, w, cmds);
      WfB(g, w, cmds); AboveB(g, w, cmds); KeepB(g, w, cmds);
    case C => WfC(g, w); AboveC(g, w); KeepC(g, w);
    case D => WfD(g, w); AboveD(g, w); KeepD(g, w);
  }

  lemma AboveATail(g: Graph, w: World)
    requires Conserved(g, w) && w.stack != []
    ensures AskAbove(StepATail(g, w).stack)
  {
    hide AskAbove;
    AboveTurn(w.stack, Top(w.stack).(kind := B));
  }

  lemma AboveB(g: Graph, w: World, cmds: seq<Cmd>)
    requires Conserved(g, w) && w.stack != []
    ensures AskAbove(StepB(g, w, cmds).stack)
  {
    hide AskAbove, DepStatus;
    AboveRest(w.stack);
    AboveTurn(w.stack, Top(w.stack).(kind := C));
  }

  lemma AboveC(g: Graph, w: World)
    requires Conserved(g, w) && w.stack != []
    ensures AskAbove(StepC(g, w).stack)
  {
    hide AskAbove, Finish;
    AboveRest(w.stack);
    AboveTurn(w.stack, Top(w.stack).(kind := D, status := EXEC_CMD_OK));
    AboveFinish(g, w);
  }

  lemma AboveD(g: Graph, w: World)
    requires Conserved(g, w) && w.stack != [] && w.ts[Top(w.stack).t].cmds != []
    ensures AskAbove(StepD(g, w).stack)
  {
    hide AskAbove;
    AboveTurn(w.stack, Top(w.stack).(kind := C));
  }

  lemma KeepC(g: Graph, w: World)
    requires Conserved(g, w) && w.stack != [] && Top(w.stack).kind.C?
    ensures var w' := StepC(g, w); forall t :: 0 <= t < |w'.ts| ==> FitsAt(w', t)
  {
    hide AskAbove, FitsAt, Finish;
    var x := w.ts[Top(w.stack).t];
    if x.cmds != [] && x.status == EXEC_CMD_OK {
      KeepLaunch(g, w);
    } else {
      KeepFinish(g, w);
    }
  }

  lemma ClosureKeeps(g: Graph, w: World, t: nat, status: nat)
    requires Conserved(g, w) && Finishes(w, t, status)
    ensures Conserved(g, Closure(w, t, status))
  {
    hide AskAbove, FitsAt, WfWorld;
    WfClosure(g, w, t, status);
    KeepClosure(g, w, t, status);
    AbovePush(w.stack, [Entry(D, t, NONE, status)]);
  }

  /** Whatever happens next, asynccnt still counts what it should. */
  lemma NextKeeps(g: Graph, w: World, w': World)
    requires Conserved(g, w) && Next(g, w, w')
    ensures Conserved(g, w')
  {
    hide Conserved, StepTop;
    if StepTop(g, w, w') {
      StepKeeps(g, w, w');
    } else {
      var t, status :| Finishes(w, t, status) && w' == Closure(w, t, status);
      ClosureKeeps(g, w, t, status);
    }
  }
}
