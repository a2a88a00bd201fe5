/** Semaphores: at most one holder, and no wake-up is lost. */
module Make1Semaphores {
  import opened Make1State
  import opened Make1Counters
  import opened Make1Steps

  /** Released by 1B and not done. */
  predicate BusyAt(w: World, t: nat) {
    IsBusy(SumsOf(w, t), t in w.running)
  }

  /** t is busy and holds semaphore s. */
  predicate Holder(g: Graph, w: World, s: nat, t: nat) {
    t < |g.semaphore| && g.semaphore[t] == s && BusyAt(w, t)
  }

  /** One more 1B and t goes ahead. */
  predicate Ready(w: World, t: nat) {
    t < |w.ts| && w.ts[t].progress.Active? && w.ts[t].asynccnt == 1 && !BusyAt(w, t)
  }

  /** The entry at i will try to take semaphore s. */
  predicate Wakes(g: Graph, w: World, s: nat, i: int) {
    && 0 <= i < |w.stack| && w.stack[i].kind.B? && Ready(w, w.stack[i].t)
    && w.stack[i].t < |g.semaphore| && g.semaphore[w.stack[i].t] == s
  }

  ghost predicate Queuers(g: Graph, w: World, s: nat)
    requires s < |w.sems|
  {
    forall t :: t in w.sems[s].parents ==> t < |g.semaphore| && g.semaphore[t] == s && Ready(w, t)
  }

  /** At most one target holds s; if s is free and someone waits for it, someone is about to
      take it. */
  ghost predicate SemOk(g: Graph, w: World, s: nat)
    requires s < |w.sems|
  {
    var free := w.sems[s].asynccnt == 0;
    && (free || w.sems[s].asynccnt == 1)
    && (free <==> forall t :: !Holder(g, w, s, t))
    && (forall t, u :: Holder(g, w, s, t) && Holder(g, w, s, u) ==> t == u)
    && Queuers(g, w, s)
    && (free && w.sems[s].parents != [] ==> exists i :: Wakes(g, w, s, i))
  }

  ghost predicate SemsOk(g: Graph, w: World) {
    |w.sems| == g.nsems && forall s :: 0 <= s < g.nsems ==> SemOk(g, w, s)
  }

  // ---- steps that leave a semaphore alone ----

  /** What matters for semaphore s is as before. */
  ghost predicate Leaves(g: Graph, w: World, w': World, s: nat)
    requires s < |w.sems| == |w'.sems|
  {
    && w'.sems[s] == w.sems[s]
    && (forall t :: Holder(g, w', s, t) <==> Holder(g, w, s, t))
    && (forall t :: Of(g, s, t) && Ready(w, t) ==> Ready(w', t))
    && (forall i :: Wakes(g, w, s, i) ==> i < |w'.stack| && w'.stack[i] == w.stack[i])
  }

  predicate Of(g: Graph, s: nat, t: nat) {
    t < |g.semaphore| && g.semaphore[t] == s
  }

  lemma LeavesOk(g: Graph, w: World, w': World, s: nat)
    requires s < |w.sems| == |w'.sems| && SemOk(g, w, s) && Leaves(g, w, w', s)
    ensures SemOk(g, w', s)
  {
    hide BusyAt;
    forall t | t in w'.sems[s].parents
      ensures t < |g.semaphore| && g.semaphore[t] == s && Ready(w', t)
    {
      assert Of(g, s, t) && Ready(w, t);
    }
    if w.sems[s].asynccnt == 0 && w.sems[s].parents != [] {
      var i :| Wakes(g, w, s, i);
      assert Of(g, s, w.stack[i].t);
      assert Wakes(g, w', s, i);
    }
  }

  /** The step changes nobody's being busy, no semaphore, and nobody that is ready. */
  ghost predicate AllLeave(g: Graph, w: World, w': World) {
    && w'.sems == w.sems && |w'.ts| == |w.ts|
    && (forall t :: 0 <= t < |w.ts| ==> BusyAt(w', t) == BusyAt(w, t))
    && (forall t :: Ready(w, t) ==> Ready(w', t))
    && (forall i :: 0 <= i < |w.stack| && w.stack[i].kind.B? && Ready(w, w.stack[i].t) ==> i < |w'.stack| && w'.stack[i] == w.stack[i])
  }

  lemma AllLeaveOk(g: Graph, w: World, w': World)
    requires SemsOk(g, w) && AllLeave(g, w, w') && |w.ts| == |g.semaphore|
    ensures SemsOk(g, w')
  {
    hide BusyAt, SemOk, Ready;
    forall s | 0 <= s < g.nsems
      ensures SemOk(g, w', s)
    {
      forall i | Wakes(g, w, s, i)
        ensures i < |w'.stack| && w'.stack[i] == w.stack[i]
      {
        assert w.stack[i].kind.B? && Ready(w, w.stack[i].t);
      }
      forall t
        ensures Holder(g, w', s, t) <==> Holder(g, w, s, t)
      {
      }
      assert Leaves(g, w, w', s);
      LeavesOk(g, w, w', s);
    }
  }

  lemma BusyIs(w: World, t: nat)
    ensures BusyAt(w, t) <==> Count(w.stack, t, Holds) > 0 || t in w.running
  {
  }

  lemma LeaveA(g: Graph, w: World)
    requires Conserved(g, w) && w.stack != [] && Top(w.stack).kind.A?
    ensures AllLeave(g, w, StepA(g, w))
  {
    hide AskAbove, SumsOf, Fits, WfTarget, BusyAt, Owed, Queued, Count, AskFor;
    var e, w' := Top(w.stack), StepA(g, w);
    assert WfEntry(g, e);
    AskingA(g, w);
    forall t: nat | t < |w.ts|
      ensures BusyAt(w', t) == BusyAt(w, t)
    {
      SumsA(g, w, t);
      BusyIs(w, t);
      BusyIs(w', t);
      AsksOf(w, t);
      AsksOf(w', t);
    }
  }

  lemma LeaveATail(g: Graph, w: World)
    requires Conserved(g, w) && w.stack != [] && Top(w.stack).kind.ATail?
    ensures AllLeave(g, w, StepATail(g, w))
  {
    hide AskAbove, SumsOf, WfTarget, BusyAt, Owed, Queued, Count;
    var e, w' := Top(w.stack), StepATail(g, w);
    assert WfEntry(g, e) && FitsAt(w, e.t);
    TopSums(w, e.t, Tails);
    AsksOf(w, e.t);
    forall t: nat | t < |w.ts|
      ensures BusyAt(w', t) == BusyAt(w, t)
    {
      StackTurn(w.stack, e.(kind := B), t, Holds);
      BusyIs(w, t);
      BusyIs(w', t);
    }
  }

  lemma LeaveD(g: Graph, w: World)
    requires Conserved(g, w) && w.stack != [] && Top(w.stack).kind.D? && w.ts[Top(w.stack).t].cmds != []
    ensures AllLeave(g, w, StepD(g, w))
  {
    hide AskAbove, SumsOf, Fits, WfTarget, BusyAt, Owed, Queued, Count;
    var e, w' := Top(w.stack), StepD(g, w);
    assert WfEntry(g, e);
    BusyTop(g, w);
    AsksOf(w, e.t);
    BusyIs(w, e.t);
    forall t: nat | t < |w.ts|
      ensures BusyAt(w', t) == BusyAt(w, t)
    {
      StackTurn(w.stack, e.(kind := C), t, Holds);
      BusyIs(w, t);
      BusyIs(w', t);
    }
  }

  lemma LeaveLaunch(g: Graph, w: World)
    requires Conserved(g, w) && w.stack != [] && Top(w.stack).kind.C?
    requires var x := w.ts[Top(w.stack).t]; x.cmds != [] && x.status == EXEC_CMD_OK
    ensures AllLeave(g, w, StepC(g, w))
  {
    hide AskAbove, SumsOf, Fits, WfTarget, BusyAt, Owed, Queued, Count, Finish;
    var e, w' := Top(w.stack), StepC(g, w);
    assert WfEntry(g, e);
    BusyTop(g, w);
    AsksOf(w, e.t);
    forall t: nat | t < |w.ts|
      ensures BusyAt(w', t) == BusyAt(w, t)
    {
      StackPop(w.stack, t, Holds);
      StackTurn(w.stack, e.(kind := D, status := EXEC_CMD_OK), t, Holds);
      BusyIs(w, t);
      BusyIs(w', t);
    }
  }

  lemma LeaveClosure(g: Graph, w: World, t: nat, status: nat)
    requires Conserved(g, w) && Finishes(w, t, status)
    ensures AllLeave(g, w, Closure(w, t, status))
  {
    hide AskAbove, SumsOf, Fits, WfTarget, BusyAt, Owed, Queued, Count;
    var w' := Closure(w, t, status);
    forall u: nat | u < |w.ts|
      ensures BusyAt(w', u) == BusyAt(w, u)
    {
      CountPush(w.stack, Entry(D, t, NONE, status), u, Holds);
      BusyIs(w, u);
      BusyIs(w', u);
    }
  }

  // ---- 1B ----

  lemma LeaveB(g: Graph, w: World, cmds: seq<Cmd>)
    requires Conserved(g, w) && w.stack != [] && Top(w.stack).kind.B?
    requires w.ts[Top(w.stack).t].asynccnt - 1 != 0
    ensures AllLeave(g, w, StepB(g, w, cmds))
  {
    hide AskAbove, SumsOf, Fits, WfTarget, BusyAt, Owed, Queued, Count;
    var e, w' := Top(w.stack), StepB(g, w, cmds);
    assert WfEntry(g, e);
    WaitingB(g, w);
    forall t: nat | t < |w.ts|
      ensures BusyAt(w', t) == BusyAt(w, t)
    {
      StackPop(w.stack, t, Holds);
      BusyIs(w, t);
      BusyIs(w', t);
    }
  }

  /** t finds its semaphore held and queues for it. */
  lemma QueueB(g: Graph, w: World, cmds: seq<Cmd>)
    requires Conserved(g, w) && SemsOk(g, w) && w.stack != [] && Top(w.stack).kind.B?
    requires var t := Top(w.stack).t; var s := g.semaphore[t];
      w.ts[t].asynccnt - 1 == 0 && s != NONE && w.sems[s].asynccnt != 0
    ensures SemsOk(g, StepB(g, w, cmds))
  {
    hide AskAbove, SumsOf, Fits, WfTarget, BusyAt, Owed, Queued, Count, SemOk;
    var e, w' := Top(w.stack), StepB(g, w, cmds);
    assert WfEntry(g, e);
    WaitingB(g, w);
    ReadyTop(g, w);
    BusyPop(g, w, w');
    forall r | 0 <= r < g.nsems
      ensures SemOk(g, w', r)
    {
      assert SemOk(g, w, r);
      if r == g.semaphore[e.t] {
        JoinQueue(g, w, w', r, e.t);
      } else {
        PopOther(g, w, w', r);
        LeavesOk(g, w, w', r);
      }
    }
  }

  lemma ReadyTop(g: Graph, w: World)
    requires Conserved(g, w) && w.stack != [] && Top(w.stack).kind.B? && w.ts[Top(w.stack).t].asynccnt == 1
    ensures Ready(w, Top(w.stack).t)
  {
    hide AskAbove, SumsOf, Fits, WfTarget, Owed, Queued, Count;
    WaitingB(g, w);
  }

  lemma BusyPop(g: Graph, w: World, w': World)
    requires w.stack != [] && Top(w.stack).kind.B? && w'.stack == Rest(w.stack) && w'.running == w.running
    ensures forall t: nat :: BusyAt(w', t) == BusyAt(w, t)
  {
    hide BusyAt, Count;
    forall t: nat
      ensures BusyAt(w', t) == BusyAt(w, t)
    {
      StackPop(w.stack, t, Holds);
      BusyIs(w, t);
      BusyIs(w', t);
    }
  }

  lemma PopOther(g: Graph, w: World, w': World, r: nat)
    requires w.stack != [] && w'.stack == Rest(w.stack) && w'.ts == w.ts && |w'.sems| == |w.sems| && r < |w.sems|
    requires w'.sems[r] == w.sems[r] && Top(w.stack).t < |g.semaphore| && g.semaphore[Top(w.stack).t] != r
    requires forall t: nat :: BusyAt(w', t) == BusyAt(w, t)
    ensures Leaves(g, w, w', r)
  {
    hide BusyAt;
    forall i | Wakes(g, w, r, i)
      ensures i < |w'.stack| && w'.stack[i] == w.stack[i]
    {
      assert i < |w.stack| - 1;
    }
  }

  lemma JoinQueue(g: Graph, w: World, w': World, s: nat, t: nat)
    requires s < |w.sems| == |w'.sems| && SemOk(g, w, s) && w.sems[s].asynccnt != 0 && w'.ts == w.ts
    requires w'.sems[s] == w.sems[s].(parents := w.sems[s].parents + [t])
    requires Of(g, s, t) && Ready(w, t) && forall u: nat :: BusyAt(w', u) == BusyAt(w, u)
    ensures SemOk(g, w', s)
  {
    hide BusyAt;
    assert forall u: nat :: Holder(g, w', s, u) <==> Holder(g, w, s, u);
  }

  /** t is released, and takes its semaphore if it has one. */
  lemma TakeB(g: Graph, w: World, cmds: seq<Cmd>)
    requires Conserved(g, w) && SemsOk(g, w) && w.stack != [] && Top(w.stack).kind.B?
    requires var t := Top(w.stack).t; var s := g.semaphore[t];
      w.ts[t].asynccnt - 1 == 0 && (s == NONE || w.sems[s].asynccnt == 0)
    ensures SemsOk(g, StepB(g, w, cmds))
  {
    hide AskAbove, SumsOf, Fits, WfTarget, BusyAt, Owed, Queued, Count, SemOk, DepStatus, Released;
    var e, w' := Top(w.stack), StepB(g, w, cmds);
    assert WfEntry(g, e);
    WaitingB(g, w);
    BusyIs(w, e.t);
    AsksOf(w, e.t);
    forall t: nat
      ensures BusyAt(w', t) == (BusyAt(w, t) || t == e.t)
    {
      StackTurn(w.stack, e.(kind := C), t, Holds);
      BusyIs(w, t);
      BusyIs(w', t);
    }
    forall r | 0 <= r < g.nsems
      ensures SemOk(g, w', r)
    {
      assert SemOk(g, w, r);
      if r == g.semaphore[e.t] {
        QueuedOne(w.sems, r, e.t);
        Take(g, w, w', r, e.t);
      } else {
        TakeOther(g, w, w', r, e.t);
        LeavesOk(g, w, w', r);
      }
    }
  }

  lemma Take(g: Graph, w: World, w': World, s: nat, t: nat)
    requires s < |w.sems| == |w'.sems| && SemOk(g, w, s) && w.sems[s].asynccnt == 0 && Of(g, s, t)
    requires w'.sems[s] == w.sems[s].(asynccnt := 1) && |w'.ts| == |w.ts|
    requires forall u: nat :: BusyAt(w', u) == (BusyAt(w, u) || u == t)
    requires forall u :: 0 <= u < |w.ts| && u != t ==> w'.ts[u] == w.ts[u]
    requires t !in w.sems[s].parents
    ensures SemOk(g, w', s)
  {
    hide BusyAt;
    assert Holder(g, w', s, t);
    forall u | Holder(g, w', s, u)
      ensures u == t
    {
      assert !Holder(g, w, s, u);
    }
    forall u | u in w'.sems[s].parents
      ensures u < |g.semaphore| && g.semaphore[u] == s && Ready(w', u)
    {
      assert Ready(w, u);
    }
  }

  lemma TakeOther(g: Graph, w: World, w': World, r: nat, t: nat)
    requires r < |w.sems| == |w'.sems| && w'.sems[r] == w.sems[r] && |w'.ts| == |w.ts|
    requires w.stack != [] && Top(w.stack).t == t && |w'.stack| == |w.stack| && Rest(w'.stack) == Rest(w.stack)
    requires t < |g.semaphore| && g.semaphore[t] != r
    requires forall u: nat :: BusyAt(w', u) == (BusyAt(w, u) || u == t)
    requires forall u :: 0 <= u < |w.ts| && u != t ==> w'.ts[u] == w.ts[u]
    ensures Leaves(g, w, w', r)
  {
    hide BusyAt;
    forall i | Wakes(g, w, r, i)
      ensures i < |w'.stack| && w'.stack[i] == w.stack[i]
    {
      assert i < |w.stack| - 1;
      assert w.stack[i] == Rest(w.stack)[i] && w'.stack[i] == Rest(w'.stack)[i];
    }
  }

  // ---- 1C ----

  /** A target that is done lets its semaphore go and wakes the first that waits. */
  lemma GiveC(g: Graph, w: World)
    requires Conserved(g, w) && SemsOk(g, w) && w.stack != [] && Top(w.stack).kind.C?
    ensures var s := g.semaphore[Top(w.stack).t]; s != NONE ==> w.sems[s].asynccnt == 1
    ensures SemsOk(g, Finish(g, w))
  {
    hide AskAbove, SumsOf, Fits, WfTarget, BusyAt, Owed, Queued, Count, SemOk, ActStatus, Distribute, Tell, Occ, WfEntry;
    var e, w' := Top(w.stack), Finish(g, w);
    BusyTop(g, w);
    var t, s := e.t, g.semaphore[e.t];
    AsksOf(w, t);
    BusyIs(w, t);
    if s != NONE {
      assert SemOk(g, w, s);
      HolderHolds(g, w, s, t);
    }
    BusyFinish(g, w);
    forall r | 0 <= r < g.nsems
      ensures SemOk(g, w', r)
    {
      assert SemOk(g, w, r);
      if r == s {
        FirstWoken(g, w);
        Give(g, w, w', s, t);
      } else {
        GiveOther(g, w, w', r, t);
        LeavesOk(g, w, w', r);
      }
    }
  }

  lemma HolderHolds(g: Graph, w: World, s: nat, t: nat)
    requires s < |w.sems| && SemOk(g, w, s) && Holder(g, w, s, t)
    ensures w.sems[s].asynccnt == 1
  {
  }

  lemma BusyFinish(g: Graph, w: World)
    requires Conserved(g, w) && w.stack != [] && Top(w.stack).kind.C?
    ensures var w' := Finish(g, w);
      && (forall u: nat :: BusyAt(w', u) == (BusyAt(w, u) && u != Top(w.stack).t))
      && BusyAt(w, Top(w.stack).t)
  {
    hide AskAbove, SumsOf, Fits, WfTarget, BusyAt, Owed, Queued, Count, ActStatus, Distribute, Tell, Occ, WfEntry, Hold, DropWaiter;
    BusyTop(g, w);
    var t, w' := Top(w.stack).t, Finish(g, w);
    AsksOf(w, t);
    BusyIs(w, t);
    var ps := w.ts[t].parents + FirstWaiter(w.sems, g.semaphore[t]);
    forall u: nat
      ensures BusyAt(w', u) == (BusyAt(w, u) && u != t)
    {
      StackFinish(w.stack, ps, u, Holds);
      BusyIs(w, u);
      BusyIs(w', u);
    }
  }

  /** The first that waits has a 1B entry on the new stack. */
  lemma FirstWoken(g: Graph, w: World)
    requires WfWorld(g, w) && w.stack != [] && g.semaphore[Top(w.stack).t] != NONE
    ensures var s := g.semaphore[Top(w.stack).t];
      w.sems[s].parents != [] ==> Entry(B, w.sems[s].parents[0], NONE, 0) in Finish(g, w).stack
  {
    hide ActStatus, Distribute, Tell, WfTarget;
    assert WfEntry(g, Top(w.stack));
    var t := Top(w.stack).t;
    var s := g.semaphore[t];
    var ps := w.ts[t].parents + FirstWaiter(w.sems, s);
    TellHas(ps);
    if w.sems[s].parents != [] {
      assert ps[|ps| - 1] == w.sems[s].parents[0];
    }
  }

  /** Who queues for s is not its holder t, and stays ready. */
  lemma StillReady(g: Graph, w: World, w': World, s: nat, t: nat, u: nat)
    requires s < |w.sems| && SemOk(g, w, s) && Holder(g, w, s, t) && |w'.ts| == |w.ts| && u in w.sems[s].parents
    requires forall x: nat :: BusyAt(w', x) == (BusyAt(w, x) && x != t)
    requires forall x :: 0 <= x < |w.ts| && x != t ==> w'.ts[x] == w.ts[x]
    ensures u < |g.semaphore| && g.semaphore[u] == s && Ready(w', u)
  {
    hide BusyAt;
    assert Ready(w, u);
  }

  lemma InTail(ps: seq<nat>, u: nat)
    requires ps != [] && u in ps[1..]
    ensures u in ps
  {
    var k :| 0 <= k < |ps| - 1 && ps[1..][k] == u;
    assert ps[k + 1] == u;
  }

  /** Its only holder gone, nobody holds s. */
  lemma NoHolder(g: Graph, w: World, w': World, s: nat, t: nat)
    requires s < |w.sems| && SemOk(g, w, s) && Holder(g, w, s, t)
    requires forall u: nat :: BusyAt(w', u) == (BusyAt(w, u) && u != t)
    ensures forall u :: !Holder(g, w', s, u)
  {
    hide BusyAt;
    forall u
      ensures !Holder(g, w', s, u)
    {
      assert Holder(g, w', s, u) ==> Holder(g, w, s, u) && u != t;
    }
  }

  lemma Give(g: Graph, w: World, w': World, s: nat, t: nat)
    requires s < |w.sems| == |w'.sems| && SemOk(g, w, s) && Holder(g, w, s, t) && |w'.ts| == |w.ts|
    requires w'.sems[s] == Semaphore(w.sems[s].asynccnt - 1, if w.sems[s].parents == [] then [] else w.sems[s].parents[1..])
    requires w.sems[s].parents != [] ==> Entry(B, w.sems[s].parents[0], NONE, 0) in w'.stack
    requires forall u: nat :: BusyAt(w', u) == (BusyAt(w, u) && u != t)
    requires forall u :: 0 <= u < |w.ts| && u != t ==> w'.ts[u] == w.ts[u]
    ensures SemOk(g, w', s)
  {
    hide BusyAt, Holder, Ready;
    HolderHolds(g, w, s, t);
    NoHolder(g, w, w', s, t);
    forall u | u in w.sems[s].parents
      ensures u < |g.semaphore| && g.semaphore[u] == s && Ready(w', u)
    {
      StillReady(g, w, w', s, t, u);
    }
    forall u | u in w'.sems[s].parents
      ensures u in w.sems[s].parents
    {
      InTail(w.sems[s].parents, u);
    }
    assert Queuers(g, w', s);
    if w.sems[s].parents != [] {
      var first := Entry(B, w.sems[s].parents[0], NONE, 0);
      var i :| 0 <= i < |w'.stack| && w'.stack[i] == first;
      assert first.t in w.sems[s].parents;
      assert Wakes(g, w', s, i);
    }
  }

  lemma GiveOther(g: Graph, w: World, w': World, r: nat, t: nat)
    requires r < |w.sems| == |w'.sems| && w'.sems[r] == w.sems[r] && |w'.ts| == |w.ts|
    requires w.stack != [] && Top(w.stack).kind.C? && |w'.stack| >= |w.stack| - 1 && w'.stack[..|w.stack| - 1] == Rest(w.stack)
    requires t < |g.semaphore| && g.semaphore[t] != r && BusyAt(w, t)
    requires forall u: nat :: BusyAt(w', u) == (BusyAt(w, u) && u != t)
    requires forall u :: 0 <= u < |w.ts| && u != t ==> w'.ts[u] == w.ts[u]
    ensures Leaves(g, w, w', r)
  {
    hide BusyAt;
    forall i | Wakes(g, w, r, i)
      ensures i < |w'.stack| && w'.stack[i] == w.stack[i]
    {
      assert i < |w.stack| - 1;
      assert w.stack[i] == Rest(w.stack)[i] && w'.stack[i] == w'.stack[..|w.stack| - 1][i];
    }
  }

  // ---- every step ----

  /** At most one target holds a semaphore and no wake-up is lost, whatever happens next. */
  lemma NextSems(g: Graph, w: World, w': World)
    requires Conserved(g, w) && SemsOk(g, w) && Next(g, w, w')
    ensures SemsOk(g, w')
  {
    hide Conserved, SemsOk, AllLeave, StepA, StepATail, StepB, StepC, StepD;
    Sized(g, w);
    if StepTop(g, w, w') {
      match Top(w.stack).kind
      case A => LeaveA(g, w); AllLeaveOk(g, w, w');
      case ATail => LeaveATail(g, w); AllLeaveOk(g, w, w');
      case B =>
        var cmds :| w' == StepB(g, w, cmds);
        NextSemsB(g, w, cmds);
      case C => NextSemsC(g, w);
      case D => LeaveD(g, w); AllLeaveOk(g, w, w');
    } else {
      var t, status :| Finishes(w, t, status) && w' == Closure(w, t, status);
      LeaveClosure(g, w, t, status);
      AllLeaveOk(g, w, w');
    }
  }

  lemma Sized(g: Graph, w: World)
    requires Conserved(g, w)
    ensures |w.ts| == |g.semaphore| && WfWorld(g, w)
  {
  }

  lemma NextSemsB(g: Graph, w: World, cmds: seq<Cmd>)
    requires Conserved(g, w) && SemsOk(g, w) && w.stack != [] && Top(w.stack).kind.B?
    ensures SemsOk(g, StepB(g, w, cmds))
  {
    hide AskAbove, SemsOk, AllLeave, StepB, FitsAt, WfTarget;
    var t := Top(w.stack).t;
    assert WfEntry(g, Top(w.stack));
    var s := g.semaphore[t];
    if w.ts[t].asynccnt - 1 != 0 {
      LeaveB(g, w, cmds);
      AllLeaveOk(g, w, StepB(g, w, cmds));
    } else if s != NONE && w.sems[s].asynccnt != 0 {
      QueueB(g, w, cmds);
    } else {
      TakeB(g, w, cmds);
    }
  }

  lemma NextSemsC(g: Graph, w: World)
    requires Conserved(g, w) && SemsOk(g, w) && w.stack != [] && Top(w.stack).kind.C?
    ensures SemsOk(g, StepC(g, w))
  {
    hide AskAbove, SemsOk, AllLeave, Finish, FitsAt, WfTarget;
    assert WfEntry(g, Top(w.stack));
    var x := w.ts[Top(w.stack).t];
    if x.cmds != [] && x.status == EXEC_CMD_OK {
      LeaveLaunch(g, w);
      AllLeaveOk(g, w, StepC(g, w));
    } else {
      GiveC(g, w);
    }
  }
}
