/** Whole runs of make1: from one quiet state to the next, every target reached gets done. */
module Make1Runs {
  import opened Make1State
  import opened Make1Counters
  import opened Make1Steps
  import opened Make1Waits
  import opened Make1Semaphores
  import opened Make1Launch

  // ---- the tally, and statuses ----

  /** Every target that make1 set out to build was made, failed, or is being built. */
  ghost predicate CountsOk(w: World) {
    w.counts.total == w.counts.made + w.counts.failed + Runners(w.ts)
  }

  /** The actions of a target that is done know if it failed. */
  ghost predicate ActsTold(g: Graph, w: World)
    requires WfWorld(g, w)
  {
    forall t, a :: 0 <= t < |w.ts| && a in g.actions[t] && w.ts[t].progress.Done? ==> w.ts[t].status <= w.acts[a]
  }

  ghost predicate Tallied(g: Graph, w: World) {
    WfWorld(g, w) && CountsOk(w) && ActsTold(g, w)
  }

  lemma TalliedSet(g: Graph, w: World, w': World, u: nat)
    requires Tallied(g, w) && WfWorld(g, w') && u < |w.ts| && w'.ts == w.ts[u := w'.ts[u]]
    requires !w'.ts[u].progress.Done?
    requires w'.ts[u].progress.Running? == w.ts[u].progress.Running?
    requires w'.counts == w.counts.(skipped := w'.counts.skipped) && w'.acts == w.acts
    ensures Tallied(g, w')
  {
    hide WfEntry, WfTarget;
    RunnersUpdate(w.ts, u, w'.ts[u]);
  }

  lemma TalliedA(g: Graph, w: World)
    requires Conserved(g, w) && Tallied(g, w) && w.stack != [] && Top(w.stack).kind.A?
    ensures Tallied(g, StepA(g, w))
  {
    hide SumsOf, AskAbove, FitsAt, WfTarget, AskFor;
    var e, w' := Top(w.stack), StepA(g, w);
    assert WfEntry(g, e);
    WfA(g, w);
    AskingA(g, w);
    var c, p := e.t, e.parent;
    var ts1 := w.ts;
    if p != NONE && Awaited(w.ts[c].progress) {
      RunnersUpdate(w.ts, c, w.ts[c].(parents := w.ts[c].parents + [p]));
      var ts0 := w.ts[c := w.ts[c].(parents := w.ts[c].parents + [p])];
      RunnersUpdate(ts0, p, ts0[p].(asynccnt := ts0[p].asynccnt + 1));
      ts1 := Register(w.ts, c, p);
    }
    if ts1[c].progress.Init? {
      RunnersUpdate(ts1, c, ts1[c].(asynccnt := 1, progress := OnStack));
    }
  }

  lemma TalliedB(g: Graph, w: World, cmds: seq<Cmd>)
    requires Conserved(g, w) && Tallied(g, w) && w.stack != [] && Top(w.stack).kind.B?
    ensures Tallied(g, StepB(g, w, cmds))
  {
    hide SumsOf, AskAbove, FitsAt, WfTarget, DepStatus;
    var e, w' := Top(w.stack), StepB(g, w, cmds);
    assert WfEntry(g, e);
    WfB(g, w, cmds);
    WaitingB(g, w);
    RunnersUpdate(w.ts, e.t, w'.ts[e.t]);
    assert w'.ts == w.ts[e.t := w'.ts[e.t]];
  }

  lemma TalliedFinish(g: Graph, w: World)
    requires Conserved(g, w) && Tallied(g, w) && w.stack != [] && Top(w.stack).kind.C?
    ensures Tallied(g, Finish(g, w))
  {
    hide SumsOf, AskAbove, FitsAt, WfEntry, Tell;
    BusyTop(g, w);
    var u, w' := Top(w.stack).t, Finish(g, w);
    WfFinish(g, w);
    RunnersUpdate(w.ts, u, w'.ts[u]);
    assert WfTarget(g, w'.ts[u]);
  }

  lemma NextTallied(g: Graph, w: World, w': World)
    requires Conserved(g, w) && Tallied(g, w) && Next(g, w, w')
    ensures Tallied(g, w')
  {
    hide AskAbove, FitsAt, Tallied, StepA, StepATail, StepB, StepC, StepD, WfTarget;
    if StepTop(g, w, w') {
      assert WfEntry(g, Top(w.stack));
      match Top(w.stack).kind
      case A => TalliedA(g, w);
      case ATail => TalliedATail(g, w);
      case B =>
        var cmds :| w' == StepB(g, w, cmds);
        TalliedB(g, w, cmds);
      case C => TalliedC(g, w);
      case D => TalliedD(g, w);
    } else {
      var t, status :| Finishes(w, t, status) && w' == Closure(w, t, status);
      WfClosure(g, w, t, status);
      TalliedSame(g, w, w');
    }
  }

  lemma TalliedSame(g: Graph, w: World, w': World)
    requires Tallied(g, w) && WfWorld(g, w') && w'.ts == w.ts && w'.counts == w.counts && w'.acts == w.acts
    ensures Tallied(g, w')
  {
    hide WfEntry, WfTarget;
  }

  lemma TalliedATail(g: Graph, w: World)
    requires Conserved(g, w) && Tallied(g, w) && w.stack != [] && Top(w.stack).kind.ATail?
    ensures Tallied(g, StepATail(g, w))
  {
    hide AskAbove, FitsAt, WfTarget, Tallied;
    assert WfEntry(g, Top(w.stack));
    TailStarted(g, w);
    WfATail(g, w);
    TalliedSet(g, w, StepATail(g, w), Top(w.stack).t);
  }

  lemma TalliedC(g: Graph, w: World)
    requires Conserved(g, w) && Tallied(g, w) && w.stack != [] && Top(w.stack).kind.C?
    ensures Tallied(g, StepC(g, w))
  {
    hide AskAbove, FitsAt, WfTarget, Tallied, Finish;
    assert WfEntry(g, Top(w.stack));
    WfC(g, w);
    var x := w.ts[Top(w.stack).t];
    if x.cmds != [] && x.status == EXEC_CMD_OK {
      TalliedSame(g, w, StepC(g, w));
    } else {
      TalliedFinish(g, w);
    }
  }

  lemma TalliedD(g: Graph, w: World)
    requires Conserved(g, w) && Tallied(g, w) && w.stack != [] && Top(w.stack).kind.D? && w.ts[Top(w.stack).t].cmds != []
    ensures Tallied(g, StepD(g, w))
  {
    hide AskAbove, FitsAt, WfTarget, Tallied;
    assert WfEntry(g, Top(w.stack));
    BusyTop(g, w);
    WfD(g, w);
    TalliedSet(g, w, StepD(g, w), Top(w.stack).t);
  }

  // ---- everything that holds throughout ----

  ghost predicate Sound(g: Graph, w: World) {
    Conserved(g, w) && Ordered(g, w) && SemsOk(g, w) && Tallied(g, w)
  }

  lemma NextSound(g: Graph, w: World, w': World)
    requires Sound(g, w) && Next(g, w, w')
    ensures Sound(g, w')
  {
    hide Conserved, Ordered, SemsOk, Tallied, Next;
    NextKeeps(g, w, w');
    NextOrdered(g, w, w');
    NextSems(g, w, w');
    NextTallied(g, w, w');
  }

  /** Nothing to do and nothing running. */
  ghost predicate Quiet(g: Graph, w: World) {
    Sound(g, w) && w.stack == [] && w.running == {}
  }

  /** Before anything is built. */
  function Fresh(g: Graph): World {
    var n := |g.depends|;
    World([], seq(n, _ => Target(Init, 0, EXEC_CMD_OK, [], [])), seq(g.nsems, _ => Semaphore(0, [])), {},
          seq(g.nacts, _ => EXEC_CMD_OK), Counts(0, 0, 0, 0), seq(n, _ => 0), 0, seq(n, _ => 0))
  }

  lemma {:induction false} NothingOwed(ts: seq<Target>, t: nat)
    requires forall u :: 0 <= u < |ts| ==> ts[u].parents == []
    ensures Owed(ts, t) == 0
    decreases |ts|
  {
    if ts != [] {
      assert ts[0].parents == [] && forall u :: 0 <= u < |ts| - 1 ==> ts[1..][u] == ts[u + 1];
      NothingOwed(ts[1..], t);
    }
  }

  lemma {:induction false} NothingQueued(sems: seq<Semaphore>, t: nat)
    requires forall s :: 0 <= s < |sems| ==> sems[s].parents == []
    ensures Queued(sems, t) == 0
    decreases |sems|
  {
    if sems != [] {
      assert sems[0].parents == [] && forall u :: 0 <= u < |sems| - 1 ==> sems[1..][u] == sems[u + 1];
      NothingQueued(sems[1..], t);
    }
  }

  lemma FreshQuiet(g: Graph)
    requires WfGraph(g)
    ensures Quiet(g, Fresh(g))
  {
    var w := Fresh(g);
    forall t: nat
      ensures SumsOf(w, t) == Sums(0, 0, 0, 0, 0, 0, 0)
    {
      NothingOwed(w.ts, t);
      NothingQueued(w.sems, t);
    }
    NoRunners(w.ts);
    assert forall s, t :: !Holder(g, w, s, t);
  }

  /** What make1 begins with: the counts at zero, and the target it is called for to visit. */
  function Begin(w: World, root: nat): World {
    w.(stack := [Entry(A, root, NONE, 0)], counts := Counts(0, 0, 0, 0))
  }

  lemma BeginSound(g: Graph, w: World, root: nat)
    requires Quiet(g, w) && root < |w.ts|
    ensures Sound(g, Begin(w, root))
  {
    hide Owed, Queued, Runners;
    var w' := Begin(w, root);
    forall t: nat
      ensures SumsOf(w', t) == SumsOf(w, t) && BusyAt(w', t) == BusyAt(w, t)
    {
      SumsBegin(w, root, t);
    }
    QuietIsDone(g, w);
    NoRunners(w.ts);
    BeginOrdered(g, w, root);
    BeginSems(g, w, root);
    forall t | 0 <= t < |w'.ts|
      ensures FitsAt(w', t)
    {
      assert FitsAt(w, t);
    }
  }

  lemma SumsBegin(w: World, root: nat, t: nat)
    requires w.stack == []
    ensures SumsOf(Begin(w, root), t) == SumsOf(w, t)
  {
    var e := Entry(A, root, NONE, 0);
    CountPush([], e, t, Tokens);
    CountPush([], e, t, Asks);
    CountPush([], e, t, Tails);
    CountPush([], e, t, Holds);
    CountPush([], e, t, Ends);
    assert [] + [e] == [e];
  }

  lemma BeginOrdered(g: Graph, w: World, root: nat)
    requires Quiet(g, w) && root < |w.ts|
    ensures Ordered(g, Begin(w, root))
  {
    hide Conserved, SemsOk, Tallied;
    var w' := Begin(w, root);
    forall u, t | 0 <= u < |w'.ts| && t in w'.ts[u].parents
      ensures MayWait(w', u, t)
    {
      assert MayWait(w, u, t);
    }
    forall t, c | 0 <= t < |w'.ts| && c in g.depends[t] && !w'.ts[t].progress.Init?
      ensures Asked(w', t, c)
    {
      assert Asked(w, t, c);
    }
  }

  lemma BeginSems(g: Graph, w: World, root: nat)
    requires Quiet(g, w) && root < |w.ts|
    requires forall t: nat :: BusyAt(Begin(w, root), t) == BusyAt(w, t)
    ensures SemsOk(g, Begin(w, root))
  {
    hide BusyAt, Conserved, Ordered, Tallied;
    var w' := Begin(w, root);
    forall s | 0 <= s < g.nsems
      ensures SemOk(g, w', s)
    {
      assert SemOk(g, w, s);
      assert Leaves(g, w, w', s);
      LeavesOk(g, w, w', s);
    }
  }

  // ---- deadlock freedom ----

  /** When nothing is left on the stack and nothing runs, no target waits: the one whose
      1ATAIL came first would have to wait for an earlier one. */
  lemma {:induction false} NotStuck(g: Graph, w: World, t: nat)
    requires Quiet(g, w) && t < |w.ts|
    ensures w.ts[t].progress.Init? || w.ts[t].progress.Done?
    decreases w.stamp[t]
  {
    hide AskAbove, Owed, Queued, WfTarget, WfEntry, SemsOk, Tallied;
    assert FitsAt(w, t);
    AsksOf(w, t);
    if w.ts[t].progress.Active? {
      NotQueued(g, w, t);
      var u := OwedSome(w.ts, t);
      assert FitsAt(w, u) && MayWait(w, u, t);
      NotStuck(g, w, u);
    }
  }

  lemma NotQueued(g: Graph, w: World, t: nat)
    requires Quiet(g, w)
    ensures Queued(w.sems, t) == 0
  {
    hide Sound;
    forall s | 0 <= s < |w.sems|
      ensures w.sems[s].parents == []
    {
      QuietSem(g, w, s);
    }
    NothingQueued(w.sems, t);
  }

  /** In a quiet state every target is untouched or done, and what a done target depends on
      is done too. */
  lemma QuietIsDone(g: Graph, w: World)
    requires Quiet(g, w)
    ensures forall t :: 0 <= t < |w.ts| ==> w.ts[t].progress.Init? || (w.ts[t].progress.Done? && w.released[t] == 1)
    ensures forall t, c :: 0 <= t < |w.ts| && c in g.depends[t] && w.ts[t].progress.Done? ==> c < |w.ts| && w.ts[c].progress.Done?
    ensures forall s :: 0 <= s < |w.sems| ==> w.sems[s] == Semaphore(0, [])
    ensures w.counts.total == w.counts.made + w.counts.failed
  {
    hide AskAbove, Owed, Queued, WfTarget, WfEntry, SumsOf;
    forall t | 0 <= t < |w.ts|
      ensures w.ts[t].progress.Init? || (w.ts[t].progress.Done? && w.released[t] == 1)
    {
      NotStuck(g, w, t);
      assert FitsAt(w, t);
    }
    forall t, c | 0 <= t < |w.ts| && c in g.depends[t] && w.ts[t].progress.Done?
      ensures c < |w.ts| && w.ts[c].progress.Done?
    {
      assert Asked(w, t, c);
    }
    forall s | 0 <= s < |w.sems|
      ensures w.sems[s] == Semaphore(0, [])
    {
      QuietSem(g, w, s);
    }
    NoRunners(w.ts);
  }

  lemma QuietSem(g: Graph, w: World, s: nat)
    requires Quiet(g, w) && s < |w.sems|
    ensures w.sems[s] == Semaphore(0, [])
  {
    hide AskAbove, Owed, Queued, WfTarget, WfEntry, Ordered, Tallied, Conserved;
    assert SemOk(g, w, s);
    assert forall i :: !Wakes(g, w, s, i);
    assert forall u :: !Holder(g, w, s, u);
  }

  /** A chain of dependencies from the first to the last of p. */
  ghost predicate Chain(g: Graph, p: seq<nat>)
    requires WfGraph(g)
  {
    && p != [] && (forall k :: 0 <= k < |p| ==> p[k] < |g.depends|)
    && forall k :: 0 <= k < |p| - 1 ==> p[k + 1] in g.depends[p[k]]
  }

  lemma {:induction false} ReachedDone(g: Graph, w: World, p: seq<nat>)
    requires Quiet(g, w) && Chain(g, p) && !w.ts[p[0]].progress.Init?
    ensures w.ts[p[|p| - 1]].progress.Done?
    decreases |p|
  {
    QuietIsDone(g, w);
    if |p| > 1 {
      var q := p[..|p| - 1];
      assert q[|q| - 1] == p[|p| - 2] && p[|p| - 1] in g.depends[p[|p| - 2]];
      ReachedDone(g, w, q);
    }
  }

  // ---- runs ----

  /** root has been visited, or is about to be. */
  predicate RootAsked(w: World, root: nat) {
    root < |w.ts| && (!w.ts[root].progress.Init? || Entry(A, root, NONE, 0) in w.stack)
  }

  lemma NextRoot(g: Graph, w: World, w': World, root: nat)
    requires Sound(g, w) && Next(g, w, w') && RootAsked(w, root)
    ensures RootAsked(w', root)
  {
    hide AskAbove, FitsAt, Ordered, SemsOk, Tallied, DepStatus, ActStatus, Distribute, WfTarget;
    if StepTop(g, w, w') {
      assert WfEntry(g, Top(w.stack));
      if Entry(A, root, NONE, 0) in w.stack { InRest(w.stack, Entry(A, root, NONE, 0)); }
      if Top(w.stack).kind.B? { WaitingB(g, w); }
    }
  }

  /** A run: each state comes next after the one before. */
  ghost predicate IsRun(g: Graph, ws: seq<World>) {
    ws != [] && forall k :: 0 <= k < |ws| - 1 ==> Next(g, ws[k], ws[k + 1])
  }

  /** Everything that holds at the start of a run holds at its end. */
  lemma {:induction false} RunSound(g: Graph, ws: seq<World>, root: nat)
    requires IsRun(g, ws) && Sound(g, ws[0]) && RootAsked(ws[0], root)
    ensures Sound(g, ws[|ws| - 1]) && RootAsked(ws[|ws| - 1], root)
    decreases |ws|
  {
    hide Sound, Next;
    if |ws| > 1 {
      var rest := ws[..|ws| - 1];
      assert rest[|rest| - 1] == ws[|ws| - 2] && rest[0] == ws[0];
      assert IsRun(g, rest) by {
        forall k | 0 <= k < |rest| - 1
          ensures Next(g, rest[k], rest[k + 1])
        {
          assert Next(g, ws[k], ws[k + 1]);
        }
      }
      assert Next(g, ws[|ws| - 2], ws[|ws| - 2 + 1]);
      RunSound(g, rest, root);
      NextSound(g, ws[|ws| - 2], ws[|ws| - 1]);
      NextRoot(g, ws[|ws| - 2], ws[|ws| - 1], root);
    }
  }

  /** Deadlock freedom: however the commands finish, when a run of make1 on root comes to an
      empty stack with nothing running, everything root depends on, directly or not, is done,
      and was released exactly once. The graph may have cycles. */
  lemma NoDeadlock(g: Graph, w: World, root: nat, ws: seq<World>, p: seq<nat>)
    requires Quiet(g, w) && root < |w.ts| && IsRun(g, ws) && ws[0] == Begin(w, root)
    requires var end := ws[|ws| - 1]; end.stack == [] && end.running == {}
    requires Chain(g, p) && p[0] == root
    ensures var end := ws[|ws| - 1]; var t := p[|p| - 1];
      t < |end.ts| == |end.released| && end.ts[t].progress.Done? && end.released[t] == 1
  {
    hide Sound, Next;
    assert RootAsked(ws[0], root) by { assert ws[0].stack[0] == Entry(A, root, NONE, 0); Typed(g, w); }
    BeginSound(g, w, root);
    RunSound(g, ws, root);
    var end := ws[|ws| - 1];
    Typed(g, end);
    ReachedDone(g, end, p);
    QuietIsDone(g, end);
  }

  lemma Typed(g: Graph, w: World)
    requires Sound(g, w)
    ensures WfWorld(g, w)
  {
    hide FitsAt, AskAbove, Ordered, SemsOk, Tallied, WfEntry, WfTarget;
  }

  lemma {:induction false} RunLaunch(g: Graph, rank: seq<nat>, ws: seq<World>, root: nat)
    requires IsRun(g, ws) && Sound(g, ws[0]) && LaunchOk(g, rank, ws[0]) && RootAsked(ws[0], root)
    ensures LaunchOk(g, rank, ws[|ws| - 1])
    decreases |ws|
  {
    hide Sound, Next, LaunchOk;
    if |ws| > 1 {
      var rest := ws[..|ws| - 1];
      assert rest[|rest| - 1] == ws[|ws| - 2] && rest[0] == ws[0];
      assert IsRun(g, rest) by {
        forall k | 0 <= k < |rest| - 1
          ensures Next(g, rest[k], rest[k + 1])
        {
          assert Next(g, ws[k], ws[k + 1]);
        }
      }
      assert Next(g, ws[|ws| - 2], ws[|ws| - 2 + 1]);
      RunLaunch(g, rank, rest, root);
      RunSound(g, rest, root);
      Counted(g, ws[|ws| - 2]);
      NextLaunch(g, rank, ws[|ws| - 2], ws[|ws| - 1]);
    }
  }

  lemma Counted(g: Graph, w: World)
    requires Sound(g, w)
    ensures Conserved(g, w)
  {
    hide Conserved;
  }

  /** On an acyclic graph, everywhere on a run, whoever has a command running has all its
      dependencies done, each with success or marked NOCARE. */
  lemma LaunchedWell(g: Graph, rank: seq<nat>, w: World, root: nat, ws: seq<World>, t: nat, c: nat)
    requires Quiet(g, w) && LaunchOk(g, rank, w) && root < |g.depends| && IsRun(g, ws) && ws[0] == Begin(w, root)
    requires var w' := ws[|ws| - 1]; t in w'.running && t < |g.depends| && c in g.depends[t]
    ensures var w' := ws[|ws| - 1];
      c < |w'.ts| && w'.ts[c].progress.Done? && (w'.ts[c].status == EXEC_CMD_OK || c in g.nocare)
  {
    hide Sound, Next, LaunchOk;
    Typed(g, w);
    BeginSound(g, w, root);
    assert RootAsked(ws[0], root) by { assert ws[0].stack[0] == Entry(A, root, NONE, 0); }
    BeginLaunch(g, rank, w, root);
    RunLaunch(g, rank, ws, root);
    RunSound(g, ws, root);
    var w' := ws[|ws| - 1];
    Counted(g, w');
    Typed(g, w');
    LaunchSafe(g, rank, w', t, c);
  }

  lemma BeginLaunch(g: Graph, rank: seq<nat>, w: World, root: nat)
    requires Quiet(g, w) && LaunchOk(g, rank, w) && root < |g.depends|
    ensures LaunchOk(g, rank, Begin(w, root))
  {
    hide Conserved, Ordered, SemsOk, Tallied;
    var w' := Begin(w, root);
    BeginSound(g, w, root);
    Typed(g, w');
    CmdsStay(g, w, w');
    forall t, c | 0 <= t < |w'.ts| && c in g.depends[t] && !w'.ts[t].progress.Init?
      ensures Due(w', t, c)
    {
      assert Due(w, t, c);
    }
  }

  lemma FreshLaunch(g: Graph, rank: seq<nat>)
    requires Ranked(g, rank)
    ensures LaunchOk(g, rank, Fresh(g))
  {
  }
}
