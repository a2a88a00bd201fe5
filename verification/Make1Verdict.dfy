/** Which calls of make1 leave a failure behind, told from the state before the call. */
module Make1Verdict {
  import opened Make1State
  import opened TargetFates
  import opened Make1Counters
  import opened Make1Steps
  import opened Make1Waits
  import opened Make1Runs
  import opened Make1Failures
  import opened Make1Commands

  predicate Failed(w: World, t: nat) {
    t < |w.ts| && w.ts[t].status == EXEC_CMD_FAIL
  }

  /** t has no way to be made, or something it depends on and cares about has failed. */
  ghost predicate Barred(g: Graph, w0: World, t: nat) {
    t < |g.depends| == |g.fate| && (g.fate[t] >= BROKEN || exists c :: c in g.depends[t] && c !in g.nocare && Failed(w0, c))
  }

  /** An action of t, shared with other targets, has failed. */
  ghost predicate Spoiled(g: Graph, w0: World, t: nat) {
    t < |g.actions| && exists a :: a in g.actions[t] && a < |w0.acts| && w0.acts[a] == EXEC_CMD_FAIL
  }

  ghost predicate Doomed(g: Graph, w0: World, t: nat) {
    Barred(g, w0, t) || Spoiled(g, w0, t)
  }

  /** t has been released since w0. */
  predicate NewIn(w0: World, w: World, t: nat) {
    t < |w0.released| && t < |w.released| && w0.released[t] == 0 && w.released[t] > 0
  }

  /** Something has failed by itself since w0: a command of some target in S, or a doomed target. */
  ghost predicate Cause(g: Graph, w0: World, w: World, S: set<nat>) {
    S != {} || exists t: nat :: NewIn(w0, w, t) && Doomed(g, w0, t)
  }

  ghost predicate Since(w0: World, w: World, B: set<nat>) {
    && |w.ts| == |w.released| == |w0.ts| == |w0.released| && |w.acts| == |w0.acts| && Clean(w0) && Clean(w) && Building(w) <= B
    && (forall u :: u in B ==> NewIn(w0, w, u))
    && (forall t :: 0 <= t < |w.ts| && w0.released[t] > 0 ==> w.ts[t].progress.Done? && w.ts[t].status == w0.ts[t].status)
    && (forall a :: 0 <= a < |w.acts| && w0.acts[a] == EXEC_CMD_FAIL ==> w.acts[a] == EXEC_CMD_FAIL)
  }

  /** No failure without a cause. */
  ghost predicate Explained(g: Graph, w0: World, w: World, S: set<nat>) {
    && (forall t: nat :: Failed(w, t) && t < |w0.released| && w0.released[t] == 0 ==> Cause(g, w0, w, S))
    && (forall a :: 0 <= a < |w.acts| && a < |w0.acts| && w.acts[a] == EXEC_CMD_FAIL ==> w0.acts[a] == EXEC_CMD_FAIL || Cause(g, w0, w, S))
  }

  /** No cause without a failure. */
  ghost predicate Punished(g: Graph, w0: World, w: World) {
    forall t: nat :: t < |w.ts| && NewIn(w0, w, t) ==>
      && (Barred(g, w0, t) ==> Failed(w, t) && !w.ts[t].progress.Running?)
      && (Doomed(g, w0, t) && w.ts[t].progress.Done? ==> Failed(w, t))
  }

  ghost predicate Judged(g: Graph, w0: World, w: World, B: set<nat>, S: set<nat>) {
    Since(w0, w, B) && Explained(g, w0, w, S) && Punished(g, w0, w)
  }

  // ---- the steps ----

  /** A step that settles nothing about anybody. */
  ghost predicate Neutral(w: World, w': World) {
    && |w'.ts| == |w.ts| && w'.acts == w.acts && w'.released == w.released && Building(w') <= Building(w)
    && forall t :: 0 <= t < |w.ts| ==>
      w'.ts[t].status == w.ts[t].status && w'.ts[t].progress.Done? == w.ts[t].progress.Done?
      && (w'.ts[t].progress.Running? ==> w.ts[t].progress.Running?)
  }

  lemma JudgedNeutral(g: Graph, w0: World, w: World, w': World, B: set<nat>, S: set<nat>)
    requires Judged(g, w0, w, B, S) && Neutral(w, w')
    ensures Judged(g, w0, w', B + Building(w'), S)
  {
    hide Barred, Spoiled, Building;
    assert B + Building(w') == B;
    assert forall t: nat :: Failed(w', t) <==> Failed(w, t);
    assert forall t: nat :: NewIn(w0, w', t) <==> NewIn(w0, w, t);
  }

  lemma JudgedA(g: Graph, w0: World, w: World, B: set<nat>, S: set<nat>)
    requires Conserved(g, w) && Judged(g, w0, w, B, S) && w.stack != [] && Top(w.stack).kind.A?
    ensures var w' := StepA(g, w); Judged(g, w0, w', B + Building(w'), S)
  {
    hide SumsOf, AskAbove, FitsAt, WfTarget, AskFor, Since, Explained, Punished;
    assert WfEntry(g, Top(w.stack));
    AskingA(g, w);
    JudgedNeutral(g, w0, w, StepA(g, w), B, S);
  }

  lemma JudgedATail(g: Graph, w0: World, w: World, B: set<nat>, S: set<nat>)
    requires Conserved(g, w) && Judged(g, w0, w, B, S) && w.stack != [] && Top(w.stack).kind.ATail?
    ensures var w' := StepATail(g, w); Judged(g, w0, w', B + Building(w'), S)
  {
    hide SumsOf, AskAbove, FitsAt, WfTarget, Since, Explained, Punished;
    assert WfEntry(g, Top(w.stack));
    TailStarted(g, w);
    JudgedNeutral(g, w0, w, StepATail(g, w), B, S);
  }

  /** What was a cause stays one. */
  lemma CauseStays(g: Graph, w0: World, w: World, w': World, S: set<nat>, S': set<nat>)
    requires Cause(g, w0, w, S) && S <= S' && forall t: nat :: NewIn(w0, w, t) ==> NewIn(w0, w', t)
    ensures Cause(g, w0, w', S')
  {
    hide Doomed;
  }

  /** A command of u has ended. */
  lemma JudgedCommand(g: Graph, w0: World, w: World, w': World, B: set<nat>, S: set<nat>, u: nat)
    requires Judged(g, w0, w, B, S) && u < |w.ts| == |w'.ts| && w'.ts == w.ts[u := w'.ts[u]]
    requires w'.acts == w.acts && w'.released == w.released
    requires w.ts[u].progress.Running? && w'.ts[u].progress.Running? && (Failed(w', u) ==> u in S)
    ensures Judged(g, w0, w', B + Building(w'), S)
  {
    hide Barred, Spoiled, Cause;
    assert Building(w') == Building(w) && u in Building(w) && B + Building(w') == B;
    assert Cause(g, w0, w, S) ==> Cause(g, w0, w', S) by {
      if Cause(g, w0, w, S) { CauseStays(g, w0, w, w', S, S); }
    }
    if Failed(w', u) {
      ByCommand(g, w0, w', S, u);
    }
  }

  lemma ByCommand(g: Graph, w0: World, w: World, S: set<nat>, u: nat)
    requires u in S
    ensures Cause(g, w0, w, S)
  {
  }

  lemma ByDoom(g: Graph, w0: World, w: World, S: set<nat>, u: nat)
    requires NewIn(w0, w, u) && Doomed(g, w0, u)
    ensures Cause(g, w0, w, S)
  {
  }

  lemma JudgedD(g: Graph, w0: World, w: World, B: set<nat>, S: set<nat>, T: set<nat>)
    requires Conserved(g, w) && Judged(g, w0, w, B, S) && w.stack != [] && Top(w.stack).kind.D? && w.ts[Top(w.stack).t].cmds != []
    requires Linked(g, w, B, S, T)
    ensures var w' := StepD(g, w); Judged(g, w0, w', B + Building(w'), S)
  {
    hide AskAbove, FitsAt, WfTarget, Since, Explained, Punished, Count, Owed, Queued;
    var u := Top(w.stack).t;
    BusyTop(g, w);
    EndSettles(g, w, B, S, T);
    JudgedCommand(g, w0, w, StepD(g, w), B, S, u);
  }

  /** u is released. */
  lemma JudgedRelease(g: Graph, w0: World, w: World, w': World, B: set<nat>, S: set<nat>, u: nat)
    requires Judged(g, w0, w, B, S) && u < |w.ts| == |w'.ts| == |g.depends| == |g.fate| && w'.ts == w.ts[u := w'.ts[u]]
    requires w'.acts == w.acts && w.released[u] == 0 && w'.released == w.released[u := 1]
    requires !w.ts[u].progress.Running? && !w.ts[u].progress.Done? && !w'.ts[u].progress.Done? && (w'.ts[u].progress.Running? ==> w'.ts[u].status == EXEC_CMD_OK)
    requires Failed(w', u) <==> g.fate[u] >= BROKEN || exists c :: c in g.depends[u] && c !in g.nocare && Failed(w, c)
    ensures Judged(g, w0, w', B + Building(w'), S)
  {
    hide Spoiled, Cause;
    var B' := B + Building(w');
    assert w0.released[u] == 0 && NewIn(w0, w', u) && u !in B;
    assert Cause(g, w0, w, S) ==> Cause(g, w0, w', S) by {
      if Cause(g, w0, w, S) { CauseStays(g, w0, w, w', S, S); }
    }
    if Failed(w', u) {
      if c :| c in g.depends[u] && c !in g.nocare && Failed(w, c) && w0.released[c] == 0 {
        assert Cause(g, w0, w, S);
      } else {
        assert Barred(g, w0, u);
        ByDoom(g, w0, w', S, u);
      }
    }
    assert Building(w') <= Building(w) + {u};
  }

  /** How 1B settles the status of the target it releases. */
  lemma ReleasedFails(g: Graph, w: World, cmds: seq<Cmd>)
    requires Conserved(g, w) && Clean(w) && w.stack != [] && Top(w.stack).kind.B? && StepB(g, w, cmds).released != w.released
    ensures var u, w' := Top(w.stack).t, StepB(g, w, cmds);
      && u < |w.ts| && (Failed(w', u) <==> g.fate[u] >= BROKEN || exists c :: c in g.depends[u] && c !in g.nocare && Failed(w, c))
      && (w'.ts[u].progress.Running? ==> w'.ts[u].status == EXEC_CMD_OK) && w.released[u] == 0
      && !w.ts[u].progress.Running? && !w.ts[u].progress.Done? && !w'.ts[u].progress.Done?
  {
    hide SumsOf, AskAbove, FitsAt, DepStatus, WfEntry;
    var u := Top(w.stack).t;
    WaitingB(g, w);
    var status := DepStatus(g, w.ts, g.depends[u], w.ts[u].status);
    assert forall c :: c in g.depends[u] ==> c < |w.ts| && WfTarget(g, w.ts[c]);
    assert w.ts[u].status == EXEC_CMD_OK && status <= EXEC_CMD_FAIL;
  }

  lemma JudgedB(g: Graph, w0: World, w: World, cmds: seq<Cmd>, B: set<nat>, S: set<nat>)
    requires Conserved(g, w) && Judged(g, w0, w, B, S) && w.stack != [] && Top(w.stack).kind.B?
    ensures var w' := StepB(g, w, cmds); Judged(g, w0, w', B + Building(w'), S)
  {
    hide SumsOf, AskAbove, FitsAt, WfTarget, DepStatus, Since, Explained, Punished, Clean, Released, Failed;
    var u, w' := Top(w.stack).t, StepB(g, w, cmds);
    assert WfEntry(g, Top(w.stack));
    WaitingB(g, w);
    if w'.released == w.released {
      JudgedNeutral(g, w0, w, w', B, S);
    } else {
      assert Clean(w) by { Cleanly(w0, w, B); }
      ReleasedFails(g, w, cmds);
      JudgedRelease(g, w0, w, w', B, S, u);
    }
  }

  lemma Cleanly(w0: World, w: World, B: set<nat>)
    requires Since(w0, w, B)
    ensures Clean(w)
  {
  }

  /** u is done. */
  lemma JudgedFinish(g: Graph, w0: World, w: World, w': World, B: set<nat>, S: set<nat>, u: nat)
    requires Judged(g, w0, w, B, S) && u < |w.ts| == |w'.ts| == |g.actions| && w'.ts == w.ts[u := w'.ts[u]]
    requires w'.released == w.released && w.released[u] > 0 && !w.ts[u].progress.Done? && w'.ts[u].progress.Done?
    requires |w'.acts| == |w.acts| && forall a :: a in g.actions[u] ==> a < |w.acts|
    requires Failed(w', u) <==> Failed(w, u) || exists a :: a in g.actions[u] && w.acts[a] == EXEC_CMD_FAIL
    requires forall a :: 0 <= a < |w.acts| ==> (w'.acts[a] == EXEC_CMD_FAIL <==> w.acts[a] == EXEC_CMD_FAIL || (a in g.actions[u] && Failed(w', u)))
    ensures Judged(g, w0, w', B + Building(w'), S)
  {
    hide Barred, Cause;
    assert Building(w') <= Building(w) && B + Building(w') == B;
    assert NewIn(w0, w, u);
    assert Cause(g, w0, w, S) ==> Cause(g, w0, w', S) by {
      if Cause(g, w0, w, S) { CauseStays(g, w0, w, w', S, S); }
    }
    if Failed(w', u) && !Failed(w, u) {
      if !Cause(g, w0, w, S) {
        assert Spoiled(g, w0, u);
        ByDoom(g, w0, w', S, u);
      }
    }
  }

  /** How 1C settles the status of the target it finishes, and that of its actions. */
  lemma FinishedFails(g: Graph, w: World)
    requires Conserved(g, w) && w.stack != [] && Top(w.stack).kind.C?
    ensures var u, w' := Top(w.stack).t, Finish(g, w);
      && u < |w.ts| == |g.actions| && |w'.acts| == |w.acts| && (forall a :: a in g.actions[u] ==> a < |w.acts|)
      && (Failed(w', u) <==> Failed(w, u) || exists a :: a in g.actions[u] && w.acts[a] == EXEC_CMD_FAIL)
      && (forall a :: 0 <= a < |w.acts| ==> (w'.acts[a] == EXEC_CMD_FAIL <==> w.acts[a] == EXEC_CMD_FAIL || (a in g.actions[u] && Failed(w', u))))
  {
    hide AskAbove, FitsAt, ActStatus, Distribute, Tell, Tally, Hold, DropWaiter, FirstWaiter;
    var u := Top(w.stack).t;
    assert WfEntry(g, Top(w.stack)) && WfTarget(g, w.ts[u]);
    var status := ActStatus(w.acts, g.actions[u], w.ts[u].status);
    assert status <= EXEC_CMD_FAIL;
  }

  lemma JudgedC(g: Graph, w0: World, w: World, B: set<nat>, S: set<nat>)
    requires Conserved(g, w) && Judged(g, w0, w, B, S) && w.stack != [] && Top(w.stack).kind.C?
    ensures var w' := StepC(g, w); Judged(g, w0, w', B + Building(w'), S)
  {
    hide SumsOf, AskAbove, FitsAt, WfTarget, Since, Explained, Punished, Tell, Distribute, ActStatus, Tally, Failed,
      Hold, DropWaiter, FirstWaiter;
    var u, w' := Top(w.stack).t, StepC(g, w);
    BusyTop(g, w);
    if w.ts[u].cmds != [] && w.ts[u].status == EXEC_CMD_OK {
      JudgedNeutral(g, w0, w, w', B, S);
    } else {
      FinishedFails(g, w);
      JudgedFinish(g, w0, w, w', B, S, u);
    }
  }

  lemma JudgedMore(g: Graph, w0: World, w: World, B: set<nat>, S: set<nat>, S': set<nat>)
    requires Judged(g, w0, w, B, S) && S <= S'
    ensures Judged(g, w0, w, B, S')
  {
    hide Since, Punished;
    if Cause(g, w0, w, S) { CauseStays(g, w0, w, w, S, S'); }
  }

  lemma NextJudged(g: Graph, w0: World, w: World, w': World, B: set<nat>, S: set<nat>, T: set<nat>)
    requires Conserved(g, w) && Judged(g, w0, w, B, S) && Linked(g, w, B, S, T) && Next(g, w, w')
    ensures Judged(g, w0, w', B + Building(w'), S + Failing(g, w, w'))
  {
    hide Conserved, Since, Explained, Punished, Linked, StepA, StepATail, StepB, StepC, StepD, WfTarget, Failing;
    if StepTop(g, w, w') {
      match Top(w.stack).kind
      case A => JudgedA(g, w0, w, B, S);
      case ATail => JudgedATail(g, w0, w, B, S);
      case B =>
        var cmds :| w' == StepB(g, w, cmds);
        JudgedB(g, w0, w, cmds, B, S);
      case C => JudgedC(g, w0, w, B, S);
      case D => JudgedD(g, w0, w, B, S, T);
    } else {
      JudgedNeutral(g, w0, w, w', B, S);
    }
    JudgedMore(g, w0, w', B + Building(w'), S, S + Failing(g, w, w'));
  }

  // ---- what a call deals with ----

  /** root depends on t, directly or not, or is t. */
  ghost predicate Reaches(g: Graph, root: nat, t: nat)
    requires WfGraph(g)
  {
    exists p :: Chain(g, p) && p[0] == root && p[|p| - 1] == t
  }

  lemma ReachMore(g: Graph, root: nat, t: nat, c: nat)
    requires WfGraph(g) && Reaches(g, root, t) && c in g.depends[t]
    ensures Reaches(g, root, c)
  {
    var p :| Chain(g, p) && p[0] == root && p[|p| - 1] == t;
    assert Chain(g, p + [c]);
  }

  /** Only what the root reaches is visited or asked for. */
  ghost predicate OnlyReached(g: Graph, w0: World, w: World, root: nat)
    requires WfGraph(g)
  {
    && (forall t: nat :: t < |w.ts| && t < |w0.ts| && w0.ts[t].progress.Init? && !w.ts[t].progress.Init? ==> Reaches(g, root, t))
    && (forall i :: 0 <= i < |w.stack| && w.stack[i].kind.A? ==> Reaches(g, root, w.stack[i].t))
  }

  lemma ReachedA(g: Graph, w0: World, w: World, root: nat)
    requires Conserved(g, w) && OnlyReached(g, w0, w, root) && w.stack != [] && Top(w.stack).kind.A?
    ensures OnlyReached(g, w0, StepA(g, w), root)
  {
    hide SumsOf, AskAbove, FitsAt, WfTarget, AskFor, Reaches;
    var e, w' := Top(w.stack), StepA(g, w);
    assert WfEntry(g, e) && e == w.stack[|w.stack| - 1];
    AskForHas(g.depends[e.t], e.t);
    forall c | c in g.depends[e.t]
      ensures Reaches(g, root, c)
    {
      ReachMore(g, root, e.t, c);
    }
    var n := |w.stack|;
    forall i | 0 <= i < |w'.stack| && w'.stack[i].kind.A?
      ensures Reaches(g, root, w'.stack[i].t)
    {
      if i >= n { assert w'.stack[i] == AskFor(g.depends[e.t], e.t)[i - n]; }
    }
  }

  lemma NextReached(g: Graph, w0: World, w: World, w': World, root: nat)
    requires Conserved(g, w) && OnlyReached(g, w0, w, root) && Next(g, w, w')
    ensures OnlyReached(g, w0, w', root)
  {
    hide SumsOf, AskAbove, FitsAt, WfTarget, AskFor, Reaches, DepStatus, ActStatus, Distribute, Tell, Conserved;
    Counting(g, w);
    if StepTop(g, w, w') {
      var e := Top(w.stack);
      assert WfEntry(g, e);
      match e.kind
      case A => ReachedA(g, w0, w, root);
      case ATail => TailStarted(g, w);
      case B => WaitingB(g, w);
      case C =>
        BusyTop(g, w);
        TellHas(w.ts[e.t].parents + FirstWaiter(w.sems, g.semaphore[e.t]));
      case D => BusyTop(g, w);
    }
  }

  // ---- whole calls ----

  /** t has not been dealt with before, and the root reaches it. */
  ghost predicate Asked(g: Graph, w: World, root: nat, t: nat)
    requires WfGraph(g)
  {
    t < |w.ts| && w.ts[t].progress.Init? && Reaches(g, root, t)
  }

  ghost predicate AnyFails(g: Graph, w: World, root: nat, w': World)
    requires WfGraph(g)
  {
    exists t: nat :: Asked(g, w, root, t) && Failed(w', t)
  }

  ghost predicate AnyDoomed(g: Graph, w: World, root: nat)
    requires WfGraph(g)
  {
    exists t: nat :: Asked(g, w, root, t) && Doomed(g, w, t)
  }

  lemma BeginJudged(g: Graph, w: World, root: nat)
    requires Quiet(g, w) && Clean(w) && root < |w.ts|
    ensures var w0 := Begin(w, root); Judged(g, w0, w0, {}, {}) && Building(w0) == {} && WfGraph(g) && OnlyReached(g, w0, w0, root)
  {
    hide Sound;
    var w0 := Begin(w, root);
    Typed(g, w);
    QuietIsDone(g, w);
    BeginBooked(g, w, root);
    assert Chain(g, [root]);
    forall t: nat | t < |w.ts| && w.released[t] > 0
      ensures w.ts[t].progress.Done?
    {
      if w.ts[t].progress.Init? { Untouched(g, w, t); }
    }
  }

  lemma {:induction false} RunJudged(g: Graph, w: World, root: nat, ws: seq<World>)
    requires Quiet(g, w) && Clean(w) && root < |w.ts| && IsRun(g, ws) && ws[0] == Begin(w, root)
    ensures WfGraph(g)
    ensures Judged(g, Begin(w, root), ws[|ws| - 1], BuiltIn(ws), FailedIn(g, ws)) && OnlyReached(g, Begin(w, root), ws[|ws| - 1], root)
    decreases |ws|
  {
    hide Sound, Next, Building, Quiet, Judged, OnlyReached, Clean, Booked, Linked, Failing;
    BeginJudged(g, w, root);
    if |ws| == 1 {
      assert ws[..0] == [] && BuiltIn(ws) == {};
    } else {
      var rest, w1, w2 := ws[..|ws| - 1], ws[|ws| - 2], ws[|ws| - 1];
      RunRest(g, ws);
      RunJudged(g, w, root, rest);
      RunBooked(g, w, root, rest);
      Counted(g, w1);
      RunLinked(g, w, root, rest);
      NextJudged(g, Begin(w, root), w1, w2, BuiltIn(rest), FailedIn(g, rest), TaintedIn(g, rest));
      NextReached(g, Begin(w, root), w1, w2, root);
    }
  }

  /** A call of make1 deals with exactly what the root reaches and no earlier call has. */
  lemma DealtWith(g: Graph, w: World, root: nat, ws: seq<World>, t: nat)
    requires Quiet(g, w) && Clean(w) && root < |w.ts| && IsRun(g, ws) && ws[0] == Begin(w, root)
    requires Quiet(g, ws[|ws| - 1]) && t < |w.ts| && w.ts[t].progress.Init?
    ensures WfGraph(g) && t < |ws[|ws| - 1].ts|
    ensures ws[|ws| - 1].ts[t].progress.Done? <==> Reaches(g, root, t)
  {
    hide Sound, Next, Clean, Explained, Punished, BuiltIn, FailedIn, Building;
    RunJudged(g, w, root, ws);
    if Reaches(g, root, t) {
      var p :| Chain(g, p) && p[0] == root && p[|p| - 1] == t;
      NoDeadlock(g, w, root, ws, p);
    }
  }

  lemma SameDoom(g: Graph, w: World, root: nat, t: nat)
    ensures Doomed(g, Begin(w, root), t) <==> Doomed(g, w, t)
  {
    var w0 := Begin(w, root);
    assert forall c :: Failed(w0, c) <==> Failed(w, c);
  }

  lemma NewMeans(g: Graph, w: World, root: nat, ws: seq<World>, t: nat)
    requires Quiet(g, w) && Clean(w) && root < |w.ts| && IsRun(g, ws) && ws[0] == Begin(w, root)
    requires Quiet(g, ws[|ws| - 1]) && t < |w.ts|
    ensures WfGraph(g) && |ws[|ws| - 1].ts| == |w.ts| == |w.released|
    ensures NewIn(Begin(w, root), ws[|ws| - 1], t) <==> Asked(g, w, root, t)
    ensures Asked(g, w, root, t) ==> ws[|ws| - 1].ts[t].progress.Done?
  {
    hide Sound, Next, Clean, Explained, Punished, BuiltIn, FailedIn, Building, OnlyReached, Reaches;
    var end := ws[|ws| - 1];
    RunJudged(g, w, root, ws);
    QuietIsDone(g, w);
    QuietIsDone(g, end);
    Typed(g, w);
    if w.ts[t].progress.Init? {
      Untouched(g, w, t);
      DealtWith(g, w, root, ws, t);
      if end.ts[t].progress.Init? { Untouched(g, end, t); }
    }
  }

  /** When a call has come to rest, one of the targets that it dealt with has failed if and only
      if a command has ended in the call so that it counts as a failure, or one of them was doomed
      from the start. The graph may have cycles. */
  lemma FailsWhen(g: Graph, w: World, root: nat, ws: seq<World>)
    requires Quiet(g, w) && Clean(w) && root < |w.ts| && IsRun(g, ws) && ws[0] == Begin(w, root)
    requires Quiet(g, ws[|ws| - 1])
    ensures WfGraph(g) && Clean(ws[|ws| - 1])
    ensures AnyFails(g, w, root, ws[|ws| - 1]) <==> FailedIn(g, ws) != {} || AnyDoomed(g, w, root)
  {
    hide Sound, Next, BuiltIn, FailedIn, TaintedIn, Building, Reaches, Barred, Spoiled;
    RunJudged(g, w, root, ws);
    var w0, end, S := Begin(w, root), ws[|ws| - 1], FailedIn(g, ws);
    forall t: nat
      ensures NewIn(w0, end, t) <==> Asked(g, w, root, t)
      ensures NewIn(w0, end, t) ==> t < |end.ts| && end.ts[t].progress.Done?
      ensures Doomed(g, w0, t) <==> Doomed(g, w, t)
    {
      SameDoom(g, w, root, t);
      if t < |w.ts| { NewMeans(g, w, root, ws, t); }
    }
    if t :| t in S {
      BuiltFails(g, w, root, ws, t);
      assert Asked(g, w, root, t) && Failed(end, t);
    }
  }

  /** What the result of make1, which tells whether a target it built has failed, says about the
      commands: it is a failure if one of them failed, and, unless a target was doomed from the
      start, only then. */
  lemma ResultMeans(g: Graph, w: World, root: nat, ws: seq<World>)
    requires Quiet(g, w) && root < |w.ts| && IsRun(g, ws) && ws[0] == Begin(w, root) && Quiet(g, ws[|ws| - 1])
    ensures WfGraph(g)
    ensures FailedIn(g, ws) != {} ==> AnyFailed(ws)
    ensures Clean(w) && !AnyDoomed(g, w, root) ==> (AnyFailed(ws) <==> FailedIn(g, ws) != {})
    ensures Clean(w) ==> (AnyFails(g, w, root, ws[|ws| - 1]) <==> AnyFailed(ws) || AnyDoomed(g, w, root))
  {
    hide Sound, Next, BuiltIn, FailedIn, TaintedIn, Building, Reaches, Doomed, Quiet, Clean, AnyDoomed, Judged, OnlyReached, NewIn;
    assert WfGraph(g) by { BeginsTyped(g, w); }
    if t :| t in FailedIn(g, ws) {
      BuiltFails(g, w, root, ws, t);
    }
    if Clean(w) {
      FailsWhen(g, w, root, ws);
      if AnyFailed(ws) {
        var t :| t in BuiltIn(ws) && t < |ws[|ws| - 1].ts| && ws[|ws| - 1].ts[t].status == EXEC_CMD_FAIL;
        BuiltAsked(g, w, root, ws, t);
        assert Asked(g, w, root, t) && Failed(ws[|ws| - 1], t);
      }
    }
  }

  lemma BeginsTyped(g: Graph, w: World)
    requires Quiet(g, w)
    ensures WfGraph(g)
  {
    hide Sound;
    Typed(g, w);
  }

  lemma BuiltAsked(g: Graph, w: World, root: nat, ws: seq<World>, t: nat)
    requires Quiet(g, w) && Clean(w) && root < |w.ts| && IsRun(g, ws) && ws[0] == Begin(w, root)
    requires Quiet(g, ws[|ws| - 1]) && t in BuiltIn(ws)
    ensures WfGraph(g) && Asked(g, w, root, t)
  {
    hide Sound, Next, Clean, Explained, Punished, BuiltIn, FailedIn, Building, OnlyReached, Reaches;
    RunJudged(g, w, root, ws);
    assert NewIn(Begin(w, root), ws[|ws| - 1], t);
    NewMeans(g, w, root, ws, t);
  }

  // ---- what is skipped ----

  /** t has actions, and is released from w to w' while a dependency that it cares about has failed. */
  ghost predicate Skips(g: Graph, w: World, w': World, t: nat) {
    && t < |w.released| && t < |w'.released| && w.released[t] < w'.released[t]
    && t < |g.actions| && g.actions[t] != [] && t < |g.depends|
    && exists c :: c in g.depends[t] && c !in g.nocare && Failed(w, c)
  }

  ghost function Skipping(g: Graph, w: World, w': World): set<nat> {
    set t: nat | t < |w.released| && Skips(g, w, w', t)
  }

  /** The targets that are skipped in a run. */
  ghost function SkippedIn(g: Graph, ws: seq<World>): set<nat> {
    if |ws| <= 1 then {} else SkippedIn(g, ws[..|ws| - 1]) + Skipping(g, ws[|ws| - 2], ws[|ws| - 1])
  }

  /** counts.skipped tells how many targets of K there are, all of them released. */
  ghost predicate Skipped(w: World, K: set<nat>) {
    w.counts.skipped == |K| && forall t :: t in K ==> t < |w.released| && w.released[t] > 0
  }

  lemma SkipCounts(g: Graph, w: World, cmds: seq<Cmd>)
    requires Conserved(g, w) && Clean(w) && w.stack != [] && Top(w.stack).kind.B?
    ensures var u, w' := Top(w.stack).t, StepB(g, w, cmds);
      if w'.released == w.released then w'.counts.skipped == w.counts.skipped
      else
        && u < |w.released| && w.released[u] == 0 && w'.released == w.released[u := 1]
        && w'.counts.skipped == w.counts.skipped + if Skips(g, w, w', u) then 1 else 0
  {
    hide SumsOf, AskAbove, FitsAt, DepStatus, WfEntry;
    var u, w' := Top(w.stack).t, StepB(g, w, cmds);
    WaitingB(g, w);
    if w'.released != w.released {
      var status := DepStatus(g, w.ts, g.depends[u], w.ts[u].status);
      assert forall c :: c in g.depends[u] ==> c < |w.ts| && WfTarget(g, w.ts[c]);
      assert status == EXEC_CMD_FAIL <==> exists c :: c in g.depends[u] && c !in g.nocare && Failed(w, c);
    }
  }

  lemma SkippedOne(g: Graph, w: World, w': World, K: set<nat>, u: nat)
    requires Skipped(w, K) && u < |w.released| && w.released[u] == 0 && w'.released == w.released[u := 1]
    requires w'.counts.skipped == w.counts.skipped + if Skips(g, w, w', u) then 1 else 0
    ensures Skipped(w', K + Skipping(g, w, w'))
  {
    hide Failed;
    var now := if Skips(g, w, w', u) then {u} else {};
    assert forall t :: Skips(g, w, w', t) ==> t == u;
    assert Skipping(g, w, w') == now && u !in K;
    assert |K + now| == |K| + |now|;
  }

  lemma SkippedB(g: Graph, w: World, cmds: seq<Cmd>, K: set<nat>)
    requires Conserved(g, w) && Clean(w) && Skipped(w, K) && w.stack != [] && Top(w.stack).kind.B?
    ensures var w' := StepB(g, w, cmds); Skipped(w', K + Skipping(g, w, w'))
  {
    hide Conserved, Clean, StepB, Skipped, Skipping, Skips;
    Counting(g, w);
    var u, w' := Top(w.stack).t, StepB(g, w, cmds);
    SkipCounts(g, w, cmds);
    if w'.released == w.released {
      SkippedSame(g, w, w', K);
    } else {
      SkippedOne(g, w, w', K, u);
    }
  }

  lemma SkippedSame(g: Graph, w: World, w': World, K: set<nat>)
    requires Skipped(w, K) && w'.released == w.released && w'.counts.skipped == w.counts.skipped
    ensures Skipped(w', K + Skipping(g, w, w'))
  {
    assert K + Skipping(g, w, w') == K;
  }

  lemma NextSkipped(g: Graph, w: World, w': World, K: set<nat>)
    requires Conserved(g, w) && Clean(w) && Skipped(w, K) && Next(g, w, w')
    ensures Skipped(w', K + Skipping(g, w, w'))
  {
    hide Skipped, Skipping, StepB, SumsOf, AskAbove, FitsAt, WfTarget, AskFor, Tell, Distribute, ActStatus, Hold, DropWaiter, FirstWaiter, Clean, Conserved;
    Counting(g, w);
    if StepTop(g, w, w') && Top(w.stack).kind.B? {
      var cmds :| w' == StepB(g, w, cmds);
      SkippedB(g, w, cmds, K);
    } else {
      SkippedSame(g, w, w', K);
    }
  }

  /** skipped is the number of targets with actions that have been passed over in a call for a
      failed dependency. */
  lemma {:induction false} SkippedMeans(g: Graph, w: World, root: nat, ws: seq<World>)
    requires Quiet(g, w) && Clean(w) && root < |w.ts| && IsRun(g, ws) && ws[0] == Begin(w, root)
    ensures Skipped(ws[|ws| - 1], SkippedIn(g, ws))
    decreases |ws|
  {
    hide Sound, Next, Building, Quiet, Judged, OnlyReached, Clean, Booked, Skipping;
    if |ws| > 1 {
      var rest, w1, w2 := ws[..|ws| - 1], ws[|ws| - 2], ws[|ws| - 1];
      RunRest(g, ws);
      SkippedMeans(g, w, root, rest);
      RunJudged(g, w, root, rest);
      RunBooked(g, w, root, rest);
      Counted(g, w1);
      assert Clean(w1) by { JudgedClean(g, Begin(w, root), w1, BuiltIn(rest), FailedIn(g, rest)); }
      NextSkipped(g, w1, w2, SkippedIn(g, rest));
    }
  }

  lemma JudgedClean(g: Graph, w0: World, w: World, B: set<nat>, S: set<nat>)
    requires Judged(g, w0, w, B, S)
    ensures Clean(w)
  {
    hide Explained, Punished;
  }

  // ---- an action that failed in an earlier call ----

  /** Two targets with one action, of which only the first is to be built. */
  const SHARED: Graph := Graph([[], []], [UPDATE, STABLE], {}, {}, [[0], [0]], [NONE, NONE], 0, 1, false)

  /** After a call for the first, whose commands failed. */
  const AFTER: World := World([], [Target(Done, 0, EXEC_CMD_FAIL, [], []), Target(Init, 0, EXEC_CMD_OK, [], [])], [], {},
                              [EXEC_CMD_FAIL], Counts(1, 0, 1, 0), [0, 0], 1, [1, 0])

  lemma AfterConserved()
    ensures Conserved(SHARED, AFTER)
  {
    hide Owed, Queued;
    forall t: nat
      ensures SumsOf(AFTER, t) == Sums(0, 0, 0, 0, 0, 0, 0)
    {
      NothingOwed(AFTER.ts, t);
      NothingQueued(AFTER.sems, t);
    }
  }

  lemma AfterQuiet()
    ensures Quiet(SHARED, AFTER) && Clean(AFTER)
  {
    hide FitsAt, AskAbove, WfTarget, WfEntry;
    AfterConserved();
    NoRunners(AFTER.ts);
  }

  /** However a call for the second goes, it ends as a failure, and nothing has been run for it. */
  lemma SharedFails(ws: seq<World>)
    requires IsRun(SHARED, ws) && ws[0] == Begin(AFTER, 1) && Quiet(SHARED, ws[|ws| - 1])
    ensures WfGraph(SHARED) && AnyFails(SHARED, AFTER, 1, ws[|ws| - 1]) && !AnyFailed(ws)
  {
    hide Quiet, Sound, Next, BuiltIn, FailedIn, Explained, Punished;
    AfterQuiet();
    FailsWhen(SHARED, AFTER, 1, ws);
    FailedMeans(SHARED, AFTER, 1, ws);
    RunJudged(SHARED, AFTER, 1, ws);
    assert Chain(SHARED, [1]);
    assert Reaches(SHARED, 1, 1);
    assert 0 in SHARED.actions[1];
    assert Spoiled(SHARED, AFTER, 1);
    assert Asked(SHARED, AFTER, 1, 1);
    assert AnyDoomed(SHARED, AFTER, 1);
  }
}
