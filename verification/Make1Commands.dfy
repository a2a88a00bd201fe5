/** How the commands of a target end, and what that makes of its status. */
module Make1Commands {
  import opened Make1State
  import opened Make1Counters
  import opened Make1Steps
  import opened Make1Waits
  import opened Make1Runs
  import opened Make1Failures

  /** Whoever has a command running or just finished has had no failure yet. */
  ghost predicate Alive(w: World) {
    forall t: nat :: t < |w.ts| && (Count(w.stack, t, Ends) > 0 || t in w.running) ==> w.ts[t].status == EXEC_CMD_OK
  }

  lemma AliveAt(w: World, t: nat)
    requires Alive(w) && t < |w.ts| && (Count(w.stack, t, Ends) > 0 || t in w.running)
    ensures w.ts[t].status == EXEC_CMD_OK
  {
  }

  // ---- commands in progress have not failed ----

  lemma AliveA(g: Graph, w: World)
    requires Conserved(g, w) && Alive(w) && w.stack != [] && Top(w.stack).kind.A?
    ensures Alive(StepA(g, w))
  {
    hide SumsOf, AskAbove, FitsAt, WfTarget, AskFor, Count;
    assert WfEntry(g, Top(w.stack));
    AskingA(g, w);
    var w' := StepA(g, w);
    forall t: nat | t < |w'.ts| && (Count(w'.stack, t, Ends) > 0 || t in w'.running)
      ensures w'.ts[t].status == EXEC_CMD_OK
    {
      StackA(g, w, t, Ends);
    }
  }

  /** One entry for another, and statuses change only for the target on top. */
  lemma AliveTurn(w: World, w': World, e: Entry)
    requires Alive(w) && w.stack != [] && |w'.ts| == |w.ts| && w'.running <= w.running
    requires w'.stack == Rest(w.stack) || w'.stack == Rest(w.stack) + [e]
    requires forall t :: 0 <= t < |w.ts| && t != Top(w.stack).t ==> w'.ts[t].status == w.ts[t].status
    requires var u := Top(w.stack).t; u < |w.ts| ==> w'.ts[u].status == w.ts[u].status || (u !in w'.running && Count(w'.stack, u, Ends) == 0)
    requires e.t == Top(w.stack).t && (e.kind.D? ==> e.t < |w.ts| && w'.ts[e.t].status == EXEC_CMD_OK)
    ensures Alive(w')
  {
    hide Count;
    forall t: nat | t < |w'.ts| && (Count(w'.stack, t, Ends) > 0 || t in w'.running)
      ensures w'.ts[t].status == EXEC_CMD_OK
    {
      StackTurn(w.stack, e, t, Ends);
      StackPop(w.stack, t, Ends);
    }
  }

  lemma AliveATail(g: Graph, w: World)
    requires Conserved(g, w) && Alive(w) && w.stack != [] && Top(w.stack).kind.ATail?
    ensures Alive(StepATail(g, w))
  {
    hide FitsAt, AskAbove, WfTarget, Alive;
    assert WfEntry(g, Top(w.stack));
    AliveTurn(w, StepATail(g, w), Top(w.stack).(kind := B));
  }

  /** The target of a 1B entry has no commands going. */
  lemma NoEndsB(g: Graph, w: World)
    requires Conserved(g, w) && w.stack != [] && Top(w.stack).kind.B?
    ensures var u := Top(w.stack).t; Count(w.stack, u, Ends) == 0 && u !in w.running
  {
    hide Count, Owed, Queued, AskAbove, FitsAt, WfTarget;
    WaitingB(g, w);
    EndsAreHolds(w.stack, Top(w.stack).t);
  }

  lemma AliveB(g: Graph, w: World, cmds: seq<Cmd>)
    requires Conserved(g, w) && Alive(w) && w.stack != [] && Top(w.stack).kind.B?
    ensures Alive(StepB(g, w, cmds))
  {
    hide FitsAt, AskAbove, WfTarget, Alive, Count, DepStatus;
    var e := Top(w.stack);
    assert WfEntry(g, e);
    NoEndsB(g, w);
    StackTurn(w.stack, e.(kind := C), e.t, Ends);
    AliveTurn(w, StepB(g, w, cmds), e.(kind := C));
  }

  lemma AliveD(g: Graph, w: World)
    requires Conserved(g, w) && Alive(w) && w.stack != [] && Top(w.stack).kind.D? && w.ts[Top(w.stack).t].cmds != []
    ensures Alive(StepD(g, w))
  {
    hide FitsAt, AskAbove, WfTarget, Alive, Count, Owed, Queued;
    var e := Top(w.stack);
    BusyTop(g, w);
    EndsAreHolds(w.stack, e.t);
    StackTurn(w.stack, e.(kind := C), e.t, Ends);
    AliveTurn(w, StepD(g, w), e.(kind := C));
  }

  lemma AliveC(g: Graph, w: World)
    requires Conserved(g, w) && Alive(w) && w.stack != [] && Top(w.stack).kind.C?
    ensures Alive(StepC(g, w))
  {
    hide FitsAt, AskAbove, WfTarget, Count, Owed, Queued, Tell, ActStatus, Distribute, Tally, DropWaiter, Hold, FirstWaiter;
    var e, w' := Top(w.stack), StepC(g, w);
    BusyTop(g, w);
    forall t: nat | t < |w'.ts| && (Count(w'.stack, t, Ends) > 0 || t in w'.running)
      ensures w'.ts[t].status == EXEC_CMD_OK
    {
      StackTurn(w.stack, e.(kind := D, status := EXEC_CMD_OK), t, Ends);
      StackPop(w.stack, t, Ends);
      StackFinish(w.stack, w.ts[e.t].parents + FirstWaiter(w.sems, g.semaphore[e.t]), t, Ends);
    }
  }

  lemma AliveClosure(g: Graph, w: World, u: nat, status: nat)
    requires WfWorld(g, w) && Alive(w) && Finishes(w, u, status)
    ensures Alive(Closure(w, u, status))
  {
    hide Count, WfTarget, WfEntry;
    var w' := Closure(w, u, status);
    forall t: nat | t < |w'.ts| && (Count(w'.stack, t, Ends) > 0 || t in w'.running)
      ensures w'.ts[t].status == EXEC_CMD_OK
    {
      CountPush(w.stack, Entry(D, u, NONE, status), t, Ends);
    }
  }

  // ---- commands that fail ----

  /** A command of t ends with this status from w to w': it was running, or, with noexec, is
      passed over. */
  ghost predicate CommandEnds(g: Graph, w: World, w': World, t: nat, status: nat) {
    || (Finishes(w, t, status) && w' == Closure(w, t, status))
    || (g.noexec && status == EXEC_CMD_OK && PassedOver(w, w', t))
  }

  ghost predicate PassedOver(w: World, w': World, t: nat) {
    && w.stack != [] && Top(w.stack).kind.C? && Top(w.stack).t == t < |w.ts|
    && w.ts[t].cmds != [] && w.ts[t].status == EXEC_CMD_OK
    && w' == w.(stack := Rest(w.stack) + [Top(w.stack).(kind := D, status := EXEC_CMD_OK)])
  }

  /** FAIL_EXPECTED turns failure and success round, and IGNORE forgives both. */
  predicate CountsAsFailure(g: Graph, t: nat, cmd: Cmd, status: nat) {
    !cmd.ignore && status == if t in g.failExpected then EXEC_CMD_OK else EXEC_CMD_FAIL
  }

  /** A command of t ends from w to w' and counts as a failure. */
  ghost predicate CommandFails(g: Graph, w: World, w': World, t: nat) {
    && t < |w.ts| && w.ts[t].cmds != []
    && exists status :: CommandEnds(g, w, w', t, status) && CountsAsFailure(g, t, w.ts[t].cmds[0], status)
  }

  /** t becomes done from w to w' while one of its actions has failed. */
  ghost predicate Tainted(g: Graph, w: World, w': World, t: nat) {
    && t < |w.ts| && t < |w'.ts| && t < |g.actions| && !w.ts[t].progress.Done? && w'.ts[t].progress.Done?
    && exists a :: a in g.actions[t] && a < |w.acts| && w.acts[a] == EXEC_CMD_FAIL
  }

  /** The targets with a command that has failed in a run. */
  ghost function FailedIn(g: Graph, ws: seq<World>): set<nat> {
    if |ws| <= 1 then {}
    else
      var w, w' := ws[|ws| - 2], ws[|ws| - 1];
      FailedIn(g, ws[..|ws| - 1]) + Failing(g, w, w')
  }

  ghost function TaintedIn(g: Graph, ws: seq<World>): set<nat> {
    if |ws| <= 1 then {}
    else
      var w, w' := ws[|ws| - 2], ws[|ws| - 1];
      TaintedIn(g, ws[..|ws| - 1]) + Tainting(g, w, w')
  }

  /** S are those of B with a command that has failed, T the targets done with a failed action;
      the statuses of B, the targets built, agree with that. */
  ghost predicate Linked(g: Graph, w: World, B: set<nat>, S: set<nat>, T: set<nat>) {
    && S <= B && Building(w) <= B
    && (forall i :: 0 <= i < |w.stack| && w.stack[i].kind.D? ==> EndAgrees(g, w, S, w.stack[i]))
    && (forall t: nat :: t < |w.ts| ==> StatusAgrees(w, B, S, T, t))
    && (forall t: nat :: t in B ==> t < |w.ts| && (w.ts[t].progress.Running? || w.ts[t].progress.Done?))
    && (forall t: nat :: t in T ==> t < |w.ts| && w.ts[t].progress.Done?)
  }

  predicate EndAgrees(g: Graph, w: World, S: set<nat>, e: Entry) {
    && e.t < |w.ts| && w.ts[e.t].cmds != []
    && (e.t in S <==> CountsAsFailure(g, e.t, w.ts[e.t].cmds[0], e.status))
  }

  predicate StatusAgrees(w: World, B: set<nat>, S: set<nat>, T: set<nat>, t: nat)
    requires t < |w.ts|
  {
    && (w.ts[t].progress.Running? && Count(w.stack, t, Ends) == 0 ==> (t in S <==> w.ts[t].status == EXEC_CMD_FAIL))
    && (w.ts[t].progress.Done? && t in B ==> (w.ts[t].status == EXEC_CMD_FAIL <==> t in S || t in T))
  }

  /** What ends from w to w'. */
  ghost function Failing(g: Graph, w: World, w': World): set<nat> {
    set t: nat | t < |w.ts| && CommandFails(g, w, w', t)
  }

  ghost function Tainting(g: Graph, w: World, w': World): set<nat> {
    set t: nat | t < |w.ts| && Tainted(g, w, w', t)
  }

  lemma NoneFails(g: Graph, w: World, w': World)
    requires w.running <= w'.running && forall t :: !PassedOver(w, w', t)
    ensures Failing(g, w, w') == {}
  {
  }

  lemma NoneTainted(g: Graph, w: World, w': World)
    requires |w'.ts| == |w.ts| && forall t :: 0 <= t < |w.ts| ==> w'.ts[t].progress.Done? == w.ts[t].progress.Done?
    ensures Tainting(g, w, w') == {}
  {
  }

  /** A step that ends no command and is no end of a target. */
  lemma LinkedKept(g: Graph, w: World, w': World, B: set<nat>, S: set<nat>, T: set<nat>)
    requires Linked(g, w, B, S, T) && |w'.ts| == |w.ts| && forall t: nat :: t < |w.ts| ==> Count(w'.stack, t, Ends) == Count(w.stack, t, Ends)
    requires forall i :: 0 <= i < |w'.stack| && w'.stack[i].kind.D? ==> i < |w.stack| && w'.stack[i] == w.stack[i]
    requires forall t :: 0 <= t < |w.ts| ==>
      && w'.ts[t].status == w.ts[t].status && w'.ts[t].cmds == w.ts[t].cmds
      && w'.ts[t].progress.Done? == w.ts[t].progress.Done? && w'.ts[t].progress.Running? == w.ts[t].progress.Running?
    ensures Linked(g, w', B + Building(w'), S, T)
  {
    hide Count;
    assert Building(w') == Building(w) && B + Building(w') == B;
    forall i | 0 <= i < |w'.stack| && w'.stack[i].kind.D?
      ensures EndAgrees(g, w', S, w'.stack[i])
    {
      assert EndAgrees(g, w, S, w.stack[i]);
    }
    forall t: nat | t < |w'.ts|
      ensures StatusAgrees(w', B, S, T, t)
    {
      assert StatusAgrees(w, B, S, T, t);
    }
  }

  lemma LinkedA(g: Graph, w: World, B: set<nat>, S: set<nat>, T: set<nat>)
    requires Conserved(g, w) && Linked(g, w, B, S, T) && w.stack != [] && Top(w.stack).kind.A?
    ensures var w' := StepA(g, w); Linked(g, w', B + Building(w'), S, T) && Failing(g, w, w') == {} && Tainting(g, w, w') == {}
  {
    hide SumsOf, AskAbove, FitsAt, WfTarget, AskFor, Count, Linked, Building;
    var e, w' := Top(w.stack), StepA(g, w);
    assert WfEntry(g, e);
    AskingA(g, w);
    AskForHas(g.depends[e.t], e.t);
    forall t: nat | t < |w.ts|
      ensures Count(w'.stack, t, Ends) == Count(w.stack, t, Ends)
    {
      StackA(g, w, t, Ends);
    }
    var n := |w.stack|;
    assert forall i :: n <= i < |w'.stack| ==> w'.stack[i] == AskFor(g.depends[e.t], e.t)[i - n];
    LinkedKept(g, w, w', B, S, T);
    NoneFails(g, w, w');
    NoneTainted(g, w, w');
  }

  lemma LinkedATail(g: Graph, w: World, B: set<nat>, S: set<nat>, T: set<nat>)
    requires Conserved(g, w) && Linked(g, w, B, S, T) && w.stack != [] && Top(w.stack).kind.ATail?
    ensures var w' := StepATail(g, w); Linked(g, w', B + Building(w'), S, T) && Failing(g, w, w') == {} && Tainting(g, w, w') == {}
  {
    hide SumsOf, AskAbove, FitsAt, WfTarget, Count, Linked, Building;
    var e, w' := Top(w.stack), StepATail(g, w);
    assert WfEntry(g, e);
    TailStarted(g, w);
    forall t: nat | t < |w.ts|
      ensures Count(w'.stack, t, Ends) == Count(w.stack, t, Ends)
    {
      StackTurn(w.stack, e.(kind := Kind.B), t, Ends);
    }
    LinkedKept(g, w, w', B, S, T);
    NoneFails(g, w, w');
    NoneTainted(g, w, w');
  }

  /** Whoever has no 1D entry is not named by one. */
  lemma NotNamed(st: seq<Entry>, t: nat, i: nat)
    requires Count(st, t, Ends) == 0 && i < |st| && st[i].kind.D?
    ensures st[i].t != t
  {
    CountsOne(st, t, Ends, i);
  }

  /** The top entry, of u, is no 1D one, gives way to another such one, and u's target changes;
      no command ends. */
  lemma LinkedChange(g: Graph, w: World, w': World, B: set<nat>, S: set<nat>, T: set<nat>, T': set<nat>, u: nat)
    requires Linked(g, w, B, S, T) && u < |w.ts| == |w'.ts| && w'.ts == w.ts[u := w'.ts[u]] && Count(w.stack, u, Ends) == 0
    requires forall t: nat :: t < |w.ts| ==> Count(w'.stack, t, Ends) == Count(w.stack, t, Ends)
    requires forall i :: 0 <= i < |w'.stack| && w'.stack[i].kind.D? ==> i < |w.stack| && w'.stack[i] == w.stack[i]
    requires u in B + Building(w') ==> w'.ts[u].progress.Running? || w'.ts[u].progress.Done?
    requires T <= T' <= T + {u} && (u in T' ==> w'.ts[u].progress.Done?)
    requires StatusAgrees(w', B + Building(w'), S, T', u)
    ensures Linked(g, w', B + Building(w'), S, T')
  {
    hide Count, CountsAsFailure;
    var B' := B + Building(w');
    assert Building(w') <= Building(w) + {u};
    forall i | 0 <= i < |w'.stack| && w'.stack[i].kind.D?
      ensures EndAgrees(g, w', S, w'.stack[i])
    {
      assert EndAgrees(g, w, S, w.stack[i]);
      NotNamed(w.stack, u, i);
    }
    forall t: nat | t < |w'.ts|
      ensures StatusAgrees(w', B', S, T', t)
    {
      if t != u { assert StatusAgrees(w, B, S, T, t); }
    }
  }

  lemma LinkedB(g: Graph, w: World, cmds: seq<Cmd>, B: set<nat>, S: set<nat>, T: set<nat>)
    requires Conserved(g, w) && Linked(g, w, B, S, T) && w.stack != [] && Top(w.stack).kind.B?
    ensures var w' := StepB(g, w, cmds); Linked(g, w', B + Building(w'), S, T) && Failing(g, w, w') == {} && Tainting(g, w, w') == {}
  {
    hide SumsOf, AskAbove, FitsAt, WfTarget, DepStatus, Count, EndAgrees, WfEntry;
    var e, w' := Top(w.stack), StepB(g, w, cmds);
    var u := e.t;
    assert WfEntry(g, e);
    WaitingB(g, w);
    NoEndsB(g, w);
    assert u !in B && u !in T && !w'.ts[u].progress.Done?;
    assert w'.ts[u].progress.Running? ==> w'.ts[u].status == EXEC_CMD_OK;
    forall t: nat | t < |w.ts|
      ensures Count(w'.stack, t, Ends) == Count(w.stack, t, Ends)
    {
      StackTurn(w.stack, e.(kind := C), t, Ends);
      StackPop(w.stack, t, Ends);
    }
    LinkedChange(g, w, w', B, S, T, T, u);
    NoneFails(g, w, w');
    NoneTainted(g, w, w');
  }

  lemma LinkedFinish(g: Graph, w: World, B: set<nat>, S: set<nat>, T: set<nat>)
    requires Conserved(g, w) && Linked(g, w, B, S, T) && w.stack != [] && Top(w.stack).kind.C?
    requires var x := w.ts[Top(w.stack).t]; x.cmds == [] || x.status != EXEC_CMD_OK
    ensures var w' := Finish(g, w);
      Linked(g, w', B + Building(w'), S, T + Tainting(g, w, w')) && Failing(g, w, w') == {}
  {
    hide AskAbove, FitsAt, WfTarget, Count, Owed, Queued, EndAgrees, WfEntry, Tell, ActStatus, Distribute, Tally, Hold, DropWaiter, FirstWaiter;
    var e, w' := Top(w.stack), Finish(g, w);
    var u := e.t;
    assert WfEntry(g, e);
    BusyTop(g, w);
    FinishTaints(g, w);
    var told := w.ts[u].parents + FirstWaiter(w.sems, g.semaphore[u]);
    TellHas(told);
    forall t: nat | t < |w.ts|
      ensures Count(w'.stack, t, Ends) == Count(w.stack, t, Ends)
    {
      StackFinish(w.stack, told, t, Ends);
    }
    assert StatusAgrees(w, B, S, T, u);
    LinkedChange(g, w, w', B, S, T, T + Tainting(g, w, w'), u);
    NoneFails(g, w, w');
  }

  /** How 1C settles the status of the target it finishes. */
  lemma FinishTaints(g: Graph, w: World)
    requires Conserved(g, w) && w.stack != [] && Top(w.stack).kind.C?
    ensures var u, w' := Top(w.stack).t, Finish(g, w);
      && u < |w.ts| && Tainting(g, w, w') <= {u}
      && (w'.ts[u].status == EXEC_CMD_FAIL <==> w.ts[u].status == EXEC_CMD_FAIL || u in Tainting(g, w, w'))
  {
    hide AskAbove, FitsAt, ActStatus, Distribute, Tell, Tally, Hold, DropWaiter, FirstWaiter;
    var u := Top(w.stack).t;
    BusyTop(g, w);
    assert WfEntry(g, Top(w.stack)) && WfTarget(g, w.ts[u]);
    var status := ActStatus(w.acts, g.actions[u], w.ts[u].status);
    assert status <= EXEC_CMD_FAIL;
  }

  /** A command of u, which had not failed, ends with this status: a 1D entry on top. */
  lemma LinkedEnds(g: Graph, w: World, w': World, B: set<nat>, S: set<nat>, T: set<nat>, e: Entry)
    requires Linked(g, w, B, S, T) && w'.ts == w.ts && Count(w.stack, e.t, Ends) == 0
    requires e.kind.D? && e.t < |w.ts| && w.ts[e.t].progress.Running? && w.ts[e.t].cmds != [] && w.ts[e.t].status == EXEC_CMD_OK
    requires w'.stack == w.stack + [e] || (w.stack != [] && !Top(w.stack).kind.D? && w'.stack == Rest(w.stack) + [e])
    ensures Linked(g, w', B + Building(w'), S + (if CountsAsFailure(g, e.t, w.ts[e.t].cmds[0], e.status) then {e.t} else {}), T)
  {
    hide Count, CountsAsFailure;
    var u := e.t;
    assert Building(w') == Building(w) && B + Building(w') == B && u in Building(w);
    assert StatusAgrees(w, B, S, T, u) && u !in S;
    var S' := S + (if CountsAsFailure(g, u, w.ts[u].cmds[0], e.status) then {u} else {});
    forall i | 0 <= i < |w'.stack| && w'.stack[i].kind.D?
      ensures EndAgrees(g, w', S', w'.stack[i])
    {
      if i < |w'.stack| - 1 {
        assert EndAgrees(g, w, S, w.stack[i]);
        NotNamed(w.stack, u, i);
      }
    }
    forall t: nat | t < |w'.ts|
      ensures StatusAgrees(w', B, S', T, t)
    {
      assert StatusAgrees(w, B, S, T, t);
      NoneAdded(w.stack, w', e, t);
    }
  }

  lemma NoneAdded(st: seq<Entry>, w': World, e: Entry, t: nat)
    requires e.kind.D? && (w'.stack == st + [e] || (st != [] && !Top(st).kind.D? && w'.stack == Rest(st) + [e]))
    ensures Count(w'.stack, t, Ends) == Count(st, t, Ends) + if t == e.t then 1 else 0
  {
    hide Count;
    CountPush(st, e, t, Ends);
    if st != [] { StackTurn(st, e, t, Ends); }
  }

  lemma LinkedC(g: Graph, w: World, B: set<nat>, S: set<nat>, T: set<nat>)
    requires Conserved(g, w) && Linked(g, w, B, S, T) && w.stack != [] && Top(w.stack).kind.C?
    ensures var w' := StepC(g, w); Linked(g, w', B + Building(w'), S + Failing(g, w, w'), T + Tainting(g, w, w'))
  {
    hide AskAbove, FitsAt, WfTarget, Count, Owed, Queued, WfEntry, Linked, Finish, CountsAsFailure;
    var e, w' := Top(w.stack), StepC(g, w);
    var u := e.t;
    assert WfEntry(g, e) && S + {} == S && T + {} == T;
    BusyTop(g, w);
    if w.ts[u].cmds == [] || w.ts[u].status != EXEC_CMD_OK {
      LinkedFinish(g, w, B, S, T);
    } else {
      NoneTainted(g, w, w');
      if g.noexec {
        PassedFails(g, w);
        LinkedEnds(g, w, w', B, S, T, e.(kind := D, status := EXEC_CMD_OK));
      } else {
        NoneFails(g, w, w');
        forall t: nat | t < |w.ts|
          ensures Count(w'.stack, t, Ends) == Count(w.stack, t, Ends)
        {
          StackPop(w.stack, t, Ends);
        }
        LinkedKept(g, w, w', B, S, T);
      }
    }
  }

  /** With noexec, a command that is passed over counts as one that succeeds. */
  lemma PassedFails(g: Graph, w: World)
    requires WfWorld(g, w) && w.stack != [] && Top(w.stack).kind.C? && Top(w.stack).t < |w.ts| && g.noexec
    requires var x := w.ts[Top(w.stack).t]; x.cmds != [] && x.status == EXEC_CMD_OK
    ensures var u := Top(w.stack).t;
      Failing(g, w, StepC(g, w)) == if CountsAsFailure(g, u, w.ts[u].cmds[0], EXEC_CMD_OK) then {u} else {}
  {
    hide WfWorld;
    var u, w' := Top(w.stack).t, StepC(g, w);
    assert PassedOver(w, w', u) && CommandEnds(g, w, w', u, EXEC_CMD_OK);
    forall t: nat, status | CommandEnds(g, w, w', t, status)
      ensures t == u && status == EXEC_CMD_OK
    {
      assert w'.running == w.running;
    }
  }

  lemma LinkedD(g: Graph, w: World, B: set<nat>, S: set<nat>, T: set<nat>)
    requires Conserved(g, w) && Linked(g, w, B, S, T) && w.stack != [] && Top(w.stack).kind.D? && w.ts[Top(w.stack).t].cmds != []
    ensures var w' := StepD(g, w); Linked(g, w', B + Building(w'), S, T) && Failing(g, w, w') == {} && Tainting(g, w, w') == {}
  {
    hide AskAbove, FitsAt, WfTarget, Count, Owed, Queued, WfEntry;
    var e, w' := Top(w.stack), StepD(g, w);
    var u := e.t;
    BusyTop(g, w);
    assert WfEntry(g, e) && EndAgrees(g, w, S, w.stack[|w.stack| - 1]);
    EndsAreHolds(w.stack, u);
    assert Building(w') == Building(w) && B + Building(w') == B;
    OneEnd(w.stack, u);
    forall i | 0 <= i < |w'.stack| && w'.stack[i].kind.D?
      ensures EndAgrees(g, w', S, w'.stack[i])
    {
      assert EndAgrees(g, w, S, w.stack[i]);
      NotNamed(Rest(w.stack), u, i);
    }
    forall t: nat | t < |w'.ts|
      ensures StatusAgrees(w', B, S, T, t)
    {
      assert StatusAgrees(w, B, S, T, t);
      StackTurn(w.stack, e.(kind := C), t, Ends);
    }
    NoneFails(g, w, w');
    NoneTainted(g, w, w');
  }

  lemma OneEnd(st: seq<Entry>, u: nat)
    requires st != [] && Top(st).kind.D? && Top(st).t == u && Count(st, u, Ends) <= 1
    ensures Count(Rest(st), u, Ends) == 0
  {
    StackPop(st, u, Ends);
  }

  lemma LinkedClosure(g: Graph, w: World, u: nat, status: nat, B: set<nat>, S: set<nat>, T: set<nat>)
    requires Conserved(g, w) && Alive(w) && Linked(g, w, B, S, T) && Finishes(w, u, status)
    ensures var w' := Closure(w, u, status); Linked(g, w', B + Building(w'), S + Failing(g, w, w'), T + Tainting(g, w, w'))
  {
    hide AskAbove, WfTarget, WfEntry, Count, Owed, Queued, Linked, CountsAsFailure;
    var w', e := Closure(w, u, status), Entry(D, u, NONE, status);
    assert u < |w.ts| && FitsAt(w, u);
    EndsAreHolds(w.stack, u);
    assert w.ts[u].status == EXEC_CMD_OK by { AliveAt(w, u); }
    LinkedEnds(g, w, w', B, S, T, e);
    NoneTainted(g, w, w');
    assert CommandEnds(g, w, w', u, status);
    forall t: nat, st | CommandEnds(g, w, w', t, st)
      ensures t == u && st == status
    {
      assert w'.stack[|w.stack|] == e;
    }
    assert Failing(g, w, w') == if CountsAsFailure(g, u, w.ts[u].cmds[0], status) then {u} else {};
    assert T + {} == T;
  }

  lemma NextLinked(g: Graph, w: World, w': World, B: set<nat>, S: set<nat>, T: set<nat>)
    requires Conserved(g, w) && Alive(w) && Linked(g, w, B, S, T) && Next(g, w, w')
    ensures Linked(g, w', B + Building(w'), S + Failing(g, w, w'), T + Tainting(g, w, w'))
  {
    hide Conserved, Alive, Linked, StepA, StepATail, StepB, StepC, StepD, WfTarget;
    assert S + {} == S && T + {} == T;
    if StepTop(g, w, w') {
      match Top(w.stack).kind
      case A => LinkedA(g, w, B, S, T);
      case ATail => LinkedATail(g, w, B, S, T);
      case B =>
        var cmds :| w' == StepB(g, w, cmds);
        LinkedB(g, w, cmds, B, S, T);
      case C => LinkedC(g, w, B, S, T);
      case D => LinkedD(g, w, B, S, T);
    } else {
      var t, status :| Finishes(w, t, status) && w' == Closure(w, t, status);
      LinkedClosure(g, w, t, status, B, S, T);
    }
  }

  lemma NextAlive(g: Graph, w: World, w': World)
    requires Conserved(g, w) && Alive(w) && Next(g, w, w')
    ensures Alive(w')
  {
    hide Conserved, Alive, StepA, StepATail, StepB, StepC, StepD, WfTarget;
    if StepTop(g, w, w') {
      match Top(w.stack).kind
      case A => AliveA(g, w);
      case ATail => AliveATail(g, w);
      case B =>
        var cmds :| w' == StepB(g, w, cmds);
        AliveB(g, w, cmds);
      case C => AliveC(g, w);
      case D => AliveD(g, w);
    } else {
      var t, status :| Finishes(w, t, status) && w' == Closure(w, t, status);
      AliveClosure(g, w, t, status);
    }
  }

  /** 1D leaves a failure exactly if one of the target's commands has failed. */
  lemma EndSettles(g: Graph, w: World, B: set<nat>, S: set<nat>, T: set<nat>)
    requires Conserved(g, w) && Linked(g, w, B, S, T) && w.stack != [] && Top(w.stack).kind.D? && w.ts[Top(w.stack).t].cmds != []
    ensures var u := Top(w.stack).t; u < |w.ts| && (StepD(g, w).ts[u].status == EXEC_CMD_FAIL <==> u in S)
  {
    hide AskAbove, FitsAt, WfTarget, Count, Owed, Queued, StatusAgrees;
    BusyTop(g, w);
    assert WfEntry(g, Top(w.stack)) && EndAgrees(g, w, S, w.stack[|w.stack| - 1]);
  }

  /** What is linked before anything has been run. */
  lemma NothingLinked(g: Graph, w: World)
    requires Building(w) == {} && forall i :: 0 <= i < |w.stack| ==> !w.stack[i].kind.D?
    requires forall t: nat :: t < |w.ts| ==> !w.ts[t].progress.Running?
    ensures Linked(g, w, {}, {}, {})
  {
    hide Count;
  }

  // ---- whole runs ----

  lemma BeginLinked(g: Graph, w: World, root: nat)
    requires Quiet(g, w) && root < |w.ts|
    ensures var w0 := Begin(w, root); Alive(w0) && Building(w0) == {} && Linked(g, w0, {}, {}, {})
  {
    hide Sound, Linked, Count;
    var w0 := Begin(w, root);
    QuietIsDone(g, w);
    BeginBooked(g, w, root);
    NothingLinked(g, w0);
    forall t: nat
      ensures Count(w0.stack, t, Ends) == 0
    {
      CountNone(w0.stack, t, Ends);
    }
  }

  lemma {:induction false} RunLinked(g: Graph, w: World, root: nat, ws: seq<World>)
    requires Quiet(g, w) && root < |w.ts| && IsRun(g, ws) && ws[0] == Begin(w, root)
    ensures Alive(ws[|ws| - 1]) && Linked(g, ws[|ws| - 1], BuiltIn(ws), FailedIn(g, ws), TaintedIn(g, ws))
    decreases |ws|
  {
    hide Sound, Next, Building, Quiet, Booked, Linked, Alive, Failing, Tainting;
    BeginLinked(g, w, root);
    if |ws| == 1 {
      assert ws[..0] == [] && BuiltIn(ws) == {};
    } else {
      var rest, w1, w2 := ws[..|ws| - 1], ws[|ws| - 2], ws[|ws| - 1];
      RunRest(g, ws);
      RunLinked(g, w, root, rest);
      RunBooked(g, w, root, rest);
      Counted(g, w1);
      NextAlive(g, w1, w2);
      NextLinked(g, w1, w2, BuiltIn(rest), FailedIn(g, rest), TaintedIn(g, rest));
    }
  }

  lemma {:induction false} FailedInMeans(g: Graph, ws: seq<World>, t: nat)
    ensures t in FailedIn(g, ws) <==> exists k :: 0 <= k < |ws| - 1 && CommandFails(g, ws[k], ws[k + 1], t)
    decreases |ws|
  {
    hide CommandFails;
    if |ws| > 1 {
      var rest := ws[..|ws| - 1];
      FailedInMeans(g, rest, t);
      if t in FailedIn(g, rest) {
        var k :| 0 <= k < |rest| - 1 && CommandFails(g, rest[k], rest[k + 1], t);
        assert CommandFails(g, ws[k], ws[k + 1], t);
      }
      if k :| 0 <= k < |ws| - 1 && CommandFails(g, ws[k], ws[k + 1], t) {
        if k < |rest| - 1 { assert rest[k] == ws[k] && rest[k + 1] == ws[k + 1]; } else { HasCommands(g, ws[k], ws[k + 1], t); }
      }
      if t in Failing(g, ws[|ws| - 2], ws[|ws| - 1]) { assert CommandFails(g, ws[|ws| - 2], ws[|ws| - 2 + 1], t); }
    }
  }

  lemma HasCommands(g: Graph, w: World, w': World, t: nat)
    requires CommandFails(g, w, w', t)
    ensures t in Failing(g, w, w')
  {
  }

  lemma {:induction false} TaintedInMeans(g: Graph, ws: seq<World>, t: nat)
    ensures t in TaintedIn(g, ws) <==> exists k :: 0 <= k < |ws| - 1 && Tainted(g, ws[k], ws[k + 1], t)
    decreases |ws|
  {
    hide Tainted;
    if |ws| > 1 {
      var rest := ws[..|ws| - 1];
      TaintedInMeans(g, rest, t);
      if t in TaintedIn(g, rest) {
        var k :| 0 <= k < |rest| - 1 && Tainted(g, rest[k], rest[k + 1], t);
        assert Tainted(g, ws[k], ws[k + 1], t);
      }
      if k :| 0 <= k < |ws| - 1 && Tainted(g, ws[k], ws[k + 1], t) {
        if k < |rest| - 1 { assert rest[k] == ws[k] && rest[k + 1] == ws[k + 1]; } else { HasActions(g, ws[k], ws[k + 1], t); }
      }
      if t in Tainting(g, ws[|ws| - 2], ws[|ws| - 1]) { assert Tainted(g, ws[|ws| - 2], ws[|ws| - 2 + 1], t); }
    }
  }

  lemma HasActions(g: Graph, w: World, w': World, t: nat)
    requires Tainted(g, w, w', t)
    ensures t in Tainting(g, w, w')
  {
  }

  /** When a call has come to rest, a target that was built has failed if and only if a command
      of its has ended so that it counts as a failure, or one of its actions, which it may share,
      had failed when it was done. A target with a command that ended so was built. */
  lemma BuiltFails(g: Graph, w: World, root: nat, ws: seq<World>, t: nat)
    requires Quiet(g, w) && root < |w.ts| && IsRun(g, ws) && ws[0] == Begin(w, root) && Quiet(g, ws[|ws| - 1])
    ensures t in FailedIn(g, ws) ==> t in BuiltIn(ws)
    ensures t in BuiltIn(ws) ==>
      && t < |ws[|ws| - 1].ts|
      && (ws[|ws| - 1].ts[t].status == EXEC_CMD_FAIL <==> t in FailedIn(g, ws) || t in TaintedIn(g, ws))
  {
    hide Sound, Next, BuiltIn, FailedIn, TaintedIn, Building, EndAgrees;
    RunLinked(g, w, root, ws);
    QuietIsDone(g, ws[|ws| - 1]);
    if t in BuiltIn(ws) { assert StatusAgrees(ws[|ws| - 1], BuiltIn(ws), FailedIn(g, ws), TaintedIn(g, ws), t); }
  }
}
