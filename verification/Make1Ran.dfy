/** Which commands make1 runs: those prepared for a target, in order, until one of them fails. */
module Make1Ran {
  import opened Make1State
  import opened Make1Counters
  import opened Make1Steps
  import opened Make1Waits
  import opened Make1Runs
  import opened Make1Failures
  import opened Make1Commands

  /** Some command of t ends from w to w'. */
  ghost predicate SomeEnds(g: Graph, w: World, w': World, t: nat) {
    t < |w.ts| && w.ts[t].cmds != [] && exists status :: CommandEnds(g, w, w', t, status)
  }

  /** The commands of t that end in a run, in order. */
  ghost function EndedIn(g: Graph, ws: seq<World>, t: nat): seq<Cmd> {
    if |ws| <= 1 then []
    else
      var w, w' := ws[|ws| - 2], ws[|ws| - 1];
      EndedIn(g, ws[..|ws| - 1], t) + if SomeEnds(g, w, w', t) then [w.ts[t].cmds[0]] else []
  }

  /** The commands that t has when it begins to be built in a run. */
  ghost function GivenIn(ws: seq<World>, t: nat): seq<Cmd> {
    if |ws| <= 1 then []
    else
      var w, w' := ws[|ws| - 2], ws[|ws| - 1];
      if Starts(w, w', t) then w'.ts[t].cmds else GivenIn(ws[..|ws| - 1], t)
  }

  predicate Starts(w: World, w': World, t: nat) {
    t < |w.ts| && t < |w'.ts| && !w.ts[t].progress.Running? && w'.ts[t].progress.Running?
  }

  /** The commands that have not ended yet: one that has just ended is still first in its chain. */
  function Left(w: World, t: nat): seq<Cmd>
    requires t < |w.ts|
  {
    var cmds := w.ts[t].cmds;
    if Count(w.stack, t, Ends) > 0 && cmds != [] then cmds[1..] else cmds
  }

  /** Of those given to t, some have ended and the others are left; when t is done, there are
      none left, unless one has failed. */
  ghost predicate RanSoFar(w: World, B: set<nat>, S: set<nat>, t: nat, given: seq<Cmd>, ended: seq<Cmd>)
    requires t < |w.ts|
  {
    if t !in B then ended == []
    else given == ended + Left(w, t) && (w.ts[t].progress.Done? && Left(w, t) != [] ==> t in S)
  }

  lemma NoneEnds(g: Graph, w: World, w': World, t: nat)
    requires w.running <= w'.running && !PassedOver(w, w', t)
    ensures !SomeEnds(g, w, w', t)
  {
  }

  /** What happens does not concern the commands of t. */
  lemma RanKept(g: Graph, w: World, w': World, B: set<nat>, S: set<nat>, t: nat, given: seq<Cmd>, ended: seq<Cmd>)
    requires t < |w.ts| == |w'.ts| && RanSoFar(w, B, S, t, given, ended) && Building(w) <= B
    requires Left(w', t) == Left(w, t) && (w'.ts[t].progress.Done? ==> w.ts[t].progress.Done?)
    requires w'.ts[t].progress.Running? ==> w.ts[t].progress.Running?
    ensures RanSoFar(w', B + Building(w'), S, t, given, ended) && !Starts(w, w', t)
  {
    hide Left;
    assert t in Building(w') ==> t in Building(w);
  }

  lemma RanA(g: Graph, w: World, B: set<nat>, S: set<nat>, t: nat, given: seq<Cmd>, ended: seq<Cmd>)
    requires Conserved(g, w) && w.stack != [] && Top(w.stack).kind.A? && t < |w.ts| && RanSoFar(w, B, S, t, given, ended) && Building(w) <= B
    ensures var w' := StepA(g, w);
      RanSoFar(w', B + Building(w'), S, t, given, ended) && !Starts(w, w', t) && !SomeEnds(g, w, w', t)
  {
    hide SumsOf, AskAbove, FitsAt, WfTarget, AskFor, Count, RanSoFar, Building;
    var w' := StepA(g, w);
    assert WfEntry(g, Top(w.stack));
    AskingA(g, w);
    StackA(g, w, t, Ends);
    RanKept(g, w, w', B, S, t, given, ended);
    NoneEnds(g, w, w', t);
  }

  lemma RanATail(g: Graph, w: World, B: set<nat>, S: set<nat>, t: nat, given: seq<Cmd>, ended: seq<Cmd>)
    requires Conserved(g, w) && w.stack != [] && Top(w.stack).kind.ATail? && t < |w.ts| && RanSoFar(w, B, S, t, given, ended) && Building(w) <= B
    ensures var w' := StepATail(g, w);
      RanSoFar(w', B + Building(w'), S, t, given, ended) && !Starts(w, w', t) && !SomeEnds(g, w, w', t)
  {
    hide SumsOf, AskAbove, FitsAt, WfTarget, Count, RanSoFar, Building;
    var e, w' := Top(w.stack), StepATail(g, w);
    assert WfEntry(g, e);
    TailStarted(g, w);
    StackTurn(w.stack, e.(kind := Kind.B), t, Ends);
    RanKept(g, w, w', B, S, t, given, ended);
    NoneEnds(g, w, w', t);
  }

  lemma RanB(g: Graph, w: World, cmds: seq<Cmd>, B: set<nat>, S: set<nat>, t: nat, given: seq<Cmd>, ended: seq<Cmd>)
    requires Conserved(g, w) && w.stack != [] && Top(w.stack).kind.B? && t < |w.ts| && RanSoFar(w, B, S, t, given, ended) && Building(w) <= B
    requires t in B ==> w.ts[t].progress.Running? || w.ts[t].progress.Done?
    ensures var w' := StepB(g, w, cmds);
      RanSoFar(w', B + Building(w'), S, t, if Starts(w, w', t) then w'.ts[t].cmds else given, ended) && !SomeEnds(g, w, w', t)
  {
    hide SumsOf, AskAbove, FitsAt, WfTarget, DepStatus, Count, WfEntry;
    var e, w' := Top(w.stack), StepB(g, w, cmds);
    assert WfEntry(g, e);
    WaitingB(g, w);
    NoEndsB(g, w);
    StackTurn(w.stack, e.(kind := C), t, Ends);
    StackPop(w.stack, t, Ends);
    NoneEnds(g, w, w', t);
    if t == e.t && w'.ts[t].progress.Running? {
      assert Starts(w, w', t) && t !in B && t in Building(w');
    } else {
      RanKept(g, w, w', B, S, t, given, ended);
    }
  }

  lemma RanC(g: Graph, w: World, B: set<nat>, S: set<nat>, T: set<nat>, t: nat, given: seq<Cmd>, ended: seq<Cmd>)
    requires Conserved(g, w) && Linked(g, w, B, S, T) && w.stack != [] && Top(w.stack).kind.C? && t < |w.ts| && RanSoFar(w, B, S, t, given, ended)
    ensures var w' := StepC(g, w);
      RanSoFar(w', B + Building(w'), S, t, given, ended + if SomeEnds(g, w, w', t) then [w.ts[t].cmds[0]] else []) && !Starts(w, w', t)
  {
    hide AskAbove, FitsAt, WfTarget, Count, Owed, Queued, WfEntry, Tell, ActStatus, Distribute, Tally, Hold, DropWaiter, FirstWaiter, EndAgrees;
    var e, w' := Top(w.stack), StepC(g, w);
    var u := e.t;
    assert WfEntry(g, e);
    BusyTop(g, w);
    StackPop(w.stack, t, Ends);
    assert ended + [] == ended;
    if w.ts[u].cmds != [] && w.ts[u].status == EXEC_CMD_OK {
      if g.noexec {
        var d := e.(kind := D, status := EXEC_CMD_OK);
        StackTurn(w.stack, d, t, Ends);
        if t == u {
          assert PassedOver(w, w', u) && CommandEnds(g, w, w', u, EXEC_CMD_OK);
          assert given == ended + w.ts[u].cmds && w.ts[u].cmds == [w.ts[u].cmds[0]] + w.ts[u].cmds[1..];
        } else {
          NoneEnds(g, w, w', t);
          RanKept(g, w, w', B, S, t, given, ended);
        }
      } else {
        NoneEnds(g, w, w', t);
        RanKept(g, w, w', B, S, t, given, ended);
      }
    } else {
      NoneEnds(g, w, w', t);
      StackFinish(w.stack, w.ts[u].parents + FirstWaiter(w.sems, g.semaphore[u]), t, Ends);
      if t != u {
        RanKept(g, w, w', B, S, t, given, ended);
      } else {
        assert StatusAgrees(w, B, S, T, u);
        StatusIs(g, w, u);
      }
    }
  }

  lemma StatusIs(g: Graph, w: World, t: nat)
    requires WfWorld(g, w) && t < |w.ts|
    ensures w.ts[t].status == EXEC_CMD_OK || w.ts[t].status == EXEC_CMD_FAIL
  {
    assert WfTarget(g, w.ts[t]);
  }

  lemma RanD(g: Graph, w: World, B: set<nat>, S: set<nat>, t: nat, given: seq<Cmd>, ended: seq<Cmd>)
    requires Conserved(g, w) && w.stack != [] && Top(w.stack).kind.D? && w.ts[Top(w.stack).t].cmds != []
    requires t < |w.ts| && RanSoFar(w, B, S, t, given, ended) && Building(w) <= B
    ensures var w' := StepD(g, w);
      RanSoFar(w', B + Building(w'), S, t, given, ended) && !Starts(w, w', t) && !SomeEnds(g, w, w', t)
  {
    hide AskAbove, FitsAt, WfTarget, Count, Owed, Queued, WfEntry, RanSoFar, Building;
    var e, w' := Top(w.stack), StepD(g, w);
    BusyTop(g, w);
    EndsAreHolds(w.stack, e.t);
    StackTurn(w.stack, e.(kind := C), t, Ends);
    StackPop(w.stack, t, Ends);
    NoneEnds(g, w, w', t);
    RanKept(g, w, w', B, S, t, given, ended);
  }

  lemma RanClosure(g: Graph, w: World, u: nat, status: nat, B: set<nat>, S: set<nat>, t: nat, given: seq<Cmd>, ended: seq<Cmd>)
    requires Conserved(g, w) && Finishes(w, u, status) && t < |w.ts| && RanSoFar(w, B, S, t, given, ended) && Building(w) <= B
    ensures var w' := Closure(w, u, status);
      RanSoFar(w', B + Building(w'), S, t, given, ended + if SomeEnds(g, w, w', t) then [w.ts[t].cmds[0]] else []) && !Starts(w, w', t)
  {
    hide AskAbove, WfTarget, WfEntry, Count, Owed, Queued;
    var w', e := Closure(w, u, status), Entry(D, u, NONE, status);
    assert u < |w.ts| && FitsAt(w, u);
    EndsAreHolds(w.stack, u);
    CountPush(w.stack, e, t, Ends);
    assert ended + [] == ended;
    if t == u {
      assert CommandEnds(g, w, w', u, status);
      assert w.ts[u].cmds == [w.ts[u].cmds[0]] + w.ts[u].cmds[1..];
      assert u in Building(w);
    } else {
      assert !SomeEnds(g, w, w', t) by {
        if st :| CommandEnds(g, w, w', t, st) { assert w'.stack[|w.stack|] == e; }
      }
      RanKept(g, w, w', B, S, t, given, ended);
    }
  }

  lemma NextRan(g: Graph, w: World, w': World, B: set<nat>, S: set<nat>, T: set<nat>, t: nat, given: seq<Cmd>, ended: seq<Cmd>)
    requires Conserved(g, w) && Linked(g, w, B, S, T) && Next(g, w, w') && t < |w.ts| && RanSoFar(w, B, S, t, given, ended)
    ensures t < |w'.ts|
    ensures RanSoFar(w', B + Building(w'), S + Failing(g, w, w'), t, if Starts(w, w', t) then w'.ts[t].cmds else given,
                     ended + if SomeEnds(g, w, w', t) then [w.ts[t].cmds[0]] else [])
  {
    hide Conserved, StepA, StepATail, StepB, StepC, StepD, WfTarget, WfEntry, Starts, CommandEnds, RanSoFar, Failing;
    assert ended + [] == ended;
    BuiltAre(g, w, B, S, T);
    if StepTop(g, w, w') {
      match Top(w.stack).kind
      case A => RanA(g, w, B, S, t, given, ended);
      case ATail => RanATail(g, w, B, S, t, given, ended);
      case B =>
        var cmds :| w' == StepB(g, w, cmds);
        RanB(g, w, cmds, B, S, t, given, ended);
      case C => RanC(g, w, B, S, T, t, given, ended);
      case D => RanD(g, w, B, S, t, given, ended);
    } else {
      var u, status :| Finishes(w, u, status) && w' == Closure(w, u, status);
      RanClosure(g, w, u, status, B, S, t, given, ended);
    }
    SameTargets(g, w, w');
    RanMore(w', B + Building(w'), S, S + Failing(g, w, w'), t, if Starts(w, w', t) then w'.ts[t].cmds else given,
            ended + if SomeEnds(g, w, w', t) then [w.ts[t].cmds[0]] else []);
  }

  lemma BuiltAre(g: Graph, w: World, B: set<nat>, S: set<nat>, T: set<nat>)
    requires Linked(g, w, B, S, T)
    ensures Building(w) <= B && forall t: nat :: t in B ==> t < |w.ts| && (w.ts[t].progress.Running? || w.ts[t].progress.Done?)
  {
  }

  lemma SameTargets(g: Graph, w: World, w': World)
    requires Next(g, w, w')
    ensures |w'.ts| == |w.ts|
  {
    hide WfTarget, DepStatus, ActStatus, Distribute, Tell, AskFor;
    if StepTop(g, w, w') {
      assert WfEntry(g, Top(w.stack));
    }
  }

  lemma RanMore(w: World, B: set<nat>, S: set<nat>, S': set<nat>, t: nat, given: seq<Cmd>, ended: seq<Cmd>)
    requires t < |w.ts| && RanSoFar(w, B, S, t, given, ended) && S <= S'
    ensures RanSoFar(w, B, S', t, given, ended)
  {
  }

  lemma {:induction false} RunRan(g: Graph, w: World, root: nat, ws: seq<World>, t: nat)
    requires Quiet(g, w) && root < |w.ts| && IsRun(g, ws) && ws[0] == Begin(w, root) && t < |w.ts|
    ensures t < |ws[|ws| - 1].ts|
    ensures RanSoFar(ws[|ws| - 1], BuiltIn(ws), FailedIn(g, ws), t, GivenIn(ws, t), EndedIn(g, ws, t))
    decreases |ws|
  {
    hide Sound, Next, Building, Quiet, Booked, Linked, Failing, Starts, SomeEnds;
    if |ws| == 1 {
      BeginBooked(g, w, root);
      assert ws[..0] == [] && BuiltIn(ws) == {};
    } else {
      var rest, w1, w2 := ws[..|ws| - 1], ws[|ws| - 2], ws[|ws| - 1];
      RunRest(g, ws);
      RunRan(g, w, root, rest, t);
      RunLinked(g, w, root, rest);
      RunBooked(g, w, root, rest);
      Counted(g, w1);
      NextRan(g, w1, w2, BuiltIn(rest), FailedIn(g, rest), TaintedIn(g, rest), t, GivenIn(rest, t), EndedIn(g, rest, t));
    }
  }

  /** When a call has come to rest, the commands prepared for a target that was built have ended
      one after the other, all of them unless one has failed; none has ended otherwise. */
  lemma CommandsRun(g: Graph, w: World, root: nat, ws: seq<World>, t: nat)
    requires Quiet(g, w) && root < |w.ts| && IsRun(g, ws) && ws[0] == Begin(w, root) && Quiet(g, ws[|ws| - 1]) && t < |w.ts|
    ensures t !in BuiltIn(ws) ==> EndedIn(g, ws, t) == []
    ensures t in BuiltIn(ws) ==> EndedIn(g, ws, t) <= GivenIn(ws, t)
    ensures t in BuiltIn(ws) && t !in FailedIn(g, ws) ==> EndedIn(g, ws, t) == GivenIn(ws, t)
  {
    hide Sound, Next, BuiltIn, FailedIn, TaintedIn, EndedIn, GivenIn, Left;
    RunRan(g, w, root, ws, t);
    RunLinked(g, w, root, ws);
    QuietIsDone(g, ws[|ws| - 1]);
  }

  /** And the one that fails is the last that is run. */
  lemma FailureIsLast(g: Graph, w: World, root: nat, ws: seq<World>, k: nat, t: nat)
    requires Quiet(g, w) && root < |w.ts| && IsRun(g, ws) && ws[0] == Begin(w, root) && k < |ws| - 1
    requires SomeEnds(g, ws[k], ws[k + 1], t)
    ensures t !in FailedIn(g, ws[..k + 1])
  {
    hide Sound, Next, BuiltIn, FailedIn, TaintedIn;
    var part := ws[..k + 1];
    forall j | 0 <= j < |part| - 1
      ensures Next(g, part[j], part[j + 1])
    {
      assert Next(g, ws[j], ws[j + 1]);
    }
    RunLinked(g, w, root, part);
    RunBooked(g, w, root, part);
    Counted(g, ws[k]);
    EndsBefore(g, ws[k], ws[k + 1], BuiltIn(part), FailedIn(g, part), TaintedIn(g, part), t);
  }

  lemma EndsBefore(g: Graph, w: World, w': World, B: set<nat>, S: set<nat>, T: set<nat>, t: nat)
    requires Conserved(g, w) && Alive(w) && Linked(g, w, B, S, T) && SomeEnds(g, w, w', t)
    ensures t !in S
  {
    hide AskAbove, WfTarget, WfEntry, Count, Owed, Queued, EndAgrees;
    assert FitsAt(w, t) && StatusAgrees(w, B, S, T, t);
    EndsAreHolds(w.stack, t);
    if PassedOver(w, w', t) {
      BusyTop(g, w);
    } else {
      AliveAt(w, t);
    }
  }
}
