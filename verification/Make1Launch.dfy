/** On an acyclic graph a command is launched only when every dependency is done, and either
    succeeded or does not matter. */
module Make1Launch {
  import opened Make1State
  import opened Make1Counters
  import opened Make1Steps
  import opened Make1Waits

  /** rank shows that the graph has no cycle. */
  ghost predicate Ranked(g: Graph, rank: seq<nat>) {
    && WfGraph(g) && |rank| == |g.depends|
    && forall t, c :: 0 <= t < |rank| && c in g.depends[t] ==> rank[c] < rank[t]
  }

  /** A visit on the stack is of something lower than every visit under way below it. */
  ghost predicate RankDown(rank: seq<nat>, st: seq<Entry>) {
    forall i, j :: 0 <= i < j < |st| && st[i].kind.ATail? && IsVisit(st[j]) ==> Lower(rank, st[j].t, st[i].t)
  }

  predicate Lower(rank: seq<nat>, c: nat, t: nat) {
    c < |rank| && t < |rank| && rank[c] < rank[t]
  }

  /** Target t's dependency c is done, will tell t, or is still to be asked for. */
  predicate Due(w: World, t: nat, c: nat)
    requires c < |w.ts|
  {
    w.ts[c].progress.Done? || t in w.ts[c].parents || Entry(A, c, t, 0) in w.stack
  }

  ghost predicate DepsDue(g: Graph, w: World)
    requires WfGraph(g) && |w.ts| == |g.depends|
  {
    forall t, c :: 0 <= t < |w.ts| && c in g.depends[t] && !w.ts[t].progress.Init? ==> Due(w, t, c)
  }

  /** Dependency c does not stand in the way of running commands. */
  predicate DepGood(g: Graph, w: World, c: nat) {
    c < |w.ts| && w.ts[c].progress.Done? && (w.ts[c].status == EXEC_CMD_OK || c in g.nocare)
  }

  ghost predicate CmdsGood(g: Graph, w: World)
    requires WfGraph(g) && |w.ts| == |g.depends|
  {
    forall t, c :: 0 <= t < |w.ts| && c in g.depends[t] && w.ts[t].cmds != [] ==> DepGood(g, w, c)
  }

  ghost predicate LaunchOk(g: Graph, rank: seq<nat>, w: World) {
    Ranked(g, rank) && WfWorld(g, w) && RankDown(rank, w.stack) && DepsDue(g, w) && CmdsGood(g, w)
  }

  /** What is done stays as it is. */
  ghost predicate DoneStays(w: World, w': World) {
    && |w'.ts| == |w.ts|
    && forall t :: 0 <= t < |w.ts| && w.ts[t].progress.Done? ==>
      w'.ts[t].progress.Done? && w'.ts[t].status == w.ts[t].status
  }

  /** Commands appear only where 1B puts them. */
  ghost predicate NoNewCmds(w: World, w': World)
    requires |w'.ts| == |w.ts|
  {
    forall t :: 0 <= t < |w.ts| && w'.ts[t].cmds != [] ==> w.ts[t].cmds != []
  }

  lemma CmdsStay(g: Graph, w: World, w': World)
    requires WfGraph(g) && |w.ts| == |g.depends| && CmdsGood(g, w) && DoneStays(w, w') && NoNewCmds(w, w')
    ensures CmdsGood(g, w')
  {
    forall t, c | 0 <= t < |w'.ts| && c in g.depends[t] && w'.ts[t].cmds != []
      ensures DepGood(g, w', c)
    {
      assert DepGood(g, w, c);
    }
  }

  lemma CalmLaunch(g: Graph, rank: seq<nat>, w: World, w': World)
    requires LaunchOk(g, rank, w) && WfWorld(g, w') && Calm(w, w') && DoneStays(w, w')
    ensures RankDown(rank, w'.stack) && DepsDue(g, w')
  {
    hide WfEntry, WfTarget, CmdsGood;
    forall t, c | 0 <= t < |w'.ts| && c in g.depends[t] && !w'.ts[t].progress.Init?
      ensures Due(w', t, c)
    {
      assert SameVisit(w.ts[c], w'.ts[c]) && SameVisit(w.ts[t], w'.ts[t]);
      assert Due(w, t, c);
    }
  }

  // ---- 1A ----

  lemma LaunchAsk(g: Graph, rank: seq<nat>, w: World)
    requires Conserved(g, w) && LaunchOk(g, rank, w) && w.stack != [] && Top(w.stack).kind.A?
    requires !w.ts[Top(w.stack).t].progress.Init?
    ensures LaunchOk(g, rank, StepA(g, w))
  {
    hide SumsOf, AskAbove, FitsAt, WfTarget;
    var e, w' := Top(w.stack), StepA(g, w);
    assert WfEntry(g, e);
    WfA(g, w);
    AskingA(g, w);
    NotOnStack(g, rank, w);
    CmdsStay(g, w, w');
    forall t, c | 0 <= t < |w'.ts| && c in g.depends[t] && !w'.ts[t].progress.Init?
      ensures Due(w', t, c)
    {
      assert Due(w, t, c);
      if Entry(A, c, t, 0) in w.stack { InRest(w.stack, Entry(A, c, t, 0)); }
    }
  }

  /** What is asked for is not being visited: that would be a cycle. */
  lemma NotOnStack(g: Graph, rank: seq<nat>, w: World)
    requires Conserved(g, w) && LaunchOk(g, rank, w) && w.stack != [] && Top(w.stack).kind.A?
    ensures !w.ts[Top(w.stack).t].progress.OnStack?
  {
    hide AskAbove, Owed, Queued, Count, WfTarget, DepsDue, CmdsGood;
    var c := Top(w.stack).t;
    assert WfEntry(g, Top(w.stack)) && FitsAt(w, c);
    forall i | 0 <= i < |w.stack|
      ensures Val(w.stack[i], c, Tails) == 0
    {
      if i < |w.stack| - 1 && w.stack[i].kind.ATail? {
        assert Lower(rank, w.stack[|w.stack| - 1].t, w.stack[i].t);
      }
    }
    CountNone(w.stack, c, Tails);
  }

  lemma LaunchStart(g: Graph, rank: seq<nat>, w: World)
    requires Conserved(g, w) && LaunchOk(g, rank, w) && w.stack != [] && Top(w.stack).kind.A?
    requires w.ts[Top(w.stack).t].progress.Init?
    ensures LaunchOk(g, rank, StepA(g, w))
  {
    hide SumsOf, AskAbove, FitsAt, WfTarget, AskFor, RankDown;
    var e, w' := Top(w.stack), StepA(g, w);
    assert WfEntry(g, e);
    WfA(g, w);
    AskingA(g, w);
    CmdsStay(g, w, w');
    StartRanks(g, rank, w);
    AskForHas(g.depends[e.t], e.t);
    forall t, c | 0 <= t < |w'.ts| && c in g.depends[t] && !w'.ts[t].progress.Init?
      ensures Due(w', t, c)
    {
      if t == e.t {
        var k :| 0 <= k < |g.depends[t]| && g.depends[t][k] == c;
        assert Entry(A, g.depends[t][k], t, 0) in AskFor(g.depends[t], t);
      } else {
        assert Due(w, t, c);
        if Entry(A, c, t, 0) in w.stack { InRest(w.stack, Entry(A, c, t, 0)); }
      }
    }
  }

  lemma StartRanks(g: Graph, rank: seq<nat>, w: World)
    requires LaunchOk(g, rank, w) && w.stack != [] && Top(w.stack).kind.A?
    requires w.ts[Top(w.stack).t].progress.Init?
    ensures RankDown(rank, StepA(g, w).stack)
  {
    hide WfTarget, AskFor, CmdsGood, DepsDue;
    var e := Top(w.stack);
    assert WfEntry(g, e);
    AskForHas(g.depends[e.t], e.t);
    PushRanks(g, rank, w.stack, AskFor(g.depends[e.t], e.t));
  }

  lemma PushRanks(g: Graph, rank: seq<nat>, st: seq<Entry>, asks: seq<Entry>)
    requires Ranked(g, rank) && RankDown(rank, st) && st != [] && Top(st).kind.A? && Top(st).t < |rank|
    requires forall k :: 0 <= k < |asks| ==> asks[k].kind.A? && asks[k].t in g.depends[Top(st).t]
    ensures RankDown(rank, Rest(st) + [Top(st).(kind := ATail)] + asks)
  {
    var st' := Rest(st) + [Top(st).(kind := ATail)] + asks;
    var top := |st| - 1;
    forall i, j | 0 <= i < j < |st'| && st'[i].kind.ATail? && IsVisit(st'[j])
      ensures Lower(rank, st'[j].t, st'[i].t)
    {
      assert i <= top;
      assert i < top ==> st'[i] == st[i];
      if j <= top {
        assert st'[j].t == st[j].t && Lower(rank, st[j].t, st[i].t);
      } else {
        var d := asks[j - top - 1];
        assert st'[j] == d && rank[d.t] < rank[Top(st).t];
        assert i < top ==> Lower(rank, st[top].t, st[i].t);
      }
    }
  }

  // ---- the other steps ----

  lemma LaunchATail(g: Graph, rank: seq<nat>, w: World)
    requires Conserved(g, w) && LaunchOk(g, rank, w) && w.stack != [] && Top(w.stack).kind.ATail?
    ensures LaunchOk(g, rank, StepATail(g, w))
  {
    hide SumsOf, AskAbove, FitsAt, WfTarget;
    var e, w' := Top(w.stack), StepATail(g, w);
    assert WfEntry(g, e);
    WfATail(g, w);
    TailStarted(g, w);
    CmdsStay(g, w, w');
    forall t, c | 0 <= t < |w'.ts| && c in g.depends[t] && !w'.ts[t].progress.Init?
      ensures Due(w', t, c)
    {
      assert Due(w, t, c);
      if Entry(A, c, t, 0) in w.stack { InRest(w.stack, Entry(A, c, t, 0)); }
    }
  }

  /** Target t is let go only when its dependencies are done. */
  lemma AllDue(g: Graph, rank: seq<nat>, w: World, c: nat)
    requires Conserved(g, w) && LaunchOk(g, rank, w) && w.stack != [] && Top(w.stack).kind.B?
    requires w.ts[Top(w.stack).t].asynccnt == 1 && c in g.depends[Top(w.stack).t]
    ensures c < |w.ts| && w.ts[c].progress.Done?
  {
    hide AskAbove, Owed, Queued, Count, WfTarget, RankDown, CmdsGood;
    var t := Top(w.stack).t;
    assert WfEntry(g, Top(w.stack)) && FitsAt(w, t);
    WaitingB(g, w);
    AsksOf(w, t);
    assert Due(w, t, c);
    if t in w.ts[c].parents {
      OwedOne(w.ts, c, t);
    }
    if Entry(A, c, t, 0) in w.stack {
      var i :| 0 <= i < |w.stack| && w.stack[i] == Entry(A, c, t, 0);
      CountsOne(w.stack, t, Asks, i);
    }
  }

  lemma LaunchB(g: Graph, rank: seq<nat>, w: World, cmds: seq<Cmd>)
    requires Conserved(g, w) && LaunchOk(g, rank, w) && w.stack != [] && Top(w.stack).kind.B?
    ensures LaunchOk(g, rank, StepB(g, w, cmds))
  {
    hide SumsOf, AskAbove, FitsAt, WfTarget, RankDown, DepsDue, DepStatus, Calm;
    var e, w' := Top(w.stack), StepB(g, w, cmds);
    assert WfEntry(g, e);
    WfB(g, w, cmds);
    WaitingB(g, w);
    CalmB(g, w, cmds);
    CalmLaunch(g, rank, w, w');
    forall t, c | 0 <= t < |w'.ts| && c in g.depends[t] && w'.ts[t].cmds != []
      ensures DepGood(g, w', c)
    {
      if w.ts[t].cmds != [] {
        assert DepGood(g, w, c);
      } else {
        AllDue(g, rank, w, c);
      }
    }
  }

  lemma LaunchC(g: Graph, rank: seq<nat>, w: World)
    requires Conserved(g, w) && LaunchOk(g, rank, w) && w.stack != [] && Top(w.stack).kind.C?
    ensures LaunchOk(g, rank, StepC(g, w))
  {
    hide SumsOf, AskAbove, FitsAt, WfTarget, RankDown, DepsDue, CmdsGood, Calm, ActStatus, Distribute, Tell;
    var e, w' := Top(w.stack), StepC(g, w);
    WfC(g, w);
    BusyTop(g, w);
    CalmC(g, w);
    CalmLaunch(g, rank, w, w');
    CmdsStay(g, w, w');
  }

  lemma LaunchD(g: Graph, rank: seq<nat>, w: World)
    requires Conserved(g, w) && LaunchOk(g, rank, w) && w.stack != [] && Top(w.stack).kind.D?
    requires w.ts[Top(w.stack).t].cmds != []
    ensures LaunchOk(g, rank, StepD(g, w))
  {
    hide SumsOf, AskAbove, FitsAt, WfTarget, RankDown, DepsDue, CmdsGood, Calm;
    var e, w' := Top(w.stack), StepD(g, w);
    WfD(g, w);
    BusyTop(g, w);
    CalmD(g, w);
    CalmLaunch(g, rank, w, w');
    CmdsStay(g, w, w');
  }

  lemma NextLaunch(g: Graph, rank: seq<nat>, w: World, w': World)
    requires Conserved(g, w) && LaunchOk(g, rank, w) && Next(g, w, w')
    ensures LaunchOk(g, rank, w')
  {
    hide Conserved, LaunchOk, StepA, StepATail, StepB, StepC, StepD;
    if StepTop(g, w, w') {
      match Top(w.stack).kind
      case A => if w.ts[Top(w.stack).t].progress.Init? { LaunchStart(g, rank, w); } else { LaunchAsk(g, rank, w); }
      case ATail => LaunchATail(g, rank, w);
      case B =>
        var cmds :| w' == StepB(g, w, cmds);
        LaunchB(g, rank, w, cmds);
      case C => LaunchC(g, rank, w);
      case D => LaunchD(g, rank, w);
    } else {
      var t, status :| Finishes(w, t, status) && w' == Closure(w, t, status);
      LaunchClosure(g, rank, w, t, status);
    }
  }

  lemma LaunchClosure(g: Graph, rank: seq<nat>, w: World, t: nat, status: nat)
    requires Conserved(g, w) && LaunchOk(g, rank, w) && Finishes(w, t, status)
    ensures LaunchOk(g, rank, Closure(w, t, status))
  {
    hide AskAbove, FitsAt, WfTarget, RankDown, DepsDue, CmdsGood, Calm;
    var w' := Closure(w, t, status);
    WfClosure(g, w, t, status);
    CalmClosure(w, t, status);
    CalmLaunch(g, rank, w, w');
    CmdsStay(g, w, w');
  }

  /** Whatever command is running, or about to be started, its target's dependencies are all
      done, and each succeeded or is marked NOCARE. */
  lemma LaunchSafe(g: Graph, rank: seq<nat>, w: World, t: nat, c: nat)
    requires Conserved(g, w) && LaunchOk(g, rank, w) && t < |w.ts| && c in g.depends[t]
    requires t in w.running || (w.stack != [] && Top(w.stack).kind.C? && Top(w.stack).t == t && w.ts[t].cmds != [])
    ensures c < |w.ts| && w.ts[c].progress.Done? && (w.ts[c].status == EXEC_CMD_OK || c in g.nocare)
  {
    hide AskAbove, SumsOf, WfTarget, WfEntry, RankDown, DepsDue;
    assert FitsAt(w, t);
    assert w.ts[t].cmds != [];
    assert DepGood(g, w, c);
  }
}
