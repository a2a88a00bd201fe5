/** What the result of make1 means: which targets it set out to build, and which of those
    failed. */
module Make1Failures {
  import opened Make1State
  import opened TargetFates
  import opened Make1Counters
  import opened Make1Steps
  import opened Make1Waits
  import opened Make1Launch
  import opened Make1Runs

  /** The targets that commands are being run for. */
  function Building(w: World): set<nat> {
    set t: nat | t < |w.ts| && w.ts[t].progress.Running?
  }

  /** The targets that commands were run for at some time in a run. */
  function BuiltIn(ws: seq<World>): set<nat> {
    if ws == [] then {} else BuiltIn(ws[..|ws| - 1]) + Building(ws[|ws| - 1])
  }

  lemma {:induction false} BuiltMeans(ws: seq<World>, t: nat)
    ensures t in BuiltIn(ws) <==> exists k :: 0 <= k < |ws| && t in Building(ws[k])
    decreases |ws|
  {
    if ws != [] {
      var rest := ws[..|ws| - 1];
      BuiltMeans(rest, t);
      if t in BuiltIn(rest) {
        var k :| 0 <= k < |rest| && t in Building(rest[k]);
        assert ws[k] == rest[k];
      }
      if k :| 0 <= k < |ws| && t in Building(ws[k]) {
        if k < |rest| { assert rest[k] == ws[k]; }
      }
    }
  }

  /** Those of B that are done, with this status. */
  function Ended(w: World, B: set<nat>, status: nat): set<nat> {
    set t | t in B && t < |w.ts| && w.ts[t].progress.Done? && w.ts[t].status == status
  }

  /** The counts tell about B, the targets that have been built since they were reset. */
  ghost predicate Booked(g: Graph, w: World, B: set<nat>) {
    && (forall t :: t in B ==> t < |w.ts| && (w.ts[t].progress.Running? || w.ts[t].progress.Done?))
    && (forall t :: t in B ==> t < |g.fate| && t < |g.actions| && Builds(g.fate[t]) && g.actions[t] != [])
    && Building(w) <= B
    && w.counts.total == |B| && w.counts.made == |Ended(w, B, EXEC_CMD_OK)| && w.counts.failed == |Ended(w, B, EXEC_CMD_FAIL)|
  }

  /** Nobody begins or stops being built, and what is done stays so. */
  ghost predicate SameBuilding(w: World, w': World) {
    && |w'.ts| == |w.ts|
    && w'.counts == w.counts.(skipped := w'.counts.skipped)
    && (forall t :: 0 <= t < |w.ts| ==> w'.ts[t].progress.Running? == w.ts[t].progress.Running?)
    && (forall t :: 0 <= t < |w.ts| && w.ts[t].progress.Done? ==> w'.ts[t].progress.Done? && w'.ts[t].status == w.ts[t].status)
  }

  lemma BookedSame(g: Graph, w: World, w': World, B: set<nat>)
    requires Booked(g, w, B) && SameBuilding(w, w')
    ensures Booked(g, w', B + Building(w'))
  {
    assert Building(w') == Building(w) && B + Building(w') == B;
    forall t | t in B
      ensures w'.ts[t].progress.Done? == w.ts[t].progress.Done?
    {
      assert w.ts[t].progress.Running? || w.ts[t].progress.Done?;
    }
    assert Ended(w', B, EXEC_CMD_OK) == Ended(w, B, EXEC_CMD_OK);
    assert Ended(w', B, EXEC_CMD_FAIL) == Ended(w, B, EXEC_CMD_FAIL);
  }

  lemma StartSets(w: World, w': World, B: set<nat>, u: nat, s: nat)
    requires u < |w.ts| == |w'.ts| && w'.ts == w.ts[u := w'.ts[u]] && w'.ts[u].progress.Running? && u !in B
    ensures Building(w') == Building(w) + {u}
    ensures Ended(w', B + {u}, s) == Ended(w, B, s)
    ensures |B + {u}| == |B| + 1
  {
  }

  /** u begins to be built. */
  lemma BookedStart(g: Graph, w: World, w': World, B: set<nat>, u: nat)
    requires Booked(g, w, B) && u < |w.ts| == |w'.ts| && w'.ts == w.ts[u := w'.ts[u]]
    requires w.ts[u].progress.Active? && w'.ts[u].progress.Running? && w'.counts == w.counts.(total := w.counts.total + 1)
    requires u < |g.fate| && u < |g.actions| && Builds(g.fate[u]) && g.actions[u] != []
    ensures Booked(g, w', B + {u}) && B + {u} == B + Building(w')
  {
    hide Building, Ended, Builds;
    assert u !in B;
    StartSets(w, w', B, u, EXEC_CMD_OK);
    StartSets(w, w', B, u, EXEC_CMD_FAIL);
    assert forall t :: t in B ==> w'.ts[t] == w.ts[t];
  }

  lemma EndSets(w: World, w': World, B: set<nat>, u: nat, s: nat)
    requires u < |w.ts| == |w'.ts| && w'.ts == w.ts[u := w'.ts[u]] && !w.ts[u].progress.Done? && w'.ts[u].progress.Done?
    ensures Building(w') == Building(w) - {u}
    ensures |Ended(w', B, s)| == |Ended(w, B, s)| + (if u in B && s == w'.ts[u].status then 1 else 0)
  {
    assert u !in Ended(w, B, s);
    assert Ended(w', B, s) == Ended(w, B, s) + (if u in B && s == w'.ts[u].status then {u} else {});
  }

  /** u is done; if it was being built, it counts. */
  lemma BookedEnd(g: Graph, w: World, w': World, B: set<nat>, u: nat)
    requires Booked(g, w, B) && u < |w.ts| == |w'.ts| && w'.ts == w.ts[u := w'.ts[u]]
    requires !w.ts[u].progress.Done? && w'.ts[u].progress.Done? && w'.ts[u].status <= EXEC_CMD_FAIL
    requires w'.counts == Tally(w.counts, w.ts[u], w'.ts[u].status)
    ensures Booked(g, w', B + Building(w'))
  {
    hide Building, Ended, Builds;
    assert u in B <==> w.ts[u].progress.Running? by { InBuilding(w, u); }
    assert forall t :: t in B && t != u ==> w'.ts[t] == w.ts[t];
    EndSets(w, w', B, u, EXEC_CMD_OK);
    EndSets(w, w', B, u, EXEC_CMD_FAIL);
    assert B + Building(w') == B;
  }

  lemma InBuilding(w: World, u: nat)
    ensures u in Building(w) <==> u < |w.ts| && w.ts[u].progress.Running?
  {
  }

  lemma SameB(g: Graph, w: World, cmds: seq<Cmd>, B: set<nat>)
    requires Conserved(g, w) && Booked(g, w, B) && w.stack != [] && Top(w.stack).kind.B?
    ensures var w' := StepB(g, w, cmds); Booked(g, w', B + Building(w'))
  {
    hide Booked, SumsOf, AskAbove, FitsAt, WfTarget, DepStatus, Building;
    var u, w' := Top(w.stack).t, StepB(g, w, cmds);
    assert WfEntry(g, Top(w.stack));
    WaitingB(g, w);
    if w'.ts[u].progress.Running? {
      BookedStart(g, w, w', B, u);
    } else {
      BookedSame(g, w, w', B);
    }
  }

  lemma SameA(g: Graph, w: World)
    requires Conserved(g, w) && w.stack != [] && Top(w.stack).kind.A?
    ensures SameBuilding(w, StepA(g, w))
  {
    hide SumsOf, AskAbove, FitsAt, WfTarget, AskFor;
    assert WfEntry(g, Top(w.stack));
    AskingA(g, w);
  }

  lemma SameATail(g: Graph, w: World)
    requires Conserved(g, w) && w.stack != [] && Top(w.stack).kind.ATail?
    ensures SameBuilding(w, StepATail(g, w))
  {
    hide SumsOf, AskAbove, FitsAt, WfTarget;
    assert WfEntry(g, Top(w.stack));
    TailStarted(g, w);
  }

  lemma SameD(g: Graph, w: World)
    requires Conserved(g, w) && w.stack != [] && Top(w.stack).kind.D? && w.ts[Top(w.stack).t].cmds != []
    ensures SameBuilding(w, StepD(g, w))
  {
    hide SumsOf, AskAbove, FitsAt, WfTarget;
    BusyTop(g, w);
  }

  lemma BookedC(g: Graph, w: World, B: set<nat>)
    requires Conserved(g, w) && Booked(g, w, B) && w.stack != [] && Top(w.stack).kind.C?
    ensures var w' := StepC(g, w); Booked(g, w', B + Building(w'))
  {
    hide Booked, SumsOf, AskAbove, FitsAt, Building, Tell, Distribute, ActStatus;
    var u, w' := Top(w.stack).t, StepC(g, w);
    assert WfEntry(g, Top(w.stack));
    BusyTop(g, w);
    if w.ts[u].cmds != [] && w.ts[u].status == EXEC_CMD_OK {
      BookedSame(g, w, w', B);
    } else {
      WfFinish(g, w);
      assert WfTarget(g, w'.ts[u]);
      BookedEnd(g, w, w', B, u);
    }
  }

  /** Whatever happens next, the counts tell about those built since they were reset. */
  lemma NextBooked(g: Graph, w: World, w': World, B: set<nat>)
    requires Conserved(g, w) && Booked(g, w, B) && Next(g, w, w')
    ensures Booked(g, w', B + Building(w'))
  {
    hide Conserved, Booked, Building, StepA, StepATail, StepB, StepC, StepD, WfTarget;
    if StepTop(g, w, w') {
      match Top(w.stack).kind
      case A =>
        SameA(g, w);
        BookedSame(g, w, w', B);
      case ATail =>
        SameATail(g, w);
        BookedSame(g, w, w', B);
      case B =>
        var cmds :| w' == StepB(g, w, cmds);
        SameB(g, w, cmds, B);
      case C => BookedC(g, w, B);
      case D =>
        SameD(g, w);
        BookedSame(g, w, w', B);
    } else {
      BookedSame(g, w, w', B);
    }
  }

  lemma BeginBooked(g: Graph, w: World, root: nat)
    requires Quiet(g, w) && root < |w.ts|
    ensures Building(Begin(w, root)) == {} && Booked(g, Begin(w, root), {})
  {
    hide Sound;
    QuietIsDone(g, w);
    var w' := Begin(w, root);
    assert forall s :: Ended(w', {}, s) == {};
  }

  lemma {:induction false} RunBooked(g: Graph, w: World, root: nat, ws: seq<World>)
    requires Quiet(g, w) && root < |w.ts| && IsRun(g, ws) && ws[0] == Begin(w, root)
    ensures Sound(g, ws[|ws| - 1]) && Booked(g, ws[|ws| - 1], BuiltIn(ws))
    decreases |ws|
  {
    hide Sound, Next, Booked, Building, Quiet;
    if |ws| == 1 {
      BeginSound(g, w, root);
      BeginBooked(g, w, root);
      assert ws[..0] == [] && BuiltIn(ws) == {};
    } else {
      var rest, w1, w2 := ws[..|ws| - 1], ws[|ws| - 2], ws[|ws| - 1];
      RunRest(g, ws);
      RunBooked(g, w, root, rest);
      NextSound(g, w1, w2);
      Counted(g, w1);
      NextBooked(g, w1, w2, BuiltIn(rest));
    }
  }

  lemma RunRest(g: Graph, ws: seq<World>)
    requires IsRun(g, ws) && |ws| > 1
    ensures var rest := ws[..|ws| - 1];
      && IsRun(g, rest) && rest[0] == ws[0] && rest[|rest| - 1] == ws[|ws| - 2] && Next(g, ws[|ws| - 2], ws[|ws| - 1])
  {
    hide Next;
    var rest := ws[..|ws| - 1];
    forall k | 0 <= k < |rest| - 1
      ensures Next(g, rest[k], rest[k + 1])
    {
      assert Next(g, ws[k], ws[k + 1]);
    }
    assert Next(g, ws[|ws| - 2], ws[|ws| - 2 + 1]);
  }

  /** Of the targets built in a run, some ended with a failure. */
  ghost predicate AnyFailed(ws: seq<World>)
    requires ws != []
  {
    exists t :: t in BuiltIn(ws) && t < |ws[|ws| - 1].ts| && ws[|ws| - 1].ts[t].status == EXEC_CMD_FAIL
  }

  /** When a run of make1 comes to rest: every target it built was one with actions to be
      brought up to date; total is how many there were, made how many of them succeeded and
      failed how many failed. So make1's result tells whether any of them failed. */
  lemma FailedMeans(g: Graph, w: World, root: nat, ws: seq<World>)
    requires Quiet(g, w) && root < |w.ts| && IsRun(g, ws) && ws[0] == Begin(w, root)
    requires Quiet(g, ws[|ws| - 1])
    ensures var end, B := ws[|ws| - 1], BuiltIn(ws);
      && (forall t :: t in B ==> t < |end.ts| && end.ts[t].progress.Done? && end.ts[t].status <= EXEC_CMD_FAIL)
      && (forall t :: t in B ==> t < |g.fate| && t < |g.actions| && Builds(g.fate[t]) && g.actions[t] != [])
      && end.counts.total == |B|
      && end.counts.made == |set t | t in B && t < |end.ts| && end.ts[t].status == EXEC_CMD_OK|
      && end.counts.failed == |set t | t in B && t < |end.ts| && end.ts[t].status == EXEC_CMD_FAIL|
      && (end.counts.total != end.counts.made <==> AnyFailed(ws))
  {
    hide Sound, Next, BuiltIn;
    RunBooked(g, w, root, ws);
    var end, B := ws[|ws| - 1], BuiltIn(ws);
    QuietIsDone(g, end);
    Typed(g, end);
    Rested(g, end, B);
    if end.counts.failed == 0 {
      assert forall t :: t in B && t < |end.ts| ==> t !in Ended(end, B, EXEC_CMD_FAIL);
    } else {
      var t :| t in Ended(end, B, EXEC_CMD_FAIL);
    }
  }

  lemma Rested(g: Graph, w: World, B: set<nat>)
    requires WfWorld(g, w) && Booked(g, w, B)
    requires forall t :: 0 <= t < |w.ts| ==> w.ts[t].progress.Init? || w.ts[t].progress.Done?
    ensures forall t :: t in B ==> t < |w.ts| && w.ts[t].progress.Done? && w.ts[t].status <= EXEC_CMD_FAIL
    ensures Ended(w, B, EXEC_CMD_OK) == set t | t in B && t < |w.ts| && w.ts[t].status == EXEC_CMD_OK
    ensures Ended(w, B, EXEC_CMD_FAIL) == set t | t in B && t < |w.ts| && w.ts[t].status == EXEC_CMD_FAIL
  {
    hide WfEntry, WfGraph, Building;
    assert forall t :: t in B ==> WfTarget(g, w.ts[t]);
  }

  // ---- which targets are built, on an acyclic graph ----

  /** No status but that of a target that has been released tells of a failure. */
  ghost predicate Clean(w: World) {
    |w.ts| == |w.released| && forall t :: 0 <= t < |w.ts| && w.released[t] == 0 ==> w.ts[t].status == EXEC_CMD_OK
  }

  /** No dependency of t that it cares about has failed. */
  ghost predicate Unhindered(g: Graph, w: World, t: nat)
    requires t < |g.depends|
  {
    forall c :: c in g.depends[t] ==> c in g.nocare || (c < |w.ts| && w.ts[c].status == EXEC_CMD_OK)
  }

  ghost predicate DepsDone(g: Graph, w: World, t: nat)
    requires t < |g.depends|
  {
    forall c :: c in g.depends[t] ==> c < |w.ts| && w.ts[c].progress.Done?
  }

  /** If t was released since w0: its dependencies are done, and it was built exactly if it has
      actions, needs them, and is unhindered. */
  ghost predicate Reason(g: Graph, w0: World, w: World, B: set<nat>, t: nat)
    requires t < |g.depends| == |g.fate| == |g.actions| == |w0.released| == |w.released|
  {
    w0.released[t] == 0 && w.released[t] > 0 ==>
      DepsDone(g, w, t) && (t in B <==> Builds(g.fate[t]) && g.actions[t] != [] && Unhindered(g, w, t))
  }

  ghost predicate Reasoned(g: Graph, w0: World, w: World, B: set<nat>) {
    && |g.depends| == |g.fate| == |g.actions| == |w0.released| == |w.released| && Clean(w) && Building(w) <= B
    && forall t: nat :: t < |g.depends| ==> Reason(g, w0, w, B, t)
  }

  lemma ReasonStays(g: Graph, w0: World, w: World, w': World, B: set<nat>, B': set<nat>, t: nat)
    requires t < |g.depends| == |g.fate| == |g.actions| == |w0.released| == |w.released| == |w'.released|
    requires Reason(g, w0, w, B, t) && DoneStays(w, w') && w'.released[t] == w.released[t] && (t in B' <==> t in B)
    ensures Reason(g, w0, w', B', t)
  {
  }

  /** A step that releases nobody. */
  lemma ReasonedSame(g: Graph, w0: World, w: World, w': World, B: set<nat>)
    requires Reasoned(g, w0, w, B) && DoneStays(w, w') && w'.released == w.released && Building(w') <= Building(w)
    requires forall t :: 0 <= t < |w.ts| && w.released[t] == 0 ==> w'.ts[t].status == w.ts[t].status
    ensures Reasoned(g, w0, w', B + Building(w'))
  {
    hide Reason, DoneStays, Building;
    assert B + Building(w') == B;
    assert |w'.ts| == |w.ts| by { SameSize(w, w'); }
    forall t: nat | t < |g.depends|
      ensures Reason(g, w0, w', B, t)
    {
      ReasonStays(g, w0, w, w', B, B, t);
    }
  }

  lemma SameSize(w: World, w': World)
    requires DoneStays(w, w')
    ensures |w'.ts| == |w.ts|
  {
  }

  /** The worst status of the dependencies is OK exactly if none hinders. */
  lemma NoHindrance(g: Graph, w: World, t: nat, status: nat)
    requires WfWorld(g, w) && t < |g.depends|
    ensures DepStatus(g, w.ts, g.depends[t], status) == EXEC_CMD_OK <==> status == EXEC_CMD_OK && Unhindered(g, w, t)
  {
    hide WfEntry, WfTarget;
    assert forall c :: c in g.depends[t] ==> c < |w.ts|;
  }

  /** u is released. */
  lemma ReasonedB(g: Graph, rank: seq<nat>, w0: World, w: World, cmds: seq<Cmd>, B: set<nat>)
    requires Conserved(g, w) && LaunchOk(g, rank, w) && Booked(g, w, B) && Reasoned(g, w0, w, B)
    requires w.stack != [] && Top(w.stack).kind.B?
    ensures var w' := StepB(g, w, cmds); Reasoned(g, w0, w', B + Building(w'))
  {
    hide SumsOf, AskAbove, FitsAt, WfTarget, DepStatus, Reason, Booked, LaunchOk, Builds;
    var u, w' := Top(w.stack).t, StepB(g, w, cmds);
    assert WfEntry(g, Top(w.stack));
    WaitingB(g, w);
    if w'.released == w.released {
      ReasonedSame(g, w0, w, w', B);
    } else {
      var B' := B + Building(w');
      ReleasedReason(g, rank, w0, w, cmds, B);
      forall t: nat | t < |g.depends| && t != u
        ensures Reason(g, w0, w', B', t)
      {
        ReasonStays(g, w0, w, w', B, B', t);
      }
    }
  }

  lemma ReleasedReason(g: Graph, rank: seq<nat>, w0: World, w: World, cmds: seq<Cmd>, B: set<nat>)
    requires Conserved(g, w) && LaunchOk(g, rank, w) && Booked(g, w, B) && Reasoned(g, w0, w, B)
    requires w.stack != [] && Top(w.stack).kind.B? && StepB(g, w, cmds).released != w.released
    ensures var u, w' := Top(w.stack).t, StepB(g, w, cmds);
      && u < |w.ts| && Reason(g, w0, w', B + Building(w'), u)
  {
    hide SumsOf, AskAbove, FitsAt, WfTarget, DepStatus, LaunchOk, Reasoned, Ended, Conserved;
    Counting(g, w);
    var u, w' := Top(w.stack).t, StepB(g, w, cmds);
    assert WfEntry(g, Top(w.stack));
    WaitingB(g, w);
    CleanAt(g, w0, w, B, u);
    forall c | c in g.depends[u]
      ensures c < |w.ts| && w.ts[c].progress.Done? && c != u && w'.ts[c] == w.ts[c]
    {
      AllDue(g, rank, w, c);
    }
    NoHindrance(g, w, u, w.ts[u].status);
    assert u !in B;
    assert Unhindered(g, w', u) <==> Unhindered(g, w, u);
    assert u in Building(w') <==> w'.ts[u].progress.Running?;
  }

  lemma Counting(g: Graph, w: World)
    requires Conserved(g, w)
    ensures WfWorld(g, w)
  {
    hide WfEntry, WfTarget, FitsAt, AskAbove;
  }

  lemma CleanAt(g: Graph, w0: World, w: World, B: set<nat>, u: nat)
    requires Reasoned(g, w0, w, B) && u < |w.ts| == |w.released| && w.released[u] == 0
    ensures w.ts[u].status == EXEC_CMD_OK && |g.depends| == |g.fate| == |g.actions| == |w0.released| == |w.released|
  {
    hide Reason, Building;
  }

  lemma ReasonedA(g: Graph, w0: World, w: World, B: set<nat>)
    requires Conserved(g, w) && Reasoned(g, w0, w, B) && w.stack != [] && Top(w.stack).kind.A?
    ensures var w' := StepA(g, w); Reasoned(g, w0, w', B + Building(w'))
  {
    hide SumsOf, AskAbove, FitsAt, WfTarget, AskFor, Reasoned;
    assert WfEntry(g, Top(w.stack));
    AskingA(g, w);
    ReasonedSame(g, w0, w, StepA(g, w), B);
  }

  lemma ReasonedATail(g: Graph, w0: World, w: World, B: set<nat>)
    requires Conserved(g, w) && Reasoned(g, w0, w, B) && w.stack != [] && Top(w.stack).kind.ATail?
    ensures var w' := StepATail(g, w); Reasoned(g, w0, w', B + Building(w'))
  {
    hide SumsOf, AskAbove, FitsAt, WfTarget, Reasoned;
    assert WfEntry(g, Top(w.stack));
    TailStarted(g, w);
    ReasonedSame(g, w0, w, StepATail(g, w), B);
  }

  lemma ReasonedC(g: Graph, w0: World, w: World, B: set<nat>)
    requires Conserved(g, w) && Reasoned(g, w0, w, B) && w.stack != [] && Top(w.stack).kind.C?
    ensures var w' := StepC(g, w); Reasoned(g, w0, w', B + Building(w'))
  {
    hide SumsOf, AskAbove, FitsAt, WfTarget, Reasoned, Tell, Distribute, ActStatus, Tally;
    assert WfEntry(g, Top(w.stack));
    BusyTop(g, w);
    ReasonedSame(g, w0, w, StepC(g, w), B);
  }

  lemma ReasonedD(g: Graph, w0: World, w: World, B: set<nat>)
    requires Conserved(g, w) && Reasoned(g, w0, w, B) && w.stack != [] && Top(w.stack).kind.D? && w.ts[Top(w.stack).t].cmds != []
    ensures var w' := StepD(g, w); Reasoned(g, w0, w', B + Building(w'))
  {
    hide SumsOf, AskAbove, FitsAt, WfTarget, Reasoned;
    BusyTop(g, w);
    ReasonedSame(g, w0, w, StepD(g, w), B);
  }

  lemma NextReasoned(g: Graph, rank: seq<nat>, w0: World, w: World, w': World, B: set<nat>)
    requires Conserved(g, w) && LaunchOk(g, rank, w) && Booked(g, w, B) && Reasoned(g, w0, w, B) && Next(g, w, w')
    ensures Reasoned(g, w0, w', B + Building(w'))
  {
    hide Conserved, LaunchOk, Booked, Reasoned, StepA, StepATail, StepB, StepC, StepD, WfTarget;
    if StepTop(g, w, w') {
      match Top(w.stack).kind
      case A => ReasonedA(g, w0, w, B);
      case ATail => ReasonedATail(g, w0, w, B);
      case B =>
        var cmds :| w' == StepB(g, w, cmds);
        ReasonedB(g, rank, w0, w, cmds, B);
      case C => ReasonedC(g, w0, w, B);
      case D => ReasonedD(g, w0, w, B);
    } else {
      ReasonedSame(g, w0, w, w', B);
    }
  }

  lemma {:induction false} RunReasoned(g: Graph, rank: seq<nat>, w: World, root: nat, ws: seq<World>)
    requires Quiet(g, w) && LaunchOk(g, rank, w) && Clean(w) && root < |w.ts| && IsRun(g, ws) && ws[0] == Begin(w, root)
    ensures LaunchOk(g, rank, ws[|ws| - 1]) && Reasoned(g, Begin(w, root), ws[|ws| - 1], BuiltIn(ws))
    decreases |ws|
  {
    hide Sound, Next, Booked, Building, Quiet, Reasoned, LaunchOk;
    if |ws| == 1 {
      BeginReasoned(g, rank, w, root);
      assert ws[..0] == [] && BuiltIn(ws) == {};
    } else {
      var rest, w1, w2 := ws[..|ws| - 1], ws[|ws| - 2], ws[|ws| - 1];
      RunRest(g, ws);
      RunReasoned(g, rank, w, root, rest);
      RunBooked(g, w, root, rest);
      Counted(g, w1);
      NextReasoned(g, rank, Begin(w, root), w1, w2, BuiltIn(rest));
      NextLaunch(g, rank, w1, w2);
    }
  }

  lemma BeginReasoned(g: Graph, rank: seq<nat>, w: World, root: nat)
    requires Quiet(g, w) && LaunchOk(g, rank, w) && Clean(w) && root < |w.ts|
    ensures var w' := Begin(w, root); LaunchOk(g, rank, w') && Building(w') == {} && Reasoned(g, w', w', {})
  {
    hide Sound, LaunchOk, Clean;
    BeginBooked(g, w, root);
    Typed(g, w);
    BeginLaunch(g, rank, w, root);
    CleanBegin(w, root);
  }

  lemma CleanBegin(w: World, root: nat)
    requires Clean(w)
    ensures Clean(Begin(w, root))
  {
  }

  /** On an acyclic graph, a target that a run of make1 has dealt with was built if and only if
      it has actions, its fate asks for them, and no dependency that it cares about failed. */
  lemma BuiltWhen(g: Graph, rank: seq<nat>, w: World, root: nat, ws: seq<World>, t: nat)
    requires Quiet(g, w) && LaunchOk(g, rank, w) && Clean(w) && root < |w.ts| && IsRun(g, ws) && ws[0] == Begin(w, root)
    requires Quiet(g, ws[|ws| - 1]) && t < |w.ts|
    requires w.ts[t].progress.Init? && t < |ws[|ws| - 1].ts| && ws[|ws| - 1].ts[t].progress.Done?
    ensures t < |g.depends| == |g.fate| == |g.actions|
    ensures t in BuiltIn(ws) <==> Builds(g.fate[t]) && g.actions[t] != [] && Unhindered(g, ws[|ws| - 1], t)
  {
    hide Sound, Next, LaunchOk, BuiltIn, Clean, Building, Unhindered, Builds;
    RunReasoned(g, rank, w, root, ws);
    QuietIsDone(g, ws[|ws| - 1]);
    Typed(g, w);
    Untouched(g, w, t);
    assert Reason(g, Begin(w, root), ws[|ws| - 1], BuiltIn(ws), t);
  }

  lemma Untouched(g: Graph, w: World, t: nat)
    requires Sound(g, w) && t < |w.ts| == |w.released| && w.ts[t].progress.Init?
    ensures w.released[t] == 0
  {
    hide Owed, Queued, AskAbove, Ordered, Tallied, WfTarget, WfEntry;
    assert FitsAt(w, t);
  }

  lemma FreshClean(g: Graph)
    ensures Clean(Fresh(g))
  {
  }

  // ---- what the result does not tell ----

  /** One target with nothing to make it and no file, asked for. */
  const LOST: Graph := Graph([[]], [BROKEN], {}, {}, [[]], [NONE], 0, 0, false)

  /** The states it goes through, with at most one entry on the stack. */
  function Lost(k: int, x: Target, clock: nat, released: nat): World {
    var st := if k == 0 then [Entry(A, 0, NONE, 0)] else if k == 1 then [Entry(ATail, 0, NONE, 0)]
      else if k == 2 then [Entry(B, 0, NONE, 0)] else if k == 3 then [Entry(C, 0, NONE, 0)] else [];
    World(st, [x], [], {}, [], Counts(0, 0, 0, 0), [0], clock, [released])
  }

  lemma LostOk(k: int, x: Target, clock: nat, released: nat)
    requires x.status <= EXEC_CMD_FAIL && x.parents == []
    ensures WfWorld(LOST, Lost(k, x, clock, released))
  {
  }

  lemma LostA()
    ensures Next(LOST, Lost(0, Target(Init, 0, 0, [], []), 0, 0), Lost(1, Target(OnStack, 1, 0, [], []), 0, 0))
  {
    hide WfWorld;
    var w := Lost(0, Target(Init, 0, 0, [], []), 0, 0);
    LostOk(0, w.ts[0], 0, 0);
    assert StepA(LOST, w).stack == [Entry(ATail, 0, NONE, 0)];
    assert StepA(LOST, w) == Lost(1, Target(OnStack, 1, 0, [], []), 0, 0);
  }

  lemma LostATail()
    ensures Next(LOST, Lost(1, Target(OnStack, 1, 0, [], []), 0, 0), Lost(2, Target(Active, 1, 0, [], []), 1, 0))
  {
    hide WfWorld;
    var w := Lost(1, Target(OnStack, 1, 0, [], []), 0, 0);
    LostOk(1, w.ts[0], 0, 0);
    assert StepATail(LOST, w) == Lost(2, Target(Active, 1, 0, [], []), 1, 0);
  }

  lemma LostB()
    ensures Next(LOST, Lost(2, Target(Active, 1, 0, [], []), 1, 0), Lost(3, Target(Active, 0, EXEC_CMD_FAIL, [], []), 1, 1))
  {
    hide WfWorld;
    var w := Lost(2, Target(Active, 1, 0, [], []), 1, 0);
    LostOk(2, w.ts[0], 1, 0);
    assert StepB(LOST, w, []) == Lost(3, Target(Active, 0, EXEC_CMD_FAIL, [], []), 1, 1);
  }

  lemma LostC()
    ensures Next(LOST, Lost(3, Target(Active, 0, EXEC_CMD_FAIL, [], []), 1, 1), Lost(4, Target(Done, 0, EXEC_CMD_FAIL, [], []), 1, 1))
  {
    hide WfWorld;
    var w := Lost(3, Target(Active, 0, EXEC_CMD_FAIL, [], []), 1, 1);
    LostOk(3, w.ts[0], 1, 1);
    assert StepC(LOST, w) == Lost(4, Target(Done, 0, EXEC_CMD_FAIL, [], []), 1, 1);
  }

  /** A target that cannot be found ends as a failure, but nothing was built, so the result is
      that of a success. make() reports such targets from what make0 has counted. */
  lemma LostIsNotCounted() returns (ws: seq<World>)
    ensures IsRun(LOST, ws) && ws[0] == Begin(Fresh(LOST), 0)
    ensures var end := ws[|ws| - 1];
      && end.stack == [] && end.running == {} && |end.ts| == 1 && end.ts[0].progress.Done?
      && end.ts[0].status == EXEC_CMD_FAIL && end.counts.total == end.counts.made == 0
  {
    hide Next;
    LostA();
    LostATail();
    LostB();
    LostC();
    ws := [Lost(0, Target(Init, 0, 0, [], []), 0, 0), Lost(1, Target(OnStack, 1, 0, [], []), 0, 0),
           Lost(2, Target(Active, 1, 0, [], []), 1, 0), Lost(3, Target(Active, 0, EXEC_CMD_FAIL, [], []), 1, 1),
           Lost(4, Target(Done, 0, EXEC_CMD_FAIL, [], []), 1, 1)];
    assert Begin(Fresh(LOST), 0) == ws[0];
  }
}
