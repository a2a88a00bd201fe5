/** make1 comes to an end, as long as commands do: every step leaves less to be done. */
module Make1Measure {
  import opened Make1State
  import opened Make1Counters

  /** What is left: targets not visited, not released, not done; commands; entries. */
  datatype Left = Left(unvisited: nat, unreleased: nat, undone: nat, cmds: nat, entries: nat)

  /** The lexicographic order. */
  predicate Less(a: Left, b: Left) {
    || a.unvisited < b.unvisited
    || (a.unvisited == b.unvisited && a.unreleased < b.unreleased)
    || (a.unvisited == b.unvisited && a.unreleased == b.unreleased && a.undone < b.undone)
    || (a.unvisited == b.unvisited && a.unreleased == b.unreleased && a.undone == b.undone && a.cmds < b.cmds)
    || (a.unvisited == b.unvisited && a.unreleased == b.unreleased && a.undone == b.undone && a.cmds == b.cmds
        && a.entries < b.entries)
  }

  datatype Part = Unvisited | Undone | Cmds

  function Amount(x: Target, p: Part): nat {
    match p
    case Unvisited => if x.progress.Init? then 1 else 0
    case Undone => if x.progress.Done? then 0 else 1
    case Cmds => |x.cmds|
  }

  function Total(ts: seq<Target>, p: Part): nat {
    if ts == [] then 0 else Amount(ts[0], p) + Total(ts[1..], p)
  }

  lemma {:induction false} TotalUpdate(ts: seq<Target>, u: nat, x: Target, p: Part)
    requires u < |ts|
    ensures Total(ts[u := x], p) + Amount(ts[u], p) == Total(ts, p) + Amount(x, p)
    decreases |ts|
  {
    var us := ts[u := x];
    if u == 0 {
      assert us[1..] == ts[1..];
    } else {
      assert us[1..] == ts[1..][u - 1 := x];
      TotalUpdate(ts[1..], u - 1, x, p);
    }
  }

  function Unreleased(rel: seq<nat>): nat {
    if rel == [] then 0 else (if rel[0] == 0 then 1 else 0) + Unreleased(rel[1..])
  }

  lemma {:induction false} UnreleasedUpdate(rel: seq<nat>, u: nat)
    requires u < |rel| && rel[u] == 0
    ensures Unreleased(rel[u := 1]) < Unreleased(rel)
    decreases |rel|
  {
    var us := rel[u := 1];
    if u == 0 {
      assert us[1..] == rel[1..];
    } else {
      assert us[1..] == rel[1..][u - 1 := 1];
      UnreleasedUpdate(rel[1..], u - 1);
    }
  }

  function Weight(k: Kind): nat {
    match k
    case A => 1
    case ATail => 2
    case B => 1
    case C => 4
    case D => 2
  }

  function Entries(st: seq<Entry>): nat {
    if st == [] then 0 else Entries(Rest(st)) + Weight(Top(st).kind)
  }

  lemma EntriesPush(st: seq<Entry>, e: Entry)
    ensures Entries(st + [e]) == Entries(st) + Weight(e.kind)
  {
    assert Rest(st + [e]) == st;
  }

  function LeftOf(w: World): Left {
    Left(Total(w.ts, Unvisited), Unreleased(w.released), Total(w.ts, Undone), Total(w.ts, Cmds),
         Entries(w.stack) + 3 * |w.running|)
  }

  lemma LessA(g: Graph, w: World)
    requires Conserved(g, w) && w.stack != [] && Top(w.stack).kind.A?
    ensures Less(LeftOf(StepA(g, w)), LeftOf(w))
  {
    hide AskAbove, FitsAt, WfTarget, AskFor;
    var e := Top(w.stack);
    assert WfEntry(g, e);
    AskingA(g, w);
    SameTotal(w.ts, e.t, e.parent, Unvisited);
    SameTotal(w.ts, e.t, e.parent, Undone);
    SameTotal(w.ts, e.t, e.parent, Cmds);
    var ts1 := if e.parent != NONE && Awaited(w.ts[e.t].progress) then Register(w.ts, e.t, e.parent) else w.ts;
    if ts1[e.t].progress.Init? {
      TotalUpdate(ts1, e.t, ts1[e.t].(asynccnt := 1, progress := OnStack), Unvisited);
    }
  }

  lemma SameTotal(ts: seq<Target>, t: nat, p: int, part: Part)
    requires t < |ts| && NONE <= p < |ts|
    ensures p != NONE ==> Total(Register(ts, t, p), part) == Total(ts, part)
  {
    hide Total;
    if p != NONE {
      var x := ts[t].(parents := ts[t].parents + [p]);
      TotalUpdate(ts, t, x, part);
      var ts1 := ts[t := x];
      TotalUpdate(ts1, p, ts1[p].(asynccnt := ts1[p].asynccnt + 1), part);
    }
  }

  /** A target changes in nothing that counts. */
  lemma TotalsSame(ts: seq<Target>, t: nat, x: Target)
    requires t < |ts| && x.cmds == ts[t].cmds
    requires x.progress.Init? == ts[t].progress.Init? && x.progress.Done? == ts[t].progress.Done?
    ensures forall p :: Total(ts[t := x], p) == Total(ts, p)
  {
    forall p
      ensures Total(ts[t := x], p) == Total(ts, p)
    {
      TotalUpdate(ts, t, x, p);
    }
  }

  lemma LessATail(g: Graph, w: World)
    requires Conserved(g, w) && w.stack != [] && Top(w.stack).kind.ATail?
    ensures Less(LeftOf(StepATail(g, w)), LeftOf(w))
  {
    hide AskAbove, WfTarget, Owed, Queued;
    var e := Top(w.stack);
    assert WfEntry(g, e) && FitsAt(w, e.t);
    TopSums(w, e.t, Tails);
    TotalsSame(w.ts, e.t, w.ts[e.t].(progress := Active));
    EntriesPush(Rest(w.stack), e.(kind := B));
  }

  lemma LessB(g: Graph, w: World, cmds: seq<Cmd>)
    requires Conserved(g, w) && w.stack != [] && Top(w.stack).kind.B?
    ensures Less(LeftOf(StepB(g, w, cmds)), LeftOf(w))
  {
    hide AskAbove, FitsAt, WfTarget, DepStatus;
    var e, w' := Top(w.stack), StepB(g, w, cmds);
    assert WfEntry(g, e);
    WaitingB(g, w);
    if w'.released == w.released {
      TotalsSame(w.ts, e.t, w.ts[e.t].(asynccnt := w.ts[e.t].asynccnt - 1));
    } else {
      TotalUpdate(w.ts, e.t, w'.ts[e.t], Unvisited);
      assert w'.ts == w.ts[e.t := w'.ts[e.t]];
      UnreleasedUpdate(w.released, e.t);
    }
  }

  lemma LessC(g: Graph, w: World)
    requires Conserved(g, w) && w.stack != [] && Top(w.stack).kind.C?
    ensures Less(LeftOf(StepC(g, w)), LeftOf(w))
  {
    hide AskAbove, FitsAt, WfTarget, Finish;
    var e := Top(w.stack);
    assert WfEntry(g, e);
    BusyTop(g, w);
    var x := w.ts[e.t];
    if x.cmds != [] && x.status == EXEC_CMD_OK {
      EntriesPush(Rest(w.stack), e.(kind := D, status := EXEC_CMD_OK));
    } else {
      LessFinish(g, w);
    }
  }

  lemma LessFinish(g: Graph, w: World)
    requires Conserved(g, w) && w.stack != [] && Top(w.stack).kind.C?
    ensures Less(LeftOf(Finish(g, w)), LeftOf(w))
  {
    hide AskAbove, FitsAt, WfTarget, ActStatus, Distribute, Tell, WfEntry;
    BusyTop(g, w);
    var t, w' := Top(w.stack).t, Finish(g, w);
    TotalUpdate(w.ts, t, w'.ts[t], Unvisited);
    TotalUpdate(w.ts, t, w'.ts[t], Undone);
  }

  lemma LessD(g: Graph, w: World)
    requires Conserved(g, w) && w.stack != [] && Top(w.stack).kind.D? && w.ts[Top(w.stack).t].cmds != []
    ensures Less(LeftOf(StepD(g, w)), LeftOf(w))
  {
    hide AskAbove, FitsAt, WfTarget;
    assert WfEntry(g, Top(w.stack));
    var t, w' := Top(w.stack).t, StepD(g, w);
    TotalUpdate(w.ts, t, w'.ts[t], Unvisited);
    TotalUpdate(w.ts, t, w'.ts[t], Undone);
    TotalUpdate(w.ts, t, w'.ts[t], Cmds);
  }

  /** Every run is finite: whatever happens next, less is left. */
  lemma NextLess(g: Graph, w: World, w': World)
    requires Conserved(g, w) && Next(g, w, w')
    ensures Less(LeftOf(w'), LeftOf(w))
  {
    hide Conserved, Less, StepA, StepATail, StepB, StepC, StepD, LeftOf, WfWorld;
    if StepTop(g, w, w') {
      match Top(w.stack).kind
      case A => LessA(g, w);
      case ATail => LessATail(g, w);
      case B =>
        var cmds :| w' == StepB(g, w, cmds);
        LessB(g, w, cmds);
      case C => LessC(g, w);
      case D => LessD(g, w);
    } else {
      var t, status :| Finishes(w, t, status) && w' == Closure(w, t, status);
      LessClosure(w, t, status);
    }
  }

  lemma LessClosure(w: World, t: nat, status: nat)
    requires t in w.running
    ensures Less(LeftOf(Closure(w, t, status)), LeftOf(w))
  {
    EntriesPush(w.stack, Entry(D, t, NONE, status));
  }
}
