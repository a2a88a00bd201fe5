/** make1() and its steps, over target objects that every step changes in place. */
module Make1Engine {
  import opened Make1State
  import opened TargetFates
  import opened Make1Counters
  import opened Make1Waits
  import opened Make1Semaphores
  import opened Make1Runs
  import opened Make1Measure
  import opened Make1Failures
  import opened Make1Commands
  import opened Make1Verdict

  /** A target, or a semaphore, which is a target of its own. */
  class Node {
    const no: nat
    var progress: Progress
    var asynccnt: int
    var status: nat
    var parents: seq<nat>
    var cmds: seq<Cmd>

    constructor (no: nat)
      ensures this.no == no && progress == Init && asynccnt == 0 && status == EXEC_CMD_OK && parents == [] && cmds == []
    {
      this.no := no;
      progress, asynccnt, status, parents, cmds := Init, 0, EXEC_CMD_OK, [], [];
    }

    function AsTarget(): Target
      reads this
    {
      Target(progress, asynccnt, status, parents, cmds)
    }

    function AsSemaphore(): Semaphore
      reads this
    {
      Semaphore(asynccnt, parents)
    }
  }

  ghost function Targets(nodes: seq<Node>): (r: seq<Target>)
    reads nodes
    ensures |r| == |nodes| && forall i :: 0 <= i < |r| ==> r[i] == nodes[i].AsTarget()
  {
    if nodes == [] then [] else [nodes[0].AsTarget()] + Targets(nodes[1..])
  }

  ghost function Semaphores(nodes: seq<Node>): (r: seq<Semaphore>)
    reads nodes
    ensures |r| == |nodes| && forall i :: 0 <= i < |r| ==> r[i] == nodes[i].AsSemaphore()
  {
    if nodes == [] then [] else [nodes[0].AsSemaphore()] + Semaphores(nodes[1..])
  }

  /** Only node i is not as it was. */
  lemma OneTarget(nodes: seq<Node>, was: seq<Target>, i: nat)
    requires i < |nodes| == |was| && forall j :: 0 <= j < |nodes| && j != i ==> nodes[j].AsTarget() == was[j]
    ensures Targets(nodes) == was[i := nodes[i].AsTarget()]
  {
    hide Targets;
  }

  lemma OneSemaphore(nodes: seq<Node>, was: seq<Semaphore>, i: nat)
    requires i < |nodes| == |was| && forall j :: 0 <= j < |nodes| && j != i ==> nodes[j].AsSemaphore() == was[j]
    ensures Semaphores(nodes) == was[i := nodes[i].AsSemaphore()]
  {
    hide Semaphores;
  }

  lemma SameTargets(nodes: seq<Node>, was: seq<Target>)
    requires |nodes| == |was| && forall j :: 0 <= j < |nodes| ==> nodes[j].AsTarget() == was[j]
    ensures Targets(nodes) == was
  {
    hide Targets;
  }

  lemma SameSemaphores(nodes: seq<Node>, was: seq<Semaphore>)
    requires |nodes| == |was| && forall j :: 0 <= j < |nodes| ==> nodes[j].AsSemaphore() == was[j]
    ensures Semaphores(nodes) == was
  {
    hide Semaphores;
  }

  function Reversed(es: seq<Entry>): seq<Entry> {
    if es == [] then [] else Reversed(es[1..]) + [es[0]]
  }

  /** The 1A entries for deps, in order. */
  function AskList(deps: seq<nat>, p: nat): seq<Entry> {
    if deps == [] then [] else [Entry(A, deps[0], p, 0)] + AskList(deps[1..], p)
  }

  lemma {:induction false} AsksReversed(deps: seq<nat>, p: nat)
    ensures Reversed(AskList(deps, p)) == AskFor(deps, p)
    decreases |deps|
  {
    if deps != [] {
      AsksReversed(deps[1..], p);
      assert AskList(deps, p)[1..] == AskList(deps[1..], p);
    }
  }

  lemma {:induction false} AsksMore(deps: seq<nat>, p: nat, d: nat)
    ensures AskList(deps + [d], p) == AskList(deps, p) + [Entry(A, d, p, 0)]
    decreases |deps|
  {
    if deps == [] {
      assert ([d])[1..] == [];
    } else {
      assert (deps + [d])[1..] == deps[1..] + [d];
      AsksMore(deps[1..], p, d);
    }
  }

  /** The 1B entries for ps, in order. */
  function CallList(ps: seq<nat>): seq<Entry> {
    if ps == [] then [] else [Entry(B, ps[0], NONE, 0)] + CallList(ps[1..])
  }

  lemma {:induction false} CallsReversed(ps: seq<nat>)
    ensures Reversed(CallList(ps)) == Tell(ps)
    decreases |ps|
  {
    if ps != [] {
      CallsReversed(ps[1..]);
      assert CallList(ps)[1..] == CallList(ps[1..]);
    }
  }

  lemma {:induction false} CallsMore(ps: seq<nat>, d: nat)
    ensures CallList(ps + [d]) == CallList(ps) + [Entry(B, d, NONE, 0)]
    decreases |ps|
  {
    if ps == [] {
      assert ([d])[1..] == [];
    } else {
      assert (ps + [d])[1..] == ps[1..] + [d];
      CallsMore(ps[1..], d);
    }
  }

  /** w' is a state of some run from w. */
  ghost predicate Later(g: Graph, w: World, w': World) {
    exists ws :: IsRun(g, ws) && ws[0] == w && ws[|ws| - 1] == w'
  }

  lemma NoLater(g: Graph, w: World)
    ensures Later(g, w, w)
  {
    assert IsRun(g, [w]);
  }

  lemma LaterNext(g: Graph, w: World, v: World, w': World)
    requires Later(g, w, v) && Next(g, v, w')
    ensures Later(g, w, w')
  {
    hide Next;
    var ws :| IsRun(g, ws) && ws[0] == w && ws[|ws| - 1] == v;
    var more := ws + [w'];
    forall k | 0 <= k < |more| - 1
      ensures Next(g, more[k], more[k + 1])
    {
      if k < |ws| - 1 { assert Next(g, ws[k], ws[k + 1]); }
    }
    assert IsRun(g, more);
  }

  /** From w to w' nothing happens but that some running commands finish, each leaving one 1D
      entry on the stack. */
  ghost predicate OnlyFinish(w: World, w': World) {
    && w' == w.(stack := w'.stack, running := w'.running) && w'.running <= w.running
    && |w'.stack| == |w.stack| + |w.running| - |w'.running| && |w.stack| <= |w'.stack|
    && w'.stack[..|w.stack|] == w.stack
    && (forall i :: |w.stack| <= i < |w'.stack| ==> Ending(w'.stack[i], w.running - w'.running))
    && (forall i, j :: |w.stack| <= i < j < |w'.stack| ==> w'.stack[i].t != w'.stack[j].t)
  }

  predicate Ending(e: Entry, ended: set<nat>) {
    e.kind.D? && e.parent == NONE && e.status <= EXEC_CMD_FAIL && e.t in ended
  }

  /** The entry on top has been run, and meanwhile some commands may have finished. */
  ghost predicate Turned(g: Graph, w: World, w': World) {
    WfWorld(g, w) && exists v :: StepTop(g, w, v) && OnlyFinish(v, w')
  }

  lemma NoneFinish(w: World)
    ensures OnlyFinish(w, w)
  {
  }

  lemma OneFinishes(w: World, v: World, t: nat, status: nat)
    requires OnlyFinish(w, v) && t in v.running && status <= EXEC_CMD_FAIL
    ensures OnlyFinish(w, Closure(v, t, status))
  {
    var w' := Closure(v, t, status);
    assert |w'.running| == |v.running| - 1;
    assert v.stack == w'.stack[..|v.stack|];
    forall i | |w.stack| <= i < |w'.stack|
      ensures Ending(w'.stack[i], w.running - w'.running) && (i < |v.stack| ==> w'.stack[i].t != t)
    {
      if i < |v.stack| { assert w'.stack[i] == v.stack[i] && Ending(v.stack[i], w.running - v.running); }
    }
  }

  /** What make1 relies on at every turn of its loop. */
  ghost predicate OnCourse(g: Graph, w0: World, w: World, root: nat) {
    Sound(g, w) && RootAsked(w, root) && Later(g, w0, w)
  }

  lemma StillOnCourse(g: Graph, w0: World, w: World, w': World, root: nat)
    requires OnCourse(g, w0, w, root) && Next(g, w, w')
    ensures OnCourse(g, w0, w', root) && Less(LeftOf(w'), LeftOf(w))
  {
    hide Next, Conserved, Ordered, SemsOk, Tallied, Later, RootAsked, Less, LeftOf;
    NextSound(g, w, w');
    NextRoot(g, w, w', root);
    LaterNext(g, w0, w, w');
    NextLess(g, w, w');
  }

  class Engine {
    const g: Graph
    const targets: seq<Node>
    const sems: seq<Node>
    var stack: seq<Entry>
    var running: set<nat>
    var acts: seq<nat>
    var counts: Counts

    ghost var stamp: seq<nat>
    ghost var clock: nat
    ghost var released: seq<nat>

    /** Nothing built yet. */
    constructor (g: Graph)
      requires WfGraph(g)
      ensures Valid() && this.g == g && Now() == Fresh(g) && Quiet(g, Now()) && Clean(Now())
      ensures (forall i :: 0 <= i < |targets| ==> fresh(targets[i])) && (forall i :: 0 <= i < |sems| ==> fresh(sems[i]))
    {
      hide Quiet, Clean, WfGraph, Targets, Semaphores;
      var nodes := NewNodes(0, |g.depends|);
      var locks := NewNodes(|g.depends|, g.nsems);
      this.g, targets, sems := g, nodes, locks;
      stack, running, acts, counts := [], {}, seq(g.nacts, _ => EXEC_CMD_OK), Counts(0, 0, 0, 0);
      stamp, clock, released := seq(|g.depends|, _ => 0), 0, seq(|g.depends|, _ => 0);
      new;
      SameTargets(targets, Fresh(g).ts);
      SameSemaphores(sems, Fresh(g).sems);
      FreshQuiet(g);
      FreshClean(g);
    }

    static method NewNodes(first: nat, n: nat) returns (nodes: seq<Node>)
      ensures |nodes| == n && forall i :: 0 <= i < n ==>
        && fresh(nodes[i]) && nodes[i].no == first + i
        && nodes[i].AsTarget() == Target(Init, 0, EXEC_CMD_OK, [], []) && nodes[i].AsSemaphore() == Semaphore(0, [])
    {
      nodes := [];
      for i := 0 to n
        invariant |nodes| == i && forall k :: 0 <= k < i ==>
          && fresh(nodes[k]) && nodes[k].no == first + k
          && nodes[k].AsTarget() == Target(Init, 0, EXEC_CMD_OK, [], []) && nodes[k].AsSemaphore() == Semaphore(0, [])
      {
        var node := new Node(first + i);
        nodes := nodes + [node];
      }
    }

    ghost predicate Valid()
      reads this
    {
      && |targets| == |g.depends| && |sems| == g.nsems
      && (forall i :: 0 <= i < |targets| ==> targets[i].no == i)
      && (forall i :: 0 <= i < |sems| ==> sems[i].no == |targets| + i)
    }

    ghost function Now(): World
      reads this, targets, sems
    {
      World(stack, Targets(targets), Semaphores(sems), running, acts, counts, stamp, clock, released)
    }

    /** What every step but a launch has to do: exactly what its specification says. */
    ghost predicate Ready(k: Kind)
      reads this, targets, sems
    {
      Valid() && Sound(g, Now()) && stack != [] && Top(stack).kind == k
    }

    method PopState()
      requires stack != []
      modifies `stack
      ensures stack == Rest(old(stack))
    {
      stack := stack[..|stack| - 1];
    }

    /** pState->curstate = kind, for the top of the stack. */
    method Turn(kind: Kind, status: nat)
      requires stack != []
      modifies `stack
      ensures stack == Rest(old(stack)) + [Top(old(stack)).(kind := kind, status := status)]
    {
      stack := stack[..|stack| - 1] + [stack[|stack| - 1].(kind := kind, status := status)];
    }

    /** Moves src, top first, onto the state stack. */
    method PushStackOnStack(src: seq<Entry>)
      modifies `stack
      ensures stack == old(stack) + Reversed(src)
    {
      var temp := src;
      ghost var base := stack;
      assert src[|src|..] == [];
      while temp != []
        invariant temp == src[..|temp|] && |temp| <= |src| && stack == base + Reversed(src[|temp|..])
        decreases |temp|
      {
        var n := |temp| - 1;
        stack := stack + [temp[n]];
        assert src[n..][1..] == src[n + 1..] && src[n..][0] == temp[n];
        temp := temp[..n];
      }
      assert src[0..] == src;
    }

    /** targetentry: the target will tell the parent, which waits for it. */
    method Await(no: nat, parent: nat)
      requires Valid() && no < |targets| && parent < |targets|
      modifies targets
      ensures Targets(targets) == Register(old(Targets(targets)), no, parent)
      ensures Semaphores(sems) == old(Semaphores(sems))
    {
      hide Targets, Semaphores;
      ghost var ts, ss := Targets(targets), Semaphores(sems);
      targets[no].parents := targets[no].parents + [parent];
      OneTarget(targets, ts, no);
      ghost var ts1 := Targets(targets);
      targets[parent].asynccnt := targets[parent].asynccnt + 1;
      OneTarget(targets, ts1, parent);
      SameSemaphores(sems, ss);
    }

    method Make1a()
      requires Ready(A)
      modifies this`stack, targets
      ensures Valid() && Now() == StepA(g, old(Now()))
    {
      hide Sound, Reversed, AskFor, WfWorld, WfEntry, Targets, Semaphores, Register;
      ghost var w := Now();
      Shape(g, w);
      var e := stack[|stack| - 1];
      var t := targets[e.t];
      if e.parent != NONE {
        if t.progress.Init? || t.progress.Active? || t.progress.Running? {
          Await(e.t, e.parent);
        }
      }
      ghost var ts1 := Targets(targets);
      // Visited before: nothing more to do.
      if !t.progress.Init? {
        PopState();
        return;
      }
      StartVisit(e.t);
    }

    /** Count one for the target's own 1ATAIL and ask for its dependencies. */
    method StartVisit(no: nat)
      requires Valid() && no < |targets| && stack != [] && Top(stack).t == no
      modifies this`stack, targets[no]
      ensures Targets(targets) == old(Targets(targets))[no := old(targets[no].AsTarget()).(asynccnt := 1, progress := OnStack)]
      ensures Semaphores(sems) == old(Semaphores(sems))
      ensures stack == Rest(old(stack)) + [Top(old(stack)).(kind := ATail)] + AskFor(g.depends[no], no)
    {
      hide Reversed, AskFor, Targets, Semaphores;
      ghost var ts, ss := Targets(targets), Semaphores(sems);
      targets[no].asynccnt := 1;
      // A cycle will find it on the stack.
      targets[no].progress := OnStack;
      OneTarget(targets, ts, no);
      SameSemaphores(sems, ss);
      var temp := AskEach(no);
      Turn(ATail, stack[|stack| - 1].status);
      PushStackOnStack(temp);
      AsksReversed(g.depends[no], no);
    }

    method AskEach(t: nat) returns (temp: seq<Entry>)
      requires t < |g.depends|
      ensures temp == AskList(g.depends[t], t)
    {
      temp := [];
      var deps := g.depends[t];
      for c := 0 to |deps|
        invariant temp == AskList(deps[..c], t)
      {
        AsksMore(deps[..c], t, deps[c]);
        assert deps[..c + 1] == deps[..c] + [deps[c]];
        temp := temp + [Entry(A, deps[c], t, 0)];
      }
      assert deps[..|deps|] == deps;
    }

    method Make1aTail()
      requires Ready(ATail)
      modifies this`stack, this`stamp, this`clock, targets
      ensures Valid() && Now() == StepATail(g, old(Now()))
    {
      hide Sound, WfWorld, WfEntry, Targets, Semaphores;
      ghost var w := Now();
      Shape(g, w);
      var e := stack[|stack| - 1];
      targets[e.t].progress := Active;
      OneTarget(targets, w.ts, e.t);
      SameSemaphores(sems, w.sems);
      Turn(B, e.status);
      stamp, clock := stamp[e.t := clock], clock + 1;
    }

    /** The chain of commands to be run for a target, as many as there may be. */
    method Make1Cmds() returns (cmds: seq<Cmd>)
    {
      cmds := *;
    }

    method Make1b() returns (ghost cmds: seq<Cmd>)
      requires Ready(B)
      modifies this`stack, this`counts, this`released, targets, sems
      ensures Valid() && Now() == StepB(g, old(Now()), cmds)
    {
      hide Sound, DepStatus, WfWorld, WfGraph, WfEntry, Targets, Semaphores, Released, ReleasedCounts, StepB, Hold, Rest;
      ghost var w := Now();
      Shape(g, w);
      cmds := [];
      var e := stack[|stack| - 1];
      assert e == Top(stack);
      hide Top;
      var outstanding := Outstanding(e.t);
      if outstanding {
        PopState();
        BWaits(g, w, cmds);
        return;
      }
      cmds := Claim(e.t, w);
    }

    /** 1B once nothing holds the target up: it takes its semaphore, or queues for it. */
    method Claim(no: nat, ghost w: World) returns (ghost cmds: seq<Cmd>)
      requires Valid() && WfWorld(g, w) && WfGraph(g) && w.stack != [] && Top(w.stack).t == no < |w.ts| == |w.released|
      requires |w.acts| == g.nacts && w.ts[no].asynccnt == 1
      requires Now() == w.(ts := w.ts[no := w.ts[no].(asynccnt := 0)])
      modifies this`stack, this`counts, this`released, targets, sems
      ensures Valid() && Now() == StepB(g, w, cmds)
    {
      hide DepStatus, WfWorld, WfEntry, WfGraph, Targets, Semaphores, Released, ReleasedCounts, StepB, Hold, Rest, Top;
      Sizes(g);
      var s := g.semaphore[no];
      cmds := [];
      // Its semaphore may be taken: then it queues.
      if s != NONE && sems[s].asynccnt != 0 {
        QueueFor(s, no);
        PopState();
        BQueues(g, w, Targets(targets), cmds);
        return;
      }
      cmds := Release(no);
      BReleases(g, w, cmds);
    }

    /** Nothing holds the target on top up any more: on to 1C with it. */
    method Release(no: nat) returns (ghost cmds: seq<Cmd>)
      requires Valid() && WfGraph(g) && |acts| == g.nacts && |released| == |targets|
      requires stack != [] && Top(stack).t == no < |targets| && targets[no].asynccnt == 0
      modifies this`stack, this`counts, this`released, targets, sems
      ensures var x := old(targets[no].AsTarget());
        var status := DepStatus(g, old(Targets(targets)), g.depends[no], x.status);
        && Targets(targets) == old(Targets(targets))[no := Released(g, x, no, status, cmds)]
        && counts == ReleasedCounts(g, old(counts), no, status)
      ensures Semaphores(sems) == Hold(old(Semaphores(sems)), g.semaphore[no], 1)
      ensures stack == Rest(old(stack)) + [Top(old(stack)).(kind := C)]
      ensures released == old(released)[no := old(released)[no] + 1]
    {
      hide DepStatus, Targets, Semaphores, Released, ReleasedCounts, Hold, Rest, WfGraph;
      Sizes(g);
      ghost var top := Top(stack);
      var s := g.semaphore[no];
      cmds := Prepare(no);
      // Take the semaphore, if it has one.
      Acquire(s);
      Turn(C, stack[|stack| - 1].status);
      released := released[no := released[no] + 1];
      assert Top(old(stack)) == top && top.(kind := C, status := top.status) == top.(kind := C);
    }

    /** One call less to wait for; tells whether there are more. */
    method Outstanding(no: nat) returns (r: bool)
      requires Valid() && no < |targets|
      modifies targets[no]
      ensures var x := old(targets[no].AsTarget());
        && Targets(targets) == old(Targets(targets))[no := x.(asynccnt := x.asynccnt - 1)]
        && (r <==> x.asynccnt - 1 != 0)
      ensures Semaphores(sems) == old(Semaphores(sems))
    {
      hide Targets, Semaphores;
      ghost var ts, ss := Targets(targets), Semaphores(sems);
      targets[no].asynccnt := targets[no].asynccnt - 1;
      OneTarget(targets, ts, no);
      SameSemaphores(sems, ss);
      return targets[no].asynccnt != 0;
    }

    method Acquire(s: int)
      requires Valid() && NONE <= s < |sems|
      modifies sems
      ensures Semaphores(sems) == Hold(old(Semaphores(sems)), s, 1) && Targets(targets) == old(Targets(targets))
    {
      hide Targets, Semaphores;
      ghost var ts, ss := Targets(targets), Semaphores(sems);
      if s != NONE {
        sems[s].asynccnt := sems[s].asynccnt + 1;
        OneSemaphore(sems, ss, s);
      }
      SameTargets(targets, ts);
    }

    /** The target joins the queue of semaphore s. */
    method QueueFor(s: nat, no: nat)
      requires Valid() && s < |sems| && no < |targets|
      modifies targets[no], sems[s]
      ensures Targets(targets) == old(Targets(targets))[no := old(targets[no].AsTarget()).(asynccnt := old(targets[no].asynccnt) + 1)]
      ensures var x := old(sems[s].AsSemaphore());
        Semaphores(sems) == old(Semaphores(sems))[s := x.(parents := x.parents + [no])]
    {
      hide Targets, Semaphores;
      ghost var ts, ss := Targets(targets), Semaphores(sems);
      sems[s].parents := sems[s].parents + [no];
      targets[no].asynccnt := targets[no].asynccnt + 1;
      OneTarget(targets, ts, no);
      OneSemaphore(sems, ss, s);
    }

    /** Settle what is to be done for a target that nothing holds up any more. */
    method Prepare(no: nat) returns (ghost cmds: seq<Cmd>)
      requires Valid() && no < |targets| && targets[no].asynccnt == 0
      requires WfGraph(g) && |acts| == g.nacts
      modifies this`counts, targets[no]
      ensures var x := old(targets[no].AsTarget());
        var status := DepStatus(g, old(Targets(targets)), g.depends[no], x.status);
        && Targets(targets) == old(Targets(targets))[no := Released(g, x, no, status, cmds)]
        && counts == ReleasedCounts(g, old(counts), no, status)
      ensures Semaphores(sems) == old(Semaphores(sems))
    {
      hide DepStatus, Targets, Semaphores;
      ghost var ts, ss := Targets(targets), Semaphores(sems);
      var t := targets[no];
      cmds := [];
      CollectStatus(no);
      if t.status == EXEC_CMD_FAIL && g.actions[no] != [] {
        counts := counts.(skipped := counts.skipped + 1);
      }
      if t.status == EXEC_CMD_OK {
        var fate := g.fate[no];
        if fate == STABLE || fate == NEWER {
        } else if fate >= BROKEN {
          t.status := EXEC_CMD_FAIL;
        } else if fate == ISTMP {
        } else if g.actions[no] != [] {
          counts := counts.(total := counts.total + 1);
          var prepared := Make1Cmds();
          cmds := prepared;
          t.cmds := prepared;
          t.progress := Running;
        }
      }
      OneTarget(targets, ts, no);
      SameSemaphores(sems, ss);
    }

    /** Collect status from dependencies. */
    method CollectStatus(no: nat)
      requires Valid() && WfGraph(g) && no < |targets|
      modifies targets[no]
      ensures targets[no].status == DepStatus(g, old(Targets(targets)), g.depends[no], old(targets[no].status))
      ensures Targets(targets) == old(Targets(targets))[no := old(targets[no].AsTarget()).(status := targets[no].status)]
    {
      hide DepStatus, Targets;
      ghost var ts := Targets(targets);
      var t := targets[no];
      var deps := g.depends[no];
      assert deps[0..] == deps;
      for c := 0 to |deps|
        invariant DepStatus(g, ts, deps, old(t.status)) == DepStatus(g, ts, deps[c..], t.status)
        invariant t.status >= old(t.status) && t.AsTarget() == old(t.AsTarget()).(status := t.status)
      {
        assert deps[c..][0] == deps[c] && deps[c..][1..] == deps[c + 1..];
        assert deps[c] != no ==> targets[deps[c]].AsTarget() == ts[deps[c]];
        DepMore(g, ts, deps[c..], t.status);
        if targets[deps[c]].status > t.status && deps[c] !in g.nocare {
          t.status := targets[deps[c]].status;
        }
      }
      assert deps[|deps|..] == [];
      DepMore(g, ts, [], t.status);
      OneTarget(targets, ts, no);
    }

    /** make1c: launch the next command, or tell everyone that the target is done. */
    method Make1c(ghost w0: World, ghost root: nat)
      requires Ready(C) && OnCourse(g, w0, Now(), root)
      modifies this, targets, sems
      ensures Valid() && OnCourse(g, w0, Now(), root) && Less(LeftOf(Now()), old(LeftOf(Now())))
      ensures OnlyFinish(StepC(g, old(Now())), Now())
    {
      hide Sound, Next, OnCourse, Finish, LeftOf, Less, WfWorld, WfEntry, Targets, Semaphores, OnlyFinish;
      ghost var w := Now();
      Shape(g, w);
      NoneFinish(StepC(g, w));
      var e := stack[|stack| - 1];
      var t := targets[e.t];
      if t.cmds != [] && t.status == EXEC_CMD_OK {
        if g.noexec {
          Turn(D, EXEC_CMD_OK);
          ByC(g, w, Now());
          StillOnCourse(g, w0, w, Now(), root);
        } else {
          // The entry goes first: completions during the launch push entries of their own.
          PopState();
          ExecCmd(w0, root, e.t, w);
        }
      } else {
        CloseUp();
        ByC(g, w, Now());
        StillOnCourse(g, w0, w, Now(), root);
      }
    }

    /** Settle the actions and counts of the target on top and tell who waits for it. */
    method CloseUp()
      requires Ready(C)
      modifies this`stack, this`acts, this`counts, targets, sems
      ensures Valid() && Now() == Finish(g, old(Now()))
    {
      hide Sound, ActStatus, Distribute, Tell, WfWorld, WfEntry, Targets, Semaphores, Finish, FirstWaiter, Tally, DropWaiter, Hold;
      ghost var w := Now();
      Shape(g, w);
      HeldByTop(g, w);
      var e := stack[|stack| - 1];
      var status := Settle(e.t);
      Notify(e.t);
      FinishIs(g, w, Now(), status);
    }

    /** Collect status from actions, distribute it, and mark the target done. */
    method Settle(no: nat) returns (status: nat)
      requires Valid() && WfGraph(g) && |acts| == g.nacts && no < |targets|
      modifies this`acts, this`counts, targets[no]
      ensures status == ActStatus(old(acts), g.actions[no], old(targets[no].status))
      ensures acts == Distribute(old(acts), g.actions[no], status)
      ensures var x := old(targets[no].AsTarget());
        && Targets(targets) == old(Targets(targets))[no := x.(status := status, progress := Done)]
        && counts == Tally(old(counts), x, status)
      ensures Semaphores(sems) == old(Semaphores(sems))
    {
      hide ActStatus, Distribute, Targets, Semaphores, Tally;
      ghost var ts, ss := Targets(targets), Semaphores(sems);
      status := SettleActions(no, targets[no].status);
      MarkDone(no, status);
    }

    /** Everyone that waits for the target gets a 1B entry, and its semaphore is let go. */
    method Notify(no: nat)
      requires Valid() && WfGraph(g) && no < |targets| && stack != []
      requires g.semaphore[no] != NONE ==> sems[g.semaphore[no]].asynccnt == 1
      modifies this`stack, sems
      ensures var s := g.semaphore[no];
        && stack == Rest(old(stack)) + Tell(old(targets[no].parents) + FirstWaiter(old(Semaphores(sems)), s))
        && Semaphores(sems) == DropWaiter(Hold(old(Semaphores(sems)), s, -1), s)
      ensures Targets(targets) == old(Targets(targets))
    {
      hide Tell, Targets, Semaphores, FirstWaiter, DropWaiter, Hold, CallList, Reversed;
      ghost var ss, ts := Semaphores(sems), Targets(targets);
      var t := targets[no];
      var s := g.semaphore[no];
      var temp := CallEach(t.parents);
      NoWaiter(ss, s);
      assert t.parents + [] == t.parents;
      CallsReversed(t.parents + FirstWaiter(ss, s));
      if s != NONE {
        temp := FreeSemaphore(s, t.parents, temp);
      }
      SameTargets(targets, ts);
      PopState();
      PushStackOnStack(temp);
    }

    method MarkDone(no: nat, status: nat)
      requires Valid() && no < |targets|
      modifies this`counts, targets[no]
      ensures var x := old(targets[no].AsTarget());
        && Targets(targets) == old(Targets(targets))[no := x.(status := status, progress := Done)]
        && counts == Tally(old(counts), x, status)
      ensures Semaphores(sems) == old(Semaphores(sems))
    {
      hide Targets, Semaphores;
      ghost var ts, ss := Targets(targets), Semaphores(sems);
      var t := targets[no];
      t.status := status;
      // Only what commands were to be run for is counted.
      if t.progress.Running? {
        if status == EXEC_CMD_OK {
          counts := counts.(made := counts.made + 1);
        } else if status == EXEC_CMD_FAIL {
          counts := counts.(failed := counts.failed + 1);
        }
      }
      t.progress := Done;
      OneTarget(targets, ts, no);
      SameSemaphores(sems, ss);
    }

    method CallEach(ps: seq<nat>) returns (temp: seq<Entry>)
      ensures temp == CallList(ps)
    {
      temp := [];
      for c := 0 to |ps|
        invariant temp == CallList(ps[..c])
      {
        CallsMore(ps[..c], ps[c]);
        assert ps[..c + 1] == ps[..c] + [ps[c]];
        temp := temp + [Entry(B, ps[c], NONE, 0)];
      }
      assert ps[..|ps|] == ps;
    }

    /** The worst status among the actions, which all of them then get. */
    method SettleActions(no: nat, before: nat) returns (status: nat)
      requires Valid() && WfGraph(g) && |acts| == g.nacts && no < |targets|
      modifies `acts
      ensures status == ActStatus(old(acts), g.actions[no], before)
      ensures acts == Distribute(old(acts), g.actions[no], status)
    {
      hide ActStatus, Distribute;
      var as_ := g.actions[no];
      status := WorstOf(as_, before);
      Spread(as_, status);
    }

    method WorstOf(as_: seq<nat>, before: nat) returns (status: nat)
      requires forall k :: 0 <= k < |as_| ==> as_[k] < |acts|
      ensures status == ActStatus(acts, as_, before)
    {
      hide ActStatus;
      status := before;
      assert as_[0..] == as_;
      for a := 0 to |as_|
        invariant ActStatus(acts, as_, before) == ActStatus(acts, as_[a..], status)
      {
        assert as_[a..][0] == as_[a] && as_[a..][1..] == as_[a + 1..];
        ActMore(acts, as_[a..], status);
        if acts[as_[a]] > status {
          status := acts[as_[a]];
        }
      }
      assert as_[|as_|..] == [];
      ActMore(acts, [], status);
    }

    /** No action shared with other targets keeps a better status. */
    method Spread(as_: seq<nat>, status: nat)
      requires forall k :: 0 <= k < |as_| ==> as_[k] < |acts|
      modifies `acts
      ensures acts == Distribute(old(acts), as_, status)
    {
      hide Distribute;
      assert as_[0..] == as_;
      for a := 0 to |as_|
        invariant |acts| == |old(acts)| && Distribute(old(acts), as_, status) == Distribute(acts, as_[a..], status)
      {
        assert as_[a..][0] == as_[a] && as_[a..][1..] == as_[a + 1..];
        DistributeMore(acts, as_[a..], status);
        if status > acts[as_[a]] {
          acts := acts[as_[a] := status];
        }
      }
      assert as_[|as_|..] == [];
      DistributeMore(acts, [], status);
    }

    /** The semaphore is let go, and the first in its queue gets a 1B entry. */
    method FreeSemaphore(s: nat, ghost ps: seq<nat>, before: seq<Entry>) returns (temp: seq<Entry>)
      requires Valid() && s < |sems| && sems[s].asynccnt == 1 && before == CallList(ps)
      modifies sems[s]
      ensures temp == CallList(ps + FirstWaiter(old(Semaphores(sems)), s))
      ensures Semaphores(sems) == DropWaiter(Hold(old(Semaphores(sems)), s, -1), s)
      ensures Targets(targets) == old(Targets(targets))
    {
      hide Semaphores, CallList, Targets;
      ghost var ss, ts := Semaphores(sems), Targets(targets);
      temp := before;
      assert sems[s].asynccnt == 1;
      sems[s].asynccnt := sems[s].asynccnt - 1;
      if sems[s].parents != [] {
        var first := sems[s].parents[0];
        sems[s].parents := sems[s].parents[1..];
        CallsMore(ps, first);
        temp := temp + [Entry(B, first, NONE, 0)];
      }
      assert ps + [] == ps;
      OneSemaphore(sems, ss, s);
      SameTargets(targets, ts);
    }

    /** make_closure: a command has finished. */
    method MakeClosure(t: nat, status: nat)
      requires t in running
      modifies `stack, `running
      ensures Now() == Closure(old(Now()), t, status)
    {
      running := running - {t};
      stack := stack + [Entry(D, t, NONE, status)];
    }

    /** Any of the running commands may finish, one after another. */
    method Finishing(ghost w0: World, ghost root: nat, ghost before: World)
      requires Valid() && OnCourse(g, w0, Now(), root) && OnlyFinish(before, Now())
      modifies `stack, `running
      ensures Valid() && OnCourse(g, w0, Now(), root) && OnlyFinish(before, Now())
      ensures Now() == old(Now()) || Less(LeftOf(Now()), old(LeftOf(Now())))
    {
      hide Sound, Next, OnCourse, LeftOf, Less, OnlyFinish;
      ghost var start := Now();
      var more: bool := *;
      while more && running != {}
        invariant Valid() && OnCourse(g, w0, Now(), root) && OnlyFinish(before, Now())
        invariant Now() == start || Less(LeftOf(Now()), LeftOf(start))
        modifies `stack, `running
        decreases |running|
      {
        FinishOne(w0, root, start, before);
        more := *;
      }
    }

    /** One running command finishes, with whatever status. */
    method FinishOne(ghost w0: World, ghost root: nat, ghost start: World, ghost before: World)
      requires Valid() && running != {} && OnCourse(g, w0, Now(), root) && OnlyFinish(before, Now())
      requires Now() == start || Less(LeftOf(Now()), LeftOf(start))
      modifies `stack, `running
      ensures Valid() && OnCourse(g, w0, Now(), root) && Less(LeftOf(Now()), LeftOf(start)) && |running| < |old(running)|
      ensures OnlyFinish(before, Now())
    {
      hide Sound, Next, OnCourse, LeftOf, Less, OnlyFinish;
      var t :| t in running;
      var failed: bool := *;
      ghost var w := Now();
      MakeClosure(t, if failed then EXEC_CMD_FAIL else EXEC_CMD_OK);
      ByClosure(g, w0, w, root, t, if failed then EXEC_CMD_FAIL else EXEC_CMD_OK);
      OneFinishes(before, w, t, if failed then EXEC_CMD_FAIL else EXEC_CMD_OK);
      StillOnCourse(g, w0, w, Now(), root);
      if w != start { LessTrans(LeftOf(Now()), LeftOf(w), LeftOf(start)); }
    }

    /** exec_cmd: start a command; some commands may finish meanwhile. */
    method ExecCmd(ghost w0: World, ghost root: nat, t: nat, ghost w: World)
      requires Valid() && OnCourse(g, w0, w, root) && w.stack != [] && Top(w.stack).kind.C? && Top(w.stack).t == t
      requires t < |w.ts| && w.ts[t].cmds != [] && w.ts[t].status == EXEC_CMD_OK && !g.noexec
      requires Now() == w.(stack := Rest(w.stack))
      modifies `stack, `running
      ensures Valid() && OnCourse(g, w0, Now(), root) && Less(LeftOf(Now()), LeftOf(w))
      ensures OnlyFinish(w.(stack := Rest(w.stack), running := w.running + {t}), Now())
    {
      hide Sound, Next, OnCourse, LeftOf, Less, OnlyFinish;
      running := running + {t};
      assert WfWorld(g, w) by { Course(g, w0, w, root); Typed(g, w); }
      ByC(g, w, Now());
      StillOnCourse(g, w0, w, Now(), root);
      ghost var v := Now();
      NoneFinish(v);
      Finishing(w0, root, v);
      if Now() != v { LessTrans(LeftOf(Now()), LeftOf(v), LeftOf(w)); }
    }

    /** exec_wait: false if nothing is running; else at least one command finishes. */
    method ExecWait(ghost w0: World, ghost root: nat) returns (more: bool)
      requires Valid() && OnCourse(g, w0, Now(), root)
      modifies `stack, `running
      ensures Valid() && OnCourse(g, w0, Now(), root)
      ensures OnlyFinish(old(Now()), Now()) && (more <==> old(running) != {})
      ensures if more then Less(LeftOf(Now()), old(LeftOf(Now()))) else running == {} && Now() == old(Now())
    {
      hide Sound, Next, OnCourse, LeftOf, Less, OnlyFinish;
      NoneFinish(Now());
      if running == {} {
        return false;
      }
      ghost var start := Now();
      FinishOne(w0, root, start, start);
      ghost var v := Now();
      Finishing(w0, root, start);
      if Now() != v { LessTrans(LeftOf(Now()), LeftOf(v), LeftOf(start)); }
      return true;
    }

    /** make1d: a command has finished; go on to the next one. */
    method Make1d()
      requires Ready(D) && TopHasCmds()
      modifies this`stack, targets
      ensures Valid() && old(Now()).ts[Top(old(stack)).t].cmds != [] && Now() == StepD(g, old(Now()))
    {
      hide Sound, WfWorld, WfEntry, Targets, Semaphores;
      ghost var w := Now();
      Shape(g, w);
      var e := stack[|stack| - 1];
      var t := targets[e.t];
      var cmd := t.cmds[0];
      var status := e.status;
      // With FAIL_EXPECTED, success is failure and failure success.
      if e.t in g.failExpected {
        status := if status == EXEC_CMD_FAIL then EXEC_CMD_OK else if status == EXEC_CMD_OK then EXEC_CMD_FAIL else status;
      }
      if status == EXEC_CMD_FAIL && cmd.ignore {
        status := EXEC_CMD_OK;
      }
      t.status := status;
      t.cmds := t.cmds[1..];
      OneTarget(targets, w.ts, e.t);
      SameSemaphores(sems, w.sems);
      Turn(C, e.status);
    }

    ghost predicate TopHasCmds()
      requires stack != []
      reads this, targets
    {
      var t := Top(stack).t;
      t < |targets| && targets[t].cmds != []
    }

    /** One turn of make1's loop. */
    method Dispatch(ghost w0: World, ghost root: nat)
      requires Valid() && stack != [] && OnCourse(g, w0, Now(), root)
      modifies this, targets, sems
      ensures Valid() && OnCourse(g, w0, Now(), root) && Less(LeftOf(Now()), old(LeftOf(Now())))
      ensures Turned(g, old(Now()), Now())
    {
      hide Sound, Next, OnCourse, LeftOf, Less, StepA, StepATail, StepB, StepC, StepD, OnlyFinish, Turned, RootAsked, Later, WfWorld, Targets, Semaphores;
      ghost var w := Now();
      Course(g, w0, w, root);
      Typed(g, w);
      match stack[|stack| - 1].kind {
        case A =>
          Make1a();
          ByTop(g, w, Now());
          StillOnCourse(g, w0, w, Now(), root);
        case ATail =>
          Make1aTail();
          ByTop(g, w, Now());
          StillOnCourse(g, w0, w, Now(), root);
        case B =>
          ghost var cmds := Make1b();
          ByB(g, w, cmds);
          StillOnCourse(g, w0, w, Now(), root);
        case C =>
          Make1c(w0, root);
          TurnedC(g, w, Now());
        case D =>
          CmdsAtD(g, w);
          Make1d();
          ByTop(g, w, Now());
          StillOnCourse(g, w0, w, Now(), root);
      }
    }

    /** make1: builds a target and all below it. However
        commands finish, it comes back; by then everything the target depends on is done, and
        the result tells whether any target that commands were run for has failed. If nothing
        that the root reaches and no earlier call dealt with is doomed from the start, the
        result tells whether any of them has failed at all. */
    method Make1(root: nat) returns (failed: bool)
      requires Valid() && Quiet(g, Now()) && root < |targets|
      modifies this, targets, sems
      ensures Valid() && Quiet(g, Now()) && Later(g, Begin(old(Now()), root), Now())
      ensures forall p :: Chain(g, p) && p[0] == root ==> targets[p[|p| - 1]].progress == Done
      ensures failed <==> counts.failed > 0
      ensures WfGraph(g)
      ensures forall ws :: IsRun(g, ws) && ws[0] == Begin(old(Now()), root) && ws[|ws| - 1] == Now() ==>
        && (failed <==> AnyFailed(ws)) && (FailedIn(g, ws) != {} ==> failed)
        && (Clean(old(Now())) && !AnyDoomed(g, old(Now()), root) ==> (failed <==> FailedIn(g, ws) != {}))
      ensures Clean(old(Now())) ==> Clean(Now()) && (AnyFails(g, old(Now()), root, Now()) <==> failed || AnyDoomed(g, old(Now()), root))
    {
      hide Quiet, OnCourse, WfWorld, Targets, Semaphores, Later, AnyFailed, Clean, AnyFails, AnyDoomed, IsRun, FailedIn;
      ghost var w := Now();
      counts := Counts(0, 0, 0, 0);
      // Begin with the visit of the root.
      stack := stack + [Entry(A, root, NONE, 0)];
      Opening(g, w, Now(), root);
      RunAll(Now(), root);
      AtRest(g, w, root, Now());
      return counts.total != counts.made;
    }

    /** Run the stack and wait for commands in turn until there is neither. */
    method RunAll(ghost w0: World, ghost root: nat)
      requires Valid() && OnCourse(g, w0, Now(), root)
      modifies this, targets, sems
      ensures Valid() && OnCourse(g, w0, Now(), root) && stack == [] && running == {}
    {
      hide Sound, Next, OnCourse, LeftOf, Less, WfWorld, Targets, Semaphores, Later;
      while true
        invariant Valid() && OnCourse(g, w0, Now(), root)
        decreases LeftOf(Now()).unvisited, LeftOf(Now()).unreleased, LeftOf(Now()).undone, LeftOf(Now()).cmds, LeftOf(Now()).entries
      {
        ghost var v := Now();
        RunStack(w0, root);
        ghost var u := Now();
        // Commands that finish bring new entries.
        var more := ExecWait(w0, root);
        if !more {
          break;
        }
        if u != v { LessTrans(LeftOf(Now()), LeftOf(u), LeftOf(v)); }
        LessMeans(LeftOf(Now()), LeftOf(v));
      }
    }

    /** Run the entries on the stack until there are none. */
    method RunStack(ghost w0: World, ghost root: nat)
      requires Valid() && OnCourse(g, w0, Now(), root)
      modifies this, targets, sems
      ensures Valid() && OnCourse(g, w0, Now(), root) && stack == []
      ensures Now() == old(Now()) || Less(LeftOf(Now()), old(LeftOf(Now())))
    {
      hide Sound, Next, OnCourse, LeftOf, Less;
      ghost var start := Now();
      while stack != []
        invariant Valid() && OnCourse(g, w0, Now(), root)
        invariant Now() == start || Less(LeftOf(Now()), LeftOf(start))
        decreases LeftOf(Now()).unvisited, LeftOf(Now()).unreleased, LeftOf(Now()).undone, LeftOf(Now()).cmds, LeftOf(Now()).entries
      {
        ghost var v := Now();
        Dispatch(w0, root);
        LessMeans(LeftOf(Now()), LeftOf(v));
        if v != start { LessTrans(LeftOf(Now()), LeftOf(v), LeftOf(start)); }
      }
    }
  }

  /** What is known when a call has come to rest. */
  lemma AtRest(g: Graph, w: World, root: nat, w': World)
    requires Quiet(g, w) && root < |w.ts| && OnCourse(g, Begin(w, root), w', root) && w'.stack == [] && w'.running == {}
    ensures Quiet(g, w') && WfGraph(g) && Later(g, Begin(w, root), w')
    ensures forall p :: Chain(g, p) && p[0] == root ==> p[|p| - 1] < |w'.ts| && w'.ts[p[|p| - 1]].progress.Done?
    ensures w'.counts.total != w'.counts.made <==> w'.counts.failed > 0
    ensures forall ws :: IsRun(g, ws) && ws[0] == Begin(w, root) && ws[|ws| - 1] == w' ==>
      var failed := w'.counts.total != w'.counts.made;
      && (failed <==> AnyFailed(ws)) && (FailedIn(g, ws) != {} ==> failed)
      && (Clean(w) && !AnyDoomed(g, w, root) ==> (failed <==> FailedIn(g, ws) != {}))
    ensures Clean(w) ==> Clean(w') && (AnyFails(g, w, root, w') <==> w'.counts.total != w'.counts.made || AnyDoomed(g, w, root))
  {
    hide Sound, OnCourse, WfWorld, Later, AnyFailed, Clean, AnyFails, AnyDoomed, Next, FailedIn, BuiltIn;
    Course(g, Begin(w, root), w', root);
    Shape(g, w');
    AllDone(g, w', root);
    QuietIsDone(g, w');
    forall ws | IsRun(g, ws) && ws[0] == Begin(w, root) && ws[|ws| - 1] == w'
      ensures var failed := w'.counts.total != w'.counts.made;
        && (failed <==> AnyFailed(ws)) && (FailedIn(g, ws) != {} ==> failed)
        && (Clean(w) && !AnyDoomed(g, w, root) ==> (failed <==> FailedIn(g, ws) != {}))
    {
      FailedMeans(g, w, root, ws);
      ResultMeans(g, w, root, ws);
    }
    if Clean(w) { Verdict(g, w, root, w'); }
  }

  /** What the counts after a call tell about failures. */
  lemma Verdict(g: Graph, w: World, root: nat, w': World)
    requires Quiet(g, w) && Clean(w) && root < |w.ts| && Later(g, Begin(w, root), w') && Quiet(g, w')
    ensures WfGraph(g) && Clean(w')
    ensures AnyFails(g, w, root, w') <==> w'.counts.total != w'.counts.made || AnyDoomed(g, w, root)
  {
    hide Quiet, Clean, AnyFails, AnyDoomed, AnyFailed, Next, BuiltIn, FailedIn;
    var ws :| IsRun(g, ws) && ws[0] == Begin(w, root) && ws[|ws| - 1] == w';
    FailsWhen(g, w, root, ws);
    ResultMeans(g, w, root, ws);
    FailedMeans(g, w, root, ws);
  }

  /** The semaphore of a target that is done is held once, by it. */
  lemma HeldByTop(g: Graph, w: World)
    requires Sound(g, w) && w.stack != [] && Top(w.stack).kind.C?
    ensures Top(w.stack).t < |g.semaphore|
    ensures var s := g.semaphore[Top(w.stack).t]; 0 <= s < |w.sems| ==> w.sems[s].asynccnt == 1
  {
    hide Conserved, SemsOk, Ordered, Tallied, WfWorld, WfEntry;
    Shape(g, w);
    GiveC(g, w);
  }

  /** 1B's own decrease of asynccnt makes no difference to what it releases. */
  lemma SameRelease(g: Graph, w: World, ts: seq<Target>, t: nat, cmds: seq<Cmd>)
    requires WfWorld(g, w) && t < |w.ts| && ts == w.ts[t := w.ts[t].(asynccnt := w.ts[t].asynccnt - 1)]
    ensures DepStatus(g, ts, g.depends[t], ts[t].status) == DepStatus(g, w.ts, g.depends[t], w.ts[t].status)
    ensures var status := DepStatus(g, w.ts, g.depends[t], w.ts[t].status);
      ts[t := Released(g, ts[t], t, status, cmds)] == w.ts[t := Released(g, w.ts[t], t, status, cmds)]
  {
    hide DepStatus;
    SameDepStatus(g, ts, w.ts, g.depends[t], w.ts[t].status);
  }

  lemma Sizes(g: Graph)
    requires WfGraph(g)
    ensures |g.fate| == |g.actions| == |g.semaphore| == |g.depends|
    ensures forall t :: 0 <= t < |g.semaphore| ==> NONE <= g.semaphore[t] < g.nsems
  {
  }

  // What 1B does, case by case.

  lemma BWaits(g: Graph, w: World, cmds: seq<Cmd>)
    requires WfWorld(g, w) && w.stack != [] && Top(w.stack).t < |w.ts| && w.ts[Top(w.stack).t].asynccnt - 1 != 0
    ensures var t := Top(w.stack).t;
      StepB(g, w, cmds) == w.(ts := w.ts[t := w.ts[t].(asynccnt := w.ts[t].asynccnt - 1)], stack := Rest(w.stack))
  {
  }

  lemma BQueues(g: Graph, w: World, ts: seq<Target>, cmds: seq<Cmd>)
    requires WfWorld(g, w) && w.stack != [] && Top(w.stack).t < |w.ts| && w.ts[Top(w.stack).t].asynccnt - 1 == 0
    requires var s := g.semaphore[Top(w.stack).t]; NONE != s < |w.sems| && w.sems[s].asynccnt != 0
    requires var t := Top(w.stack).t; var ts0 := w.ts[t := w.ts[t].(asynccnt := w.ts[t].asynccnt - 1)];
      ts == ts0[t := ts0[t].(asynccnt := ts0[t].asynccnt + 1)]
    ensures ts == w.ts
    ensures var t := Top(w.stack).t; var s := g.semaphore[t];
      StepB(g, w, cmds) == w.(sems := w.sems[s := w.sems[s].(parents := w.sems[s].parents + [t])], stack := Rest(w.stack))
  {
  }

  lemma BReleases(g: Graph, w: World, cmds: seq<Cmd>)
    requires WfWorld(g, w) && w.stack != [] && Top(w.stack).t < |w.ts| && w.ts[Top(w.stack).t].asynccnt - 1 == 0
    requires var s := g.semaphore[Top(w.stack).t]; s == NONE || (0 <= s < |w.sems| && w.sems[s].asynccnt == 0)
    ensures var t := Top(w.stack).t; var ts0 := w.ts[t := w.ts[t].(asynccnt := w.ts[t].asynccnt - 1)];
      var status := DepStatus(g, ts0, g.depends[t], ts0[t].status);
      StepB(g, w, cmds) ==
        w.(ts := ts0[t := Released(g, ts0[t], t, status, cmds)], counts := ReleasedCounts(g, w.counts, t, status),
           sems := Hold(w.sems, g.semaphore[t], 1), stack := Rest(w.stack) + [Top(w.stack).(kind := C)],
           released := w.released[t := w.released[t] + 1])
  {
    hide DepStatus, Released, ReleasedCounts, Hold;
    var t := Top(w.stack).t;
    SameRelease(g, w, w.ts[t := w.ts[t].(asynccnt := w.ts[t].asynccnt - 1)], t, cmds);
  }

  lemma {:induction false} SameDepStatus(g: Graph, ts: seq<Target>, us: seq<Target>, deps: seq<nat>, status: nat)
    requires |ts| == |us| && forall i :: 0 <= i < |ts| ==> ts[i].status == us[i].status
    requires forall k :: 0 <= k < |deps| ==> deps[k] < |ts|
    ensures DepStatus(g, ts, deps, status) == DepStatus(g, us, deps, status)
    decreases |deps|
  {
    if deps != [] {
      var c := deps[0];
      SameDepStatus(g, ts, us, deps[1..], if ts[c].status > status && c !in g.nocare then ts[c].status else status);
    }
  }

  lemma NoWaiter(sems: seq<Semaphore>, s: int)
    requires NONE <= s < |sems|
    ensures s == NONE ==> FirstWaiter(sems, s) == [] && DropWaiter(Hold(sems, s, -1), s) == sems
  {
  }

  lemma FinishIs(g: Graph, w: World, w': World, status: nat)
    requires WfWorld(g, w) && w.stack != [] && Top(w.stack).t < |w.ts| && g.semaphore[Top(w.stack).t] < |w.sems|
    requires status == ActStatus(w.acts, g.actions[Top(w.stack).t], w.ts[Top(w.stack).t].status)
    requires var t := Top(w.stack).t; var x := w.ts[t]; var s := g.semaphore[t];
      && w'.acts == Distribute(w.acts, g.actions[t], status)
      && w'.ts == w.ts[t := x.(status := status, progress := Done)]
      && w'.counts == Tally(w.counts, x, status)
      && w'.sems == DropWaiter(Hold(w.sems, s, -1), s)
      && w'.stack == Rest(w.stack) + Tell(x.parents + FirstWaiter(w.sems, s))
      && w'.running == w.running && w'.stamp == w.stamp && w'.clock == w.clock && w'.released == w.released
    ensures w' == Finish(g, w)
  {
    hide ActStatus, Distribute, Tally, DropWaiter, Hold, Tell, FirstWaiter, WfWorld;
  }

  /** The sizes of things, and the entry on top. */
  lemma Shape(g: Graph, w: World)
    requires Sound(g, w)
    ensures WfWorld(g, w) && WfGraph(g)
    ensures |w.ts| == |w.stamp| == |w.released| == |g.depends| && |w.sems| == g.nsems && |w.acts| == g.nacts
    ensures w.stack != [] ==>
      var e := Top(w.stack);
      && WfEntry(g, e) && e.t < |g.depends| && NONE <= e.parent < |g.depends| && NONE <= g.semaphore[e.t] < g.nsems
  {
    hide FitsAt, AskAbove, Ordered, SemsOk, Tallied, WfTarget;
  }

  lemma LessMeans(a: Left, b: Left)
    requires Less(a, b)
    ensures
      || a.unvisited < b.unvisited
      || (a.unvisited == b.unvisited && a.unreleased < b.unreleased)
      || (a.unvisited == b.unvisited && a.unreleased == b.unreleased && a.undone < b.undone)
      || (a.unvisited == b.unvisited && a.unreleased == b.unreleased && a.undone == b.undone && a.cmds < b.cmds)
      || (a.unvisited == b.unvisited && a.unreleased == b.unreleased && a.undone == b.undone && a.cmds == b.cmds
          && a.entries < b.entries)
  {
  }

  lemma LessTrans(a: Left, b: Left, c: Left)
    requires Less(a, b) && Less(b, c)
    ensures Less(a, c)
  {
  }

  lemma Course(g: Graph, w0: World, w: World, root: nat)
    requires OnCourse(g, w0, w, root)
    ensures Sound(g, w) && RootAsked(w, root) && Later(g, w0, w)
  {
    hide Sound;
  }

  lemma Opening(g: Graph, w: World, w': World, root: nat)
    requires Quiet(g, w) && root < |w.ts| && w' == w.(stack := w.stack + [Entry(A, root, NONE, 0)], counts := Counts(0, 0, 0, 0))
    ensures w' == Begin(w, root) && OnCourse(g, w', w', root)
  {
    hide Sound;
    BeginSound(g, w, root);
    NoLater(g, w');
    assert w'.stack[0] == Entry(A, root, NONE, 0);
  }

  lemma AllDone(g: Graph, w: World, root: nat)
    requires Quiet(g, w) && RootAsked(w, root)
    ensures WfWorld(g, w)
    ensures forall p :: Chain(g, p) && p[0] == root ==> p[|p| - 1] < |w.ts| && w.ts[p[|p| - 1]].progress.Done?
  {
    hide Sound;
    Typed(g, w);
    forall p | Chain(g, p) && p[0] == root
      ensures p[|p| - 1] < |w.ts| && w.ts[p[|p| - 1]].progress.Done?
    {
      ReachedDone(g, w, p);
    }
  }

  lemma ByTop(g: Graph, w: World, w': World)
    requires WfWorld(g, w) && w.stack != []
    requires match Top(w.stack).kind
      case A => w' == StepA(g, w)
      case ATail => w' == StepATail(g, w)
      case B => false
      case C => w' == StepC(g, w)
      case D => w.ts[Top(w.stack).t].cmds != [] && w' == StepD(g, w)
    ensures Next(g, w, w') && Turned(g, w, w')
  {
    hide StepA, StepATail, StepC, StepD, OnlyFinish, WfWorld;
    NoneFinish(w');
    assert StepTop(g, w, w');
  }

  lemma ByB(g: Graph, w: World, cmds: seq<Cmd>)
    requires WfWorld(g, w) && w.stack != [] && Top(w.stack).kind.B?
    ensures Next(g, w, StepB(g, w, cmds)) && Turned(g, w, StepB(g, w, cmds))
  {
    hide StepB, OnlyFinish, WfWorld;
    NoneFinish(StepB(g, w, cmds));
    assert StepTop(g, w, StepB(g, w, cmds));
  }

  lemma TurnedC(g: Graph, w: World, w': World)
    requires WfWorld(g, w) && w.stack != [] && Top(w.stack).kind.C? && OnlyFinish(StepC(g, w), w')
    ensures Turned(g, w, w')
  {
    hide StepC, OnlyFinish, WfWorld;
    assert StepTop(g, w, StepC(g, w));
  }

  lemma ByC(g: Graph, w: World, w': World)
    requires WfWorld(g, w) && w.stack != [] && Top(w.stack).kind.C?
    requires var e := Top(w.stack); var x := w.ts[e.t];
      if x.cmds != [] && x.status == EXEC_CMD_OK then
        if g.noexec then w' == w.(stack := Rest(w.stack) + [e.(kind := D, status := EXEC_CMD_OK)])
        else w' == w.(stack := Rest(w.stack), running := w.running + {e.t})
      else w' == Finish(g, w)
    ensures Next(g, w, w')
  {
    hide Finish;
  }

  lemma ByClosure(g: Graph, w0: World, w: World, root: nat, t: nat, status: nat)
    requires OnCourse(g, w0, w, root) && t in w.running && status <= EXEC_CMD_FAIL
    ensures Next(g, w, Closure(w, t, status))
  {
    hide Sound, Later;
    Typed(g, w);
    assert Finishes(w, t, status);
  }

  lemma CmdsAtD(g: Graph, w: World)
    requires Sound(g, w) && w.stack != [] && Top(w.stack).kind.D?
    ensures Top(w.stack).t < |w.ts| && w.ts[Top(w.stack).t].cmds != []
  {
    hide Conserved, Ordered, SemsOk, Tallied;
    BusyTop(g, w);
  }

  lemma DepMore(g: Graph, ts: seq<Target>, deps: seq<nat>, status: nat)
    requires forall k :: 0 <= k < |deps| ==> deps[k] < |ts|
    ensures DepStatus(g, ts, deps, status) ==
      if deps == [] then status
      else DepStatus(g, ts, deps[1..], if ts[deps[0]].status > status && deps[0] !in g.nocare then ts[deps[0]].status else status)
  {
  }

  lemma ActMore(acts: seq<nat>, as_: seq<nat>, status: nat)
    requires forall k :: 0 <= k < |as_| ==> as_[k] < |acts|
    ensures ActStatus(acts, as_, status) ==
      if as_ == [] then status else ActStatus(acts, as_[1..], if acts[as_[0]] > status then acts[as_[0]] else status)
  {
  }

  lemma DistributeMore(acts: seq<nat>, as_: seq<nat>, status: nat)
    requires forall k :: 0 <= k < |as_| ==> as_[k] < |acts|
    ensures Distribute(acts, as_, status) ==
      if as_ == [] then acts else Distribute(if status > acts[as_[0]] then acts[as_[0] := status] else acts, as_[1..], status)
  {
  }
}
