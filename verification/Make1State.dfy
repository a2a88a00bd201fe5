/** The state of make1() and its steps: an explicit stack of what is to be done to which
    target, run one entry at a time, while commands finish whenever they like. */
module Make1State {
  import opened TargetFates

  const EXEC_CMD_OK := 0
  const EXEC_CMD_FAIL := 1

  const NONE := -1

  datatype Progress = Init | OnStack | Active | Running | Done

  datatype Kind = A | ATail | B | C | D

  /** An entry of the state stack: which step to do next for target t. */
  datatype Entry = Entry(kind: Kind, t: nat, parent: int, status: nat)

  /** A command, and whether its rule says to ignore its failure. */
  datatype Cmd = Cmd(ignore: bool)

  datatype Target = Target(progress: Progress, asynccnt: int, status: nat, parents: seq<nat>, cmds: seq<Cmd>)

  /** A semaphore: asynccnt counts who holds it, parents wait for it. */
  datatype Semaphore = Semaphore(asynccnt: int, parents: seq<nat>)

  datatype Counts = Counts(failed: nat, skipped: nat, total: nat, made: nat)

  /** What make0 and the Jamfiles have settled before make1 starts. */
  datatype Graph = Graph(
    depends: seq<seq<nat>>,
    fate: seq<nat>,
    nocare: set<nat>,
    failExpected: set<nat>,
    actions: seq<seq<nat>>,
    semaphore: seq<int>,
    nsems: nat,
    nacts: nat,
    noexec: bool)

  /** The state of a build. The top of the stack is its last entry. running is the targets
      whose command has been started and has not finished. stamp tells in which order the
      1ATAIL steps were taken and released how often 1B let a target go on to 1C. */
  datatype World = World(
    stack: seq<Entry>,
    ts: seq<Target>,
    sems: seq<Semaphore>,
    running: set<nat>,
    acts: seq<nat>,
    counts: Counts,
    stamp: seq<nat>,
    clock: nat,
    released: seq<nat>)

  ghost predicate WfGraph(g: Graph) {
    var n := |g.depends|;
    && |g.fate| == |g.actions| == |g.semaphore| == n
    && (forall t, k :: 0 <= t < n && 0 <= k < |g.depends[t]| ==> g.depends[t][k] < n)
    && (forall t, k :: 0 <= t < n && 0 <= k < |g.actions[t]| ==> g.actions[t][k] < g.nacts)
    && (forall t :: 0 <= t < n ==> NONE <= g.semaphore[t] < g.nsems)
    && (forall t :: 0 <= t < n ==> STABLE <= g.fate[t] <= CANTMAKE)
  }

  /** An entry that the stack may hold. */
  predicate WfEntry(g: Graph, e: Entry) {
    && e.t < |g.depends| && NONE <= e.parent < |g.depends| && e.status <= EXEC_CMD_FAIL
    && (e.kind.A? && e.parent != NONE ==> e.parent < |g.depends| && e.t in g.depends[e.parent])
  }

  ghost predicate WfTarget(g: Graph, x: Target) {
    x.status <= EXEC_CMD_FAIL && forall k :: 0 <= k < |x.parents| ==> x.parents[k] < |g.depends|
  }

  ghost predicate WfWorld(g: Graph, w: World) {
    && WfGraph(g)
    && |w.ts| == |w.stamp| == |w.released| == |g.depends| && |w.sems| == g.nsems && |w.acts| == g.nacts
    && (forall i :: 0 <= i < |w.stack| ==> WfEntry(g, w.stack[i]))
    && (forall t :: 0 <= t < |w.ts| ==> WfTarget(g, w.ts[t]))
    && (forall s, k :: 0 <= s < |w.sems| && 0 <= k < |w.sems[s].parents| ==> w.sems[s].parents[k] < |g.depends|)
    && (forall t :: t in w.running ==> t < |g.depends|)
    && (forall a :: 0 <= a < |w.acts| ==> w.acts[a] <= EXEC_CMD_FAIL)
  }

  // ---- the stack ----

  function Top(st: seq<Entry>): Entry
    requires st != []
  {
    st[|st| - 1]
  }

  function Rest(st: seq<Entry>): seq<Entry>
    requires st != []
  {
    st[..|st| - 1]
  }

  /** What make1a pushes for the dependencies of p: the first one ends up on top. */
  function AskFor(deps: seq<nat>, p: nat): (r: seq<Entry>)
    ensures |r| == |deps|
  {
    if deps == [] then [] else AskFor(deps[1..], p) + [Entry(A, deps[0], p, 0)]
  }

  /** What make1c pushes for the targets to be told: the first one ends up on top. */
  function Tell(ps: seq<nat>): (r: seq<Entry>)
    ensures |r| == |ps|
  {
    if ps == [] then [] else Tell(ps[1..]) + [Entry(B, ps[0], NONE, 0)]
  }

  // ---- the steps ----

  /** Whether a parent that asks for a target in this state has to be told later. */
  predicate Awaited(p: Progress) {
    p.Init? || p.Active? || p.Running?
  }

  /** Target t will tell p, and p waits for it. */
  function Register(ts: seq<Target>, t: nat, p: nat): (r: seq<Target>)
    requires t < |ts| && p < |ts|
    ensures |r| == |ts|
  {
    var ts1 := ts[t := ts[t].(parents := ts[t].parents + [p])];
    ts1[p := ts1[p].(asynccnt := ts1[p].asynccnt + 1)]
  }

  function StepA(g: Graph, w: World): World
    requires w.stack != [] && |w.ts| == |g.depends| && WfEntry(g, Top(w.stack))
  {
    var e := Top(w.stack);
    var t := e.t;
    var ts1 := if e.parent != NONE && Awaited(w.ts[t].progress) then Register(w.ts, t, e.parent) else w.ts;
    if !ts1[t].progress.Init? then w.(ts := ts1, stack := Rest(w.stack))
    else
      w.(ts := ts1[t := ts1[t].(asynccnt := 1, progress := OnStack)],
         stack := Rest(w.stack) + [e.(kind := ATail)] + AskFor(g.depends[t], t))
  }

  function StepATail(g: Graph, w: World): World
    requires w.stack != [] && |w.ts| == |w.stamp| == |g.depends| && WfEntry(g, Top(w.stack))
  {
    var e := Top(w.stack);
    w.(ts := w.ts[e.t := w.ts[e.t].(progress := Active)],
       stack := Rest(w.stack) + [e.(kind := B)],
       stamp := w.stamp[e.t := w.clock], clock := w.clock + 1)
  }

  /** The status of t after collecting that of the dependencies it cares about. */
  function DepStatus(g: Graph, ts: seq<Target>, deps: seq<nat>, status: nat): (r: nat)
    requires forall k :: 0 <= k < |deps| ==> deps[k] < |ts|
    ensures r >= status
    ensures forall c :: c in deps && c !in g.nocare ==> ts[c].status <= r
    ensures r == status || exists c :: c in deps && c !in g.nocare && ts[c].status == r
    decreases |deps|
  {
    if deps == [] then status
    else
      var c := deps[0];
      DepStatus(g, ts, deps[1..], if ts[c].status > status && c !in g.nocare then ts[c].status else status)
  }

  /** Whether a target with this fate is to be built. */
  predicate Builds(fate: nat) {
    BUILD <= fate <= UPDATE
  }

  /** What 1B makes of a target whose dependencies are done, with status the worst of theirs;
      cmds is what make1cmds prepares for it. */
  function Released(g: Graph, x: Target, t: nat, status: nat, cmds: seq<Cmd>): Target
    requires t < |g.fate| && t < |g.actions|
  {
    if status != EXEC_CMD_OK then x.(asynccnt := 0, status := status)
    else if g.fate[t] >= BROKEN then x.(asynccnt := 0, status := EXEC_CMD_FAIL)
    else if Builds(g.fate[t]) && g.actions[t] != [] then x.(asynccnt := 0, status := status, cmds := cmds, progress := Running)
    else x.(asynccnt := 0, status := status)
  }

  function ReleasedCounts(g: Graph, c: Counts, t: nat, status: nat): Counts
    requires t < |g.fate| && t < |g.actions|
  {
    if status == EXEC_CMD_FAIL && g.actions[t] != [] then c.(skipped := c.skipped + 1)
    else if status == EXEC_CMD_OK && Builds(g.fate[t]) && g.actions[t] != [] then c.(total := c.total + 1)
    else c
  }

  /** Change in the number that hold semaphore s, if there is one. */
  function Hold(sems: seq<Semaphore>, s: int, d: int): (r: seq<Semaphore>)
    requires s < |sems|
    ensures |r| == |sems|
  {
    if s < 0 then sems else sems[s := sems[s].(asynccnt := sems[s].asynccnt + d)]
  }

  function StepB(g: Graph, w: World, cmds: seq<Cmd>): World
    requires WfWorld(g, w) && w.stack != []
  {
    var e := Top(w.stack);
    var t := e.t;
    var x := w.ts[t];
    var s := g.semaphore[t];
    if x.asynccnt - 1 != 0 then
      w.(ts := w.ts[t := x.(asynccnt := x.asynccnt - 1)], stack := Rest(w.stack))
    else if s != NONE && w.sems[s].asynccnt != 0 then
      w.(sems := w.sems[s := w.sems[s].(parents := w.sems[s].parents + [t])], stack := Rest(w.stack))
    else
      var status := DepStatus(g, w.ts, g.depends[t], x.status);
      w.(ts := w.ts[t := Released(g, x, t, status, cmds)],
         counts := ReleasedCounts(g, w.counts, t, status),
         sems := Hold(w.sems, s, 1),
         stack := Rest(w.stack) + [e.(kind := C)],
         released := w.released[t := w.released[t] + 1])
  }

  /** The worst of status and that of the actions. */
  function ActStatus(acts: seq<nat>, as_: seq<nat>, status: nat): (r: nat)
    requires forall k :: 0 <= k < |as_| ==> as_[k] < |acts|
    ensures r >= status
    ensures forall a :: a in as_ ==> acts[a] <= r
    ensures r == status || exists a :: a in as_ && acts[a] == r
    decreases |as_|
  {
    if as_ == [] then status
    else ActStatus(acts, as_[1..], if acts[as_[0]] > status then acts[as_[0]] else status)
  }

  /** The actions with status passed on to them. */
  function Distribute(acts: seq<nat>, as_: seq<nat>, status: nat): (r: seq<nat>)
    requires forall k :: 0 <= k < |as_| ==> as_[k] < |acts|
    ensures |r| == |acts|
    ensures forall a :: 0 <= a < |acts| ==> r[a] == if a in as_ && acts[a] < status then status else acts[a]
    decreases |as_|
  {
    if as_ == [] then acts
    else
      var a := as_[0];
      Distribute(if status > acts[a] then acts[a := status] else acts, as_[1..], status)
  }

  function Tally(c: Counts, x: Target, status: nat): Counts {
    if !x.progress.Running? then c
    else if status == EXEC_CMD_OK then c.(made := c.made + 1)
    else if status == EXEC_CMD_FAIL then c.(failed := c.failed + 1)
    else c
  }

  /** Who waits for semaphore s first, if anyone does. */
  function FirstWaiter(sems: seq<Semaphore>, s: int): (r: seq<nat>)
    requires s < |sems|
    ensures |r| <= 1
  {
    if s < 0 || sems[s].parents == [] then [] else [sems[s].parents[0]]
  }

  function DropWaiter(sems: seq<Semaphore>, s: int): (r: seq<Semaphore>)
    requires s < |sems|
    ensures |r| == |sems|
  {
    if s < 0 || sems[s].parents == [] then sems else sems[s := sems[s].(parents := sems[s].parents[1..])]
  }

  /** Target t is done: its actions and counts are settled, its parents and whoever waits
      for its semaphore are told. */
  function Finish(g: Graph, w: World): World
    requires WfWorld(g, w) && w.stack != []
  {
    var t := Top(w.stack).t;
    var x := w.ts[t];
    var s := g.semaphore[t];
    var status := ActStatus(w.acts, g.actions[t], x.status);
    w.(acts := Distribute(w.acts, g.actions[t], status),
       ts := w.ts[t := x.(status := status, progress := Done)],
       counts := Tally(w.counts, x, status),
       sems := DropWaiter(Hold(w.sems, s, -1), s),
       stack := Rest(w.stack) + Tell(x.parents + FirstWaiter(w.sems, s)))
  }

  function StepC(g: Graph, w: World): World
    requires WfWorld(g, w) && w.stack != []
  {
    var e := Top(w.stack);
    var x := w.ts[e.t];
    if x.cmds != [] && x.status == EXEC_CMD_OK then
      if g.noexec then w.(stack := Rest(w.stack) + [e.(kind := D, status := EXEC_CMD_OK)])
      else w.(stack := Rest(w.stack), running := w.running + {e.t})
    else Finish(g, w)
  }

  /** What a finished command's status comes to for its target. */
  function Outcome(g: Graph, t: nat, cmd: Cmd, status: nat): nat {
    var inverted :=
      if t in g.failExpected then
        if status == EXEC_CMD_FAIL then EXEC_CMD_OK else if status == EXEC_CMD_OK then EXEC_CMD_FAIL else status
      else status;
    if inverted == EXEC_CMD_FAIL && cmd.ignore then EXEC_CMD_OK else inverted
  }

  function StepD(g: Graph, w: World): World
    requires WfWorld(g, w) && w.stack != [] && w.ts[Top(w.stack).t].cmds != []
  {
    var e := Top(w.stack);
    var x := w.ts[e.t];
    w.(ts := w.ts[e.t := x.(status := Outcome(g, e.t, x.cmds[0], e.status), cmds := x.cmds[1..])],
       stack := Rest(w.stack) + [e.(kind := C)])
  }

  /** make_closure: a command of t has finished. */
  function Closure(w: World, t: nat, status: nat): World {
    w.(running := w.running - {t}, stack := w.stack + [Entry(D, t, NONE, status)])
  }

  /** w' can come next: the top entry has been run, or some command has finished. */
  ghost predicate Next(g: Graph, w: World, w': World) {
    && WfWorld(g, w)
    && (StepTop(g, w, w') || exists t, status :: Finishes(w, t, status) && w' == Closure(w, t, status))
  }

  predicate Finishes(w: World, t: nat, status: nat) {
    t in w.running && status <= EXEC_CMD_FAIL
  }

  ghost predicate StepTop(g: Graph, w: World, w': World)
    requires WfWorld(g, w)
  {
    w.stack != [] &&
    match Top(w.stack).kind
    case A => w' == StepA(g, w)
    case ATail => w' == StepATail(g, w)
    case B => exists cmds :: w' == StepB(g, w, cmds)
    case C => w' == StepC(g, w)
    case D => w.ts[Top(w.stack).t].cmds != [] && w' == StepD(g, w)
  }

  // ---- counting ----

  /** What to count on the stack for a target: what holds its asynccnt up, what it still
      has to ask for, its 1ATAIL, its 1C or 1D, its 1D. */
  datatype Query = Tokens | Asks | Tails | Holds | Ends

  function Val(e: Entry, t: nat, q: Query): nat {
    match q
    case Tokens => if e.t == t && (e.kind.ATail? || e.kind.B?) then 1 else 0
    case Asks => if e.kind.A? && e.parent == t then 1 else 0
    case Tails => if e.t == t && e.kind.ATail? then 1 else 0
    case Holds => if e.t == t && (e.kind.C? || e.kind.D?) then 1 else 0
    case Ends => if e.t == t && e.kind.D? then 1 else 0
  }

  function Count(st: seq<Entry>, t: nat, q: Query): nat {
    if st == [] then 0 else Count(Rest(st), t, q) + Val(Top(st), t, q)
  }

  lemma {:induction false} CountAppend(a: seq<Entry>, b: seq<Entry>, t: nat, q: Query)
    ensures Count(a + b, t, q) == Count(a, t, q) + Count(b, t, q)
    decreases |b|
  {
    if b == [] {
      assert a + b == a;
    } else {
      assert Rest(a + b) == a + Rest(b);
      CountAppend(a, Rest(b), t, q);
    }
  }

  lemma CountPush(a: seq<Entry>, e: Entry, t: nat, q: Query)
    ensures Count(a + [e], t, q) == Count(a, t, q) + Val(e, t, q)
  {
    assert Rest(a + [e]) == a;
  }

  lemma {:induction false} CountAskFor(deps: seq<nat>, p: nat, t: nat, q: Query)
    ensures Count(AskFor(deps, p), t, q) == if q.Asks? && t == p then |deps| else 0
    decreases |deps|
  {
    if deps != [] {
      CountAskFor(deps[1..], p, t, q);
      CountPush(AskFor(deps[1..], p), Entry(A, deps[0], p, 0), t, q);
    }
  }

  function Occ(ps: seq<nat>, t: nat): nat {
    multiset(ps)[t]
  }

  lemma {:induction false} CountTell(ps: seq<nat>, t: nat, q: Query)
    ensures Count(Tell(ps), t, q) == if q.Tokens? then Occ(ps, t) else 0
    decreases |ps|
  {
    if ps != [] {
      CountTell(ps[1..], t, q);
      CountPush(Tell(ps[1..]), Entry(B, ps[0], NONE, 0), t, q);
      assert ps == [ps[0]] + ps[1..];
    }
  }

  lemma {:induction false} CountNone(st: seq<Entry>, t: nat, q: Query)
    requires forall i :: 0 <= i < |st| ==> Val(st[i], t, q) == 0
    ensures Count(st, t, q) == 0
    decreases |st|
  {
    if st != [] {
      CountNone(Rest(st), t, q);
    }
  }

  lemma {:induction false} CountSome(st: seq<Entry>, t: nat, q: Query) returns (i: nat)
    requires Count(st, t, q) > 0
    ensures i < |st| && Val(st[i], t, q) > 0
    decreases |st|
  {
    if Val(Top(st), t, q) > 0 {
      i := |st| - 1;
    } else {
      i := CountSome(Rest(st), t, q);
    }
  }

  lemma {:induction false} CountsOne(st: seq<Entry>, t: nat, q: Query, i: nat)
    requires i < |st|
    ensures Count(st, t, q) >= Val(st[i], t, q)
    decreases |st|
  {
    if i < |st| - 1 {
      CountsOne(Rest(st), t, q, i);
    }
  }

  /** How often x will tell t. */
  function Share(x: Target, t: nat): nat {
    if x.progress.Done? then 0 else Occ(x.parents, t)
  }

  /** How often unfinished targets will tell t. */
  function Owed(ts: seq<Target>, t: nat): nat {
    if ts == [] then 0 else Share(ts[0], t) + Owed(ts[1..], t)
  }

  lemma {:induction false} OwedUpdate(ts: seq<Target>, u: nat, x: Target, t: nat)
    requires u < |ts|
    ensures Owed(ts[u := x], t) + Share(ts[u], t) == Owed(ts, t) + Share(x, t)
    decreases |ts|
  {
    var us := ts[u := x];
    if u == 0 {
      assert us[1..] == ts[1..];
    } else {
      assert us[1..] == ts[1..][u - 1 := x];
      OwedUpdate(ts[1..], u - 1, x, t);
    }
  }

  lemma {:induction false} OwedOne(ts: seq<Target>, u: nat, t: nat)
    requires u < |ts|
    ensures Owed(ts, t) >= Share(ts[u], t)
    decreases |ts|
  {
    if u > 0 {
      OwedOne(ts[1..], u - 1, t);
    }
  }

  lemma {:induction false} OwedSome(ts: seq<Target>, t: nat) returns (u: nat)
    requires Owed(ts, t) > 0
    ensures u < |ts| && !ts[u].progress.Done? && t in ts[u].parents
    decreases |ts|
  {
    if Share(ts[0], t) > 0 {
      u := 0;
    } else {
      var v := OwedSome(ts[1..], t);
      u := v + 1;
    }
  }

  /** How often t waits for a semaphore. */
  function Queued(sems: seq<Semaphore>, t: nat): nat {
    if sems == [] then 0 else Occ(sems[0].parents, t) + Queued(sems[1..], t)
  }

  lemma {:induction false} QueuedUpdate(sems: seq<Semaphore>, s: nat, x: Semaphore, t: nat)
    requires s < |sems|
    ensures Queued(sems[s := x], t) + Occ(sems[s].parents, t) == Queued(sems, t) + Occ(x.parents, t)
    decreases |sems|
  {
    var us := sems[s := x];
    if s == 0 {
      assert us[1..] == sems[1..];
    } else {
      assert us[1..] == sems[1..][s - 1 := x];
      QueuedUpdate(sems[1..], s - 1, x, t);
    }
  }

  lemma {:induction false} QueuedOne(sems: seq<Semaphore>, s: nat, t: nat)
    requires s < |sems|
    ensures Queued(sems, t) >= Occ(sems[s].parents, t)
    decreases |sems|
  {
    if s > 0 {
      QueuedOne(sems[1..], s - 1, t);
    }
  }

  /** The number of targets whose commands are being run. */
  function Runners(ts: seq<Target>): nat {
    if ts == [] then 0 else (if ts[0].progress.Running? then 1 else 0) + Runners(ts[1..])
  }

  lemma {:induction false} RunnersUpdate(ts: seq<Target>, u: nat, x: Target)
    requires u < |ts|
    ensures Runners(ts[u := x]) + (if ts[u].progress.Running? then 1 else 0)
      == Runners(ts) + (if x.progress.Running? then 1 else 0)
    decreases |ts|
  {
    var us := ts[u := x];
    if u == 0 {
      assert us[1..] == ts[1..];
    } else {
      assert us[1..] == ts[1..][u - 1 := x];
      RunnersUpdate(ts[1..], u - 1, x);
    }
  }

  lemma {:induction false} NoRunners(ts: seq<Target>)
    requires forall t :: 0 <= t < |ts| ==> !ts[t].progress.Running?
    ensures Runners(ts) == 0
    decreases |ts|
  {
    if ts != [] {
      assert !ts[0].progress.Running?;
      assert forall t :: 0 <= t < |ts| - 1 ==> ts[1..][t] == ts[t + 1];
      NoRunners(ts[1..]);
    }
  }
}
