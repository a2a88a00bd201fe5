/** make0: which targets need updating, by one depth-first visit of what they depend on. */
module Make0 {
  import opened MakeRebuilds
  import opened TargetFates

  const NONE := -1

  datatype Binding = Unbound | Absent | Exists

  /** What the Jamfiles and the file system say. found is the time that search() finds for a
      file, 0 if it finds none. */
  datatype Rules = Rules(
    depends: Links,
    dependants: Links,
    rebuilds: Links,
    found: seq<nat>,
    acted: set<nat>,
    nocare: set<nat>,
    notfile: set<nat>,
    touched: set<nat>,
    noupdate: set<nat>,
    anyhow: bool)

  ghost predicate WfRules(g: Rules) {
    var n := |g.found|;
    WfLinks(g.depends, n) && WfLinks(g.dependants, n) && WfLinks(g.rebuilds, n)
  }

  function Max(a: nat, b: nat): nat {
    if a > b then a else b
  }

  /** The greatest of base and the values of deps. */
  function MaxOf(vals: seq<nat>, deps: seq<nat>, base: nat): (r: nat)
    requires forall k :: 0 <= k < |deps| ==> deps[k] < |vals|
    ensures r >= base
    ensures forall c :: c in deps ==> vals[c] <= r
    ensures r == base || exists c :: c in deps && vals[c] == r
    decreases |deps|
  {
    if deps == [] then base else MaxOf(vals, deps[1..], Max(base, vals[deps[0]]))
  }

  // ---- what a visit leaves behind, target by target ----

  /** The dependencies whose times and fates t heeds. */
  function Heeds(g: Rules, t: nat): seq<nat>
    requires t < |g.depends|
  {
    if t in g.noupdate then [] else g.depends[t]
  }

  /** The time of the file itself; none for what is no file, and NOUPDATE files are taken to
      be eternally old. */
  function Stamp(g: Rules, t: nat): nat
    requires t < |g.found|
  {
    if t in g.noupdate || t in g.notfile then 0 else g.found[t]
  }

  function BindingOf(g: Rules, t: nat): Binding
    requires t < |g.found|
  {
    if t in g.notfile then Unbound else if g.found[t] != 0 then Exists else Absent
  }

  predicate IsTouched(g: Rules, t: nat) {
    t in g.touched || (g.anyhow && t !in g.noupdate)
  }

  /** A missing file with nothing to make it. */
  predicate NoWay(g: Rules, t: nat)
    requires t < |g.depends|
  {
    t !in g.acted && g.depends[t] == []
  }

  /** t's fate and time as its dependencies' decide them; worst and last are the greatest fate
      and time among those it heeds. */
  predicate Judged(g: Rules, t: nat, worst: nat, last: nat, fate: nat)
    requires t < |g.depends| && t < |g.found|
  {
    if worst >= BROKEN then fate == CANTMAKE
    else if worst >= SPOIL then fate == UPDATE
    else if BindingOf(g, t).Absent? then
      fate == if NoWay(g, t) then if t in g.nocare then STABLE else CANTFIND else MISSING
    else if BindingOf(g, t).Exists? && last > Stamp(g, t) then fate == OUTDATED
    else if IsTouched(g, t) then fate == TOUCHED
    else fate == STABLE || fate == NEWER
  }

  /** make0 is done with t and has judged it by what it depends on. */
  ghost predicate Settled(g: Rules, fate: seq<nat>, time: seq<nat>, t: nat)
    requires WfRules(g) && |fate| == |time| == |g.found| && t < |fate|
  {
    var last := MaxOf(time, Heeds(g, t), 0);
    && (forall c :: c in g.depends[t] ==> fate[c] >= STABLE)
    && time[t] == Max(Stamp(g, t), last)
    && Judged(g, t, MaxOf(fate, Heeds(g, t), STABLE), last, fate[t])
  }

  // ---- what fates mean ----

  /** A chain of heeded dependencies. */
  ghost predicate Chain(g: Rules, p: seq<nat>)
    requires WfRules(g)
  {
    && p != [] && (forall i :: 0 <= i < |p| ==> p[i] < |g.found|)
    && forall i :: 0 <= i < |p| - 1 ==> p[i + 1] in Heeds(g, p[i])
  }

  ghost predicate ChainTo(g: Rules, p: seq<nat>, t: nat, u: nat)
    requires WfRules(g)
  {
    Chain(g, p) && p[0] == t && p[|p| - 1] == u
  }

  ghost predicate Reaches(g: Rules, t: nat, u: nat)
    requires WfRules(g)
  {
    exists p :: ChainTo(g, p, t, u)
  }

  /** A missing file that nothing makes and somebody cares about. */
  predicate Unfindable(g: Rules, u: nat)
    requires u < |g.depends| && u < |g.found|
  {
    BindingOf(g, u).Absent? && NoWay(g, u) && u !in g.nocare
  }

  /** A file that is not there, other than one nobody cares about and nothing makes. */
  predicate Lacking(g: Rules, u: nat)
    requires u < |g.depends| && u < |g.found|
  {
    BindingOf(g, u).Absent? && !(NoWay(g, u) && u in g.nocare)
  }

  /** A chain from u to v with nothing but NOTFILE targets between them. */
  ghost predicate Sees(g: Rules, p: seq<nat>, u: nat, v: nat)
    requires WfRules(g)
  {
    ChainTo(g, p, u, v) && |p| >= 2 && forall i :: 0 < i < |p| - 1 ==> p[i] in g.notfile
  }

  /** File u is older than file v, which it depends on directly or through NOTFILE targets. */
  ghost predicate OlderThan(g: Rules, u: nat, v: nat)
    requires WfRules(g)
  {
    && u < |g.found| && v < |g.found| && BindingOf(g, u).Exists? && BindingOf(g, v).Exists?
    && Stamp(g, v) > Stamp(g, u) && exists p :: Sees(g, p, u, v)
  }

  /** What makes u need updating by itself; being touched does not matter to a file that
      nobody cares about and that is not there. */
  ghost predicate Due(g: Rules, u: nat)
    requires WfRules(g)
  {
    && u < |g.found|
    && if BindingOf(g, u).Absent? then Lacking(g, u) else IsTouched(g, u) || exists v :: OlderThan(g, u, v)
  }

  /** t reaches, or is, a source that nobody can find: u. */
  ghost predicate IsLost(g: Rules, t: nat, u: nat)
    requires WfRules(g)
  {
    Reaches(g, t, u) && u < |g.found| && Unfindable(g, u)
  }

  /** t reaches, or is, something that needs updating by itself: u. */
  ghost predicate IsDue(g: Rules, t: nat, u: nat)
    requires WfRules(g)
  {
    Reaches(g, t, u) && Due(g, u)
  }

  lemma ChainStep(g: Rules, t: nat, c: nat, p: seq<nat>)
    requires WfRules(g) && t < |g.found| && c in Heeds(g, t) && Chain(g, p) && p[0] == c
    ensures Chain(g, [t] + p)
  {
    var q := [t] + p;
    forall i | 0 <= i < |q| - 1
      ensures q[i + 1] in Heeds(g, q[i])
    {
      if i > 0 { assert p[i - 1 + 1] in Heeds(g, p[i - 1]); }
    }
  }

  lemma ChainTail(g: Rules, p: seq<nat>)
    requires WfRules(g) && Chain(g, p) && |p| > 1
    ensures p[1] in Heeds(g, p[0]) && Chain(g, p[1..])
  {
    var q := p[1..];
    forall i | 0 <= i < |q| - 1
      ensures q[i + 1] in Heeds(g, q[i])
    {
      assert p[i + 1 + 1] in Heeds(g, p[i + 1]);
    }
    assert p[0 + 1] in Heeds(g, p[0]);
  }

  lemma ReachStep(g: Rules, t: nat, c: nat, u: nat)
    requires WfRules(g) && t < |g.found| && c in Heeds(g, t) && Reaches(g, c, u)
    ensures Reaches(g, t, u)
  {
    var p :| ChainTo(g, p, c, u);
    ChainStep(g, t, c, p);
    assert ChainTo(g, [t] + p, t, u);
  }

  lemma ReachSelf(g: Rules, t: nat)
    requires WfRules(g) && t < |g.found|
    ensures Reaches(g, t, t)
  {
    assert ChainTo(g, [t], t, t);
  }

  /** Either t itself, or on from one of its dependencies. */
  lemma ReachFirst(g: Rules, t: nat, u: nat) returns (c: nat)
    requires WfRules(g) && Reaches(g, t, u) && t != u
    ensures t < |g.found| && c in Heeds(g, t) && c < |g.found| && Reaches(g, c, u)
  {
    var p :| ChainTo(g, p, t, u);
    c := p[1];
    ChainTail(g, p);
    assert ChainTo(g, p[1..], c, u);
  }

  /** rank shows that there is no cycle. */
  ghost predicate Acyclic(g: Rules, rank: seq<nat>) {
    && WfRules(g) && |rank| == |g.found|
    && forall t, c :: 0 <= t < |rank| && c in g.depends[t] ==> rank[c] < rank[t]
  }

  /** Every target that t reaches has been judged. */
  ghost predicate AllSettled(g: Rules, fate: seq<nat>, time: seq<nat>)
    requires WfRules(g) && |fate| == |time| == |g.found|
  {
    forall t :: 0 <= t < |fate| && fate[t] >= STABLE ==> Settled(g, fate, time, t)
  }

  lemma NoDeps(g: Rules, t: nat)
    requires t < |g.depends|
    ensures NoWay(g, t) ==> Heeds(g, t) == []
  {
  }

  /** What a judged target's fate and time follow from. */
  lemma JudgedAt(g: Rules, rank: seq<nat>, fate: seq<nat>, time: seq<nat>, t: nat)
    requires Acyclic(g, rank) && |fate| == |time| == |g.found| && AllSettled(g, fate, time)
    requires t < |fate| && fate[t] >= STABLE
    ensures t < |rank| && t < |g.depends| && WfRules(g)
    ensures forall c :: c in Heeds(g, t) ==> c < |fate| && fate[c] >= STABLE && rank[c] < rank[t]
    ensures forall k :: 0 <= k < |Heeds(g, t)| ==> Heeds(g, t)[k] < |fate|
    ensures var last := MaxOf(time, Heeds(g, t), 0);
      time[t] == Max(Stamp(g, t), last) && Judged(g, t, MaxOf(fate, Heeds(g, t), STABLE), last, fate[t])
  {
    hide MaxOf, Judged;
    assert Settled(g, fate, time, t);
  }

  /** BROKEN or worse is the fate of exactly the targets that reach a source nobody can find. */
  lemma {:induction false} BrokenMeans(g: Rules, rank: seq<nat>, fate: seq<nat>, time: seq<nat>, t: nat)
    requires Acyclic(g, rank) && |fate| == |time| == |g.found| && AllSettled(g, fate, time)
    requires t < |fate| && fate[t] >= STABLE
    ensures fate[t] >= BROKEN <==> exists u :: IsLost(g, t, u)
    decreases rank[t]
  {
    hide Reaches, AllSettled, Acyclic, WfRules, MaxOf, Heeds;
    JudgedAt(g, rank, fate, time, t);
    NoDeps(g, t);
    var deps := Heeds(g, t);
    forall c | c in deps
      ensures fate[c] >= BROKEN <==> exists u :: IsLost(g, c, u)
    {
      BrokenMeans(g, rank, fate, time, c);
    }
    if fate[t] >= BROKEN {
      if MaxOf(fate, deps, STABLE) >= BROKEN {
        var c :| c in deps && fate[c] >= BROKEN;
        var u :| IsLost(g, c, u);
        ReachStep(g, t, c, u);
        assert IsLost(g, t, u);
      } else {
        ReachSelf(g, t);
        assert IsLost(g, t, t);
      }
    }
    if exists u :: IsLost(g, t, u) {
      var u :| IsLost(g, t, u);
      if u != t {
        var c := ReachFirst(g, t, u);
        assert IsLost(g, c, u);
        assert fate[c] >= BROKEN;
      }
    }
  }

  /** A target that needs no updating takes its time, if any, from a file it is or sees. */
  lemma {:induction false} TimeFrom(g: Rules, rank: seq<nat>, fate: seq<nat>, time: seq<nat>, c: nat) returns (p: seq<nat>, v: nat)
    requires Acyclic(g, rank) && |fate| == |time| == |g.found| && AllSettled(g, fate, time)
    requires c < |fate| && STABLE <= fate[c] < SPOIL && time[c] > 0
    ensures ChainTo(g, p, c, v) && v < |g.found| && BindingOf(g, v).Exists? && Stamp(g, v) == time[c]
    ensures forall i :: 0 <= i < |p| - 1 ==> p[i] in g.notfile
    decreases rank[c]
  {
    hide AllSettled, Acyclic, WfRules, MaxOf, Heeds;
    JudgedAt(g, rank, fate, time, c);
    NoDeps(g, c);
    var deps := Heeds(g, c);
    if BindingOf(g, c).Exists? || time[c] == Stamp(g, c) {
      p, v := [c], c;
    } else {
      var d :| d in deps && time[d] == MaxOf(time, deps, 0);
      var q;
      q, v := TimeFrom(g, rank, fate, time, d);
      ChainStep(g, c, d, q);
      p := [c] + q;
      forall i | 0 <= i < |p| - 1
        ensures p[i] in g.notfile
      {
        assert p[i] == if i == 0 then c else q[i - 1];
        assert i > 0 ==> q[i - 1] in g.notfile;
      }
    }
  }

  /** Times only grow along dependencies. */
  lemma {:induction false} TimeGrows(g: Rules, rank: seq<nat>, fate: seq<nat>, time: seq<nat>, p: seq<nat>)
    requires Acyclic(g, rank) && |fate| == |time| == |g.found| && AllSettled(g, fate, time)
    requires Chain(g, p) && fate[p[0]] >= STABLE
    ensures Stamp(g, p[|p| - 1]) <= time[p[0]]
    decreases |p|
  {
    hide AllSettled, Acyclic, WfRules, MaxOf, Heeds, Judged;
    JudgedAt(g, rank, fate, time, p[0]);
    if |p| > 1 {
      var q := p[1..];
      ChainTail(g, p);
      TimeGrows(g, rank, fate, time, q);
    }
  }

  /** Older than something it sees, or with a dependency newer than itself: the same thing,
      as long as no dependency needs updating. */
  lemma OldMeans(g: Rules, rank: seq<nat>, fate: seq<nat>, time: seq<nat>, t: nat)
    requires Acyclic(g, rank) && |fate| == |time| == |g.found| && AllSettled(g, fate, time)
    requires t < |fate| && fate[t] >= STABLE && MaxOf(fate, Heeds(g, t), STABLE) < SPOIL
    ensures (BindingOf(g, t).Exists? && MaxOf(time, Heeds(g, t), 0) > Stamp(g, t)) <==> exists v :: OlderThan(g, t, v)
  {
    hide AllSettled, Acyclic, WfRules, MaxOf, Heeds, Judged;
    JudgedAt(g, rank, fate, time, t);
    NoDeps(g, t);
    var deps := Heeds(g, t);
    if BindingOf(g, t).Exists? && MaxOf(time, deps, 0) > Stamp(g, t) {
      var c :| c in deps && time[c] == MaxOf(time, deps, 0);
      var p, v := TimeFrom(g, rank, fate, time, c);
      ChainStep(g, t, c, p);
      forall i | 0 < i < |[t] + p| - 1
        ensures ([t] + p)[i] in g.notfile
      {
        assert p[i - 1] in g.notfile;
      }
      assert Sees(g, [t] + p, t, v);
      assert OlderThan(g, t, v);
    }
    if exists v :: OlderThan(g, t, v) {
      var v :| OlderThan(g, t, v);
      var p :| Sees(g, p, t, v);
      var q := p[1..];
      ChainTail(g, p);
      assert q[0] == p[1] && q[0] in deps && q[|q| - 1] == v;
      TimeGrows(g, rank, fate, time, q);
    }
  }

  /** SPOIL or worse is the fate of exactly the targets that reach, or are, something missing,
      touched, or older than a file it depends on. */
  lemma {:induction false} SpoiledMeans(g: Rules, rank: seq<nat>, fate: seq<nat>, time: seq<nat>, t: nat)
    requires Acyclic(g, rank) && |fate| == |time| == |g.found| && AllSettled(g, fate, time)
    requires t < |fate| && fate[t] >= STABLE
    ensures fate[t] >= SPOIL <==> exists u :: IsDue(g, t, u)
    decreases rank[t]
  {
    hide Reaches, OlderThan, AllSettled, Acyclic, WfRules, MaxOf, Heeds;
    JudgedAt(g, rank, fate, time, t);
    NoDeps(g, t);
    var deps := Heeds(g, t);
    forall c | c in deps
      ensures fate[c] >= SPOIL <==> exists u :: IsDue(g, c, u)
    {
      SpoiledMeans(g, rank, fate, time, c);
    }
    if MaxOf(fate, deps, STABLE) < SPOIL {
      OldMeans(g, rank, fate, time, t);
    }
    if fate[t] >= SPOIL {
      if MaxOf(fate, deps, STABLE) >= SPOIL {
        var c :| c in deps && fate[c] >= SPOIL;
        var u :| IsDue(g, c, u);
        ReachStep(g, t, c, u);
        assert IsDue(g, t, u);
      } else {
        ReachSelf(g, t);
        assert IsDue(g, t, t);
      }
    }
    if exists u :: IsDue(g, t, u) {
      var u :| IsDue(g, t, u);
      if u != t {
        var c := ReachFirst(g, t, u);
        assert IsDue(g, c, u);
        assert fate[c] >= SPOIL;
      }
    }
  }

  /** Some dependency that t heeds reaches a source nobody can find. */
  ghost predicate DepLost(g: Rules, t: nat)
    requires WfRules(g)
  {
    exists c, u :: t < |g.found| && c in Heeds(g, t) && IsLost(g, c, u)
  }

  /** Some dependency that t heeds reaches, or is, something that needs updating by itself. */
  ghost predicate DepDue(g: Rules, t: nat)
    requires WfRules(g)
  {
    exists c, u :: t < |g.found| && c in Heeds(g, t) && IsDue(g, c, u)
  }

  /** The fate that files, flags and chains of dependencies call for. */
  ghost predicate FateIs(g: Rules, t: nat, fate: nat)
    requires WfRules(g) && t < |g.found|
  {
    if DepLost(g, t) then fate == CANTMAKE
    else if Unfindable(g, t) then fate == CANTFIND
    else if DepDue(g, t) then fate == UPDATE
    else if Lacking(g, t) then fate == MISSING
    else if exists v :: OlderThan(g, t, v) then fate == OUTDATED
    else if IsTouched(g, t) && !BindingOf(g, t).Absent? then fate == TOUCHED
    else fate == STABLE || fate == NEWER
  }

  /** Every target's fate is the one called for. */
  lemma FateMeans(g: Rules, rank: seq<nat>, fate: seq<nat>, time: seq<nat>, t: nat)
    requires Acyclic(g, rank) && |fate| == |time| == |g.found| && AllSettled(g, fate, time)
    requires t < |fate| && fate[t] >= STABLE
    ensures WfRules(g) && FateIs(g, t, fate[t])
  {
    hide Reaches, OlderThan, AllSettled, Acyclic, WfRules, MaxOf, Heeds, IsLost, IsDue;
    JudgedAt(g, rank, fate, time, t);
    NoDeps(g, t);
    var deps := Heeds(g, t);
    forall c | c in deps
      ensures fate[c] >= BROKEN <==> exists u :: IsLost(g, c, u)
      ensures fate[c] >= SPOIL <==> exists u :: IsDue(g, c, u)
    {
      BrokenMeans(g, rank, fate, time, c);
      SpoiledMeans(g, rank, fate, time, c);
    }
    assert MaxOf(fate, deps, STABLE) >= BROKEN <==> DepLost(g, t);
    assert MaxOf(fate, deps, STABLE) >= SPOIL <==> DepDue(g, t) || DepLost(g, t);
    if MaxOf(fate, deps, STABLE) < SPOIL {
      OldMeans(g, rank, fate, time, t);
    }
    assert (exists v :: OlderThan(g, t, v)) ==> BindingOf(g, t).Exists? by { OlderExists(g, t); }
  }

  lemma OlderExists(g: Rules, t: nat)
    requires WfRules(g) && t < |g.found|
    ensures (exists v :: OlderThan(g, t, v)) ==> BindingOf(g, t).Exists?
  {
  }

  /** What t reaches is t, or what one of its dependencies reaches. */
  lemma DueFirst(g: Rules, t: nat)
    requires WfRules(g) && t < |g.found|
    ensures (exists u :: IsDue(g, t, u)) <==> Due(g, t) || DepDue(g, t)
  {
    hide Reaches, Due, Heeds;
    if u :| IsDue(g, t, u) && u != t {
      var c := ReachFirst(g, t, u);
      assert IsDue(g, c, u);
    }
    if Due(g, t) {
      ReachSelf(g, t);
      assert IsDue(g, t, t);
    }
    if c, u :| c in Heeds(g, t) && IsDue(g, c, u) {
      ReachStep(g, t, c, u);
      assert IsDue(g, t, u);
    }
  }

  lemma LostFirst(g: Rules, t: nat)
    requires WfRules(g) && t < |g.found|
    ensures (exists u :: IsLost(g, t, u)) <==> Unfindable(g, t) || DepLost(g, t)
    ensures (exists u :: IsLost(g, t, u)) ==> exists u :: IsDue(g, t, u)
  {
    hide Reaches, Unfindable, Heeds;
    if u :| IsLost(g, t, u) {
      assert Due(g, u) by { UnfindableIsDue(g, u); }
      assert IsDue(g, t, u);
    }
    if u :| IsLost(g, t, u) && u != t {
      var c := ReachFirst(g, t, u);
      assert IsLost(g, c, u);
    }
    if Unfindable(g, t) {
      ReachSelf(g, t);
      assert IsLost(g, t, t);
    }
    if c, u :| c in Heeds(g, t) && IsLost(g, c, u) {
      ReachStep(g, t, c, u);
      assert IsLost(g, t, u);
    }
  }

  lemma UnfindableIsDue(g: Rules, u: nat)
    requires WfRules(g) && u < |g.found| && Unfindable(g, u)
    ensures Due(g, u)
  {
  }

  /** What make1 is to build: what is due, unless it is lost. */
  lemma BuildMeans(g: Rules, t: nat, fate: nat)
    requires WfRules(g) && t < |g.found| && FateIs(g, t, fate)
    ensures fate >= BUILD <==> exists u :: IsDue(g, t, u)
    ensures fate >= BROKEN <==> exists u :: IsLost(g, t, u)
    ensures fate != SPOIL
  {
    hide DepDue, DepLost, OlderThan, IsDue, IsLost;
    DueFirst(g, t);
    LostFirst(g, t);
    OlderExists(g, t);
  }

  // ---- one visit ----

  lemma {:induction false} MaxOfSame(vals: seq<nat>, vals': seq<nat>, deps: seq<nat>, base: nat)
    requires |vals| == |vals'| && forall k :: 0 <= k < |deps| ==> deps[k] < |vals| && vals[deps[k]] == vals'[deps[k]]
    ensures MaxOf(vals, deps, base) == MaxOf(vals', deps, base)
    decreases |deps|
  {
    if deps != [] {
      MaxOfSame(vals, vals', deps[1..], Max(base, vals[deps[0]]));
    }
  }

  /** Whatever happens to a target not judged yet leaves those that are judged. */
  lemma SettledElse(g: Rules, F: seq<nat>, T: seq<nat>, F': seq<nat>, T': seq<nat>, t: nat, u: nat)
    requires WfRules(g) && |F| == |T| == |F'| == |T'| == |g.found| && t < |F| && u < |F| && u != t
    requires F[t] < STABLE && Settled(g, F, T, u)
    requires forall x :: 0 <= x < |F| && x != t ==> F'[x] == F[x] && T'[x] == T[x]
    ensures Settled(g, F', T', u)
  {
    hide Judged;
    var deps := Heeds(g, u);
    assert forall k :: 0 <= k < |deps| ==> deps[k] in g.depends[u];
    assert forall c :: c in g.depends[u] ==> c != t;
    MaxOfSame(F, F', deps, STABLE);
    MaxOfSame(T, T', deps, 0);
  }

  lemma AllSettledElse(g: Rules, F: seq<nat>, T: seq<nat>, F': seq<nat>, T': seq<nat>, t: nat)
    requires WfRules(g) && |F| == |T| == |F'| == |T'| == |g.found| && t < |F|
    requires F[t] < STABLE && AllSettled(g, F, T)
    requires forall x :: 0 <= x < |F| && x != t ==> F'[x] == F[x] && T'[x] == T[x]
    requires F'[t] < STABLE || Settled(g, F', T', t)
    ensures AllSettled(g, F', T')
  {
    hide Settled;
    forall u | 0 <= u < |F'| && F'[u] >= STABLE
      ensures Settled(g, F', T', u)
    {
      if u != t { SettledElse(g, F, T, F', T', t, u); }
    }
  }

  /** Acyclic, and nothing is rebuilt on account of anything else. */
  ghost predicate PlainRules(g: Rules, rank: seq<nat>) {
    Acyclic(g, rank) && forall t :: 0 <= t < |g.found| ==> g.rebuilds[t] == []
  }

  /** The visits under way are of targets above t. */
  ghost predicate Above(rank: seq<nat>, F: seq<nat>, t: nat) {
    |rank| == |F| && t < |F| && forall u :: 0 <= u < |F| && F[u] == MAKING ==> rank[u] > rank[t]
  }

  /** Targets not visited have no time yet. */
  ghost predicate Blank(F: seq<nat>, T: seq<nat>, B: seq<Binding>) {
    |F| == |T| == |B| && forall u :: 0 <= u < |F| && F[u] == INIT ==> T[u] == 0 && B[u].Unbound?
  }

  /** What has been visited, between F and F', is finished, with all its dependencies visited. */
  ghost predicate Finished(g: Rules, F: seq<nat>, F': seq<nat>)
    requires WfRules(g) && |F| == |F'| == |g.found|
  {
    forall u :: 0 <= u < |F| && F[u] == INIT && F'[u] != INIT ==>
      F'[u] >= STABLE && forall c :: c in g.depends[u] ==> F'[c] != INIT
  }

  lemma FinishedTrans(g: Rules, F: seq<nat>, G: seq<nat>, H: seq<nat>)
    requires WfRules(g) && |F| == |G| == |H| == |g.found|
    requires Finished(g, F, G) && Finished(g, G, H) && NotLowered(F, G) && NotLowered(G, H)
    ensures Finished(g, F, H) && NotLowered(F, H)
  {
  }

  class Maker {
    const g: Rules
    const fates: Fates
    const fate: array<nat>
    const time: array<nat>
    const binding: array<Binding>

    ghost predicate Valid() {
      && WfRules(g) && fate.Length == time.Length == binding.Length == |g.found| && fate != time
      && fates.fate == fate && fates.dependants == g.dependants && fates.rebuilds == g.rebuilds
    }

    constructor (g: Rules)
      requires WfRules(g)
      ensures Valid() && this.g == g && fresh(fate) && fresh(time) && fresh(binding)
      ensures (forall t :: 0 <= t < |g.found| ==> fate[t] == INIT) && Blank(fate[..], time[..], binding[..])
    {
      var n := |g.found|;
      var f := new nat[n](_ => INIT);
      this.g := g;
      fate := f;
      time := new nat[n](_ => 0);
      binding := new Binding[n](_ => Unbound);
      fates := new Fates(g.dependants, g.rebuilds, f);
    }

    /** Step 2b: the time and the binding of what is a file. */
    method Bind(t: nat)
      requires Valid() && t < fate.Length
      modifies time, binding
      ensures time[..] == old(time[..])[t := time[t]] && binding[..] == old(binding[..])[t := binding[t]]
      ensures if old(binding[t]).Unbound? && t !in g.notfile
        then time[t] == g.found[t] && binding[t] == if time[t] != 0 then Exists else Absent
        else time[t] == old(time[t]) && binding[t] == old(binding[t])
    {
      if binding[t].Unbound? && t !in g.notfile {
        time[t] := g.found[t];
        binding[t] := if time[t] != 0 then Exists else Absent;
      }
    }

    /** Steps 4a and 4c: the worst fate and latest time among the dependencies heeded. */
    method PickUp(t: nat) returns (last: nat, worst: nat)
      requires Valid() && t < fate.Length
      modifies time
      ensures last == MaxOf(old(time[..]), Heeds(g, t), 0) && worst == MaxOf(fate[..], Heeds(g, t), STABLE)
      ensures time[..] == old(time[..])[t := if t in g.noupdate then 0 else old(time[t])]
    {
      hide MaxOf;
      ghost var T, F := time[..], fate[..];
      last, worst := 0, STABLE;
      var deps := g.depends[t];
      assert deps[0..] == deps;
      for c := 0 to |deps|
        invariant time[..] == T
        invariant MaxOf(T, deps, 0) == MaxOf(T, deps[c..], last)
        invariant MaxOf(F, deps, STABLE) == MaxOf(F, deps[c..], worst)
      {
        MaxOfMore(T, deps[c..], last);
        MaxOfMore(F, deps[c..], worst);
        assert deps[c..][1..] == deps[c + 1..];
        last := Max(last, time[deps[c]]);
        worst := Max(worst, fate[deps[c]]);
      }
      assert deps[|deps|..] == [];
      MaxOfMore(T, [], last);
      MaxOfMore(F, [], worst);
      if t in g.noupdate {
        last := 0;
        time[t] := 0;
        worst := STABLE;
        MaxOfMore(T, [], 0);
        MaxOfMore(F, [], STABLE);
      }
    }

    /** Steps 4d and 4e: the fate that time, binding and flags come to. */
    method Judge(t: nat, p: int, last: nat, worst: nat) returns (f: nat)
      requires Valid() && t < fate.Length && NONE <= p < fate.Length
      requires binding[t] == BindingOf(g, t) && time[t] == Stamp(g, t) && worst >= STABLE
      ensures Judged(g, t, worst, last, f) && STABLE <= f <= CANTMAKE
      ensures f == NEWER ==> binding[t].Exists? && p != NONE && !binding[p].Unbound? && time[t] > time[p]
      ensures f == STABLE && binding[t].Exists? && p != NONE && !binding[p].Unbound? ==> time[t] <= time[p]
    {
      f := worst;
      if f >= BROKEN {
        f := CANTMAKE;
      } else if f >= SPOIL {
        f := UPDATE;
      } else if binding[t].Absent? {
        f := MISSING;
      } else if binding[t].Exists? && last > time[t] {
        f := OUTDATED;
      } else if t in g.touched {
        f := TOUCHED;
      } else if g.anyhow && t !in g.noupdate {
        f := TOUCHED;
      } else if binding[t].Exists? && p != NONE && !binding[p].Unbound? && time[t] > time[p] {
        f := NEWER;
      } else {
        f := STABLE;
      }
      // Nothing makes it and it is not there.
      if f == MISSING && t !in g.acted && g.depends[t] == [] {
        if t in g.nocare {
          f := STABLE;
        } else {
          f := CANTFIND;
        }
      }
    }

    /** Steps 4f and 4g: propagate dependencies' time and fate, and rebuild what goes with it. */
    method Conclude(t: nat, last: nat, f: nat)
      requires Valid() && t < fate.Length
      modifies fate, time
      ensures time[..] == old(time[..])[t := Max(old(time[t]), last)]
      ensures var F := old(fate[..])[t := Max(f, old(fate[t]))];
        if BUILD <= F[t] < BROKEN then Forced(g.dependants, F, g.rebuilds[t], fate[..]) else fate[..] == F
      ensures NotLowered(old(fate[..]), fate[..]) && fate[t] >= f
      ensures g.rebuilds[t] == [] ==> fate[..] == old(fate[..])[t := Max(f, old(fate[t]))]
      ensures forall u :: 0 <= u < fate.Length && old(fate[u]) == INIT && u != t ==> fate[u] == INIT || fate[u] >= BUILD
    {
      hide Forced;
      time[t] := Max(time[t], last);
      var mine := f;
      if mine > fate[t] {
        fate[t] := mine;
      } else {
        mine := fate[t];
      }
      if BUILD <= mine < BROKEN {
        ghost var F := fate[..];
        assert F == old(fate[..])[t := Max(f, old(fate[t]))];
        fates.ForceRebuilds(t);
        ForcedEffect(g.dependants, F, g.rebuilds[t], fate[..]);
      }
    }

    /** make0: the visit of a target and all below it. No fate is lowered and every
        target visited gets one. With no REBUILDS, everything the targets visited depend on
        is visited too; if moreover nothing depends on itself, every target visited is judged
        by what it depends on, and those visited before keep their fates. */
    method Make0(t: nat, p: int, ghost rank: seq<nat>)
      requires Valid() && t < fate.Length && NONE <= p < fate.Length && fate[t] == INIT
      requires Blank(fate[..], time[..], binding[..])
      modifies fate, time, binding
      ensures Blank(fate[..], time[..], binding[..]) && NotLowered(old(fate[..]), fate[..]) && fate[t] >= STABLE
      ensures Elsewhere(old(fate[..]), old(time[..]), old(binding[..]), fate[..], time[..], binding[..])
      ensures NoRebuilds(g) ==> Finished(g, old(fate[..]), fate[..])
      ensures PlainRules(g, rank) && Above(rank, old(fate[..]), t) && AllSettled(g, old(fate[..]), old(time[..])) ==>
        AllSettled(g, fate[..], time[..]) && Kept(old(fate[..]), fate[..])
      decreases Below(fate[..], MAKING), 1
    {
      hide Below, Settled, AllSettled, Judged, Forced, MaxOf, PlainRules, Blank, Above, Elsewhere, Finished, Kept, NoRebuilds;
      ghost var F, T, B := fate[..], time[..], binding[..];
      // Step 1.
      BlankAt(F, T, B, t);
      fate[t] := MAKING;
      ghost var F1 := fate[..];
      assert F1 == F[t := MAKING];
      BelowLess(F, F1, MAKING);
      Bind(t);
      ghost var T1, B1 := time[..], binding[..];
      AfterBind(g, rank, t, F, T, B, F1, T1, B1);
      // Step 3a: visit the dependencies.
      VisitDeps(t, rank);
      ghost var F2, T2, B2 := fate[..], time[..], binding[..];
      ElsewhereAt(F1, T1, B1, F2, T2, B2, t);
      // Step 4: its own time and fate.
      var last, worst := PickUp(t);
      assert time[t] == Stamp(g, t) && binding[t] == BindingOf(g, t);
      var f := Judge(t, p, last, worst);
      Conclude(t, last, f);
      AfterVisit(g, rank, t, F, T, B, F1, T1, B1, F2, T2, B2, fate[..], time[..], last, worst, f);
    }

    /** One run of make0 from one fresh root, with no REBUILDS and nothing depending on itself:
        it visits everything the root depends on, and gives each target the fate that files,
        flags and chains of dependencies call for. BROKEN or worse goes to exactly the targets
        that reach a source nobody can find, and BUILD or worse to exactly those that reach,
        or are, something missing, touched, or older than a file it depends on. */
    method Survey(root: nat, ghost rank: seq<nat>)
      requires Valid() && root < fate.Length && PlainRules(g, rank) && Blank(fate[..], time[..], binding[..])
      requires forall t :: 0 <= t < fate.Length ==> fate[t] == INIT
      modifies fate, time, binding
      ensures fate[root] != INIT
      ensures forall t, c :: 0 <= t < fate.Length && fate[t] != INIT && c in g.depends[t] ==> fate[c] != INIT
      ensures forall t: nat :: t < fate.Length && fate[t] != INIT ==>
        && FateIs(g, t, fate[t]) && fate[t] != SPOIL
        && (fate[t] >= BROKEN <==> exists u :: IsLost(g, t, u)) && (fate[t] >= BUILD <==> exists u :: IsDue(g, t, u))
    {
      hide Settled, IsLost, IsDue, FateIs;
      Make0(root, NONE, rank);
      forall t: nat | t < fate.Length && fate[t] != INIT
        ensures FateIs(g, t, fate[t]) && fate[t] != SPOIL
        ensures fate[t] >= BROKEN <==> exists u :: IsLost(g, t, u)
        ensures fate[t] >= BUILD <==> exists u :: IsDue(g, t, u)
      {
        FateMeans(g, rank, fate[..], time[..], t);
        BuildMeans(g, t, fate[t]);
      }
    }

    method VisitDeps(t: nat, ghost rank: seq<nat>)
      requires Valid() && t < fate.Length && fate[t] == MAKING
      requires Blank(fate[..], time[..], binding[..])
      modifies fate, time, binding
      ensures Blank(fate[..], time[..], binding[..]) && NotLowered(old(fate[..]), fate[..])
      ensures Elsewhere(old(fate[..]), old(time[..]), old(binding[..]), fate[..], time[..], binding[..])
      ensures forall c :: c in g.depends[t] ==> fate[c] != INIT
      ensures NoRebuilds(g) ==> Finished(g, old(fate[..]), fate[..])
      ensures PlainRules(g, rank) && Above(rank, old(fate[..])[t := STABLE], t) && AllSettled(g, old(fate[..]), old(time[..])) ==>
        AllSettled(g, fate[..], time[..]) && Kept(old(fate[..]), fate[..])
      decreases Below(fate[..], MAKING), 2
    {
      hide Below, Settled, AllSettled;
      ghost var F, T, B := fate[..], time[..], binding[..];
      ghost var plain := PlainRules(g, rank) && Above(rank, F[t := STABLE], t) && AllSettled(g, F, T);
      var deps := g.depends[t];
      for c := 0 to |deps|
        invariant Blank(fate[..], time[..], binding[..]) && NotLowered(F, fate[..])
        invariant Elsewhere(F, T, B, fate[..], time[..], binding[..])
        invariant forall k :: 0 <= k < c ==> fate[deps[k]] != INIT
        invariant NoRebuilds(g) ==> Finished(g, F, fate[..])
        invariant plain ==> AllSettled(g, fate[..], time[..]) && Kept(F, fate[..])
      {
        ghost var G, S, D := fate[..], time[..], binding[..];
        if fate[deps[c]] == INIT {
          BelowLess(F, G, MAKING);
          if plain { StillAbove(g, rank, F, G, t, deps[c]); }
          Make0(deps[c], t, rank);
          if NoRebuilds(g) { FinishedTrans(g, F, G, fate[..]); }
        }
      }
    }
  }

  lemma BlankAt(F: seq<nat>, T: seq<nat>, B: seq<Binding>, t: nat)
    requires Blank(F, T, B) && t < |F| && F[t] == INIT
    ensures T[t] == 0 && B[t].Unbound?
  {
  }

  lemma ElsewhereAt(F: seq<nat>, T: seq<nat>, B: seq<Binding>, F': seq<nat>, T': seq<nat>, B': seq<Binding>, t: nat)
    requires Elsewhere(F, T, B, F', T', B') && t < |F| && F[t] != INIT
    ensures T'[t] == T[t] && B'[t] == B[t]
  {
  }

  lemma AfterBind(g: Rules, rank: seq<nat>, t: nat, F: seq<nat>, T: seq<nat>, B: seq<Binding>, F1: seq<nat>, T1: seq<nat>, B1: seq<Binding>)
    requires WfRules(g) && t < |F| == |g.found| && F[t] == INIT && Blank(F, T, B)
    requires F1 == F[t := MAKING] && |T1| == |B1| == |F| && T1 == T[t := T1[t]] && B1 == B[t := B1[t]]
    ensures Blank(F1, T1, B1)
    ensures PlainRules(g, rank) && Above(rank, F, t) && AllSettled(g, F, T) ==>
      Above(rank, F1[t := STABLE], t) && AllSettled(g, F1, T1)
  {
    hide AllSettled;
    if PlainRules(g, rank) && Above(rank, F, t) && AllSettled(g, F, T) {
      AllSettledElse(g, F, T, F1, T1, t);
    }
  }

  ghost predicate NoRebuilds(g: Rules)
    requires WfRules(g)
  {
    forall t :: 0 <= t < |g.found| ==> g.rebuilds[t] == []
  }

  /** Nothing changes about targets visited before, and those newly visited are finished. */
  ghost predicate Elsewhere(F: seq<nat>, T: seq<nat>, B: seq<Binding>, F': seq<nat>, T': seq<nat>, B': seq<Binding>) {
    && |F| == |T| == |B| == |F'| == |T'| == |B'|
    && forall u :: 0 <= u < |F| ==>
      if F[u] != INIT then T'[u] == T[u] && B'[u] == B[u] else F'[u] == INIT || F'[u] >= STABLE
  }

  ghost predicate Kept(F: seq<nat>, F': seq<nat>) {
    |F'| == |F| && forall u :: 0 <= u < |F| && F[u] != INIT ==> F'[u] == F[u]
  }

  lemma ForcedEffect(links: Links, F: seq<nat>, rs: seq<nat>, F': seq<nat>)
    requires WfLinks(links, |F|) && Forced(links, F, rs, F')
    ensures forall x :: 0 <= x < |F| && F[x] == INIT ==> F'[x] == INIT || F'[x] >= BUILD
    ensures rs == [] ==> F' == F
  {
    if rs == [] {
      assert forall x :: 0 <= x < |F| ==> !Hit(links, F, rs, F', x);
    }
  }

  lemma StillAbove(g: Rules, rank: seq<nat>, F: seq<nat>, G: seq<nat>, t: nat, c: nat)
    requires WfRules(g) && PlainRules(g, rank) && |F| == |G| == |g.found| && t < |F| && c in g.depends[t]
    requires Above(rank, F[t := STABLE], t) && Kept(F, G) && F[t] == MAKING
    requires forall u :: 0 <= u < |F| && F[u] == INIT ==> G[u] == INIT || G[u] >= STABLE
    ensures c < |F| && Above(rank, G, c)
  {
    forall u | 0 <= u < |G| && G[u] == MAKING
      ensures rank[u] > rank[c]
    {
      if u != t { assert F[t := STABLE][u] == MAKING; }
    }
  }

  /** The end of a visit: what holds of everything else, and of t. */
  lemma AfterVisit(g: Rules, rank: seq<nat>, t: nat, F: seq<nat>, T: seq<nat>, B: seq<Binding>,
                   F1: seq<nat>, T1: seq<nat>, B1: seq<Binding>, F2: seq<nat>, T2: seq<nat>, B2: seq<Binding>,
                   F': seq<nat>, T': seq<nat>, last: nat, worst: nat, f: nat)
    requires WfRules(g) && t < |F| == |g.found| && F[t] == INIT && Blank(F, T, B)
    requires F1 == F[t := MAKING] && |T1| == |B1| == |F| && T1 == T[t := T1[t]] && B1 == B[t := B1[t]]
    requires Blank(F2, T2, B2) && NotLowered(F1, F2) && Elsewhere(F1, T1, B1, F2, T2, B2)
    requires forall c :: c in g.depends[t] ==> c < |F2| && F2[c] != INIT
    requires NoRebuilds(g) ==> Finished(g, F1, F2)
    requires PlainRules(g, rank) && Above(rank, F, t) && AllSettled(g, F, T) ==> AllSettled(g, F2, T2) && Kept(F1, F2)
    requires T' == T2[t := Max(Stamp(g, t), last)]
    requires NotLowered(F2, F') && F'[t] >= f >= STABLE && (g.rebuilds[t] == [] ==> F' == F2[t := Max(f, F2[t])])
    requires forall u :: 0 <= u < |F2| && F2[u] == INIT && u != t ==> F'[u] == INIT || F'[u] >= BUILD
    requires last == MaxOf(T2, Heeds(g, t), 0) && worst == MaxOf(F2, Heeds(g, t), STABLE) && Judged(g, t, worst, last, f)
    ensures Blank(F', T', B2) && NotLowered(F, F') && F'[t] >= STABLE && Elsewhere(F, T, B, F', T', B2)
    ensures NoRebuilds(g) ==> Finished(g, F, F')
    ensures PlainRules(g, rank) && Above(rank, F, t) && AllSettled(g, F, T) ==> AllSettled(g, F', T') && Kept(F, F')
  {
    hide AllSettled, MaxOf, Judged;
    if PlainRules(g, rank) && Above(rank, F, t) && AllSettled(g, F, T) {
      SettledNow(g, rank, t, F2, T2, F', T', last, worst, f);
      AllSettledElse(g, F2, T2, F', T', t);
    }
  }

  lemma SettledNow(g: Rules, rank: seq<nat>, t: nat, F2: seq<nat>, T2: seq<nat>, F': seq<nat>, T': seq<nat>, last: nat, worst: nat, f: nat)
    requires PlainRules(g, rank) && t < |F2| == |T2| == |g.found| && F2[t] == MAKING && f >= STABLE
    requires forall u :: 0 <= u < |F2| && F2[u] == MAKING ==> rank[u] >= rank[t]
    requires forall c :: c in g.depends[t] ==> F2[c] != INIT
    requires T' == T2[t := Max(Stamp(g, t), last)] && F' == F2[t := f]
    requires last == MaxOf(T2, Heeds(g, t), 0) && worst == MaxOf(F2, Heeds(g, t), STABLE) && Judged(g, t, worst, last, f)
    ensures Settled(g, F', T', t)
  {
    hide Judged, MaxOf;
    var deps := Heeds(g, t);
    assert forall k :: 0 <= k < |deps| ==> deps[k] in g.depends[t];
    forall c | c in g.depends[t]
      ensures c != t && F'[c] >= STABLE
    {
      assert rank[c] < rank[t];
    }
    MaxOfSame(F2, F', deps, STABLE);
    MaxOfSame(T2, T', deps, 0);
  }

  lemma MaxOfMore(vals: seq<nat>, deps: seq<nat>, base: nat)
    requires forall k :: 0 <= k < |deps| ==> deps[k] < |vals|
    ensures MaxOf(vals, deps, base) == if deps == [] then base else MaxOf(vals, deps[1..], Max(base, vals[deps[0]]))
  {
  }
}
