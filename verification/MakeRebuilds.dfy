/** force_rebuilds and update_dependants: raising fates backwards along the dependants of a
    target, over a graph that may have cycles. */
module MakeRebuilds {
  import opened TargetFates

  /** Links from each target to others: its dependants, or its rebuilds. */
  type Links = seq<seq<nat>>

  ghost predicate WfLinks(links: Links, n: nat) {
    |links| == n && forall t, k :: 0 <= t < n && 0 <= k < |links[t]| ==> links[t][k] < n
  }

  /** Visited, and below BUILD. */
  predicate Open(fate: nat) {
    fate != INIT && fate < BUILD
  }

  /** The same, and make0 is done with it. */
  predicate Passes(fate: nat) {
    MAKING < fate < BUILD
  }

  /** A chain of dependants from p's first target to its last: the last is open, and those
      between them are ones that make0 is done with. */
  ghost predicate Path(links: Links, F: seq<nat>, p: seq<nat>)
    requires WfLinks(links, |F|)
  {
    && |p| >= 2 && (forall i :: 0 <= i < |p| ==> p[i] < |F|)
    && (forall i :: 0 <= i < |p| - 1 ==> p[i + 1] in links[p[i]])
    && (forall i :: 0 < i < |p| - 1 ==> Passes(F[p[i]]))
    && Open(F[p[|p| - 1]])
  }

  ghost predicate PathTo(links: Links, F: seq<nat>, p: seq<nat>, t: nat, x: nat)
    requires WfLinks(links, |F|)
  {
    Path(links, F, p) && p[0] == t && p[|p| - 1] == x
  }

  /** update_dependants(t) is to raise x. */
  ghost predicate Raises(links: Links, F: seq<nat>, t: nat, x: nat)
    requires WfLinks(links, |F|)
  {
    exists p :: PathTo(links, F, p, t, x)
  }

  /** What it does to d, one of t's dependants, and beyond. */
  ghost predicate RaisesVia(links: Links, F: seq<nat>, d: nat, x: nat)
    requires WfLinks(links, |F|)
  {
    d < |F| && Open(F[d]) && (x == d || (Passes(F[d]) && Raises(links, F, d, x)))
  }

  /** F with everything in S raised to UPDATE. */
  ghost predicate Raised(F: seq<nat>, S: iset<nat>, F': seq<nat>) {
    |F'| == |F| && forall x :: 0 <= x < |F| ==> F'[x] == if x in S then UPDATE else F[x]
  }

  /** What the first k dependants of t lead to. */
  ghost function Upto(links: Links, F: seq<nat>, t: nat, k: nat): iset<nat>
    requires WfLinks(links, |F|) && t < |F| && k <= |links[t]|
  {
    iset x | ViaOne(links, F, t, k, x)
  }

  ghost predicate ViaOne(links: Links, F: seq<nat>, t: nat, k: nat, x: nat)
    requires WfLinks(links, |F|) && t < |F| && k <= |links[t]|
  {
    exists j :: 0 <= j < k && RaisesVia(links, F, links[t][j], x)
  }

  // ---- paths ----

  lemma PathOpen(links: Links, F: seq<nat>, t: nat, x: nat)
    requires WfLinks(links, |F|) && Raises(links, F, t, x)
    ensures t < |F| && x < |F| && Open(F[x])
  {
    var p :| PathTo(links, F, p, t, x);
  }

  lemma PathStep(links: Links, F: seq<nat>, t: nat, d: nat, x: nat)
    requires WfLinks(links, |F|) && t < |F| && d in links[t] && RaisesVia(links, F, d, x)
    ensures Raises(links, F, t, x)
  {
    if x == d {
      assert PathTo(links, F, [t, d], t, d);
    } else {
      var p :| PathTo(links, F, p, d, x);
      var q := [t] + p;
      forall i | 0 <= i < |q| - 1
        ensures q[i + 1] in links[q[i]]
      {
        if i > 0 { assert p[i] in links[p[i - 1]]; }
      }
      forall i | 0 < i < |q| - 1
        ensures Passes(F[q[i]])
      {
        if i > 1 { assert Passes(F[p[i - 1]]); }
      }
      assert PathTo(links, F, q, t, x);
    }
  }

  lemma PathSplit(links: Links, F: seq<nat>, p: seq<nat>, t: nat, x: nat)
    requires WfLinks(links, |F|) && PathTo(links, F, p, t, x)
    ensures p[1] in links[t] && RaisesVia(links, F, p[1], x)
  {
    if |p| > 2 {
      var q := p[1..];
      assert Passes(F[p[1]]);
      forall i | 0 <= i < |q| - 1
        ensures q[i + 1] in links[q[i]]
      {
        assert p[i + 2] in links[p[i + 1]];
      }
      assert PathTo(links, F, q, p[1], x);
    }
    assert p[1] in links[p[0]];
  }

  /** Paths go on through targets that make0 is done with. */
  lemma PathJoin(links: Links, F: seq<nat>, t: nat, y: nat, x: nat)
    requires WfLinks(links, |F|) && Raises(links, F, t, y) && Passes(F[y]) && Raises(links, F, y, x)
    requires y < |F|
    ensures Raises(links, F, t, x)
  {
    var p :| PathTo(links, F, p, t, y);
    var q :| PathTo(links, F, q, y, x);
    var r := p + q[1..];
    forall i | 0 <= i < |r| - 1
      ensures r[i + 1] in links[r[i]]
    {
      if i < |p| - 1 {
        assert p[i + 1] in links[p[i]];
      } else {
        var j := i - |p| + 1;
        assert q[j + 1] in links[q[j]] && r[i] == q[j] && r[i + 1] == q[j + 1];
      }
    }
    forall i | 0 < i < |r| - 1
      ensures Passes(F[r[i]])
    {
      if i < |p| - 1 { assert Passes(F[p[i]]); }
      if i >= |p| { assert r[i] == q[i - |p| + 1] && Passes(F[q[i - |p| + 1]]); }
    }
    assert PathTo(links, F, r, t, x);
  }

  /** Fates that are open in G are as they are in F. */
  ghost predicate Tighter(F: seq<nat>, G: seq<nat>) {
    |G| == |F| && forall x :: 0 <= x < |F| && Open(G[x]) ==> G[x] == F[x]
  }

  lemma PathLooser(links: Links, F: seq<nat>, G: seq<nat>, t: nat, x: nat)
    requires WfLinks(links, |F|) && Tighter(F, G) && Raises(links, G, t, x)
    ensures Raises(links, F, t, x)
  {
    var p :| PathTo(links, G, p, t, x);
    forall i | 0 < i < |p| - 1
      ensures Passes(F[p[i]])
    {
      assert Passes(G[p[i]]);
    }
    assert PathTo(links, F, p, t, x);
  }

  /** A set that contains, with each member make0 is done with, all that it would raise. */
  ghost predicate Closed(links: Links, F: seq<nat>, S: iset<nat>)
    requires WfLinks(links, |F|)
  {
    forall y, x :: y in S && y < |F| && Passes(F[y]) && Raises(links, F, y, x) ==> x in S
  }

  lemma UptoClosed(links: Links, F: seq<nat>, t: nat, k: nat)
    requires WfLinks(links, |F|) && t < |F| && k <= |links[t]|
    ensures Closed(links, F, Upto(links, F, t, k))
  {
    var S := Upto(links, F, t, k);
    forall y, x | y in S && y < |F| && Passes(F[y]) && Raises(links, F, y, x)
      ensures x in S
    {
      var j :| 0 <= j < k && RaisesVia(links, F, links[t][j], y);
      if y != links[t][j] {
        PathJoin(links, F, links[t][j], y, x);
      }
      assert RaisesVia(links, F, links[t][j], x);
    }
  }

  /** A path either stays clear of S and of its own start, and is a path in G as well, or
      ends in S or where it started. G is F with S and d closed. */
  lemma {:induction false} PathAround(links: Links, F: seq<nat>, G: seq<nat>, S: iset<nat>, d: nat, p: seq<nat>, x: nat)
    requires WfLinks(links, |F|) && PathTo(links, F, p, d, x) && Closed(links, F, S) && |G| == |F|
    requires forall y :: 0 <= y < |F| && y !in S && y != d ==> G[y] == F[y]
    ensures x in S || x == d || Raises(links, G, d, x)
    decreases |p|
  {
    if exists i :: 0 < i < |p| - 1 && (p[i] in S || p[i] == d) {
      var i :| 0 < i < |p| - 1 && (p[i] in S || p[i] == d);
      Suffix(links, F, p, i);
      assert PathTo(links, F, p[i..], p[i], x);
      if p[i] in S {
        assert Passes(F[p[i]]) && Raises(links, F, p[i], x);
      } else {
        PathAround(links, F, G, S, d, p[i..], x);
      }
    } else if x !in S && x != d {
      assert forall i :: 0 < i < |p| ==> G[p[i]] == F[p[i]];
      assert PathTo(links, G, p, d, x);
    }
  }

  lemma RaisesAround(links: Links, F: seq<nat>, G: seq<nat>, S: iset<nat>, d: nat, x: nat)
    requires WfLinks(links, |F|) && Raises(links, F, d, x) && Closed(links, F, S) && |G| == |F|
    requires forall y :: 0 <= y < |F| && y !in S && y != d ==> G[y] == F[y]
    ensures x in S || x == d || Raises(links, G, d, x)
  {
    var p :| PathTo(links, F, p, d, x);
    PathAround(links, F, G, S, d, p, x);
  }

  lemma Suffix(links: Links, F: seq<nat>, p: seq<nat>, i: nat)
    requires WfLinks(links, |F|) && Path(links, F, p) && i < |p| - 1
    ensures Path(links, F, p[i..])
  {
    var q := p[i..];
    forall k | 0 <= k < |q| - 1
      ensures q[k + 1] in links[q[k]]
    {
      assert p[i + k + 1] in links[p[i + k]];
    }
    forall k | 0 < k < |q| - 1
      ensures Passes(F[q[k]])
    {
      assert Passes(F[p[i + k]]);
    }
  }

  // ---- counting what is still open ----

  /** How many fates are below bound. */
  function Below(F: seq<nat>, bound: nat): nat {
    if F == [] then 0 else (if F[0] < bound then 1 else 0) + Below(F[1..], bound)
  }

  /** No fate has been lowered. */
  predicate NotLowered(F: seq<nat>, G: seq<nat>) {
    |G| == |F| && forall x :: 0 <= x < |F| ==> F[x] <= G[x]
  }

  lemma {:induction false} BelowLess(F: seq<nat>, G: seq<nat>, bound: nat)
    requires NotLowered(F, G)
    ensures Below(G, bound) <= Below(F, bound)
    ensures (exists x :: 0 <= x < |F| && F[x] < bound <= G[x]) ==> Below(G, bound) < Below(F, bound)
    decreases |F|
  {
    if F != [] {
      assert F[0] <= G[0];
      assert forall x :: 0 <= x < |F| - 1 ==> F[1..][x] == F[x + 1] && G[1..][x] == G[x + 1];
      BelowLess(F[1..], G[1..], bound);
      if exists x :: 0 <= x < |F| && F[x] < bound <= G[x] {
        var x :| 0 <= x < |F| && F[x] < bound <= G[x];
        if x > 0 { assert F[1..][x - 1] < bound <= G[1..][x - 1]; }
      }
    }
  }

  // ---- the two functions ----

  /** What one turn of update_dependants' loop does to F, at dependant d. */
  ghost predicate Turn(links: Links, F: seq<nat>, d: nat, F': seq<nat>)
    requires WfLinks(links, |F|)
  {
    Raised(F, (iset x | RaisesVia(links, F, d, x)), F')
  }

  lemma TurnIs(links: Links, F: seq<nat>, d: nat, mid: seq<nat>, F': seq<nat>)
    requires WfLinks(links, |F|) && d < |F| && Open(F[d]) && mid == F[d := UPDATE]
    requires if F[d] > MAKING then Raised(mid, (iset x | Raises(links, mid, d, x)), F') else F' == mid
    ensures Turn(links, F, d, F')
  {
    forall x | 0 <= x < |F|
      ensures F'[x] == if RaisesVia(links, F, d, x) then UPDATE else F[x]
    {
      if F[d] > MAKING && x != d {
        if Raises(links, mid, d, x) {
          PathLooser(links, F, mid, d, x);
        }
        if Raises(links, F, d, x) {
          RaisesAround(links, F, mid, iset{}, d, x);
        }
      }
    }
  }

  /** One more dependant, after the first k. */
  lemma TurnMore(links: Links, F: seq<nat>, t: nat, k: nat, G: seq<nat>, G': seq<nat>)
    requires WfLinks(links, |F|) && t < |F| && k < |links[t]|
    requires Raised(F, Upto(links, F, t, k), G)
    requires if Open(G[links[t][k]]) then Turn(links, G, links[t][k], G') else G' == G
    ensures Raised(F, Upto(links, F, t, k + 1), G')
  {
    hide Raises;
    var d := links[t][k];
    var S, S' := Upto(links, F, t, k), Upto(links, F, t, k + 1);
    UptoClosed(links, F, t, k);
    assert forall x :: x in S' <==> x in S || RaisesVia(links, F, d, x);
    forall x | 0 <= x < |F|
      ensures G'[x] == if x in S' then UPDATE else F[x]
    {
      if d in S || !Open(F[d]) {
        assert RaisesVia(links, F, d, x) ==> x in S;
      } else {
        TurnAt(links, F, S, G, d, x);
      }
    }
  }

  lemma TurnAt(links: Links, F: seq<nat>, S: iset<nat>, G: seq<nat>, d: nat, x: nat)
    requires WfLinks(links, |F|) && Closed(links, F, S) && Raised(F, S, G) && d < |F| && x < |F|
    requires d !in S
    ensures x !in S ==> (RaisesVia(links, G, d, x) <==> RaisesVia(links, F, d, x))
    ensures x in S ==> !RaisesVia(links, G, d, x)
  {
    if Passes(F[d]) && x != d {
      if Raises(links, G, d, x) {
        PathLooser(links, F, G, d, x);
        PathOpen(links, G, d, x);
      }
      if x !in S && Raises(links, F, d, x) {
        RaisesAround(links, F, G, S, d, x);
      }
    }
  }

  lemma UptoAll(links: Links, F: seq<nat>, t: nat)
    requires WfLinks(links, |F|) && t < |F|
    ensures Upto(links, F, t, |links[t]|) == iset x | Raises(links, F, t, x)
  {
    forall x
      ensures x in Upto(links, F, t, |links[t]|) <==> Raises(links, F, t, x)
    {
      if x in Upto(links, F, t, |links[t]|) {
        var j :| 0 <= j < |links[t]| && RaisesVia(links, F, links[t][j], x);
        PathStep(links, F, t, links[t][j], x);
      }
      if Raises(links, F, t, x) {
        var p :| PathTo(links, F, p, t, x);
        PathSplit(links, F, p, t, x);
        var j :| 0 <= j < |links[t]| && links[t][j] == p[1];
      }
    }
  }

  class Fates {
    const dependants: Links
    const rebuilds: Links
    const fate: array<nat>

    ghost predicate Valid()
      reads fate
    {
      WfLinks(dependants, fate.Length) && WfLinks(rebuilds, fate.Length)
    }

    constructor (dependants: Links, rebuilds: Links, fate: array<nat>)
      requires WfLinks(dependants, fate.Length) && WfLinks(rebuilds, fate.Length)
      ensures Valid() && this.dependants == dependants && this.rebuilds == rebuilds && this.fate == fate
    {
      this.dependants, this.rebuilds, this.fate := dependants, rebuilds, fate;
    }

    /** Raises dependants of t to UPDATE: exactly those that a chain of dependants leads to, through targets that make0
        is done with and nothing rebuilds yet. It comes back even if the chains are cycles. */
    method UpdateDependants(t: nat)
      requires Valid() && t < fate.Length
      modifies fate
      ensures Raised(old(fate[..]), (iset x | Raises(dependants, old(fate[..]), t, x)), fate[..])
      ensures NotLowered(old(fate[..]), fate[..])
      decreases Below(fate[..], BUILD)
    {
      hide Raises, RaisesVia, Below;
      ghost var F := fate[..];
      UptoAll(dependants, F, t);
      var qs := dependants[t];
      assert Upto(dependants, F, t, 0) == iset{};
      for q := 0 to |qs|
        invariant Raised(F, Upto(dependants, F, t, q), fate[..]) && NotLowered(F, fate[..])
      {
        ghost var G := fate[..];
        var p := qs[q];
        var fate0 := fate[p];
        // Only what is open is raised.
        if fate0 != INIT && fate0 < BUILD {
          fate[p] := UPDATE;
          ghost var mid := fate[..];
          assert mid == G[p := UPDATE];
          BelowLess(F, mid, BUILD);
          // What make0 is done with passes it on.
          if fate0 > MAKING {
            assert F[p] < BUILD <= mid[p] by { Untouched(dependants, F, t, q, G, p); }
            UpdateDependants(p);
          }
          TurnIs(dependants, G, p, mid, fate[..]);
        }
        TurnMore(dependants, F, t, q, G, fate[..]);
      }
    }

    /** Raises the rebuilds of t to REBUILD, and what they lead to. */
    method ForceRebuilds(t: nat)
      requires Valid() && t < fate.Length
      modifies fate
      ensures Forced(dependants, old(fate[..]), rebuilds[t], fate[..])
      ensures NotLowered(old(fate[..]), fate[..])
    {
      hide Raises, RaisesVia, Forced, Raised;
      ghost var F := fate[..];
      var ds := rebuilds[t];
      NothingForced(dependants, F);
      assert ds[..0] == [];
      for d := 0 to |ds|
        invariant |fate[..]| == |F| && Forced(dependants, F, ds[..d], fate[..]) && NotLowered(F, fate[..])
      {
        ghost var G := fate[..];
        var r := ds[d];
        // It may have been raised already.
        if fate[r] < BUILD {
          fate[r] := REBUILD;
          ghost var mid := fate[..];
          assert mid == G[r := REBUILD];
          // Its dependants follow.
          UpdateDependants(r);
          ForcedMore(dependants, F, ds[..d], r, G, fate[..]);
        } else {
          ForcedSame(dependants, F, ds[..d], r, G);
        }
        assert ds[..d + 1] == ds[..d] + [r];
      }
      assert ds[..|ds|] == ds;
    }
  }

  lemma Untouched(links: Links, F: seq<nat>, t: nat, k: nat, G: seq<nat>, p: nat)
    requires WfLinks(links, |F|) && t < |F| && k <= |links[t]| && Raised(F, Upto(links, F, t, k), G)
    requires p < |F| && Open(G[p])
    ensures F[p] == G[p]
  {
  }

  // ---- force_rebuilds ----

  /** r, one of the rebuilds, has been dealt with: as a rebuild of its own, or as one of the
      dependants of another that make0 is done with. */
  predicate Spreads(F: seq<nat>, F': seq<nat>, r: nat) {
    r < |F| == |F'| && F[r] < BUILD && (F'[r] == REBUILD || Passes(F[r]))
  }

  /** Something in rs leads to x. */
  ghost predicate Hit(links: Links, F: seq<nat>, rs: seq<nat>, F': seq<nat>, x: nat)
    requires WfLinks(links, |F|)
  {
    exists r :: r in rs && r < |F| && F[r] < BUILD && (x == r || (Spreads(F, F', r) && Raises(links, F, r, x)))
  }

  /** Something in rs, other than x itself, leads to x. */
  ghost predicate LedTo(links: Links, F: seq<nat>, rs: seq<nat>, F': seq<nat>, x: nat)
    requires WfLinks(links, |F|)
  {
    exists r :: r in rs && r != x && Spreads(F, F', r) && Raises(links, F, r, x)
  }

  /** The one first listed at d is rebuilt in its own right, unless one before leads to it. */
  ghost predicate InTurn(links: Links, F: seq<nat>, rs: seq<nat>, F': seq<nat>, d: nat)
    requires WfLinks(links, |F|) && d < |rs|
  {
    var x := rs[d];
    x !in rs[..d] && x < |F| == |F'| && F[x] < BUILD ==> (F'[x] == REBUILD <==> !LedTo(links, F, rs[..d], F', x))
  }

  /** What force_rebuilds makes of F: raised are exactly the rebuilds that were below BUILD and
      what they lead to; to REBUILD those rebuilds that none before them leads to, to UPDATE
      the rest. */
  ghost predicate Forced(links: Links, F: seq<nat>, rs: seq<nat>, F': seq<nat>)
    requires WfLinks(links, |F|)
  {
    && |F'| == |F|
    && (forall x :: 0 <= x < |F| ==> F'[x] == F[x] || (F[x] < BUILD && (F'[x] == UPDATE || (F'[x] == REBUILD && x in rs))))
    && (forall x :: 0 <= x < |F| ==> (F'[x] != F[x] <==> Hit(links, F, rs, F', x)))
    && (forall d :: 0 <= d < |rs| ==> InTurn(links, F, rs, F', d))
  }

  lemma NothingForced(links: Links, F: seq<nat>)
    requires WfLinks(links, |F|)
    ensures Forced(links, F, [], F)
  {
  }

  /** What has been raised so far is closed: all of it has spread as far as it goes. */
  lemma ForcedClosed(links: Links, F: seq<nat>, rs: seq<nat>, G: seq<nat>)
    requires WfLinks(links, |F|) && Forced(links, F, rs, G)
    ensures Closed(links, F, iset x | 0 <= x < |F| && G[x] != F[x])
    ensures forall y: nat, x: nat :: y < |F| && F[y] < BUILD && G[y] == REBUILD && Raises(links, F, y, x) ==> x < |F| && G[x] != F[x]
  {
    hide Raises;
    forall y: nat, x: nat | y < |F| && G[y] != F[y] && (Passes(F[y]) || G[y] == REBUILD) && Raises(links, F, y, x)
      ensures x < |F| && G[x] != F[x]
    {
      PathOpen(links, F, y, x);
      assert Hit(links, F, rs, G, y);
      var r :| r in rs && r < |F| && F[r] < BUILD && (y == r || (Spreads(F, G, r) && Raises(links, F, r, y)));
      if G[y] == REBUILD {
        assert y in rs && Spreads(F, G, y);
        assert Hit(links, F, rs, G, x);
      } else {
        if y != r { PathJoin(links, F, r, y, x); }
        assert Spreads(F, G, r);
        assert Hit(links, F, rs, G, x);
      }
    }
  }

  lemma ForcedSame(links: Links, F: seq<nat>, rs: seq<nat>, r: nat, G: seq<nat>)
    requires WfLinks(links, |F|) && Forced(links, F, rs, G) && r < |F| && G[r] >= BUILD
    ensures Forced(links, F, rs + [r], G)
  {
    hide Raises;
    ForcedClosed(links, F, rs, G);
    forall d | 0 <= d < |rs + [r]|
      ensures InTurn(links, F, rs + [r], G, d)
    {
      if d < |rs| {
        assert InTurn(links, F, rs, G, d) && (rs + [r])[..d] == rs[..d];
      } else if r !in rs && F[r] < BUILD {
        assert (rs + [r])[..d] == rs && Hit(links, F, rs, G, r);
        var u :| u in rs && u < |F| && F[u] < BUILD && (r == u || (Spreads(F, G, u) && Raises(links, F, u, r)));
        assert LedTo(links, F, rs, G, r);
      }
    }
    forall x | 0 <= x < |F|
      ensures G[x] != F[x] <==> Hit(links, F, rs + [r], G, x)
    {
      if Hit(links, F, rs + [r], G, x) {
        var u :| u in rs + [r] && u < |F| && F[u] < BUILD && (x == u || (Spreads(F, G, u) && Raises(links, F, u, x)));
        if u != r { assert u in rs && Hit(links, F, rs, G, x); }
      }
      if G[x] != F[x] {
        var u :| u in rs && u < |F| && F[u] < BUILD && (x == u || (Spreads(F, G, u) && Raises(links, F, u, x)));
        assert u in rs + [r];
      }
    }
  }

  lemma ForcedMore(links: Links, F: seq<nat>, rs: seq<nat>, r: nat, G: seq<nat>, G': seq<nat>)
    requires WfLinks(links, |F|) && Forced(links, F, rs, G) && r < |F| && G[r] < BUILD
    requires var mid := G[r := REBUILD]; Raised(mid, (iset x | Raises(links, mid, r, x)), G')
    ensures Forced(links, F, rs + [r], G')
  {
    hide Raises;
    var mid := G[r := REBUILD];
    var S := iset x | 0 <= x < |F| && G[x] != F[x];
    ForcedClosed(links, F, rs, G);
    forall x: nat
      ensures Raises(links, mid, r, x) ==> x < |F| && x !in S && x != r && Open(F[x]) && Raises(links, F, r, x)
      ensures Raises(links, F, r, x) ==> x in S || x == r || Raises(links, mid, r, x)
    {
      if Raises(links, mid, r, x) {
        PathOpen(links, mid, r, x);
        PathLooser(links, F, mid, r, x);
      }
      if Raises(links, F, r, x) {
        RaisesAround(links, F, mid, S, r, x);
      }
    }
    ForcedChange(links, F, rs, r, G, G');
  }

  lemma ForcedChange(links: Links, F: seq<nat>, rs: seq<nat>, r: nat, G: seq<nat>, G': seq<nat>)
    requires WfLinks(links, |F|) && Forced(links, F, rs, G) && r < |F| && G[r] < BUILD
    requires var mid := G[r := REBUILD];
      && Raised(mid, (iset x | Raises(links, mid, r, x)), G')
      && (forall x: nat :: Raises(links, mid, r, x) ==> x < |F| && G[x] == F[x] && x != r && Open(F[x]) && Raises(links, F, r, x))
      && (forall x: nat :: Raises(links, F, r, x) ==> x < |F| && (G[x] != F[x] || x == r || Raises(links, mid, r, x)))
    ensures Forced(links, F, rs + [r], G')
  {
    hide Raises;
    var mid := G[r := REBUILD];
    assert G[r] == F[r];
    ForcedTurns(links, F, rs, r, G, G');
    forall x | 0 <= x < |F|
      ensures G'[x] != F[x] <==> Hit(links, F, rs + [r], G', x)
    {
      if G'[x] != F[x] {
        if G[x] != F[x] {
          var u :| u in rs && u < |F| && F[u] < BUILD && (x == u || (Spreads(F, G, u) && Raises(links, F, u, x)));
          assert u in rs + [r] && (Spreads(F, G, u) ==> Spreads(F, G', u));
        } else {
          assert r in rs + [r] && Spreads(F, G', r);
        }
      }
      if Hit(links, F, rs + [r], G', x) {
        var u :| u in rs + [r] && u < |F| && F[u] < BUILD && (x == u || (Spreads(F, G', u) && Raises(links, F, u, x)));
        if u != r {
          assert u in rs;
          assert Hit(links, F, rs, G, u);
          assert G[u] != F[u] && G'[u] == G[u];
          assert Hit(links, F, rs, G, x);
        }
      }
    }
  }

  lemma ForcedTurns(links: Links, F: seq<nat>, rs: seq<nat>, r: nat, G: seq<nat>, G': seq<nat>)
    requires WfLinks(links, |F|) && Forced(links, F, rs, G) && r < |F| && G[r] == F[r] < BUILD && |G'| == |F|
    requires forall x :: 0 <= x < |F| && G[x] != F[x] ==> G'[x] == G[x]
    requires G'[r] == REBUILD
    ensures forall d :: 0 <= d < |rs| + 1 ==> InTurn(links, F, rs + [r], G', d)
  {
    hide Raises;
    assert forall u :: u in rs && u < |F| && F[u] < BUILD ==> Hit(links, F, rs, G, u);
    assert forall u :: u in rs && u < |F| && F[u] < BUILD ==> G'[u] == G[u];
    assert forall u :: u in rs ==> (Spreads(F, G', u) <==> Spreads(F, G, u));
    forall d | 0 <= d < |rs| + 1
      ensures InTurn(links, F, rs + [r], G', d)
    {
      if d < |rs| {
        assert InTurn(links, F, rs, G, d) && (rs + [r])[..d] == rs[..d];
      } else {
        assert (rs + [r])[..d] == rs && !Hit(links, F, rs, G, r);
        forall u | u in rs && u != r && Spreads(F, G', u)
          ensures !Raises(links, F, u, r)
        {
          assert Spreads(F, G, u);
        }
      }
    }
  }

  /** That settles every fate. */
  lemma ForcedSettles(links: Links, F: seq<nat>, rs: seq<nat>, G: seq<nat>, H: seq<nat>)
    requires WfLinks(links, |F|) && Forced(links, F, rs, G) && Forced(links, F, rs, H)
    ensures G == H
  {
    hide Raises;
    SameTurns(links, F, rs, G, H, |rs|);
    forall x | 0 <= x < |F|
      ensures G[x] == H[x]
    {
      assert rs[..|rs|] == rs;
      assert forall u :: u in rs ==> (Spreads(F, G, u) <==> Spreads(F, H, u));
      assert Hit(links, F, rs, G, x) <==> Hit(links, F, rs, H, x);
    }
  }

  lemma {:induction false} SameTurns(links: Links, F: seq<nat>, rs: seq<nat>, G: seq<nat>, H: seq<nat>, k: nat)
    requires WfLinks(links, |F|) && Forced(links, F, rs, G) && Forced(links, F, rs, H) && k <= |rs|
    ensures forall x :: x in rs[..k] && x < |F| && F[x] < BUILD ==> G[x] == H[x]
    decreases k
  {
    hide Raises;
    if k > 0 {
      SameTurns(links, F, rs, G, H, k - 1);
      var x := rs[k - 1];
      var before := rs[..k - 1];
      assert rs[..k] == before + [x];
      if x !in before && x < |F| && F[x] < BUILD {
        assert InTurn(links, F, rs, G, k - 1) && InTurn(links, F, rs, H, k - 1);
        assert forall u :: u in before ==> (Spreads(F, G, u) <==> Spreads(F, H, u));
        assert LedTo(links, F, before, G, x) <==> LedTo(links, F, before, H, x);
        assert Hit(links, F, rs, G, x) && Hit(links, F, rs, H, x);
      }
    }
  }

  // ---- whether the rebuilds get all their dependants updated ----

  /** A rebuild that was below BUILD, or something that one leads to. */
  ghost predicate Wanted(links: Links, F: seq<nat>, rs: seq<nat>, x: nat)
    requires WfLinks(links, |F|)
  {
    exists r :: r in rs && r < |F| && F[r] < BUILD && (x == r || Raises(links, F, r, x))
  }

  /** The rebuild at d is still being made, and one before it leads to it: it gets raised as a
      dependant, which stops there, and is passed over in its own turn. */
  ghost predicate CutOff(links: Links, F: seq<nat>, rs: seq<nat>, d: nat)
    requires WfLinks(links, |F|) && d < |rs|
    decreases d, 0
  {
    && rs[d] < |F| && F[rs[d]] == MAKING
    && exists e :: 0 <= e < d && GoesOn(links, F, rs, e) && rs[e] != rs[d] && Raises(links, F, rs[e], rs[d])
  }

  ghost predicate GoesOn(links: Links, F: seq<nat>, rs: seq<nat>, d: nat)
    requires WfLinks(links, |F|) && d < |rs|
    decreases d, 1
  {
    rs[d] < |F| && F[rs[d]] < BUILD && !CutOff(links, F, rs, d)
  }

  /** x is a rebuild too, or one that goes on leads to it. */
  ghost predicate Covered(links: Links, F: seq<nat>, rs: seq<nat>, x: nat)
    requires WfLinks(links, |F|)
  {
    x in rs || exists e :: 0 <= e < |rs| && GoesOn(links, F, rs, e) && Raises(links, F, rs[e], x)
  }

  /** All that the rebuilds lead to has been raised, and nothing else. */
  ghost predicate RaisedAll(links: Links, F: seq<nat>, rs: seq<nat>, F': seq<nat>)
    requires WfLinks(links, |F|)
  {
    |F'| == |F| && forall x :: 0 <= x < |F| ==> (F'[x] != F[x] <==> Wanted(links, F, rs, x))
  }

  /** Whatever a rebuild that is cut off leads to is a rebuild too, or one that goes on leads
      to it. */
  ghost predicate NoneSpared(links: Links, F: seq<nat>, rs: seq<nat>)
    requires WfLinks(links, |F|)
  {
    forall d, x :: 0 <= d < |rs| && CutOff(links, F, rs, d) && Raises(links, F, rs[d], x) ==> Covered(links, F, rs, x)
  }

  /** force_rebuilds raises everything that the rebuilds lead to if and only if none of it is
      spared by a rebuild that is cut off. */
  lemma AllRaised(links: Links, F: seq<nat>, rs: seq<nat>, F': seq<nat>)
    requires WfLinks(links, |F|) && Forced(links, F, rs, F')
    ensures RaisedAll(links, F, rs, F') <==> NoneSpared(links, F, rs)
  {
    hide Raises, CutOff, GoesOn, Wanted, Covered, Forced;
    assert |F'| == |F| by { SameLength(links, F, rs, F'); }
    if RaisedAll(links, F, rs, F') {
      forall d, x | 0 <= d < |rs| && CutOff(links, F, rs, d) && Raises(links, F, rs[d], x)
        ensures Covered(links, F, rs, x)
      {
        WantedByCut(links, F, rs, d, x);
        ChangedCovered(links, F, rs, F', x);
      }
    }
    if NoneSpared(links, F, rs) {
      forall x | 0 <= x < |F|
        ensures F'[x] != F[x] <==> Wanted(links, F, rs, x)
      {
        WantedChanged(links, F, rs, F', x);
      }
    }
  }

  lemma SameLength(links: Links, F: seq<nat>, rs: seq<nat>, F': seq<nat>)
    requires WfLinks(links, |F|) && Forced(links, F, rs, F')
    ensures |F'| == |F|
  {
  }

  lemma WantedByCut(links: Links, F: seq<nat>, rs: seq<nat>, d: nat, x: nat)
    requires WfLinks(links, |F|) && d < |rs| && CutOff(links, F, rs, d) && Raises(links, F, rs[d], x)
    ensures x < |F| && Wanted(links, F, rs, x)
  {
    hide Raises;
    PathOpen(links, F, rs[d], x);
    assert rs[d] in rs;
  }

  lemma ChangedCovered(links: Links, F: seq<nat>, rs: seq<nat>, F': seq<nat>, x: nat)
    requires WfLinks(links, |F|) && Forced(links, F, rs, F') && |F'| == |F| && x < |F| && F'[x] != F[x]
    ensures Covered(links, F, rs, x)
  {
    hide Raises, CutOff, GoesOn, Forced;
    HitMeans(links, F, rs, F', x);
  }

  lemma WantedChanged(links: Links, F: seq<nat>, rs: seq<nat>, F': seq<nat>, x: nat)
    requires WfLinks(links, |F|) && Forced(links, F, rs, F') && |F'| == |F| && x < |F| && NoneSpared(links, F, rs)
    ensures F'[x] != F[x] <==> Wanted(links, F, rs, x)
  {
    hide Raises, CutOff, GoesOn;
    HitMeans(links, F, rs, F', x);
    if r :| r in rs && r < |F| && F[r] < BUILD && (x == r || Raises(links, F, r, x)) {
      if x != r {
        PathOpen(links, F, r, x);
        var d := First(rs, r);
        GoesOrNot(links, F, rs, d);
        if CutOff(links, F, rs, d) { assert Covered(links, F, rs, x); }
      }
    }
    if F'[x] != F[x] { assert Hit(links, F, rs, F', x); }
  }

  lemma GoesOrNot(links: Links, F: seq<nat>, rs: seq<nat>, d: nat)
    requires WfLinks(links, |F|) && d < |rs|
    ensures rs[d] < |F| && F[rs[d]] < BUILD ==> CutOff(links, F, rs, d) || GoesOn(links, F, rs, d)
  {
    hide CutOff;
  }

  lemma HitMeans(links: Links, F: seq<nat>, rs: seq<nat>, F': seq<nat>, x: nat)
    requires WfLinks(links, |F|) && Forced(links, F, rs, F') && |F'| == |F| && x < |F|
    ensures F'[x] != F[x] <==>
      (x in rs && F[x] < BUILD) || exists e :: 0 <= e < |rs| && GoesOn(links, F, rs, e) && Raises(links, F, rs[e], x)
  {
    hide Raises, CutOff, GoesOn, InTurn;
    assert F'[x] != F[x] <==> Hit(links, F, rs, F', x);
    if r :| r in rs && r < |F| && F[r] < BUILD && Spreads(F, F', r) && Raises(links, F, r, x) {
      var e := First(rs, r);
      SpreadsMeans(links, F, rs, F', e);
    }
    if e :| 0 <= e < |rs| && GoesOn(links, F, rs, e) && Raises(links, F, rs[e], x) {
      SpreadsMeans(links, F, rs, F', e);
      assert rs[e] in rs;
    }
  }

  lemma {:induction false} First(rs: seq<nat>, r: nat) returns (d: nat)
    requires r in rs
    ensures d < |rs| && rs[d] == r && r !in rs[..d] && forall i :: 0 <= i < |rs| && rs[i] == r ==> d <= i
    decreases |rs|
  {
    if rs[0] == r {
      d := 0;
    } else {
      d := First(rs[1..], r);
      d := d + 1;
      assert rs[..d] == [rs[0]] + rs[1..][..d - 1];
    }
  }

  /** A rebuild goes on exactly when it is not cut off where it is first listed. */
  ghost predicate Right(links: Links, F: seq<nat>, rs: seq<nat>, F': seq<nat>, d: nat)
    requires WfLinks(links, |F|) && d < |rs|
  {
    && (GoesOn(links, F, rs, d) ==> Spreads(F, F', rs[d]))
    && (rs[d] !in rs[..d] && Spreads(F, F', rs[d]) ==> GoesOn(links, F, rs, d))
  }

  lemma LedIsCut(links: Links, F: seq<nat>, rs: seq<nat>, F': seq<nat>, d0: nat, d: nat)
    requires WfLinks(links, |F|) && d0 <= d < |rs| && rs[d] == rs[d0] < |F| && F[rs[d]] == MAKING
    requires forall e: nat :: e < d0 ==> Right(links, F, rs, F', e)
    requires LedTo(links, F, rs[..d0], F', rs[d])
    ensures CutOff(links, F, rs, d)
  {
    hide Raises, GoesOn;
    var u :| u in rs[..d0] && u != rs[d] && Spreads(F, F', u) && Raises(links, F, u, rs[d]);
    var e := First(rs[..d0], u);
    assert rs[..d0][..e] == rs[..e] && rs[e] == u;
    assert Right(links, F, rs, F', e);
  }

  lemma CutIsLed(links: Links, F: seq<nat>, rs: seq<nat>, F': seq<nat>, d: nat)
    requires WfLinks(links, |F|) && d < |rs| && CutOff(links, F, rs, d)
    requires forall e: nat :: e < d ==> Right(links, F, rs, F', e)
    ensures LedTo(links, F, rs[..d], F', rs[d])
  {
    hide Raises, GoesOn;
    var e :| 0 <= e < d && GoesOn(links, F, rs, e) && rs[e] != rs[d] && Raises(links, F, rs[e], rs[d]);
    assert Right(links, F, rs, F', e);
    assert rs[..d][e] == rs[e];
  }

  lemma InitNotLed(links: Links, F: seq<nat>, rs: seq<nat>, F': seq<nat>, x: nat)
    requires WfLinks(links, |F|) && x < |F| && F[x] == INIT
    ensures !LedTo(links, F, rs, F', x)
  {
    hide Raises;
    forall r: nat
      ensures !Raises(links, F, r, x)
    {
      NotRaised(links, F, r, x);
    }
  }

  lemma NotRaised(links: Links, F: seq<nat>, r: nat, x: nat)
    requires WfLinks(links, |F|) && x < |F| && F[x] == INIT
    ensures !Raises(links, F, r, x)
  {
  }

  lemma {:induction false} SpreadsMeans(links: Links, F: seq<nat>, rs: seq<nat>, F': seq<nat>, d: nat)
    requires WfLinks(links, |F|) && Forced(links, F, rs, F') && d < |rs|
    ensures Right(links, F, rs, F', d)
    decreases d
  {
    hide Raises, LedTo, CutOff;
    var r := rs[d];
    forall e: nat | e < d
      ensures Right(links, F, rs, F', e)
    {
      SpreadsMeans(links, F, rs, F', e);
    }
    var d0 := First(rs, r);
    assert InTurn(links, F, rs, F', d0);
    if r < |F| && F[r] == INIT {
      InitNotLed(links, F, rs[..d0], F', r);
      NotCutOff(links, F, rs, d);
    } else if r < |F| && F[r] == MAKING {
      if LedTo(links, F, rs[..d0], F', r) { LedIsCut(links, F, rs, F', d0, d); }
      if CutOff(links, F, rs, d) { CutIsLed(links, F, rs, F', d); }
    } else {
      NotCutOff(links, F, rs, d);
    }
  }

  lemma NotCutOff(links: Links, F: seq<nat>, rs: seq<nat>, d: nat)
    requires WfLinks(links, |F|) && d < |rs|
    ensures CutOff(links, F, rs, d) ==> rs[d] < |F| && F[rs[d]] == MAKING
  {
  }

  /** Afterwards no dependant of t is below BUILD that has been begun, and no dependant of one
      that was raised and finished; and only such as these have been raised, to UPDATE. */
  lemma DependantsBuilt(links: Links, F: seq<nat>, t: nat, F': seq<nat>)
    requires WfLinks(links, |F|) && t < |F| && Raised(F, (iset x | Raises(links, F, t, x)), F')
    ensures forall d :: d in links[t] ==> d < |F| && (F[d] == INIT || F'[d] >= BUILD)
    ensures forall x, d :: 0 <= x < |F| && F'[x] != F[x] && F[x] > MAKING && d in links[x] ==> d < |F| && (F[d] == INIT || F'[d] >= BUILD)
    ensures forall x :: 0 <= x < |F| && F'[x] != F[x] ==> F[x] != INIT && F[x] < BUILD && F'[x] == UPDATE
  {
    hide Raises;
    forall d | d in links[t]
      ensures d < |F| && (F[d] == INIT || F'[d] >= BUILD)
    {
      if F[d] != INIT && F[d] < BUILD { ByOne(links, F, t, d); }
    }
    forall x, d | 0 <= x < |F| && F'[x] != F[x] && F[x] > MAKING && d in links[x]
      ensures d < |F| && (F[d] == INIT || F'[d] >= BUILD)
    {
      PathOpen(links, F, t, x);
      if F[d] != INIT && F[d] < BUILD { ByOneMore(links, F, t, x, d); }
    }
    forall x | 0 <= x < |F| && F'[x] != F[x]
      ensures F[x] != INIT && F[x] < BUILD
    {
      PathOpen(links, F, t, x);
    }
  }

  lemma ByOne(links: Links, F: seq<nat>, t: nat, d: nat)
    requires WfLinks(links, |F|) && t < |F| && d in links[t] && F[d] != INIT && F[d] < BUILD
    ensures Raises(links, F, t, d)
  {
    assert PathTo(links, F, [t, d], t, d);
  }

  lemma ByOneMore(links: Links, F: seq<nat>, t: nat, x: nat, d: nat)
    requires WfLinks(links, |F|) && x < |F| && Raises(links, F, t, x) && F[x] > MAKING && F[x] < BUILD
    requires d in links[x] && F[d] != INIT && F[d] < BUILD
    ensures Raises(links, F, t, d)
  {
    var p :| PathTo(links, F, p, t, x);
    var q := p + [d];
    forall i | 0 <= i < |q| - 1
      ensures q[i + 1] in links[q[i]]
    {
      if i < |p| - 1 { assert p[i + 1] in links[p[i]]; }
    }
    assert PathTo(links, F, q, t, d);
  }

  /** All of the rebuilds get rebuilt. */
  lemma RebuildsBuilt(links: Links, F: seq<nat>, rs: seq<nat>, F': seq<nat>)
    requires WfLinks(links, |F|) && Forced(links, F, rs, F')
    ensures forall r :: r in rs && r < |F| ==> r < |F'| && F'[r] >= BUILD
  {
    hide Raises;
    forall r | r in rs && r < |F|
      ensures r < |F'| && F'[r] >= BUILD
    {
      if F[r] < BUILD { assert Hit(links, F, rs, F', r); }
    }
  }

  /** Not everything that the rebuilds lead to gets raised: target 1, still being made, is
      raised as a dependant of 0, which stops there, and then passed over as a rebuild, so
      its own dependant 2 stays as it is. The rebuilds are those of 3, which is due. In a run of make0 such a state takes a cycle of
      dependencies: 2 is finished while 1, which it depends on, is not. */
  lemma CutShort()
    ensures var links, rebuilds, F: seq<nat> := [[1], [2], [], []], [[], [], [], [0, 1]], [STABLE, MAKING, STABLE, BUILD];
      && WfLinks(links, 4) && WfLinks(rebuilds, 4) && F[3] >= BUILD && Raises(links, F, 1, 2)
      && Forced(links, F, rebuilds[3], [REBUILD, UPDATE, STABLE, BUILD])
  {
    var links: Links, F: seq<nat> := [[1], [2], [], []], [STABLE, MAKING, STABLE, BUILD];
    assert PathTo(links, F, [1, 2], 1, 2);
    assert PathTo(links, F, [0, 1], 0, 1);
    var G: seq<nat> := [REBUILD, UPDATE, STABLE, BUILD];
    forall p
      ensures !PathTo(links, F, p, 0, 2)
    {
      if Path(links, F, p) && p[0] == 0 {
        assert p[0 + 1] in links[p[0]];
      }
    }
    assert !Raises(links, F, 0, 2);
    forall p
      ensures !PathTo(links, F, p, 0, 0) && !PathTo(links, F, p, 1, 0)
    {
      if Path(links, F, p) {
        assert p[|p| - 2 + 1] in links[p[|p| - 2]];
      }
    }
    assert !Raises(links, F, 0, 0) && !Raises(links, F, 1, 0);
    assert Spreads(F, G, 0) && !Spreads(F, G, 1);
    assert LedTo(links, F, [0], G, 1);
    assert [0, 1][..1] == [0] && [0, 1][..0] == [];
  }
}
