/** What the trace of a match says about groups: for each group either it never appears, or
    it ends with one complete iteration of that group, inside the match. */
module RegexCaptures {
  import opened RegexSyntax
  import opened RegexMeaning

  predicate About(e: Event, n: nat) {
    e.no == n
  }

  predicate Silent(tr: seq<Event>, n: nat) {
    forall k :: 0 <= k < |tr| ==> !About(tr[k], n)
  }

  /** Where group n was last opened, -1 if never. */
  function LastOpen(tr: seq<Event>, n: nat): int {
    if tr == [] then -1
    else
      var rest := LastOpen(tr[1..], n);
      if rest != -1 then rest else if tr[0].Open? && tr[0].no == n then tr[0].pos else -1
  }

  function LastClose(tr: seq<Event>, n: nat): int {
    if tr == [] then -1
    else
      var rest := LastClose(tr[1..], n);
      if rest != -1 then rest else if tr[0].Close? && tr[0].no == n then tr[0].pos else -1
  }

  /** The alternatives of group n, wherever it stands in x. */
  ghost predicate HasGroupP(x: Piece, n: nat, body: seq<Branch>)
    decreases x
  {
    match x
    case Group(m, bs) => (m == n && bs == body) || HasGroupA(bs, n, body)
    case Star(y) => HasGroupP(y, n, body)
    case Plus(y) => HasGroupP(y, n, body)
    case Opt(y) => HasGroupP(y, n, body)
    case _ => false
  }

  ghost predicate HasGroupB(ps: seq<Piece>, n: nat, body: seq<Branch>)
    decreases ps
  {
    ps != [] && (HasGroupP(ps[0], n, body) || HasGroupB(ps[1..], n, body))
  }

  ghost predicate HasGroupA(bs: seq<Branch>, n: nat, body: seq<Branch>)
    decreases bs
  {
    bs != [] && (HasGroupB(bs[0].ps, n, body) || HasGroupA(bs[1..], n, body))
  }

  /** tr is u, then group n opened at a, a match v of its body up to b, closed at b, then w;
      neither v nor w has anything more about n. */
  ghost predicate RunAt(tr: seq<Event>, n: nat, body: seq<Branch>, s: Text, u: seq<Event>, a: nat, v: seq<Event>, b: nat, w: seq<Event>) {
    && tr == u + ([Open(n, a)] + v + [Close(n, b)]) + w
    && DA(body, s, a, b, v) && Silent(v, n) && Silent(w, n)
  }

  /** Group n's last appearance in tr is one complete iteration, between i and j. */
  ghost predicate LastRun(tr: seq<Event>, n: nat, body: seq<Branch>, s: Text, i: nat, j: nat) {
    exists u, a: nat, v, b: nat, w :: RunAt(tr, n, body, s, u, a, v, b, w) && i <= a <= b <= j
  }

  lemma RunBefore(t: seq<Event>, tr: seq<Event>, n: nat, body: seq<Branch>, s: Text, i: nat, j: nat, i': nat)
    requires LastRun(tr, n, body, s, i, j) && i' <= i
    ensures LastRun(t + tr, n, body, s, i', j)
  {
    var u, a: nat, v, b: nat, w :| RunAt(tr, n, body, s, u, a, v, b, w) && i <= a <= b <= j;
    assert t + tr == (t + u) + ([Open(n, a)] + v + [Close(n, b)]) + w;
    assert RunAt(t + tr, n, body, s, t + u, a, v, b, w);
  }

  lemma RunAfter(tr: seq<Event>, t: seq<Event>, n: nat, body: seq<Branch>, s: Text, i: nat, j: nat, j': nat)
    requires LastRun(tr, n, body, s, i, j) && j <= j' && Silent(t, n)
    ensures LastRun(tr + t, n, body, s, i, j')
  {
    var u, a: nat, v, b: nat, w :| RunAt(tr, n, body, s, u, a, v, b, w) && i <= a <= b <= j;
    assert tr + t == u + ([Open(n, a)] + v + [Close(n, b)]) + (w + t);
    assert RunAt(tr + t, n, body, s, u, a, v, b, w + t);
  }

  /** Either nothing about n, or n is a group of the pattern and its last run is complete. */
  ghost predicate Told(has: bool, tr: seq<Event>, n: nat, body: seq<Branch>, s: Text, i: nat, j: nat) {
    Silent(tr, n) || (has && LastRun(tr, n, body, s, i, j))
  }

  lemma ToldJoin(h1: bool, h2: bool, t1: seq<Event>, t2: seq<Event>, n: nat, body: seq<Branch>, s: Text, i: nat, m: nat, j: nat)
    requires Told(h1, t1, n, body, s, i, m) && Told(h2, t2, n, body, s, m, j) && i <= m <= j
    ensures Told(h1 || h2, t1 + t2, n, body, s, i, j)
  {
    if !Silent(t2, n) {
      RunBefore(t1, t2, n, body, s, m, j, i);
    } else if !Silent(t1, n) {
      RunAfter(t1, t2, n, body, s, i, m, j);
    }
  }

  /** body is what group n stands for, if the pattern has such a group at all. */
  ghost predicate BodyP(x: Piece, n: nat, body: seq<Branch>) {
    forall c :: HasGroupP(x, n, c) ==> c == body
  }

  ghost predicate BodyB(ps: seq<Piece>, n: nat, body: seq<Branch>) {
    forall c :: HasGroupB(ps, n, c) ==> c == body
  }

  ghost predicate BodyA(bs: seq<Branch>, n: nat, body: seq<Branch>) {
    forall c :: HasGroupA(bs, n, c) ==> c == body
  }

  lemma {:induction false} TraceP(x: Piece, s: Text, i: nat, j: nat, tr: seq<Event>, n: nat, body: seq<Branch>, lo: nat, hi: nat)
    requires WfP(x) && NumberedP(x, lo, hi) && DP(x, s, i, j, tr) && BodyP(x, n, body)
    ensures Told(lo <= n < hi, tr, n, body, s, i, j)
    decreases x, 0, 0
  {
    WidthSoundP(x, s, i, j, tr);
    match x
    case Group(m, bs) =>
      var v := tr[1..|tr| - 1];
      assert tr == [Open(m, i)] + v + [Close(m, j)];
      assert forall c :: HasGroupA(bs, n, c) ==> HasGroupP(x, n, c);
      TraceA(bs, s, i, j, v, n, body, lo + 1, hi);
      if m == n {
        assert HasGroupP(x, n, bs);
        assert tr == [] + ([Open(n, i)] + v + [Close(n, j)]) + [];
        assert RunAt(tr, n, body, s, [], i, v, j, []);
      } else {
        ToldJoin(false, lo + 1 <= n < hi, [Open(m, i)], v, n, body, s, i, i, j);
        ToldJoin(lo + 1 <= n < hi, false, [Open(m, i)] + v, [Close(m, j)], n, body, s, i, j, j);
      }
    case Star(y) =>
      assert forall c :: HasGroupP(y, n, c) ==> HasGroupP(x, n, c);
      var k: nat :| DIter(y, k, s, i, j, tr);
      TraceIter(y, k, s, i, j, tr, n, body, lo, hi);
    case Plus(y) =>
      assert forall c :: HasGroupP(y, n, c) ==> HasGroupP(x, n, c);
      var k: nat :| k >= 1 && DIter(y, k, s, i, j, tr);
      TraceIter(y, k, s, i, j, tr, n, body, lo, hi);
    case Opt(y) =>
      assert forall c :: HasGroupP(y, n, c) ==> HasGroupP(x, n, c);
      if DP(y, s, i, j, tr) {
        TraceP(y, s, i, j, tr, n, body, lo, hi);
      }
    case _ =>
  }

  lemma {:induction false} TraceIter(x: Piece, k: nat, s: Text, i: nat, j: nat, tr: seq<Event>, n: nat, body: seq<Branch>, lo: nat, hi: nat)
    requires WfP(x) && WidthP(x) && NumberedP(x, lo, hi) && DIter(x, k, s, i, j, tr) && BodyP(x, n, body)
    ensures Told(lo <= n < hi, tr, n, body, s, i, j)
    decreases x, 1, k
  {
    if k > 0 {
      var m, t1, t2 := IterSplit(x, k, s, i, j, tr);
      WidthSoundP(x, s, i, m, t1);
      IterAdvances(x, k - 1, s, m, j, t2);
      TraceP(x, s, i, m, t1, n, body, lo, hi);
      TraceIter(x, k - 1, s, m, j, t2, n, body, lo, hi);
      ToldJoin(lo <= n < hi, lo <= n < hi, t1, t2, n, body, s, i, m, j);
    }
  }

  lemma {:induction false} TraceB(ps: seq<Piece>, s: Text, i: nat, j: nat, tr: seq<Event>, n: nat, body: seq<Branch>, lo: nat, hi: nat)
    requires WfB(ps) && NumberedB(ps, lo, hi) && DB(ps, s, i, j, tr) && BodyB(ps, n, body)
    ensures Told(lo <= n < hi, tr, n, body, s, i, j)
    decreases ps, 0, 0
  {
    if ps != [] {
      var mid: nat :| lo <= mid <= hi && NumberedP(ps[0], lo, mid) && NumberedB(ps[1..], mid, hi);
      var m, t1, t2 := BranchSplit(ps, s, i, j, tr);
      WidthSoundP(ps[0], s, i, m, t1);
      WidthSoundB(ps[1..], s, m, j, t2);
      assert forall c :: HasGroupP(ps[0], n, c) || HasGroupB(ps[1..], n, c) ==> HasGroupB(ps, n, c);
      TraceP(ps[0], s, i, m, t1, n, body, lo, mid);
      TraceB(ps[1..], s, m, j, t2, n, body, mid, hi);
      ToldJoin(lo <= n < mid, mid <= n < hi, t1, t2, n, body, s, i, m, j);
    }
  }

  lemma {:induction false} TraceA(bs: seq<Branch>, s: Text, i: nat, j: nat, tr: seq<Event>, n: nat, body: seq<Branch>, lo: nat, hi: nat)
    requires WfA(bs) && NumberedA(bs, lo, hi) && DA(bs, s, i, j, tr) && BodyA(bs, n, body)
    ensures Told(lo <= n < hi, tr, n, body, s, i, j)
    decreases bs, 0, 0
  {
    var mid: nat :| lo <= mid <= hi && NumberedB(bs[0].ps, lo, mid) && NumberedA(bs[1..], mid, hi);
    assert forall c :: HasGroupB(bs[0].ps, n, c) || HasGroupA(bs[1..], n, c) ==> HasGroupA(bs, n, c);
    if DB(bs[0].ps, s, i, j, tr) {
      TraceB(bs[0].ps, s, i, j, tr, n, body, lo, mid);
    } else {
      TraceA(bs[1..], s, i, j, tr, n, body, mid, hi);
    }
  }

  // ---- a group number stands for one group ----

  lemma {:induction false} GroupRangeP(x: Piece, lo: nat, hi: nat, n: nat, c: seq<Branch>)
    requires NumberedP(x, lo, hi) && HasGroupP(x, n, c)
    ensures lo <= n < hi
    decreases x
  {
    match x
    case Group(m, bs) => if HasGroupA(bs, n, c) { GroupRangeA(bs, lo + 1, hi, n, c); }
    case Star(y) => GroupRangeP(y, lo, hi, n, c);
    case Plus(y) => GroupRangeP(y, lo, hi, n, c);
    case Opt(y) => GroupRangeP(y, lo, hi, n, c);
    case _ =>
  }

  lemma {:induction false} GroupRangeB(ps: seq<Piece>, lo: nat, hi: nat, n: nat, c: seq<Branch>)
    requires NumberedB(ps, lo, hi) && HasGroupB(ps, n, c)
    ensures lo <= n < hi
    decreases ps
  {
    var mid: nat :| lo <= mid <= hi && NumberedP(ps[0], lo, mid) && NumberedB(ps[1..], mid, hi);
    if HasGroupP(ps[0], n, c) { GroupRangeP(ps[0], lo, mid, n, c); } else { GroupRangeB(ps[1..], mid, hi, n, c); }
  }

  lemma {:induction false} GroupRangeA(bs: seq<Branch>, lo: nat, hi: nat, n: nat, c: seq<Branch>)
    requires NumberedA(bs, lo, hi) && HasGroupA(bs, n, c)
    ensures lo <= n < hi
    decreases bs
  {
    var mid: nat :| lo <= mid <= hi && NumberedB(bs[0].ps, lo, mid) && NumberedA(bs[1..], mid, hi);
    if HasGroupB(bs[0].ps, n, c) { GroupRangeB(bs[0].ps, lo, mid, n, c); } else { GroupRangeA(bs[1..], mid, hi, n, c); }
  }

  lemma {:induction false} OneGroupP(x: Piece, lo: nat, hi: nat, n: nat, c: seq<Branch>, d: seq<Branch>)
    requires NumberedP(x, lo, hi) && HasGroupP(x, n, c) && HasGroupP(x, n, d)
    ensures c == d
    decreases x
  {
    match x
    case Group(m, bs) =>
      if HasGroupA(bs, n, c) { GroupRangeA(bs, lo + 1, hi, n, c); }
      if HasGroupA(bs, n, d) { GroupRangeA(bs, lo + 1, hi, n, d); }
      if n != m { OneGroupA(bs, lo + 1, hi, n, c, d); }
    case Star(y) => OneGroupP(y, lo, hi, n, c, d);
    case Plus(y) => OneGroupP(y, lo, hi, n, c, d);
    case Opt(y) => OneGroupP(y, lo, hi, n, c, d);
    case _ =>
  }

  lemma {:induction false} OneGroupB(ps: seq<Piece>, lo: nat, hi: nat, n: nat, c: seq<Branch>, d: seq<Branch>)
    requires NumberedB(ps, lo, hi) && HasGroupB(ps, n, c) && HasGroupB(ps, n, d)
    ensures c == d
    decreases ps
  {
    var mid: nat :| lo <= mid <= hi && NumberedP(ps[0], lo, mid) && NumberedB(ps[1..], mid, hi);
    var p, rest := ps[0], ps[1..];
    if HasGroupP(p, n, c) { GroupRangeP(p, lo, mid, n, c); } else { GroupRangeB(rest, mid, hi, n, c); }
    if HasGroupP(p, n, d) { GroupRangeP(p, lo, mid, n, d); } else { GroupRangeB(rest, mid, hi, n, d); }
    if n < mid { OneGroupP(p, lo, mid, n, c, d); } else { OneGroupB(rest, mid, hi, n, c, d); }
  }

  lemma {:induction false} OneGroupA(bs: seq<Branch>, lo: nat, hi: nat, n: nat, c: seq<Branch>, d: seq<Branch>)
    requires NumberedA(bs, lo, hi) && HasGroupA(bs, n, c) && HasGroupA(bs, n, d)
    ensures c == d
    decreases bs
  {
    var mid: nat :| lo <= mid <= hi && NumberedB(bs[0].ps, lo, mid) && NumberedA(bs[1..], mid, hi);
    var b, rest := bs[0].ps, bs[1..];
    if HasGroupB(b, n, c) { GroupRangeB(b, lo, mid, n, c); } else { GroupRangeA(rest, mid, hi, n, c); }
    if HasGroupB(b, n, d) { GroupRangeB(b, lo, mid, n, d); } else { GroupRangeA(rest, mid, hi, n, d); }
    if n < mid { OneGroupB(b, lo, mid, n, c, d); } else { OneGroupA(rest, mid, hi, n, c, d); }
  }

  // ---- the two ends of a group's span ----

  lemma {:induction false} SilentLast(tr: seq<Event>, n: nat)
    requires Silent(tr, n)
    ensures LastOpen(tr, n) == -1 && LastClose(tr, n) == -1
    decreases |tr|
  {
    if tr != [] {
      assert !About(tr[0], n);
      assert forall k :: 0 <= k < |tr| - 1 ==> tr[1..][k] == tr[k + 1];
      SilentLast(tr[1..], n);
    }
  }

  lemma {:induction false} LastAppend(t1: seq<Event>, t2: seq<Event>, n: nat)
    ensures LastOpen(t1 + t2, n) == if LastOpen(t2, n) != -1 then LastOpen(t2, n) else LastOpen(t1, n)
    ensures LastClose(t1 + t2, n) == if LastClose(t2, n) != -1 then LastClose(t2, n) else LastClose(t1, n)
    decreases |t1|
  {
    if t1 == [] {
      assert t1 + t2 == t2;
    } else {
      assert (t1 + t2)[1..] == t1[1..] + t2;
      LastAppend(t1[1..], t2, n);
    }
  }

  lemma RunEnds(tr: seq<Event>, n: nat, body: seq<Branch>, s: Text, u: seq<Event>, a: nat, v: seq<Event>, b: nat, w: seq<Event>)
    requires RunAt(tr, n, body, s, u, a, v, b, w)
    ensures LastOpen(tr, n) == a && LastClose(tr, n) == b
  {
    var mid := [Open(n, a)] + v + [Close(n, b)];
    LastAppend(u + mid, w, n);
    SilentLast(w, n);
    LastAppend(u, mid, n);
    LastAppend([Open(n, a)] + v, [Close(n, b)], n);
    LastAppend([Open(n, a)], v, n);
    SilentLast(v, n);
    assert [Open(n, a)][1..] == [] && [Close(n, b)][1..] == [];
  }

  /** The last opening and the last closing of a group in the trace of a match are both
      absent, or they are the two ends of one match of the group's own alternatives, inside
      the whole match, with nothing about the group in between or after. */
  lemma SpanOfGroup(bs: seq<Branch>, s: Text, i: nat, j: nat, tr: seq<Event>, n: nat, lo: nat, hi: nat)
    requires WfA(bs) && NumberedA(bs, lo, hi) && DA(bs, s, i, j, tr)
    ensures var a, b := LastOpen(tr, n), LastClose(tr, n);
      || (a == -1 && b == -1 && Silent(tr, n))
      || (i <= a <= b <= j && exists body, u, v, w ::
           HasGroupA(bs, n, body) && RunAt(tr, n, body, s, u, a, v, b, w))
  {
    var body: seq<Branch> :| (exists c :: HasGroupA(bs, n, c)) ==> HasGroupA(bs, n, body);
    forall c | HasGroupA(bs, n, c)
      ensures c == body
    {
      OneGroupA(bs, lo, hi, n, c, body);
    }
    TraceA(bs, s, i, j, tr, n, body, lo, hi);
    if Silent(tr, n) {
      SilentLast(tr, n);
    } else {
      var u, a: nat, v, b: nat, w :| RunAt(tr, n, body, s, u, a, v, b, w) && i <= a <= b <= j;
      RunEnds(tr, n, body, s, u, a, v, b, w);
      InRange(bs, s, i, j, tr, n, lo, hi);
    }
  }

  /** A trace speaks only of groups the pattern has. */
  lemma InRange(bs: seq<Branch>, s: Text, i: nat, j: nat, tr: seq<Event>, n: nat, lo: nat, hi: nat)
    requires WfA(bs) && NumberedA(bs, lo, hi) && DA(bs, s, i, j, tr) && !Silent(tr, n)
    ensures exists c :: HasGroupA(bs, n, c)
  {
    if !exists c :: HasGroupA(bs, n, c) {
      NoGroupA(bs, s, i, j, tr, n);
    }
  }

  lemma {:induction false} NoGroupA(bs: seq<Branch>, s: Text, i: nat, j: nat, tr: seq<Event>, n: nat)
    requires DA(bs, s, i, j, tr) && forall c :: !HasGroupA(bs, n, c)
    ensures Silent(tr, n)
    decreases bs, 0, 0
  {
    assert forall c :: HasGroupB(bs[0].ps, n, c) || HasGroupA(bs[1..], n, c) ==> HasGroupA(bs, n, c);
    if DB(bs[0].ps, s, i, j, tr) { NoGroupB(bs[0].ps, s, i, j, tr, n); } else { NoGroupA(bs[1..], s, i, j, tr, n); }
  }

  lemma {:induction false} NoGroupB(ps: seq<Piece>, s: Text, i: nat, j: nat, tr: seq<Event>, n: nat)
    requires DB(ps, s, i, j, tr) && forall c :: !HasGroupB(ps, n, c)
    ensures Silent(tr, n)
    decreases ps, 0, 0
  {
    if ps != [] {
      assert forall c :: HasGroupP(ps[0], n, c) || HasGroupB(ps[1..], n, c) ==> HasGroupB(ps, n, c);
      var m, t1, t2 := BranchSplit(ps, s, i, j, tr);
      NoGroupP(ps[0], s, i, m, t1, n);
      NoGroupB(ps[1..], s, m, j, t2, n);
    }
  }

  lemma {:induction false} NoGroupP(x: Piece, s: Text, i: nat, j: nat, tr: seq<Event>, n: nat)
    requires DP(x, s, i, j, tr) && forall c :: !HasGroupP(x, n, c)
    ensures Silent(tr, n)
    decreases x, 0, 0
  {
    match x
    case Group(m, bs) =>
      assert HasGroupP(x, m, bs);
      assert forall c :: HasGroupA(bs, n, c) ==> HasGroupP(x, n, c);
      NoGroupA(bs, s, i, j, tr[1..|tr| - 1], n);
      assert tr == [Open(m, i)] + tr[1..|tr| - 1] + [Close(m, j)];
    case Star(y) =>
      assert forall c :: HasGroupP(y, n, c) ==> HasGroupP(x, n, c);
      var k: nat :| DIter(y, k, s, i, j, tr);
      NoGroupIter(y, k, s, i, j, tr, n);
    case Plus(y) =>
      assert forall c :: HasGroupP(y, n, c) ==> HasGroupP(x, n, c);
      var k: nat :| k >= 1 && DIter(y, k, s, i, j, tr);
      NoGroupIter(y, k, s, i, j, tr, n);
    case Opt(y) =>
      assert forall c :: HasGroupP(y, n, c) ==> HasGroupP(x, n, c);
      if DP(y, s, i, j, tr) { NoGroupP(y, s, i, j, tr, n); }
    case _ =>
  }

  lemma {:induction false} NoGroupIter(x: Piece, k: nat, s: Text, i: nat, j: nat, tr: seq<Event>, n: nat)
    requires DIter(x, k, s, i, j, tr) && forall c :: !HasGroupP(x, n, c)
    ensures Silent(tr, n)
    decreases x, 1, k
  {
    if k > 0 {
      var m, t1, t2 := IterSplit(x, k, s, i, j, tr);
      NoGroupP(x, s, i, m, t1, n);
      NoGroupIter(x, k - 1, s, m, j, t2, n);
    }
  }
}
