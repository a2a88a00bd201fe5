/** make0sort: a chain of dependencies reordered in place, newest first, by relinking. */
module MakeSort {

  /** An entry of a chain. In a sorted chain every tail is the entry before, and the first
      entry's tail is the last. */
  class Link {
    const time: int
    var next: Link?
    var tail: Link?

    constructor (time: int)
      ensures this.time == time && next == null && tail == null
    {
      this.time, next, tail := time, null, null;
    }
  }

  // ---- the order ----

  /** Where an entry of this time goes: before the first that is not newer. */
  function Place(s: seq<Link>, time: int): (k: nat)
    ensures k <= |s|
    ensures forall i :: 0 <= i < k ==> s[i].time > time
    ensures k < |s| ==> s[k].time <= time
  {
    if s == [] || s[0].time <= time then 0 else 1 + Place(s[1..], time)
  }

  function Insert(s: seq<Link>, c: Link): (r: seq<Link>)
    ensures |r| == |s| + 1
  {
    var k := Place(s, c.time);
    s[..k] + [c] + s[k..]
  }

  /** The chain sorted: each entry in turn inserted into those before it. */
  function Sorted(s: seq<Link>): (r: seq<Link>)
    ensures |r| == |s|
  {
    if s == [] then [] else Insert(Sorted(s[..|s| - 1]), s[|s| - 1])
  }

  predicate NewestFirst(s: seq<Link>) {
    forall i, j :: 0 <= i < j < |s| ==> s[i].time >= s[j].time
  }

  /** The entries of one time, in order. */
  function OfTime(s: seq<Link>, time: int): seq<Link> {
    if s == [] then [] else (if s[0].time == time then [s[0]] else []) + OfTime(s[1..], time)
  }

  function Reverse(s: seq<Link>): seq<Link> {
    if s == [] then [] else Reverse(s[1..]) + [s[0]]
  }

  lemma InsertOrdered(s: seq<Link>, c: Link)
    requires NewestFirst(s)
    ensures NewestFirst(Insert(s, c)) && multiset(Insert(s, c)) == multiset(s) + multiset{c}
  {
    var k := Place(s, c.time);
    assert s == s[..k] + s[k..];
  }

  lemma {:induction false} SortedOrdered(s: seq<Link>)
    ensures NewestFirst(Sorted(s)) && multiset(Sorted(s)) == multiset(s)
    decreases |s|
  {
    if s != [] {
      SortedOrdered(s[..|s| - 1]);
      InsertOrdered(Sorted(s[..|s| - 1]), s[|s| - 1]);
      assert s == s[..|s| - 1] + [s[|s| - 1]];
    }
  }

  lemma {:induction false} OfTimeAppend(a: seq<Link>, b: seq<Link>, time: int)
    ensures OfTime(a + b, time) == OfTime(a, time) + OfTime(b, time)
    decreases |a|
  {
    if a == [] {
      assert a + b == b;
    } else {
      var x := if a[0].time == time then [a[0]] else [];
      assert (a + b)[1..] == a[1..] + b;
      OfTimeAppend(a[1..], b, time);
      assert OfTime(a + b, time) == x + OfTime(a[1..] + b, time);
      assert x + (OfTime(a[1..], time) + OfTime(b, time)) == x + OfTime(a[1..], time) + OfTime(b, time);
    }
  }

  lemma {:induction false} OfTimeNone(s: seq<Link>, time: int)
    requires forall i :: 0 <= i < |s| ==> s[i].time != time
    ensures OfTime(s, time) == []
    decreases |s|
  {
    if s != [] {
      OfTimeNone(s[1..], time);
    }
  }

  lemma {:induction false} ReverseAppend(a: seq<Link>, c: Link)
    ensures Reverse(a + [c]) == [c] + Reverse(a)
    decreases |a|
  {
    if a != [] {
      assert (a + [c])[1..] == a[1..] + [c];
      ReverseAppend(a[1..], c);
    }
  }

  /** Entries of the same time come out in the opposite order. */
  lemma {:induction false} SortedReverses(s: seq<Link>, time: int)
    ensures OfTime(Sorted(s), time) == Reverse(OfTime(s, time))
    decreases |s|
  {
    hide OfTime, Insert;
    OfTimeNone([], time);
    if s != [] {
      var init, c := s[..|s| - 1], s[|s| - 1];
      SortedReverses(init, time);
      assert s == init + [c];
      OfTimeAppend(init, [c], time);
      OfTimeOne(c, time);
      InsertOfTime(Sorted(init), c, time);
      ReverseAppend(OfTime(init, time), c);
      assert OfTime(init, time) + [] == OfTime(init, time);
      assert [] + OfTime(Sorted(init), time) == OfTime(Sorted(init), time);
    }
  }

  lemma OfTimeOne(c: Link, time: int)
    ensures OfTime([c], time) == if c.time == time then [c] else []
  {
    assert [c][1..] == [];
  }

  lemma InsertOfTime(r: seq<Link>, c: Link, time: int)
    ensures OfTime(Insert(r, c), time) == (if c.time == time then [c] else []) + OfTime(r, time)
  {
    hide OfTime, Place;
    var k := Place(r, c.time);
    assert r == r[..k] + r[k..];
    OfTimeAppend(r[..k] + [c], r[k..], time);
    OfTimeAppend(r[..k], [c], time);
    OfTimeAppend(r[..k], r[k..], time);
    OfTimeOne(c, time);
    if c.time == time {
      OfTimeNone(r[..k], time);
    }
  }

  // ---- chains ----

  /** The entries that next leads to from p, in order, are s. */
  ghost predicate Chain(p: Link?, s: seq<Link>)
    reads s
  {
    && (forall i, j :: 0 <= i < j < |s| ==> s[i] != s[j])
    && p == (if s == [] then null else s[0])
    && (forall i :: 0 <= i < |s| - 1 ==> s[i].next == s[i + 1])
    && (s != [] ==> s[|s| - 1].next == null)
  }

  /** Every tail is the entry before; the first one's is the last. */
  ghost predicate Tails(s: seq<Link>)
    reads s
  {
    && (s != [] ==> s[0].tail == s[|s| - 1])
    && forall i :: 0 < i < |s| ==> s[i].tail == s[i - 1]
  }

  /** c put in at k, by its own links and those around it. */
  lemma Spliced(res: seq<Link>, c: Link, k: nat)
    requires k <= |res| && c !in res && forall i, j :: 0 <= i < j < |res| ==> res[i] != res[j]
    requires c.next == if k < |res| then res[k] else null
    requires k > 0 ==> res[k - 1].next == c
    requires forall i :: 0 <= i < |res| - 1 && i != k - 1 ==> res[i].next == res[i + 1]
    requires k < |res| ==> res[|res| - 1].next == null
    requires c.tail == if res == [] then c else if k == 0 then res[|res| - 1] else res[k - 1]
    requires res != [] ==> if k == |res| then res[0].tail == c else res[k].tail == c
    requires 0 < k < |res| ==> res[0].tail == res[|res| - 1]
    requires forall i :: 0 < i < |res| && i != k ==> res[i].tail == res[i - 1]
    ensures var all := res[..k] + [c] + res[k..]; Chain(all[0], all) && Tails(all)
  {
    var all := res[..k] + [c] + res[k..];
    assert forall i :: 0 <= i < |all| ==> all[i] == if i < k then res[i] else if i == k then c else res[i - 1];
    forall i | 0 <= i < |all| - 1
      ensures all[i].next == all[i + 1]
    {
      if i < k - 1 { assert res[i].next == res[i + 1]; }
      if i > k { assert res[i - 1].next == res[i - 1 + 1]; }
    }
    forall i | 0 < i < |all|
      ensures all[i].tail == all[i - 1]
    {
      if 0 < i < k { assert res[i].tail == res[i - 1]; }
      if i > k + 1 { assert res[i - 1].tail == res[i - 1 - 1]; }
    }
  }

  /** c goes in front of s, the entry at k, or to the end if s is null. */
  method Relink(result: Link?, c: Link, s: Link?, ghost res: seq<Link>, ghost k: nat) returns (r: Link)
    requires Chain(result, res) && Tails(res) && c !in res && k <= |res|
    requires s == if k == |res| then null else res[k]
    modifies c, res
    ensures Chain(r, res[..k] + [c] + res[k..]) && Tails(res[..k] + [c] + res[k..])
  {
    var head := result;
    var before := s;
    ghost var at := if k == |res| then 0 else k;
    ghost var prev: Link := if res == [] then c else if at == 0 then res[|res| - 1] else res[at - 1];
    assert res != [] ==> res[at].tail == prev && prev in res;
    c.next := before;
    if head == before { head := c; }
    if before == null { before := head; }
    assert before == if res == [] then c else res[at];
    if head != c { before.tail.next := c; }
    c.tail := before.tail;
    before.tail := c;
    r := head;
    Spliced(res, c, k);
  }

  /** Find where the first of rest goes among those already sorted, and put it there. */
  method SortOne(result: Link?, c: Link, ghost res: seq<Link>, ghost rest: seq<Link>) returns (r: Link, chain: Link?)
    requires Chain(result, res) && Tails(res) && Chain(c, rest) && forall x :: x in res ==> x !in rest
    modifies c, res
    ensures Chain(r, Insert(res, c)) && Tails(Insert(res, c)) && Chain(chain, rest[1..])
  {
    chain := c.next;
    var p := result;
    ghost var i := 0;
    // The place of c among those sorted.
    while p != null && p.time > c.time
      invariant i <= |res| && p == (if i == |res| then null else res[i])
      invariant forall j :: 0 <= j < i ==> res[j].time > c.time
      decreases |res| - i
    {
      p := p.next;
      i := i + 1;
    }
    PlaceIs(res, c.time, i);
    ghost var after := rest[1..];
    forall i, j | 0 <= i < |after| && 0 <= j < |res|
      ensures after[i] != c && after[i] != res[j]
    {
      assert after[i] == rest[i + 1] && res[j] in res && rest[i + 1] in rest;
    }
    assert Chain(chain, rest[1..]);
    r := Relink(result, c, p, res, i);
  }

  /** Reorder a chain by time, newest to oldest, with none lost or added, every next and every
      tail right, and entries of the same time in the opposite order. */
  method Make0Sort(chain: Link?, ghost s: seq<Link>) returns (result: Link?)
    requires Chain(chain, s)
    modifies s
    ensures Chain(result, Sorted(s)) && Tails(Sorted(s))
    ensures NewestFirst(Sorted(s)) && multiset(Sorted(s)) == multiset(s)
  {
    hide Tails, Insert;
    result := null;
    var rest := chain;
    ghost var k := 0;
    assert s[..0] == [] && s[0..] == s;
    NoTails();
    while rest != null
      invariant k <= |s| && Chain(result, Sorted(s[..k])) && Tails(Sorted(s[..k])) && Chain(rest, s[k..])
      decreases |s| - k
    {
      Apart(s, k);
      assert rest == s[k..][0] == s[k];
      assert s[..k + 1][..k] == s[..k] && s[..k + 1][k] == rest && s[k..][1..] == s[k + 1..];
      ghost var res := Sorted(s[..k]);
      assert rest in s && forall i :: 0 <= i < |res| ==> res[i] in res && res[i] in s;
      result, rest := SortOne(result, rest, res, s[k..]);
      k := k + 1;
    }
    assert s[..k] == s;
    SortedOrdered(s);
  }

  lemma NoTails()
    ensures Tails([])
  {
  }

  lemma {:induction false} PlaceIs(s: seq<Link>, time: int, i: nat)
    requires i <= |s| && (forall j :: 0 <= j < i ==> s[j].time > time) && (i < |s| ==> s[i].time <= time)
    ensures Place(s, time) == i
    decreases |s|
  {
    if i > 0 {
      assert s[0].time > time;
      PlaceIs(s[1..], time, i - 1);
    }
  }

  /** What is already sorted and what is still to come have nothing in common. */
  lemma Apart(s: seq<Link>, k: nat)
    requires k <= |s| && forall i, j :: 0 <= i < j < |s| ==> s[i] != s[j]
    ensures forall x :: x in Sorted(s[..k]) ==> x !in s[k..]
    ensures forall x :: x in Sorted(s[..k]) ==> x in s
  {
    SortedOrdered(s[..k]);
    forall x | x in Sorted(s[..k])
      ensures x !in s[k..] && x in s
    {
      assert x in multiset(Sorted(s[..k]));
      assert x in s[..k];
    }
  }
}
