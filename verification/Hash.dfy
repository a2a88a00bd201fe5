/** hash.c: an in-memory hash table with a microallocator of its own. Items stay where they
    were put; their addresses are indices into one pool, which grows block by block. */
module Hash {

  const NULL := -1

  const INEL := 11
  const BLOAT := 3

  datatype Option<+T> = None | Some(value: T)

  /** What a client hands in: a key and the rest of its record. */
  datatype Data<K, V> = Data(key: K, rest: V)

  /** A slot of the pool; without a record while it is unused or freed. */
  datatype Item<K, V> = Item(rec: Option<Data<K, V>>, next: int, keyval: nat)

  /** Following next from head gives s, and ends. */
  ghost predicate Linked<K, V>(items: seq<Item<K, V>>, head: int, s: seq<nat>)
    decreases |s|
  {
    if s == [] then head == NULL
    else head == s[0] < |items| && Linked(items, items[s[0]].next, s[1..])
  }

  predicate NoDup(s: seq<nat>) {
    forall i, j :: 0 <= i < j < |s| ==> s[i] != s[j]
  }

  lemma {:induction false} LinkedSame<K, V>(items: seq<Item<K, V>>, items': seq<Item<K, V>>, head: int, s: seq<nat>)
    requires Linked(items, head, s) && |items| <= |items'|
    requires forall x :: x in s && x < |items| ==> items'[x].next == items[x].next
    ensures Linked(items', head, s)
    decreases |s|
  {
    if s != [] {
      assert s[0] in s && forall x :: x in s[1..] ==> x in s;
      LinkedSame(items, items', items[s[0]].next, s[1..]);
    }
  }

  lemma {:induction false} LinkedAt<K, V>(items: seq<Item<K, V>>, head: int, s: seq<nat>, j: nat)
    requires Linked(items, head, s) && j <= |s|
    ensures forall i :: 0 <= i < |s| ==> s[i] < |items|
    ensures Linked(items, if j == 0 then head else items[s[j - 1]].next, s[j..])
    decreases |s|
  {
    if s != [] {
      LinkedAt(items, items[s[0]].next, s[1..], if j == 0 then 0 else j - 1);
      if j > 0 {
        assert s[1..][j - 1..] == s[j..];
        if j > 1 { assert s[1..][j - 2] == s[j - 1]; }
      } else {
        assert s[0..] == s;
      }
      forall i | 0 <= i < |s|
        ensures s[i] < |items|
      {
        if i > 0 { assert s[1..][i - 1] == s[i]; }
      }
    }
  }

  /** s without what is at j. */
  function Without(s: seq<nat>, j: nat): seq<nat>
    requires j < |s|
  {
    s[..j] + s[j + 1..]
  }

  lemma NotInRest(s: seq<nat>)
    requires s != [] && NoDup(s)
    ensures s[0] !in s[1..] && NoDup(s[1..])
  {
    forall i | 0 <= i < |s[1..]|
      ensures s[1..][i] != s[0]
    {
      assert s[1..][i] == s[i + 1];
    }
  }

  /** Taking the one at j out of a chain, by changing what leads to it. */
  lemma {:induction false} Unlink<K, V>(items: seq<Item<K, V>>, items': seq<Item<K, V>>, head: int, s: seq<nat>, j: nat)
    requires Linked(items, head, s) && NoDup(s) && j < |s| && |items'| == |items| && s[j] < |items|
    requires j > 0 ==> s[j - 1] < |items| && items'[s[j - 1]].next == items[s[j]].next
    requires forall x :: x in s && x < |items| && x != s[j] && (j > 0 ==> x != s[j - 1]) ==> items'[x].next == items[x].next
    ensures Linked(items', if j == 0 then items[s[j]].next else head, Without(s, j))
    decreases |s|
  {
    hide Without;
    var t := s[1..];
    assert forall x :: x in t ==> x in s;
    NotInRest(s);
    WithoutRest(s, j);
    if j == 0 {
      LinkedSame(items, items', items[s[0]].next, t);
    } else {
      assert t[j - 1] == s[j] && s[0] != s[j] && s[0] in s;
      if j == 1 {
        NotInRest(t);
        WithoutRest(t, 0);
        assert forall x :: x in t[1..] ==> x in t;
        LinkedSame(items, items', items[s[1]].next, t[1..]);
      } else {
        assert t[j - 2] == s[j - 1] && s[0] != s[j - 1];
        Unlink(items, items', items[s[0]].next, t, j - 1);
      }
    }
  }

  lemma WithoutRest(s: seq<nat>, j: nat)
    requires j < |s|
    ensures j == 0 ==> Without(s, j) == s[1..]
    ensures j > 0 ==> Without(s, j) != [] && Without(s, j)[0] == s[0] && Without(s, j)[1..] == Without(s[1..], j - 1)
  {
  }

  function Sum(s: seq<nat>): nat {
    if s == [] then 0 else Sum(s[..|s| - 1]) + s[|s| - 1]
  }

  lemma SumMore(s: seq<nat>, x: nat)
    ensures Sum(s + [x]) == Sum(s) + x
  {
    assert (s + [x])[..|s|] == s;
  }

  // ---- the table as a value, with what it stands for ----

  /** chains are the buckets' items, frees the free list's, dict where each key's item is. */
  datatype Table<K, V> = Table(
    base: seq<int>, items: seq<Item<K, V>>, next: nat, free: int,
    chains: seq<seq<nat>>, frees: seq<nat>, dict: map<K, nat>)

  /** An item in use. */
  predicate Live<K, V>(t: Table<K, V>, x: int) {
    0 <= x < t.next && x < |t.items| && t.items[x].rec.Some?
  }

  ghost predicate BucketOk<K, V>(t: Table<K, V>, b: nat)
    requires b < |t.base| == |t.chains|
  {
    && Linked(t.items, t.base[b], t.chains[b]) && NoDup(t.chains[b])
    && forall x :: x in t.chains[b] ==> Live(t, x) && t.items[x].keyval % |t.base| == b
  }

  ghost predicate BucketsOk<K, V>(t: Table<K, V>) {
    |t.chains| == |t.base| && forall b :: 0 <= b < |t.base| ==> BucketOk(t, b)
  }

  ghost predicate FreeOk<K, V>(t: Table<K, V>) {
    && Linked(t.items, t.free, t.frees) && NoDup(t.frees) && t.next <= |t.items|
    && (forall x: nat :: x in t.frees <==> x < t.next && t.items[x].rec.None?)
    && (forall x :: t.next <= x < |t.items| ==> t.items[x].rec.None?)
  }

  /** Every item in use is in the bucket of its key, and is the key's only one. */
  ghost predicate ItemOk<K, V>(t: Table<K, V>, hash: K -> nat, x: nat)
    requires Live(t, x)
  {
    var k := t.items[x].rec.value.key;
    && k in t.dict && t.dict[k] == x && t.items[x].keyval == hash(k)
    && 0 < |t.base| == |t.chains| && x in t.chains[hash(k) % |t.base|]
  }

  ghost predicate DictOk<K, V>(t: Table<K, V>, hash: K -> nat) {
    && (forall k :: k in t.dict ==> Live(t, t.dict[k]) && t.items[t.dict[k]].rec.value.key == k)
    && (forall x: nat :: Live(t, x) ==> ItemOk(t, hash, x))
  }

  ghost predicate Ok<K, V>(t: Table<K, V>, hash: K -> nat) {
    BucketsOk(t) && FreeOk(t) && DictOk(t, hash)
  }

  /** The records of the keys in ks have not moved or changed. */
  ghost predicate Untouched<K, V>(t: Table<K, V>, t': Table<K, V>, ks: set<K>) {
    forall k :: k in ks && k in t.dict ==>
      && k in t'.dict && t'.dict[k] == t.dict[k] < |t.items| && t.dict[k] < |t'.items|
      && t'.items[t.dict[k]].rec == t.items[t.dict[k]].rec
  }

  /** Where in bucket b item r is, and what is before it. */
  ghost predicate FoundAt<K, V>(t: Table<K, V>, b: nat, j: nat, r: int, prev: int) {
    b < |t.chains| && j < |t.chains[b]| && t.chains[b][j] == r && prev == if j == 0 then NULL else t.chains[b][j - 1]
  }

  // ---- freeing ----

  /** The table with item i, at j in bucket b after prev, freed. */
  ghost function Freed<K, V>(t: Table<K, V>, b: nat, j: nat, i: nat, prev: int, key: K): Table<K, V>
    requires b < |t.base| && FoundAt(t, b, j, i, prev) && i < |t.items| && prev < |t.items|
  {
    var items1 := t.items[i := t.items[i].(rec := None)];
    var items2 := if prev >= 0 then items1[prev := items1[prev].(next := items1[i].next)] else items1;
    t.(items := items2[i := items2[i].(next := t.free)],
       base := if prev >= 0 then t.base else t.base[b := items1[i].next],
       free := i, frees := [i] + t.frees, chains := t.chains[b := Without(t.chains[b], j)], dict := t.dict - {key})
  }

  lemma FreedBucket<K, V>(t: Table<K, V>, hash: K -> nat, b: nat, j: nat, i: nat, prev: int, key: K, c: nat)
    requires Ok(t, hash) && b < |t.base| && FoundAt(t, b, j, i, prev) && i < |t.items| && prev < |t.items| && c < |t.base|
    ensures BucketOk(Freed(t, b, j, i, prev, key), c)
  {
    var t' := Freed(t, b, j, i, prev, key);
    var s := t.chains[b];
    assert BucketOk(t, b) && BucketOk(t, c);
    assert i in s && (j > 0 ==> s[j - 1] in s);
    if c == b {
      LinkedAt(t.items, t.base[b], s, j);
      assert j > 0 ==> s[j - 1] != s[j];
      Unlink(t.items, t'.items, t.base[b], s, j);
      WithoutHas(s, j);
    } else {
      assert forall x :: x in t.chains[c] ==> x != i && x != prev;
      LinkedSame(t.items, t'.items, t.base[c], t.chains[c]);
    }
  }

  lemma WithoutHas(s: seq<nat>, j: nat)
    requires NoDup(s) && j < |s|
    ensures NoDup(Without(s, j)) && forall x :: x in Without(s, j) <==> x in s && x != s[j]
  {
    var r := Without(s, j);
    assert forall i :: 0 <= i < |r| ==> r[i] == if i < j then s[i] else s[i + 1];
    forall x
      ensures x in r <==> x in s && x != s[j]
    {
      if x in s && x != s[j] {
        var i :| 0 <= i < |s| && s[i] == x;
        assert r[if i < j then i else i - 1] == x;
      }
    }
  }

  lemma FreedOk<K, V>(t: Table<K, V>, hash: K -> nat, b: nat, j: nat, i: nat, prev: int, key: K)
    requires Ok(t, hash) && b < |t.base| && FoundAt(t, b, j, i, prev) && key in t.dict && t.dict[key] == i
    ensures i < |t.items| && prev < |t.items|
    ensures Ok(Freed(t, b, j, i, prev, key), hash)
  {
    hide BucketOk;
    assert t.chains[b][j] in t.chains[b] && (j > 0 ==> t.chains[b][j - 1] in t.chains[b]);
    InBucket(t, b, j);
    var t' := Freed(t, b, j, i, prev, key);
    forall c | 0 <= c < |t'.base|
      ensures BucketOk(t', c)
    {
      FreedBucket(t, hash, b, j, i, prev, key, c);
    }
    FreedFree(t, hash, b, j, i, prev, key);
    FreedDict(t, hash, b, j, i, prev, key);
  }

  lemma InBucket<K, V>(t: Table<K, V>, b: nat, j: nat)
    requires BucketsOk(t) && b < |t.base| && j < |t.chains[b]|
    ensures Live(t, t.chains[b][j]) && (j > 0 ==> Live(t, t.chains[b][j - 1])) && NoDup(t.chains[b])
    ensures t.items[t.chains[b][j]].keyval % |t.base| == b
  {
    assert BucketOk(t, b);
    assert t.chains[b][j] in t.chains[b] && (j > 0 ==> t.chains[b][j - 1] in t.chains[b]);
  }

  lemma FreedFree<K, V>(t: Table<K, V>, hash: K -> nat, b: nat, j: nat, i: nat, prev: int, key: K)
    requires Ok(t, hash) && b < |t.base| && FoundAt(t, b, j, i, prev) && Live(t, i) && (prev >= 0 ==> Live(t, prev)) && i != prev
    requires prev < |t.items|
    ensures FreeOk(Freed(t, b, j, i, prev, key))
  {
    hide BucketOk;
    var t' := Freed(t, b, j, i, prev, key);
    LinkedSame(t.items, t'.items, t.free, t.frees);
    assert t'.frees[1..] == t.frees;
  }

  lemma FreedDict<K, V>(t: Table<K, V>, hash: K -> nat, b: nat, j: nat, i: nat, prev: int, key: K)
    requires Ok(t, hash) && b < |t.base| && FoundAt(t, b, j, i, prev) && Live(t, i) && (prev >= 0 ==> Live(t, prev)) && i != prev
    requires key in t.dict && t.dict[key] == i && NoDup(t.chains[b]) && prev < |t.items|
    ensures DictOk(Freed(t, b, j, i, prev, key), hash)
  {
    hide BucketOk;
    var t' := Freed(t, b, j, i, prev, key);
    WithoutHas(t.chains[b], j);
    forall x: nat | Live(t', x)
      ensures ItemOk(t', hash, x)
    {
      assert Live(t, x) && ItemOk(t, hash, x) && x != i;
    }
  }

  // ---- entering ----

  /** The table with data put into slot i, in front of its bucket. */
  ghost function Entered<K, V>(t: Table<K, V>, i: nat, keyval: nat, data: Data<K, V>): Table<K, V>
    requires i < |t.items| && t.base != [] && |t.chains| == |t.base|
  {
    var b := keyval % |t.base|;
    t.(items := t.items[i := Item(Some(data), t.base[b], keyval)], base := t.base[b := i],
       chains := t.chains[b := [i] + t.chains[b]], dict := t.dict[data.key := i])
  }

  lemma EnteredOk<K, V>(t: Table<K, V>, hash: K -> nat, i: nat, data: Data<K, V>)
    requires BucketsOk(t) && t.next <= |t.items| && DictOk(t, hash) && i < t.next && t.items[i].rec.None?
    requires t.base != [] && data.key !in t.dict
    ensures var t' := Entered(t, i, hash(data.key), data); BucketsOk(t') && DictOk(t', hash)
  {
    hide BucketOk;
    var t' := Entered(t, i, hash(data.key), data);
    forall c | 0 <= c < |t'.base|
      ensures BucketOk(t', c)
    {
      EnteredBucket(t, hash, i, data, c);
    }
    forall x: nat | Live(t', x)
      ensures ItemOk(t', hash, x)
    {
      if x != i {
        assert Live(t, x) && ItemOk(t, hash, x);
      }
    }
  }

  lemma EnteredBucket<K, V>(t: Table<K, V>, hash: K -> nat, i: nat, data: Data<K, V>, c: nat)
    requires BucketsOk(t) && t.next <= |t.items| && i < t.next && t.items[i].rec.None? && c < |t.base| && t.base != []
    ensures BucketOk(Entered(t, i, hash(data.key), data), c)
  {
    var t' := Entered(t, i, hash(data.key), data);
    assert BucketOk(t, c);
    LinkedSame(t.items, t'.items, t.base[c], t.chains[c]);
    assert c == hash(data.key) % |t.base| ==> t'.chains[c][1..] == t.chains[c];
  }

  /** The table once slot i is taken, from the free list or the end of the last block. */
  ghost function Grabbed<K, V>(t: Table<K, V>): Table<K, V>
    requires t.frees != [] ==> t.frees[0] < |t.items|
  {
    if t.frees != [] then t.(free := t.items[t.frees[0]].next, frees := t.frees[1..])
    else t.(next := t.next + 1)
  }

  ghost function Slot<K, V>(t: Table<K, V>): nat {
    if t.frees != [] then t.frees[0] else t.next
  }

  lemma GrabbedOk<K, V>(t: Table<K, V>, hash: K -> nat)
    requires Ok(t, hash) && (t.frees == [] ==> t.next < |t.items|)
    ensures Slot(t) < |t.items| && (t.free == NULL <==> t.frees == []) && (t.frees != [] ==> t.free == t.frees[0])
    ensures var t1 := Grabbed(t);
      && BucketsOk(t1) && t1.next <= |t1.items| && DictOk(t1, hash) && Slot(t) < t1.next && t.items[Slot(t)].rec.None?
    ensures !Live(t, Slot(t))
  {
    hide BucketOk;
    assert t.frees != [] ==> t.frees[0] in t.frees;
    var t1 := Grabbed(t);
    forall b | 0 <= b < |t1.base|
      ensures BucketOk(t1, b)
    {
      GrabbedBucket(t, hash, b);
    }
    forall x: nat | Live(t1, x)
      ensures ItemOk(t1, hash, x)
    {
      assert Live(t, x) && ItemOk(t, hash, x);
    }
  }

  lemma GrabbedBucket<K, V>(t: Table<K, V>, hash: K -> nat, b: nat)
    requires Ok(t, hash) && (t.frees == [] ==> t.next < |t.items|) && b < |t.base|
    requires t.frees != [] ==> t.frees[0] < |t.items|
    ensures BucketOk(Grabbed(t), b)
  {
    assert BucketOk(t, b);
  }

  lemma EnteredFree<K, V>(t: Table<K, V>, hash: K -> nat, keyval: nat, data: Data<K, V>)
    requires Ok(t, hash) && t.base != [] && (t.frees == [] ==> t.next < |t.items|) && Slot(t) < |t.items|
    requires |t.chains| == |t.base|
    ensures FreeOk(Entered(Grabbed(t), Slot(t), keyval, data))
  {
    hide BucketsOk, DictOk;
    var i, t1 := Slot(t), Grabbed(t);
    var t' := Entered(t1, i, keyval, data);
    if t.frees != [] {
      var rest := t.frees[1..];
      assert forall x :: x in t.frees <==> x == i || x in rest;
      assert i !in rest;
      LinkedSame(t.items, t'.items, t1.free, rest);
    }
  }

  lemma FewerTouched<K, V>(t: Table<K, V>, t': Table<K, V>, ks: set<K>, ks': set<K>)
    requires Untouched(t, t', ks) && ks' <= ks
    ensures Untouched(t, t', ks')
  {
  }

  lemma FreedSizes<K, V>(t: Table<K, V>, b: nat, j: nat, i: nat, prev: int, key: K)
    requires b < |t.base| && FoundAt(t, b, j, i, prev) && i < |t.items| && prev < |t.items|
    ensures var t' := Freed(t, b, j, i, prev, key);
      && |t'.items| == |t.items| && |t'.base| == |t.base| && t'.next == t.next && |t'.frees| == |t.frees| + 1
      && t'.dict == t.dict - {key} && t'.frees == [i] + t.frees
  {
  }

  /** Where there is room there is a pool. */
  lemma NotEmpty<K, V>(t: Table<K, V>, hash: K -> nat)
    requires Ok(t, hash)
    ensures |t.frees| + |t.items| - t.next >= 0
    ensures |t.frees| + |t.items| - t.next > 0 ==> |t.items| > 0
  {
    hide BucketsOk, DictOk;
    assert t.frees != [] ==> t.frees[0] in t.frees;
  }

  lemma Chained<K, V>(t: Table<K, V>)
    requires BucketsOk(t)
    ensures |t.chains| == |t.base|
  {
  }

  lemma Room<K, V>(t: Table<K, V>, hash: K -> nat)
    requires Ok(t, hash) && |t.frees| + |t.items| - t.next > 0
    ensures t.frees == [] ==> t.next < |t.items|
    ensures t.frees != [] ==> t.frees[0] < |t.items|
  {
    hide BucketsOk, DictOk;
    assert t.frees != [] ==> t.frees[0] in t.frees;
  }

  lemma Taken<K, V>(t: Table<K, V>)
    requires if t.frees == [] then t.next < |t.items| else t.frees[0] < |t.items|
    ensures Took(t, 1, Grabbed(t), Slot(t)) && Slot(t) < |t.items|
    ensures var t1 := Grabbed(t);
      && t1.items == t.items && t1.base == t.base && t1.chains == t.chains && t1.dict == t.dict
      && |t1.frees| - t1.next == |t.frees| - t.next - 1 && t1.next >= t.next
  {
  }

  /** What comes of entering a record that is not there. */
  lemma Entering<K, V>(t0: Table<K, V>, t: Table<K, V>, hash: K -> nat, data: Data<K, V>)
    requires Ok(t, hash) && t.base != [] && |t.frees| + |t.items| - t.next > 0 && data.key !in t.dict
    requires Untouched(t0, t, t0.dict.Keys) && t0.dict == t.dict
    ensures |t.chains| == |t.base| && Slot(t) < |t.items| && (t.free == NULL <==> t.frees == [])
    ensures if t.frees == [] then t.next < |t.items| else t.free == t.frees[0] < |t.items|
    ensures Ok(Entered(Grabbed(t), Slot(t), hash(data.key), data), hash)
    ensures Untouched(t0, Entered(Grabbed(t), Slot(t), hash(data.key), data), t0.dict.Keys)
    ensures forall k :: k in t0.dict ==> t0.dict[k] != Slot(t)
  {
    hide BucketsOk, FreeOk, DictOk, Untouched;
    Chained(t);
    Room(t, hash);
    GrabbedOk(t, hash);
    EnteredOk(Grabbed(t), hash, Slot(t), data);
    EnteredFree(t, hash, hash(data.key), data);
    EnteredTouches(t0, t, hash, hash(data.key), data);
  }

  lemma NothingTouched<K, V>(t: Table<K, V>, hash: K -> nat)
    requires Ok(t, hash)
    ensures Untouched(t, t, t.dict.Keys)
  {
    hide BucketsOk, FreeOk;
  }

  lemma EnteredTouches<K, V>(t0: Table<K, V>, t: Table<K, V>, hash: K -> nat, keyval: nat, data: Data<K, V>)
    requires Ok(t, hash) && t.base != [] && (t.frees == [] ==> t.next < |t.items|) && data.key !in t.dict
    requires Untouched(t0, t, t0.dict.Keys) && t0.dict == t.dict && Slot(t) < |t.items| && |t.chains| == |t.base|
    ensures Untouched(t0, Entered(Grabbed(t), Slot(t), keyval, data), t0.dict.Keys)
    ensures forall k :: k in t0.dict ==> t0.dict[k] != Slot(t)
  {
    hide BucketOk;
    GrabbedOk(t, hash);
    var i := Slot(t);
    forall k | k in t0.dict
      ensures t0.dict[k] != i
    {
      assert Live(t, t.dict[k]);
    }
  }

  lemma FreedTouches<K, V>(t: Table<K, V>, hash: K -> nat, b: nat, j: nat, i: nat, prev: int, key: K)
    requires Ok(t, hash) && b < |t.base| && FoundAt(t, b, j, i, prev) && key in t.dict && t.dict[key] == i
    requires i < |t.items| && prev < |t.items|
    ensures Untouched(t, Freed(t, b, j, i, prev, key), t.dict.Keys - {key})
  {
    hide BucketsOk, FreeOk;
    var t' := Freed(t, b, j, i, prev, key);
    forall k | k in t.dict && k != key
      ensures t.dict[k] != i && Live(t, t.dict[k])
    {
    }
  }

  lemma EmptyDict<K, V>(t: Table<K, V>, hash: K -> nat)
    requires Ok(t, hash) && |t.items| == 0
    ensures t.dict == map[]
  {
    hide BucketsOk;
  }

  // ---- rehashing ----

  lemma Full<K, V>(t: Table<K, V>, hash: K -> nat)
    requires Ok(t, hash) && |t.frees| + |t.items| - t.next == 0
    ensures t.frees == [] && t.next == |t.items| && forall x :: 0 <= x < |t.items| ==> t.items[x].rec.Some?
  {
    hide BucketsOk, DictOk;
    forall x: nat | x < |t.items|
      ensures t.items[x].rec.Some?
    {
      assert x !in t.frees;
    }
  }

  lemma RehashTouches<K, V>(t: Table<K, V>, t': Table<K, V>, hash: K -> nat)
    requires Ok(t, hash) && t'.dict == t.dict && |t.items| <= |t'.items|
    requires forall x :: 0 <= x < |t.items| ==> t'.items[x].rec == t.items[x].rec
    ensures Untouched(t, t', t.dict.Keys)
  {
    hide BucketsOk, FreeOk;
  }

  lemma NoneLinked<K, V>(items: seq<Item<K, V>>, base: seq<int>, chains: seq<seq<nat>>)
    requires |base| == |chains| > 0 && forall b :: 0 <= b < |base| ==> base[b] == NULL && chains[b] == []
    ensures LinkedUpto(items, base, chains, 0)
  {
  }

  lemma SumNone()
    ensures Sum([]) == 0
  {
  }

  lemma SumStep(s: seq<nat>, i: nat)
    requires i < |s|
    ensures Sum(s[..i + 1]) == Sum(s[..i]) + s[i]
  {
    assert s[..i + 1][..i] == s[..i];
  }

  lemma {:induction false} SumGrows(s: seq<nat>, i: nat)
    requires i <= |s|
    ensures Sum(s[..i]) <= Sum(s)
    decreases |s|
  {
    if i < |s| {
      var t := s[..|s| - 1];
      assert t[..i] == s[..i];
      SumGrows(t, i);
    } else {
      assert s[..i] == s;
    }
  }

  lemma BucketInRange<K, V>(items: seq<Item<K, V>>, base: seq<int>, chains: seq<seq<nat>>, k: nat)
    requires LinkedUpto(items, base, chains, k)
    ensures |base| == |chains| > 0
  {
  }

  /** The first k items have been put into the buckets. */
  ghost predicate LinkedUpto<K, V>(items: seq<Item<K, V>>, base: seq<int>, chains: seq<seq<nat>>, k: nat) {
    && |base| == |chains| > 0 && k <= |items|
    && forall b :: 0 <= b < |base| ==> BucketUpto(items, base, chains, k, b)
  }

  ghost predicate BucketUpto<K, V>(items: seq<Item<K, V>>, base: seq<int>, chains: seq<seq<nat>>, k: nat, b: nat)
    requires b < |base| == |chains| && k <= |items|
  {
    && Linked(items, base[b], chains[b]) && NoDup(chains[b])
    && forall x: nat :: x in chains[b] <==> x < k && items[x].keyval % |base| == b
  }

  lemma LinkOne<K, V>(items: seq<Item<K, V>>, base: seq<int>, chains: seq<seq<nat>>, k: nat)
    requires LinkedUpto(items, base, chains, k) && k < |items|
    ensures var b := items[k].keyval % |base|;
      LinkedUpto(items[k := items[k].(next := base[b])], base[b := k], chains[b := [k] + chains[b]], k + 1)
  {
    var b := items[k].keyval % |base|;
    var items', base', chains' := items[k := items[k].(next := base[b])], base[b := k], chains[b := [k] + chains[b]];
    var more := k + 1;
    forall c | 0 <= c < |base|
      ensures BucketUpto(items', base', chains', more, c)
    {
      assert BucketUpto(items, base, chains, k, c);
      LinkedSame(items, items', base[c], chains[c]);
      assert c == b ==> chains'[c][1..] == chains[c];
    }
  }

  /** Once all are in, the table is as good as before, and every key's item where it was. */
  lemma RehashedOk<K, V>(t: Table<K, V>, t': Table<K, V>, hash: K -> nat)
    requires Ok(t, hash) && t.frees == [] && t.next == |t.items| && t'.next == t.next && t'.dict == t.dict
    requires t'.frees == [] && t'.free == NULL && |t.items| <= |t'.items|
    requires forall x :: |t.items| <= x < |t'.items| ==> t'.items[x].rec.None?
    requires LinkedUpto(t'.items, t'.base, t'.chains, |t.items|)
    requires forall x :: 0 <= x < |t.items| ==> t'.items[x].rec == t.items[x].rec && t'.items[x].keyval == t.items[x].keyval
    ensures Ok(t', hash)
  {
    hide BucketOk;
    forall b | 0 <= b < |t'.base|
      ensures BucketOk(t', b)
    {
      RehashedBucket(t, t', b);
    }
    forall x: nat | Live(t', x)
      ensures ItemOk(t', hash, x)
    {
      assert Live(t, x) && ItemOk(t, hash, x);
      assert BucketUpto(t'.items, t'.base, t'.chains, |t.items|, hash(t.items[x].rec.value.key) % |t'.base|);
    }
  }

  lemma RehashedBucket<K, V>(t: Table<K, V>, t': Table<K, V>, b: nat)
    requires FreeOk(t) && t.frees == [] && t.next == |t.items| && t'.next == t.next && |t.items| <= |t'.items|
    requires LinkedUpto(t'.items, t'.base, t'.chains, |t.items|) && b < |t'.base|
    requires forall x :: 0 <= x < |t.items| ==> t'.items[x].rec == t.items[x].rec && t'.items[x].keyval == t.items[x].keyval
    ensures BucketOk(t', b)
  {
    assert BucketUpto(t'.items, t'.base, t'.chains, |t.items|, b);
    assert forall x: nat :: x < t.next ==> x !in t.frees;
  }

  /** A record went into slot i: the one freed last, or, with none free, the next unused one;
      with no slot left there are first made twice as many more, eleven to begin with. */
  ghost predicate Took<K, V>(t: Table<K, V>, more: int, t': Table<K, V>, i: int) {
    if more == 0 then
      && i == |t.items| && t'.next == i + 1 && t'.frees == []
      && |t'.items| == if t.items == [] then INEL else 3 * |t.items|
    else
      && |t'.items| == |t.items|
      && if t.frees != [] then i == t.frees[0] && t'.frees == t.frees[1..] && t'.next == t.next
         else i == t.next && t'.frees == [] && t'.next == t.next + 1
  }

  // ---- enumerating ----

  /** The items in use among the first n slots, in order. */
  function LiveUpto<K, V>(t: Table<K, V>, n: nat): seq<nat> {
    if n == 0 then [] else LiveUpto(t, n - 1) + if Live(t, n - 1) then [n - 1] else []
  }

  lemma {:induction false} LiveUptoHas<K, V>(t: Table<K, V>, n: nat)
    ensures forall x: nat :: x in LiveUpto(t, n) <==> x < n && Live(t, x)
    ensures NoDup(LiveUpto(t, n))
    decreases n
  {
    if n > 0 {
      LiveUptoHas(t, n - 1);
    }
  }

  /** Every entry is among the first n slots. */
  predicate Reached<K(!new), V>(t: Table<K, V>, n: int) {
    forall k :: k in t.dict ==> t.dict[k] < n
  }

  /** Leaving out as many slots as have been freed, counted from the end of those handed out,
      leaves out no entry if and only if it is the freed ones that are left out. */
  lemma ReachedIff<K(!new), V>(t: Table<K, V>, hash: K -> nat)
    requires Ok(t, hash) && |t.frees| <= t.next
    ensures Reached(t, t.next - |t.frees|) <==> forall x :: x in t.frees ==> x >= t.next - |t.frees|
  {
    hide BucketsOk;
    var n := t.next - |t.frees|;
    hide Slots;
    var last, freed := Slots(n, t.next), Elems(t.frees);
    NoDupSize(t.frees);
    forall x: nat | x < t.next && x !in t.frees
      ensures Live(t, x) && t.items[x].rec.value.key in t.dict && t.dict[t.items[x].rec.value.key] == x
    {
      assert Live(t, x) && ItemOk(t, hash, x);
    }
    if Reached(t, n) {
      assert forall x :: x in last ==> x in freed;
      SameSize(last, freed);
    }
    if forall x :: x in t.frees ==> x >= n {
      assert forall x :: x in freed ==> x in last;
      SameSize(freed, last);
      forall k | k in t.dict
        ensures t.dict[k] < n
      {
        assert Live(t, t.dict[k]) && t.dict[k] !in freed;
      }
    }
  }

  /** The numbers from lo up to, but not including, hi. */
  function Slots(lo: int, hi: int): (r: set<int>)
    ensures forall x :: x in r <==> lo <= x < hi
    ensures lo <= hi ==> |r| == hi - lo
    decreases hi - lo
  {
    if lo >= hi then {} else Slots(lo, hi - 1) + {hi - 1}
  }

  function Elems(s: seq<nat>): (r: set<int>)
    ensures forall x: nat :: x in r <==> x in s
  {
    set x | x in s
  }

  lemma {:induction false} NoDupSize(s: seq<nat>)
    requires NoDup(s)
    ensures |Elems(s)| == |s|
    decreases |s|
  {
    if s == [] {
      assert Elems(s) == {};
    } else {
      NotInRest(s);
      NoDupSize(s[1..]);
      assert s == [s[0]] + s[1..];
      assert Elems(s) == {s[0]} + Elems(s[1..]);
    }
  }

  lemma SameSize(a: set<int>, b: set<int>)
    requires a <= b && |a| == |b|
    ensures a == b
  {
    assert b == a + (b - a) && |b| == |a| + |b - a|;
  }

  // ---- looking up ----

  lemma BucketLinked<K, V>(t: Table<K, V>, b: nat)
    requires BucketsOk(t) && b < |t.base|
    ensures Linked(t.items, t.base[b], t.chains[b])
  {
    assert BucketOk(t, b);
  }

  predicate Holds<K(==), V>(t: Table<K, V>, x: int, key: K) {
    Live(t, x) && t.items[x].rec.value.key == key
  }

  lemma KeyvalIs<K, V>(t: Table<K, V>, hash: K -> nat, x: nat)
    requires Ok(t, hash) && Live(t, x)
    ensures t.items[x].keyval == hash(t.items[x].rec.value.key)
  {
    hide BucketOk;
    assert ItemOk(t, hash, x);
  }

  /** A key whose bucket has no item for it is not in the table. */
  lemma NotThere<K, V>(t: Table<K, V>, hash: K -> nat, key: K)
    requires Ok(t, hash) && t.base != []
    requires var s := t.chains[hash(key) % |t.base|]; forall k :: 0 <= k < |s| ==> !Holds(t, s[k], key)
    ensures key !in t.dict
  {
    hide BucketOk;
    assert key in t.dict ==> ItemOk(t, hash, t.dict[key]);
  }

  class HashTable<K(==, !new), V> {
    const hash: K -> nat
    var base: seq<int>            // tab.base: the first item of each bucket
    var items: seq<Item<K, V>>    // all the blocks, one after the other
    var more: int                 // slots left: freed ones, and those never handed out
    var free: int                 // free list of items
    var next: nat                 // the first slot never handed out
    var list: int                 // index of the last block
    var lists: seq<nat>           // sizes of the blocks

    ghost var chains: seq<seq<nat>>
    ghost var frees: seq<nat>
    ghost var dict: map<K, nat>

    ghost function Now(): Table<K, V>
      reads this
    {
      Table(base, items, next, free, chains, frees, dict)
    }

    ghost predicate Valid()
      reads this
    {
      && Ok(Now(), hash)
      && |items| == Sum(lists) && list == |lists| - 1 && |base| == BLOAT * |items|
      && more == |frees| + |items| - next && (lists != [] ==> |items| > 0)
      && (lists != [] ==> next + lists[|lists| - 1] >= |items|)
    }

    /** hashinit() - initialize a hash table. */
    constructor (hash: K -> nat)
      ensures Valid() && this.hash == hash && dict == map[] && items == [] && lists == [] && more == 0 && next == 0 && frees == []
    {
      this.hash := hash;
      base, items, more, free, next, list, lists := [], [], 0, NULL, 0, -1, [];
      chains, frees, dict := [], [], map[];
    }

    /** hash_search: find the item for a key, and the one before it in its bucket. */
    method Search(keyval: nat, key: K) returns (r: int, prev: int)
      requires Valid() && base != [] && keyval == hash(key)
      ensures r == if key in dict then dict[key] else NULL
      ensures r != NULL ==> exists j :: FoundAt(Now(), keyval % |base|, j, r, prev)
    {
      hide BucketOk;
      var i := base[keyval % |base|];
      ghost var s := chains[keyval % |base|];
      ghost var j := 0;
      prev := NULL;
      assert s[0..] == s && Linked(items, i, s) by { BucketLinked(Now(), keyval % |base|); }
      while i != NULL
        invariant j <= |s| && Linked(items, i, s[j..])
        invariant prev == if j == 0 then NULL else s[j - 1]
        invariant forall k :: 0 <= k < j ==> !Holds(Now(), s[k], key)
        decreases |s| - j
      {
        InBucket(Now(), keyval % |base|, j);
        KeyvalIs(Now(), hash, i);
        if keyval == items[i].keyval && items[i].rec.value.key == key {
          assert FoundAt(Now(), keyval % |base|, j, i, prev);
          return i, prev;
        }
        prev := i;
        i := items[i].next;
        assert s[j..][1..] == s[j + 1..];
        j := j + 1;
      }
      NotThere(Now(), hash, key);
      return NULL, prev;
    }

    /** hash_free: takes a key out, if it is in; no other record is touched. */
    method Free(key: K) returns (found: bool)
      requires Valid() && base != []
      modifies this
      ensures Valid() && (found <==> key in old(dict)) && dict == old(dict) - {key}
      ensures lists == old(lists) && |items| == |old(items)| && next == old(next) && frees == if found then [old(dict)[key]] + old(frees) else old(frees)
      ensures Untouched(old(Now()), Now(), old(dict).Keys - {key})
    {
      hide BucketsOk, FreeOk, DictOk, Untouched, Freed;
      var keyval := hash(key);
      ghost var t := Now();
      NothingTouched(t, hash);
      var i, prev := Search(keyval, key);
      if i == NULL {
        FewerTouched(t, t, t.dict.Keys, t.dict.Keys - {key});
        return false;
      }
      var b := keyval % |base|;
      ghost var j :| FoundAt(t, b, j, i, prev);
      FreedOk(t, hash, b, j, i, prev, key);
      FreedTouches(t, hash, b, j, i, prev, key);
      Unchain(b, j, i, prev, key);
      FreedSizes(t, b, j, i, prev, key);
      return true;
    }

    /** The item leaves its bucket and heads the free list. */
    method Unchain(b: nat, ghost j: nat, i: nat, prev: int, ghost key: K)
      requires b < |base| && FoundAt(Now(), b, j, i, prev) && i < |items| && NULL <= prev < |items|
      modifies `items, `base, `free, `more, `frees, `chains, `dict
      ensures Now() == Freed(old(Now()), b, j, i, prev, key) && more == old(more) + 1
    {
      // no record: enumeration passes over it
      items := items[i := items[i].(rec := None)];
      // out of its bucket
      if prev != NULL {
        items := items[prev := items[prev].(next := items[i].next)];
      } else {
        base := base[b := items[i].next];
      }
      // in front of the free slots
      items := items[i := items[i].(next := free)];
      free := i;
      // one more slot left
      more := more + 1;
      frees, chains, dict := [i] + frees, chains[b := Without(chains[b], j)], dict - {key};
    }

    /** hashitem: looks a record up and, if asked to, enters it where it is missing. */
    method HashItem(data: Data<K, V>, enter: bool) returns (found: bool, addr: int)
      requires Valid()
      modifies this
      ensures Valid() && (found <==> data.key in old(dict))
      ensures found ==> addr == old(dict)[data.key]
      ensures !enter || found ==> dict == old(dict)
      ensures enter && !found ==>
        && 0 <= addr < |items| && items[addr].rec == Some(data) && dict == old(dict)[data.key := addr]
        && (forall k :: k in old(dict) ==> old(dict)[k] != addr)
      ensures enter && !found ==> Took(old(Now()), old(more), Now(), addr)
      ensures enter || |items| == |old(items)|
      ensures lists == if enter && old(more) == 0 then old(lists) + [if old(items) == [] then INEL else 2 * |old(items)|] else old(lists)
      ensures Untouched(old(Now()), Now(), old(dict).Keys)
    {
      hide BucketsOk, FreeOk, DictOk, Untouched;
      ghost var t := Now();
      NothingTouched(t, hash);
      addr := NULL;
      if enter && more == 0 {
        Rehash();
      }
      if !enter && |items| == 0 {
        EmptyDict(t, hash);
        return false, NULL;
      }
      if enter { NotEmpty(Now(), hash); }
      var keyval := hash(data.key);
      var i, prev := Search(keyval, data.key);
      if i != NULL {
        return true, i;
      }
      if enter {
        addr := EnterNew(keyval, data, t);
      }
      return false, addr;
    }

    /** Put a record that is not there into a slot of its own. */
    method EnterNew(keyval: nat, data: Data<K, V>, ghost t0: Table<K, V>) returns (i: nat)
      requires Valid() && more > 0 && keyval == hash(data.key) && data.key !in dict && items != []
      requires Untouched(t0, Now(), t0.dict.Keys) && dict == t0.dict
      modifies this
      ensures Valid() && dict == t0.dict[data.key := i] && i < |items| && items[i].rec == Some(data)
      ensures Took(old(Now()), 1, Now(), i) && lists == old(lists)
      ensures forall k :: k in t0.dict ==> t0.dict[k] != i
      ensures Untouched(t0, Now(), t0.dict.Keys)
    {
      hide Ok, Untouched, Grabbed, Slot;
      ghost var t := Now();
      var b := keyval % |base|;
      Entering(t0, t, hash, data);
      i := TakeSlot();
      Taken(t);
      items := items[i := Item(Some(data), base[b], keyval)];
      base := base[b := i];
      chains, dict := chains[b := [i] + chains[b]], dict[data.key := i];
      assert Now() == Entered(Grabbed(t), Slot(t), keyval, data);
    }

    /** A slot for a new record: freed ones are used first. */
    method TakeSlot() returns (i: nat)
      requires free == NULL <==> frees == []
      requires if frees == [] then next < |items| else free == frees[0] < |items|
      modifies `free, `next, `more, `frees
      ensures i == Slot(old(Now())) && Now() == Grabbed(old(Now())) && more == old(more) - 1
    {
      if free != NULL {
        i := free;
        free := items[i].next;
        frees := frees[1..];
      } else {
        i := next;
        next := next + 1;
      }
      more := more - 1;
    }

    /** hashrehash() - resize and rebuild the hash table; nothing is lost, duplicated or moved. */
    method Rehash()
      requires Valid() && more == 0
      modifies this
      ensures Valid() && dict == old(dict) && more > 0 && items != []
      ensures lists == old(lists) + [if old(items) == [] then INEL else 2 * |old(items)|]
      ensures next == |old(items)| && frees == [] && |items| == if old(items) == [] then INEL else 3 * |old(items)|
      ensures Untouched(old(Now()), Now(), old(dict).Keys)
    {
      hide Ok, Untouched, LinkedUpto, Sum;
      ghost var t := Now();
      Full(t, hash);
      SumNone();
      Extend();
      Relink(t);
      RehashedOk(t, Now(), hash);
      RehashTouches(t, Now(), hash);
    }

    /** Another block of slots, and new, empty buckets. */
    method Extend()
      requires |items| == Sum(lists) && list == |lists| - 1 && (lists != [] <==> items != [])
      modifies this
      ensures lists == old(lists) + [more] && more == (if old(items) == [] then INEL else 2 * |old(items)|) && list == |lists| - 1
      ensures items == old(items) + seq(more, _ => Item(None, NULL, 0)) && |items| == Sum(lists)
      ensures |base| == |chains| == BLOAT * |items| && forall b :: 0 <= b < |base| ==> base[b] == NULL && chains[b] == []
      ensures next == |old(items)| && free == NULL && frees == [] && dict == old(dict)
    {
      hide Sum;
      list := list + 1;
      more := if list != 0 then 2 * |items| else INEL;
      next := |items|;
      free := NULL;
      SumMore(lists, more);
      lists := lists + [more];
      items := items + seq(more, _ => Item(None, NULL, 0));
      base := seq(BLOAT * |items|, _ => NULL);
      chains, frees := seq(|base|, _ => []), [];
    }

    /** Put every old item into its new bucket, block by block. */
    method Relink(ghost t: Table<K, V>)
      requires 0 <= list < |lists| && Sum(lists[..list]) == |t.items| <= |items|
      requires |base| == |chains| > 0 && (forall b :: 0 <= b < |base| ==> base[b] == NULL && chains[b] == [])
      requires forall x :: 0 <= x < |t.items| ==> items[x] == t.items[x] && items[x].rec.Some?
      modifies `items, `base, `chains
      ensures |items| == |old(items)| && |base| == |old(base)|
      ensures LinkedUpto(items, base, chains, |t.items|)
      ensures forall x :: 0 <= x < |items| ==> items[x].rec == old(items)[x].rec && items[x].keyval == old(items)[x].keyval
    {
      hide LinkedUpto, Sum;
      NoneLinked(items, base, chains);
      var at: nat := 0;
      assert lists[..0] == [];
      SumNone();
      for i := 0 to list
        invariant at == Sum(lists[..i]) && |items| == |old(items)| && |base| == |old(base)|
        invariant at <= |items| && LinkedUpto(items, base, chains, at)
        invariant forall x :: 0 <= x < |items| ==> items[x].rec == old(items)[x].rec && items[x].keyval == old(items)[x].keyval
      {
        var nel := lists[i];
        assert lists[..i + 1][..i] == lists[..i];
        SumStep(lists, i);
        SumGrows(lists[..list], i + 1);
        assert lists[..list][..i + 1] == lists[..i + 1];
        while nel > 0
          invariant at + nel == Sum(lists[..i + 1]) <= |t.items| && |items| == |old(items)| && |base| == |old(base)|
          invariant LinkedUpto(items, base, chains, at)
          invariant forall x :: 0 <= x < |items| ==> items[x].rec == old(items)[x].rec && items[x].keyval == old(items)[x].keyval
        {
          LinkOne(items, base, chains, at);
          // every slot is in use here
          assert items[at].rec.Some?;
          BucketInRange(items, base, chains, at);
          var b := items[at].keyval % |base|;
          items := items[at := items[at].(next := base[b])];
          base := base[b := at];
          chains := chains[b := [at] + chains[b]];
          at := at + 1;
          nel := nel - 1;
        }
      }
    }

    /** hashenumerate: the items visited, in order. It leaves out the last `more` slots, which
        count the freed ones too: every entry is visited if and only if those freed are the
        last that were handed out. If there are more than the last block has, the count for
        that block starts below zero, and does not end inside the block; ok tells. */
    method Enumerate() returns (ok: bool, visited: seq<nat>)
      requires Valid()
      ensures ok <==> lists == [] || more <= lists[|lists| - 1]
      ensures NoDup(visited) && forall x :: x in visited ==> Live(Now(), x)
      ensures ok ==> |frees| <= next && visited == LiveUpto(Now(), next - |frees|)
      ensures ok ==>
        ((forall k :: k in dict ==> dict[k] in visited) <==> (forall x :: x in frees ==> x >= next - |frees|))
      ensures frees == [] ==> ok && forall k :: k in dict ==> dict[k] in visited
    {
      hide BucketsOk, FreeOk, DictOk, Sum, LiveUpto, NoDup;
      NoneFree(Now(), hash);
      NotEmpty(Now(), hash);
      visited := [];
      var at: nat := 0;
      assert lists[..0] == [] && lists[..|lists|] == lists;
      SumNone();
      NoneUpto(Now());
      LiveUptoHas(Now(), 0);
      for i := 0 to |lists|
        invariant at == if i == |lists| && i > 0 then |items| - more else Sum(lists[..i])
        invariant visited == LiveUpto(Now(), at)
        invariant i == |lists| > 0 ==> more <= lists[|lists| - 1]
      {
        SumStep(lists, i);
        SumGrows(lists, i + 1);
        var nel: int := lists[i];
        if i == list {
          nel := nel - more;
        }
        if nel < 0 {
          LiveUptoHas(Now(), at);
          return false, visited;
        }
        visited := VisitBlock(at, nel, visited);
        at := at + nel;
      }
      ok := true;
      LiveUptoHas(Now(), at);
      FreesFit(Now(), hash);
      VisitedIff(Now(), hash, visited);
    }

    method VisitBlock(from: nat, nel: nat, before: seq<nat>) returns (visited: seq<nat>)
      requires Valid() && from + nel <= |items| && before == LiveUpto(Now(), from)
      ensures visited == LiveUpto(Now(), from + nel)
    {
      hide BucketsOk, FreeOk, DictOk, LiveUpto;
      visited := before;
      var at := from;
      var left := nel;
      while left > 0
        invariant at + left == from + nel && visited == LiveUpto(Now(), at)
      {
        EnumerateStep(Now(), hash, at);
        if items[at].rec.Some? {
          visited := visited + [at];
        }
        at := at + 1;
        left := left - 1;
      }
    }
  }

  /** No more slots are free than have been handed out. */
  lemma FreesFit<K, V>(t: Table<K, V>, hash: K -> nat)
    requires Ok(t, hash)
    ensures |t.frees| <= t.next
  {
    hide BucketsOk, DictOk;
    NoDupSize(t.frees);
    hide Slots;
    var freed, all := Elems(t.frees), Slots(0, t.next);
    assert freed <= all;
    assert all == freed + (all - freed) && |all| == |freed| + |all - freed|;
  }

  lemma VisitedIff<K(!new), V>(t: Table<K, V>, hash: K -> nat, visited: seq<nat>)
    requires Ok(t, hash) && |t.frees| <= t.next && visited == LiveUpto(t, t.next - |t.frees|)
    ensures (forall k :: k in t.dict ==> t.dict[k] in visited) <==> (forall x :: x in t.frees ==> x >= t.next - |t.frees|)
  {
    hide BucketsOk, FreeOk;
    LiveUptoHas(t, t.next - |t.frees|);
    ReachedIff(t, hash);
  }

  lemma NoneFree<K, V>(t: Table<K, V>, hash: K -> nat)
    requires Ok(t, hash)
    ensures t.items == [] ==> t.frees == [] && t.next == 0
  {
    hide BucketsOk, DictOk;
    assert t.frees != [] ==> t.frees[0] in t.frees;
  }

  lemma NoneUpto<K, V>(t: Table<K, V>)
    ensures LiveUpto(t, 0) == []
  {
  }

  /** Slots not handed out hold no record. */
  lemma EnumerateStep<K, V>(t: Table<K, V>, hash: K -> nat, x: nat)
    requires Ok(t, hash) && x < |t.items|
    ensures LiveUpto(t, x + 1) == LiveUpto(t, x) + if t.items[x].rec.Some? then [x] else []
  {
    hide BucketsOk, DictOk;
  }

  lemma OneFree<K, V>(t: Table<K, V>)
    requires FreeOk(t) && t.frees == [0]
    ensures LiveUpto(t, 1) == []
  {
    assert 0 in t.frees;
    assert !Live(t, 0) && LiveUpto(t, 0) == [];
  }

  /** Enumeration can miss an item while another is free: of two entered, with the first freed,
      the second is not visited. */
  method MissesOne() returns (t: HashTable<int, int>, visited: seq<nat>)
    ensures fresh(t) && t.Valid() && t.dict.Keys == {2} && visited == []
  {
    hide BucketsOk, FreeOk, DictOk, Untouched, LiveUpto;
    t := new HashTable((k: int) => 0);
    var found1, a1 := t.HashItem(Data(1, 0), true);
    assert a1 == 0 && t.dict == map[1 := 0] && t.next == 1 && t.frees == [] && |t.items| == INEL && t.lists == [INEL] && t.more == 10;
    var found2, a2 := t.HashItem(Data(2, 0), true);
    assert t.dict == map[1 := 0, 2 := 1] && t.next == 2 && t.frees == [] && |t.items| == INEL && t.lists == [INEL] && t.more == 9;
    var found3 := t.Free(1);
    assert t.next == 2 && t.frees == [0] && |t.items| == INEL && t.lists == [INEL] && t.more == 10;
    var ok;
    ok, visited := t.Enumerate();
    OneFree(t.Now());
  }

  /** The keys from 0 to i - 1 have been entered, one after the other. */
  ghost predicate Entered12(t: HashTable<int, int>, i: nat)
    reads t
  {
    && t.Valid() && t.next == i && t.frees == [] && t.dict.Keys == Slots(0, i)
    && t.lists == (if i == 0 then [] else if i < 12 then [INEL] else [INEL, 22])
    && |t.items| == if i == 0 then 0 else if i < 12 then INEL else 33
  }

  method EnterOne(t: HashTable<int, int>, i: nat)
    requires i < 12 && Entered12(t, i)
    modifies t
    ensures Entered12(t, i + 1)
  {
    hide Ok, Untouched, Slots, Sum, FoundAt, LiveUpto;
    var found, addr := t.HashItem(Data(i, 0), true);
    assert Slots(0, i + 1) == Slots(0, i) + {i as int};
  }

  method EnterTwelve() returns (t: HashTable<int, int>)
    ensures fresh(t) && Entered12(t, 12)
  {
    hide Ok, Untouched, Slots, Sum;
    t := new HashTable((k: int) => 0);
    for i := 0 to 12
      invariant fresh(t) && Entered12(t, i)
    {
      EnterOne(t, i);
    }
  }

  /** Enumeration can run off the last block: with twelve entered, which takes a second block,
      and two of the first eleven freed, 23 slots are free, and that block has 22. */
  method RunsOff() returns (t: HashTable<int, int>, ok: bool)
    ensures fresh(t) && t.Valid() && t.dict.Keys == Slots(2, 12) && !ok
  {
    hide Ok, Untouched, LiveUpto, NoDup, Slots, Sum, Took, Live;
    t := EnterTwelve();
    var found1 := t.Free(0);
    var found2 := t.Free(1);
    assert |t.frees| == 2 && t.more == 23 && t.lists == [INEL, 22];
    LessTwo(12);
    var visited;
    ok, visited := t.Enumerate();
  }

  lemma LessTwo(n: nat)
    ensures Slots(0, n) - {0} - {1} == Slots(2, n)
  {
    hide Slots;
  }
}
