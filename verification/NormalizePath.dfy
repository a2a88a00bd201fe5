/** The NORMALIZE_PATH builtin: a path cleaned up in one backward pass over a buffer, removed
    characters being overwritten with the marker \1 and dropped afterwards. */
module NormalizePath {

  type Byte = x: int | 0 <= x < 256

  /** C strings without the byte 1. */
  type Text = s: seq<Byte> | forall i :: 0 <= i < |s| ==> s[i] > 1

  const MARK: Byte := 1
  const DOT: Byte := 46
  const SLASH: Byte := 47
  const BACKSLASH: Byte := 92

  datatype Option<+T> = None | Some(value: T)

  // ---- the specification: a stack of components, front to back ----

  function Convert(s: Text): (r: Text)
    ensures |r| == |s| && BACKSLASH !in r
  {
    if s == [] then [] else [if s[0] == BACKSLASH then SLASH else s[0]] + Convert(s[1..])
  }

  /** The nonempty arguments, with a slash before each. */
  function Joined(args: seq<Text>): Text {
    if args == [] then []
    else (if args[0] == [] then [] else [SLASH] + args[0]) + Joined(args[1..])
  }

  /** Whether the first nonempty argument starts with a slash or backslash. */
  predicate Rooted(args: seq<Text>) {
    args != [] &&
    if args[0] == [] then Rooted(args[1..]) else args[0][0] == SLASH || args[0][0] == BACKSLASH
  }

  predicate Whole(c: Text) {
    SLASH !in c
  }

  /** The '/'-separated elements of s. */
  function Split(s: Text): (r: seq<Text>)
    ensures |r| > 0 && forall i :: 0 <= i < |r| ==> Whole(r[i])
  {
    if s == [] then [[]]
    else
      var r := Split(s[1..]);
      if s[0] == SLASH then [[]] + r else [[s[0]] + r[0]] + r[1..]
  }

  /** All of cs, with a slash before each. */
  function Flat(cs: seq<Text>): Text {
    if cs == [] then [] else Flat(cs[..|cs| - 1]) + ([SLASH] + cs[|cs| - 1])
  }

  /** A path as so many steps up and then so many names. */
  datatype Path = Path(ups: nat, names: seq<Text>)

  predicate IsName(c: Text) {
    c != [] && c != [DOT] && c != [DOT, DOT] && Whole(c)
  }

  /** One more element: '.' changes nothing, '..' takes back a name if there is one. */
  function Step(p: Path, c: Text): Path {
    if c == [] || c == [DOT] then p
    else if c == [DOT, DOT] then
      if p.names != [] then Path(p.ups, p.names[..|p.names| - 1]) else Path(p.ups + 1, [])
    else Path(p.ups, p.names + [c])
  }

  function Reduce(cs: seq<Text>): Path {
    if cs == [] then Path(0, []) else Step(Reduce(cs[..|cs| - 1]), cs[|cs| - 1])
  }

  function Ups(n: nat): (r: seq<Text>)
    ensures |r| == n && forall i :: 0 <= i < n ==> r[i] == [DOT, DOT]
  {
    seq(n, _ => [DOT, DOT])
  }

  /** The text of a path. */
  function Render(rooted: bool, p: Path): Text {
    var all := Flat(Ups(p.ups) + p.names);
    if all == [] then if rooted then [SLASH] else [DOT]
    else if rooted then all else all[1..]
  }

  function Elements(args: seq<Text>): seq<Text> {
    var s := Convert(Joined(args));
    Split(if s == [] then [] else s[1..])
  }

  /** What NORMALIZE_PATH is for: nothing exactly when a rooted path goes up beyond the root. */
  function Normal(args: seq<Text>): Option<Text> {
    var p := Reduce(Elements(args));
    if Rooted(args) && p.ups > 0 then None else Some(Render(Rooted(args), p))
  }

  // ---- the backward pass ----

  /** p with d names taken back, going up once there is none. */
  function Undo(p: Path, d: nat): Path {
    if d <= |p.names| then Path(p.ups, p.names[..|p.names| - d]) else Path(p.ups + d - |p.names|, [])
  }

  /** Of cs, the first j elements are still to be looked at, kept are kept of the rest, and d
      names are to be taken back. */
  ghost predicate Backward(cs: seq<Text>, j: nat, d: nat, kept: seq<Text>) {
    j <= |cs| &&
    var u := Undo(Reduce(cs[..j]), d);
    Reduce(cs) == Path(u.ups, u.names + kept)
  }

  lemma BackwardStart(cs: seq<Text>)
    ensures Backward(cs, |cs|, 0, [])
  {
    assert cs[..|cs|] == cs;
    var p := Reduce(cs);
    assert p.names[..|p.names|] + [] == p.names;
  }

  lemma BackwardStep(cs: seq<Text>, j: nat, d: nat, kept: seq<Text>)
    requires Backward(cs, j, d, kept) && j > 0
    ensures var c := cs[j - 1];
      if c == [] || c == [DOT] then Backward(cs, j - 1, d, kept)
      else if c == [DOT, DOT] then Backward(cs, j - 1, d + 1, kept)
      else if d > 0 then Backward(cs, j - 1, d - 1, kept)
      else Backward(cs, j - 1, d, [c] + kept)
  {
    var c, p := cs[j - 1], Reduce(cs[..j - 1]);
    assert cs[..j][..j - 1] == cs[..j - 1] && cs[..j][j - 1] == c;
    assert Reduce(cs[..j]) == Step(p, c);
    if c == [] || c == [DOT] {
    } else if c == [DOT, DOT] {
      assert Undo(Step(p, c), d) == Undo(p, d + 1);
    } else if d > 0 {
      assert d <= |p.names| + 1 ==> (p.names + [c])[..|p.names| + 1 - d] == p.names[..|p.names| - (d - 1)];
      assert Undo(Step(p, c), d) == Undo(p, d - 1);
    } else {
      assert (p.names + [c])[..|p.names| + 1] == p.names + [c];
      assert p.names[..|p.names|] == p.names;
      assert p.names + [c] + kept == p.names + ([c] + kept);
    }
  }

  lemma BackwardEnd(cs: seq<Text>, d: nat, kept: seq<Text>)
    requires Backward(cs, 0, d, kept)
    ensures Reduce(cs) == Path(d, kept)
  {
    assert cs[..0] == [] && [] + kept == kept;
  }

  // ---- splitting and joining ----

  lemma {:induction false} FlatFront(c: Text, cs: seq<Text>)
    ensures Flat([c] + cs) == [SLASH] + c + Flat(cs)
    decreases |cs|
  {
    hide Flat;
    FlatEmpty();
    var all := [c] + cs;
    FlatLast(all);
    if cs == [] {
      assert all[..0] == [];
      assert [] + ([SLASH] + c) == [SLASH] + c + [];
    } else {
      var init, last := cs[..|cs| - 1], cs[|cs| - 1];
      FlatLast(cs);
      FlatFront(c, init);
      assert all[..|all| - 1] == [c] + init;
      assert [SLASH] + c + Flat(init) + ([SLASH] + last) == [SLASH] + c + (Flat(init) + ([SLASH] + last));
    }
  }

  lemma FlatEmpty()
    ensures Flat([]) == []
  {
  }

  lemma FlatLast(cs: seq<Text>)
    requires cs != []
    ensures Flat(cs) == Flat(cs[..|cs| - 1]) + ([SLASH] + cs[|cs| - 1])
  {
  }

  lemma {:induction false} FlatAppend(a: seq<Text>, b: seq<Text>)
    ensures Flat(a + b) == Flat(a) + Flat(b)
    decreases |b|
  {
    if b == [] {
      assert a + b == a;
    } else {
      assert (a + b)[..|a + b| - 1] == a + b[..|b| - 1];
      FlatAppend(a, b[..|b| - 1]);
    }
  }

  /** One more character in front of the first element. */
  lemma FlatMore(x: Byte, c: Text, cs: seq<Text>, u: Text)
    requires x > 1 && Flat([c] + cs) == [SLASH] + u
    ensures var c': Text := [x] + c; Flat([c'] + cs) == [SLASH] + ([x] + u)
  {
    hide Flat;
    var c': Text := [x] + c;
    FlatFront(c, cs);
    FlatFront(c', cs);
    Cancel(SLASH, c, Flat(cs), u);
    Shift(x, c, Flat(cs));
  }

  lemma Shift(x: Byte, a: seq<Byte>, b: seq<Byte>)
    ensures [SLASH] + ([x] + a) + b == [SLASH] + ([x] + (a + b))
  {
  }

  lemma {:induction false} FlatSplit(s: Text)
    ensures Flat(Split(s)) == [SLASH] + s
    decreases |s|
  {
    hide Flat;
    FlatEmpty();
    var e: Text := [];
    if s == [] {
      FlatFront(e, []);
      assert [e] + [] == [e];
      assert [SLASH] + e + [] == [SLASH] + s;
    } else {
      var u, r := s[1..], Split(s[1..]);
      FlatSplit(u);
      if s[0] == SLASH {
        FlatFront(e, r);
        assert [SLASH] + e + ([SLASH] + u) == [SLASH] + s;
      } else {
        assert r == [r[0]] + r[1..];
        FlatMore(s[0], r[0], r[1..], u);
        assert [s[0]] + u == s;
      }
    }
  }

  lemma Cancel(x: Byte, a: seq<Byte>, b: seq<Byte>, c: seq<Byte>)
    requires [x] + a + b == [x] + c
    ensures a + b == c
  {
    assert ([x] + a + b)[1..] == a + b && ([x] + c)[1..] == c;
  }

  lemma {:induction false} SplitOne(c: Text)
    requires Whole(c)
    ensures Split(c) == [c]
    decreases |c|
  {
    if c != [] {
      assert c[0] in c && forall x :: x in c[1..] ==> x in c;
      SplitOne(c[1..]);
      assert c == [c[0]] + c[1..];
    }
  }

  lemma {:induction false} SplitFirst(c: Text, s: Text)
    requires Whole(c)
    ensures Split(c + [SLASH] + s) == [c] + Split(s)
    decreases |c|
  {
    var all := c + [SLASH] + s;
    if c == [] {
      assert all == [SLASH] + s && all[1..] == s;
    } else {
      assert c[0] in c && forall x :: x in c[1..] ==> x in c;
      SplitFirst(c[1..], s);
      assert all[1..] == c[1..] + [SLASH] + s;
      assert c == [c[0]] + c[1..];
    }
  }

  /** Elements without slashes come back out of their joined text. */
  lemma {:induction false} SplitFlat(cs: seq<Text>)
    requires cs != [] && forall i :: 0 <= i < |cs| ==> Whole(cs[i])
    ensures Flat(cs) != [] && Flat(cs)[0] == SLASH && Split(Flat(cs)[1..]) == cs
    decreases |cs|
  {
    var rest := cs[1..];
    assert cs == [cs[0]] + rest;
    FlatFront(cs[0], rest);
    assert Flat(cs)[1..] == cs[0] + Flat(rest);
    if rest == [] {
      assert cs[0] + [] == cs[0];
      SplitOne(cs[0]);
    } else {
      SplitFlat(rest);
      assert Flat(rest) == [SLASH] + Flat(rest)[1..];
      assert cs[0] + Flat(rest) == cs[0] + [SLASH] + Flat(rest)[1..];
      SplitFirst(cs[0], Flat(rest)[1..]);
    }
  }

  // ---- marking and stripping ----

  /** s without its marks. */
  function Strip(s: seq<Byte>): seq<Byte> {
    if s == [] then [] else (if s[0] == MARK then [] else [s[0]]) + Strip(s[1..])
  }

  lemma {:induction false} StripAppend(a: seq<Byte>, b: seq<Byte>)
    ensures Strip(a + b) == Strip(a) + Strip(b)
    decreases |a|
  {
    if a == [] {
      assert a + b == b;
    } else {
      assert (a + b)[1..] == a[1..] + b;
      StripAppend(a[1..], b);
    }
  }

  lemma {:induction false} StripMarks(s: seq<Byte>)
    requires forall i :: 0 <= i < |s| ==> s[i] == MARK
    ensures Strip(s) == []
    decreases |s|
  {
    if s != [] {
      StripMarks(s[1..]);
    }
  }

  lemma {:induction false} StripText(s: Text)
    ensures Strip(s) == s
    decreases |s|
  {
    if s != [] {
      StripText(s[1..]);
      assert s == [s[0]] + s[1..];
    }
  }

  /** Where the backward pass is: buf is what is left of the elements of cs before j, then what
      has been kept of the rest, and marks. */
  ghost predicate At(buf: seq<Byte>, end: int, cs: seq<Text>, j: nat, kept: seq<Text>) {
    && j <= |cs| && -1 <= end < |buf| && buf[..end + 1] == Flat(cs[..j]) && Strip(buf[end + 1..]) == Flat(kept)
  }

  /** The last element begins at its slash. */
  lemma LastElement(buf: seq<Byte>, end: int, cs: seq<Text>, j: nat, kept: seq<Text>)
    requires At(buf, end, cs, j, kept) && j > 0 && forall i :: 0 <= i < |cs| ==> Whole(cs[i])
    ensures var n := end - |cs[j - 1]|;
      && 0 <= n <= end && buf[n] == SLASH && buf[n + 1..end + 1] == cs[j - 1] && buf[..n] == Flat(cs[..j - 1])
      && forall i :: n < i <= end ==> buf[i] != SLASH
  {
    var c := cs[j - 1];
    var n := end - |c|;
    assert cs[..j][..j - 1] == cs[..j - 1];
    assert buf[..end + 1] == Flat(cs[..j - 1]) + ([SLASH] + c);
    assert buf[..end + 1][n..] == [SLASH] + c;
    assert Whole(c);
    forall i | n < i <= end
      ensures buf[i] != SLASH
    {
      assert buf[i] == c[i - n - 1] && c[i - n - 1] in c;
    }
  }

  /** The last element is marked from its slash to its end. */
  lemma Dropped(buf: seq<Byte>, buf': seq<Byte>, end: int, cs: seq<Text>, j: nat, kept: seq<Text>)
    requires At(buf, end, cs, j, kept) && j > 0 && forall i :: 0 <= i < |cs| ==> Whole(cs[i])
    requires var n := end - |cs[j - 1]|;
      && 0 <= n && |buf'| == |buf| && buf'[..n] == buf[..n] && buf'[end + 1..] == buf[end + 1..]
      && forall i :: n <= i <= end ==> buf'[i] == MARK
    ensures At(buf', end - |cs[j - 1]| - 1, cs, j - 1, kept)
  {
    LastElement(buf, end, cs, j, kept);
    var n := end - |cs[j - 1]|;
    assert buf'[n..] == buf'[n..end + 1] + buf'[end + 1..];
    StripAppend(buf'[n..end + 1], buf'[end + 1..]);
    StripMarks(buf'[n..end + 1]);
  }

  lemma Retained(buf: seq<Byte>, end: int, cs: seq<Text>, j: nat, kept: seq<Text>)
    requires At(buf, end, cs, j, kept) && j > 0 && forall i :: 0 <= i < |cs| ==> Whole(cs[i])
    ensures At(buf, end - |cs[j - 1]| - 1, cs, j - 1, [cs[j - 1]] + kept)
  {
    hide Flat, Strip;
    LastElement(buf, end, cs, j, kept);
    var c := cs[j - 1];
    var n := end - |c|;
    assert c in cs && Whole(c);
    assert buf[n..end + 1] == [SLASH] + c;
    assert buf[n..] == ([SLASH] + c) + buf[end + 1..];
    StripAppend([SLASH] + c, buf[end + 1..]);
    StripText([SLASH] + c);
    FlatFront(c, kept);
  }

  /** Remove elements from the end backwards, counting the '..' not yet made good. */
  method MarkBackward(in_: array<Byte>, ghost cs: seq<Text>) returns (dotdots: nat, ghost kept: seq<Text>)
    requires cs != [] && (forall i :: 0 <= i < |cs| ==> Whole(cs[i])) && in_[..] == Flat(cs)
    modifies in_
    ensures Reduce(cs) == Path(dotdots, kept) && Strip(in_[..]) == Flat(kept)
  {
    hide Flat, Reduce, Backward, Strip, At;
    var end := in_.Length - 1;
    dotdots := 0;
    kept := [];
    ghost var j: nat := |cs|;
    BackwardStart(cs);
    Start(in_[..], cs);
    while end >= 0
      invariant At(in_[..], end, cs, j, kept) && Backward(cs, j, dotdots, kept)
      invariant -1 <= end < in_.Length && (end >= 0 <==> j > 0)
      decreases j
    {
      ghost var buf := in_[..];
      LastElement(buf, end, cs, j, kept);
      BackwardStep(cs, j, dotdots, kept);
      // Back to the slash that the last element begins with.
      var current := end;
      while in_[current] != SLASH
        invariant end - |cs[j - 1]| <= current <= end
        decreases current
      {
        current := current - 1;
      }
      ghost var c := cs[j - 1];
      ElementIs(buf, current, end, c);
      if current == end {
        // An empty element.
        in_[current] := MARK;
        Dropped(buf, in_[..], end, cs, j, kept);
      } else if end - current == 1 && in_[current + 1] == DOT {
        // The element '.'.
        in_[current] := MARK;
        in_[current + 1] := MARK;
        Dropped(buf, in_[..], end, cs, j, kept);
      } else if end - current == 2 && in_[current + 1] == DOT && in_[current + 2] == DOT {
        // The element '..'.
        in_[current] := MARK;
        in_[current + 1] := MARK;
        in_[current + 2] := MARK;
        Dropped(buf, in_[..], end, cs, j, kept);
        dotdots := dotdots + 1;
      } else if dotdots > 0 {
        MarkFrom(in_, current, end);
        Dropped(buf, in_[..], end, cs, j, kept);
        dotdots := dotdots - 1;
      } else {
        Retained(buf, end, cs, j, kept);
        kept := [c] + kept;
      }
      end := current - 1;
      j := j - 1;
      Somewhere(in_[..], end, cs, j, kept);
    }
    BackwardEnd(cs, dotdots, kept);
    AtStart(in_[..], cs, kept);
  }

  lemma ElementIs(buf: seq<Byte>, current: nat, end: nat, c: Text)
    requires current <= end < |buf| && c == buf[current + 1..end + 1]
    ensures (c == [] <==> current == end) && (c == [DOT] <==> end - current == 1 && buf[current + 1] == DOT)
    ensures c == [DOT, DOT] <==> end - current == 2 && buf[current + 1] == DOT && buf[current + 2] == DOT
  {
    assert |c| == end - current && forall i :: 0 <= i < |c| ==> c[i] == buf[current + 1 + i];
    if |c| == 1 {
      assert c == [c[0]];
    } else if |c| == 2 {
      assert c == [c[0], c[1]];
    }
  }

  /** memset( current, '\1', end - current + 1 ) */
  method MarkFrom(in_: array<Byte>, current: nat, end: nat)
    requires current <= end < in_.Length
    modifies in_
    ensures in_[..current] == old(in_[..current]) && in_[end + 1..] == old(in_[end + 1..])
    ensures forall i :: current <= i <= end ==> in_[i] == MARK
  {
    for i := current to end + 1
      invariant in_[..current] == old(in_[..current]) && in_[end + 1..] == old(in_[end + 1..])
      invariant forall k :: current <= k < i ==> in_[k] == MARK
    {
      in_[i] := MARK;
    }
  }

  lemma Start(buf: seq<Byte>, cs: seq<Text>)
    requires buf == Flat(cs) && cs != []
    ensures At(buf, |buf| - 1, cs, |cs|, []) && |buf| > 0
  {
    assert cs[..|cs|] == cs && buf[..|buf|] == buf && buf[|buf|..] == [];
  }

  lemma Somewhere(buf: seq<Byte>, end: int, cs: seq<Text>, j: nat, kept: seq<Text>)
    requires At(buf, end, cs, j, kept)
    ensures -1 <= end < |buf| && (end >= 0 <==> j > 0)
  {
  }

  lemma AtStart(buf: seq<Byte>, cs: seq<Text>, kept: seq<Text>)
    requires At(buf, -1, cs, 0, kept)
    ensures Strip(buf) == Flat(kept)
  {
    assert buf[0..] == buf;
  }

  // ---- the builtin ----

  /** Rooted or not, converted text and joined arguments, as the first loops leave them. */
  lemma JoinedStarts(args: seq<Text>)
    ensures Joined(args) != [] ==> Joined(args)[0] == SLASH && Convert(Joined(args))[0] == SLASH
    ensures Joined(args) == [] ==> !Rooted(args)
    decreases |args|
  {
    if args != [] && args[0] == [] {
      JoinedStarts(args[1..]);
      assert [] + Joined(args[1..]) == Joined(args[1..]);
    }
  }

  /** The arguments joined behind a slash, and whether the path is rooted. */
  method Gather(args: seq<Text>) returns (text: Text, rooted: bool)
    ensures rooted == Rooted(args)
    ensures text == if Joined(args) == [] then [SLASH] else Joined(args)
  {
    hide Joined, Rooted;
    text := [SLASH];
    rooted := false;
    ghost var before: Text := [];
    assert args[0..] == args;
    var i := 0;
    while i < |args|
      invariant 0 <= i <= |args|
      invariant text == if before == [] then [SLASH] else before
      invariant Joined(args) == before + Joined(args[i..])
      invariant if before == [] then !rooted && Rooted(args) == Rooted(args[i..]) else |before| > 1 && rooted == Rooted(args)
    {
      JoinedFrom(args, i, before);
      if args[i] != [] {
        if |text| == 1 {
          rooted := args[i][0] == SLASH || args[i][0] == BACKSLASH;
        } else {
          text := text + [SLASH];
        }
        text := text + args[i];
        before := before + [SLASH] + args[i];
      }
      i := i + 1;
    }
    JoinedNone(args, before);
  }

  lemma JoinedFrom(args: seq<Text>, i: nat, before: Text)
    requires i < |args|
    ensures before + Joined(args[i..]) ==
      if args[i] == [] then before + Joined(args[i + 1..]) else before + [SLASH] + args[i] + Joined(args[i + 1..])
    ensures Rooted(args[i..]) == if args[i] == [] then Rooted(args[i + 1..]) else args[i][0] == SLASH || args[i][0] == BACKSLASH
  {
    assert args[i..][0] == args[i] && args[i..][1..] == args[i + 1..];
    assert [] + Joined(args[i + 1..]) == Joined(args[i + 1..]);
    assert before + ([SLASH] + args[i] + Joined(args[i + 1..])) == before + [SLASH] + args[i] + Joined(args[i + 1..]);
  }

  lemma JoinedNone(args: seq<Text>, before: Text)
    ensures before + Joined(args[|args|..]) == before && !Rooted(args[|args|..])
  {
    assert args[|args|..] == [];
  }

  /** Convert \ into /. */
  method ConvertAll(text: Text) returns (in_: array<Byte>)
    ensures fresh(in_) && in_[..] == Convert(text)
  {
    in_ := new Byte[|text|](i requires 0 <= i < |text| => text[i]);
    ConvertAt(text);
    for current := 0 to in_.Length
      invariant forall i :: 0 <= i < in_.Length ==> in_[i] == if i < current then Convert(text)[i] else text[i]
    {
      if in_[current] == BACKSLASH {
        in_[current] := SLASH;
      }
    }
  }

  lemma {:induction false} ConvertAt(s: Text)
    ensures forall i :: 0 <= i < |s| ==> Convert(s)[i] == if s[i] == BACKSLASH then SLASH else s[i]
    decreases |s|
  {
    if s != [] {
      ConvertAt(s[1..]);
      forall i | 0 <= i < |s|
        ensures Convert(s)[i] == if s[i] == BACKSLASH then SLASH else s[i]
      {
        if i > 0 { assert Convert(s)[i] == Convert(s[1..])[i - 1] && s[1..][i - 1] == s[i]; }
      }
    }
  }

  /** What is not marked is copied to out. */
  method DropMarks(out: seq<Byte>, in_: array<Byte>) returns (r: seq<Byte>)
    ensures r == out + Strip(in_[..])
  {
    r := out;
    assert in_[0..] == in_[..] && out + Strip(in_[0..]) == out + Strip(in_[..]);
    for current := 0 to in_.Length
      invariant r + Strip(in_[current..]) == out + Strip(in_[..])
    {
      ghost var s := in_[current..];
      assert s[0] == in_[current] && s[1..] == in_[current + 1..];
      if in_[current] != MARK {
        assert r + ([s[0]] + Strip(s[1..])) == r + [s[0]] + Strip(s[1..]);
        r := r + [in_[current]];
      } else {
        assert [] + Strip(s[1..]) == Strip(s[1..]);
      }
    }
    assert in_[in_.Length..] == [];
  }

  method NormalizePath(args: seq<Text>) returns (result: Option<Text>)
    ensures result == Normal(args)
    ensures result.None? <==> StartsAtRoot(args) && GoesAbove(Elements(args))
    ensures result.Some? ==> Says(args, result.value)
  {
    hide Flat, Reduce, Split, Strip, Joined, Rooted, Convert, Says, StartsAtRoot, GoesAbove;
    NormalSays(args);
    var text, rooted := Gather(args);
    ghost var cs := Elements(args);
    JoinedStarts(args);
    ElementsFlat(args);
    var in_ := ConvertAll(text);
    var dotdots, kept := MarkBackward(in_, cs);
    var p := dotdots;
    ghost var marked := in_[..];
    var out: seq<Byte> := [];
    if dotdots > 0 {
      if rooted {
        return None;
      }
      FlatNone();
      ghost var done: nat := 0;
      while dotdots > 0
        invariant done + dotdots == p && out == Flat(Ups(done)) && in_[..] == marked
      {
        UpsMore(done);
        out := out + [SLASH, DOT, DOT];
        dotdots := dotdots - 1;
        done := done + 1;
      }
    } else {
      FlatNone();
    }
    ghost var head := out;
    assert head == Flat(Ups(p));
    assert Strip(in_[..]) == Flat(kept);
    out := DropMarks(out, in_);
    assert out == head + Flat(kept);
    FlatAppend(Ups(p), kept);
    assert out == Flat(Ups(p) + kept);
    if out != [] {
      return Some(if rooted then out else out[1..]);
    }
    return Some(if rooted then [SLASH] else [DOT]);
  }

  lemma FlatNone()
    ensures Flat(Ups(0)) == [] && Ups(0) == []
  {
  }

  lemma UpsMore(n: nat)
    ensures Flat(Ups(n + 1)) == Flat(Ups(n)) + [SLASH, DOT, DOT]
  {
    assert Ups(n + 1)[..n] == Ups(n);
  }

  lemma ElementsFlat(args: seq<Text>)
    ensures var cs := Elements(args);
      && cs != [] && (forall i :: 0 <= i < |cs| ==> Whole(cs[i]))
      && Flat(cs) == Convert(if Joined(args) == [] then [SLASH] else Joined(args))
  {
    JoinedStarts(args);
    var s := Convert(Joined(args));
    FlatSplit(if s == [] then [] else s[1..]);
    if s != [] {
      assert [SLASH] + s[1..] == s;
    } else {
      assert Convert([SLASH]) == [SLASH] + Convert([]) by { assert [SLASH as Byte][1..] == []; }
      assert [SLASH] + [] == [SLASH];
    }
  }

  // ---- normalising twice ----

  /** The names a reduced path is left with. */
  lemma {:induction false} ReduceNames(cs: seq<Text>)
    requires forall i :: 0 <= i < |cs| ==> Whole(cs[i])
    ensures forall i :: 0 <= i < |Reduce(cs).names| ==> IsName(Reduce(cs).names[i])
    decreases |cs|
  {
    if cs != [] {
      ReduceNames(cs[..|cs| - 1]);
      assert Whole(cs[|cs| - 1]);
    }
  }

  /** Names, after steps up only, reduce to themselves. */
  lemma {:induction false} ReduceSame(ups: nat, names: seq<Text>)
    requires forall i :: 0 <= i < |names| ==> IsName(names[i])
    ensures Reduce(Ups(ups) + names) == Path(ups, names)
    decreases ups + |names|
  {
    var all := Ups(ups) + names;
    if names != [] {
      assert all[..|all| - 1] == Ups(ups) + names[..|names| - 1];
      ReduceSame(ups, names[..|names| - 1]);
      assert names == names[..|names| - 1] + [names[|names| - 1]];
    } else if ups > 0 {
      assert all[..|all| - 1] == Ups(ups - 1) + [];
      ReduceSame(ups - 1, []);
    }
  }

  lemma {:induction false} ReduceSkips(c: Text, cs: seq<Text>)
    requires c == [] || c == [DOT]
    ensures Reduce([c] + cs) == Reduce(cs)
    decreases |cs|
  {
    var all := [c] + cs;
    if cs == [] {
      assert all[..0] == [];
    } else {
      assert all[..|all| - 1] == [c] + cs[..|cs| - 1];
      ReduceSkips(c, cs[..|cs| - 1]);
    }
  }

  lemma {:induction false} SplitKeeps(s: Text, x: Byte)
    requires x !in s
    ensures forall i :: 0 <= i < |Split(s)| ==> x !in Split(s)[i]
    decreases |s|
  {
    if s != [] {
      assert s[0] in s && forall y :: y in s[1..] ==> y in s;
      SplitKeeps(s[1..], x);
    }
  }

  lemma {:induction false} ReduceKeeps(cs: seq<Text>, x: Byte)
    requires forall i :: 0 <= i < |cs| ==> x !in cs[i]
    ensures forall i :: 0 <= i < |Reduce(cs).names| ==> x !in Reduce(cs).names[i]
    decreases |cs|
  {
    if cs != [] {
      ReduceKeeps(cs[..|cs| - 1], x);
    }
  }

  lemma {:induction false} FlatKeeps(cs: seq<Text>, x: Byte)
    requires x != SLASH && forall i :: 0 <= i < |cs| ==> x !in cs[i]
    ensures x !in Flat(cs)
    decreases |cs|
  {
    if cs != [] {
      FlatKeeps(cs[..|cs| - 1], x);
    }
  }

  lemma {:induction false} ConvertSame(s: Text)
    requires BACKSLASH !in s
    ensures Convert(s) == s
    decreases |s|
  {
    if s != [] {
      assert s[0] in s && forall y :: y in s[1..] ==> y in s;
      ConvertSame(s[1..]);
      assert s == [s[0]] + s[1..];
    }
  }

  /** One argument that is already clean. */
  lemma Alone(r: Text)
    requires r != [] && BACKSLASH !in r
    ensures Elements([r]) == Split(r) && (Rooted([r]) <==> r[0] == SLASH)
  {
    assert [r][1..] == [];
    assert Joined([r]) == [SLASH] + r + Joined([]) == [SLASH] + r;
    ConvertSame(r);
    assert ([SLASH] + r)[1..] == r;
    assert Convert([SLASH] + r) == [SLASH] + Convert(r);
  }

  // ---- what the result says ----

  /** The first argument that is not empty starts with a slash or a backslash. */
  ghost predicate StartsAtRoot(args: seq<Text>) {
    exists k :: 0 <= k < |args| && FirstText(args, k) && (args[k][0] == SLASH || args[k][0] == BACKSLASH)
  }

  ghost predicate FirstText(args: seq<Text>, k: nat)
    requires k < |args|
  {
    args[k] != [] && forall j :: 0 <= j < k ==> args[j] == []
  }

  lemma {:induction false} RootedMeans(args: seq<Text>)
    ensures Rooted(args) <==> StartsAtRoot(args)
    decreases |args|
  {
    if args != [] {
      if args[0] != [] {
        assert FirstText(args, 0);
        assert forall k :: 0 <= k < |args| && FirstText(args, k) ==> k == 0;
      } else {
        var rest := args[1..];
        RootedMeans(rest);
        forall k | 0 <= k < |rest|
          ensures FirstText(rest, k) <==> FirstText(args, k + 1)
        {
          assert args[k + 1] == rest[k];
          assert forall j :: 0 <= j < k ==> rest[j] == args[j + 1];
        }
        if Rooted(rest) {
          var k :| 0 <= k < |rest| && FirstText(rest, k) && (rest[k][0] == SLASH || rest[k][0] == BACKSLASH);
          assert FirstText(args, k + 1);
        }
        if k :| 0 <= k < |args| && FirstText(args, k) && (args[k][0] == SLASH || args[k][0] == BACKSLASH) {
          assert FirstText(rest, k - 1);
        }
      }
    }
  }

  /** How many steps up there are in cs, and how many names. */
  function Rises(cs: seq<Text>): nat {
    if cs == [] then 0 else Rises(cs[..|cs| - 1]) + if cs[|cs| - 1] == [DOT, DOT] then 1 else 0
  }

  function Descents(cs: seq<Text>): nat {
    if cs == [] then 0 else Descents(cs[..|cs| - 1]) + if IsName(cs[|cs| - 1]) then 1 else 0
  }

  /** Somewhere in cs there have been more steps up than names. */
  ghost predicate GoesAbove(cs: seq<Text>) {
    exists j :: 0 <= j <= |cs| && Rises(cs[..j]) > Descents(cs[..j])
  }

  lemma {:induction false} Balance(cs: seq<Text>)
    requires forall i :: 0 <= i < |cs| ==> Whole(cs[i])
    ensures var p := Reduce(cs); p.ups + Descents(cs) == |p.names| + Rises(cs)
    decreases |cs|
  {
    if cs != [] {
      Balance(cs[..|cs| - 1]);
      assert Whole(cs[|cs| - 1]);
    }
  }

  /** Going up beyond where it starts: what a path never takes back. */
  lemma {:induction false} AboveMeans(cs: seq<Text>)
    requires forall i :: 0 <= i < |cs| ==> Whole(cs[i])
    ensures Reduce(cs).ups > 0 <==> GoesAbove(cs)
    decreases |cs|
  {
    hide Rises, Descents, Reduce;
    var n := |cs|;
    assert cs[..n] == cs;
    Balance(cs);
    if n == 0 {
      NoElements();
      assert forall j :: 0 <= j <= 0 ==> cs[..j] == [];
    } else {
      var init := cs[..n - 1];
      AboveMeans(init);
      Balance(init);
      ReduceLast(cs);
      assert forall j :: 0 <= j <= n - 1 ==> init[..j] == cs[..j];
      if GoesAbove(init) {
        var j :| 0 <= j <= n - 1 && Rises(init[..j]) > Descents(init[..j]);
        assert Rises(cs[..j]) > Descents(cs[..j]);
      }
      if j :| 0 <= j <= n && Rises(cs[..j]) > Descents(cs[..j]) {
        if j < n { assert Rises(init[..j]) > Descents(init[..j]); }
      }
    }
  }

  lemma NoElements()
    ensures Rises([]) == Descents([]) == 0 && Reduce([]) == Path(0, [])
  {
  }

  lemma ReduceLast(cs: seq<Text>)
    requires cs != []
    ensures Reduce(cs) == Step(Reduce(cs[..|cs| - 1]), cs[|cs| - 1])
  {
  }

  /** The elements of the arguments that are not empty, one after the other. */
  function Pieces(args: seq<Text>): seq<Text> {
    if args == [] then [] else (if args[0] == [] then [] else Split(Convert(args[0]))) + Pieces(args[1..])
  }

  lemma {:induction false} ConvertJoin(s: Text, t: Text)
    ensures Convert(s + t) == Convert(s) + Convert(t)
    decreases |s|
  {
    if s == [] {
      assert s + t == t;
    } else {
      assert (s + t)[1..] == s[1..] + t;
      ConvertJoin(s[1..], t);
    }
  }

  lemma {:induction false} JoinedPieces(args: seq<Text>)
    ensures Convert(Joined(args)) == Flat(Pieces(args))
    decreases |args|
  {
    hide Flat, Split, Convert;
    FlatEmpty();
    if args == [] {
      assert Convert([]) == [] by { ConvertEmpty(); }
    } else {
      var a, rest := args[0], args[1..];
      JoinedPieces(rest);
      if a == [] {
        assert [] + Joined(rest) == Joined(rest) && [] + Pieces(rest) == Pieces(rest);
      } else {
        ConvertJoin([SLASH] + a, Joined(rest));
        ConvertJoin([SLASH], a);
        ConvertEmpty();
        FlatSplit(Convert(a));
        FlatAppend(Split(Convert(a)), Pieces(rest));
      }
    }
  }

  lemma ConvertEmpty()
    ensures Convert([]) == [] && Convert([SLASH]) == [SLASH]
  {
    assert [SLASH as Byte][1..] == [];
  }

  /** What the elements of a path are: those of its arguments in turn, split at either kind of
      slash, or a single empty one. */
  lemma ElementsMean(args: seq<Text>)
    ensures Elements(args) == if Pieces(args) == [] then [[]] else Pieces(args)
  {
    hide Split, Joined, Flat, Convert;
    JoinedPieces(args);
    PiecesWhole(args);
    if Pieces(args) == [] {
      FlatEmpty();
      SplitEmpty();
    } else {
      SplitFlat(Pieces(args));
    }
  }

  lemma SplitEmpty()
    ensures Split([]) == [[]]
  {
  }

  lemma {:induction false} PiecesWhole(args: seq<Text>)
    ensures forall i :: 0 <= i < |Pieces(args)| ==> Whole(Pieces(args)[i])
    decreases |args|
  {
    if args != [] {
      PiecesWhole(args[1..]);
    }
  }

  /** What a result has to say: the path that the elements come to, and nothing else. */
  ghost predicate Says(args: seq<Text>, r: Text) {
    var p := Reduce(Elements(args));
    && r != [] && (r[0] == SLASH <==> StartsAtRoot(args))
    && (r == [DOT] <==> !StartsAtRoot(args) && p == Path(0, []))
    && (if p == Path(0, []) then |r| == 1 else Split(if r[0] == SLASH then r[1..] else r) == Ups(p.ups) + p.names)
    && Reduce(Elements([r])) == p
  }

  /** The text of a path says what the path is. */
  lemma NormalSays(args: seq<Text>)
    ensures Normal(args).None? <==> StartsAtRoot(args) && GoesAbove(Elements(args))
    ensures Normal(args).Some? ==> Says(args, Normal(args).value)
  {
    hide Flat, Reduce, Split, Joined, Rooted, Convert, StartsAtRoot, GoesAbove;
    var cs, rooted := Elements(args), Rooted(args);
    RootedMeans(args);
    ElementsFlat(args);
    AboveMeans(cs);
    var p := Reduce(cs);
    var all := Ups(p.ups) + p.names;
    ReduceNames(cs);
    CleanElements(args);
    ReduceSame(p.ups, p.names);
    FlatEmpty();
    if all == [] {
      EmptyAgain(rooted);
    } else {
      SplitFlat(all);
      assert forall i :: 0 <= i < |all| ==> Clean(all[i]);
      FlatKeeps(all, BACKSLASH);
      NotDot(p, all);
      if rooted {
        RootedAgain(all);
      } else {
        assert Clean(all[0]);
        PlainAgain(all);
      }
    }
  }

  lemma NotDot(p: Path, all: seq<Text>)
    requires all == Ups(p.ups) + p.names && all != [] && forall i :: 0 <= i < |p.names| ==> IsName(p.names[i])
    ensures all != [[DOT]] && Split([DOT]) == [[DOT]]
  {
    SplitOne([DOT]);
    assert all[0] == if p.ups > 0 then [DOT, DOT] else p.names[0];
    assert p.ups == 0 ==> IsName(p.names[0]);
  }

  /** Normalising a normalised path again leaves it alone. */
  lemma Idempotent(args: seq<Text>)
    requires Normal(args).Some?
    ensures Normal([Normal(args).value]) == Normal(args)
  {
    hide Flat, Reduce, Split, Joined, Rooted, Convert;
    var cs, rooted := Elements(args), Rooted(args);
    var p := Reduce(cs);
    var all := Ups(p.ups) + p.names;
    var r := Normal(args).value;
    ElementsFlat(args);
    ReduceNames(cs);
    CleanElements(args);
    ReduceSame(p.ups, p.names);
    if all == [] {
      EmptyAgain(rooted);
    } else {
      SplitFlat(all);
      assert AllClean(all);
      assert forall i :: 0 <= i < |all| ==> Clean(all[i]);
      FlatKeeps(all, BACKSLASH);
      if rooted {
        assert p.ups == 0 && Ups(0) + p.names == p.names;
        RootedAgain(all);
      } else {
        assert Clean(all[0]);
        PlainAgain(all);
      }
    }
  }

  predicate Clean(c: Text) {
    BACKSLASH !in c && Whole(c) && c != []
  }

  lemma CleanElements(args: seq<Text>)
    ensures var p := Reduce(Elements(args)); AllClean(Ups(p.ups) + p.names)
  {
    hide Flat, Reduce, Joined, Split, Convert;
    var s := Convert(Joined(args));
    SplitKeeps(if s == [] then [] else s[1..], BACKSLASH);
    ReduceKeeps(Elements(args), BACKSLASH);
    ReduceNames(Elements(args));
  }

  predicate AllClean(cs: seq<Text>) {
    forall i :: 0 <= i < |cs| ==> Clean(cs[i])
  }

  lemma EmptyAgain(rooted: bool)
    ensures Flat([]) == []
    ensures Elements([[SLASH]]) == [[], []] && Rooted([[SLASH]]) && Reduce([[], []]) == Path(0, [])
    ensures Elements([[DOT]]) == [[DOT]] && !Rooted([[DOT]]) && Reduce([[DOT]]) == Path(0, [])
  {
    var e: Text := [];
    var slash: Text, dot: Text := [SLASH], [DOT];
    Alone(slash);
    Alone(dot);
    assert slash[1..] == [] && dot[1..] == [];
    assert Split(slash) == [e] + Split(e) == [e, e];
    SplitOne(dot);
    assert [e, e][..1] == [e] && [e][..0] == [] && [dot][..0] == [];
  }

  lemma RootedAgain(all: seq<Text>)
    requires all != [] && Flat(all) != [] && Flat(all)[0] == SLASH && Split(Flat(all)[1..]) == all && BACKSLASH !in Flat(all)
    ensures Rooted([Flat(all)]) && Reduce(Elements([Flat(all)])) == Reduce(all)
  {
    hide Flat, Reduce;
    var r := Flat(all);
    Alone(r);
    assert Split(r) == [[]] + all;
    ReduceSkips([], all);
  }

  lemma PlainAgain(all: seq<Text>)
    requires all != [] && Flat(all) != [] && Flat(all)[0] == SLASH && Split(Flat(all)[1..]) == all && BACKSLASH !in Flat(all)
    requires Clean(all[0])
    ensures var r := Flat(all)[1..]; r != [] && r[0] != SLASH && !Rooted([r]) && Elements([r]) == all
  {
    hide Reduce, Flat, Split, Elements;
    var r := Flat(all)[1..];
    FlatFront(all[0], all[1..]);
    assert all == [all[0]] + all[1..];
    Cancel(SLASH, all[0], Flat(all[1..]), r);
    assert r[0] == all[0][0] && all[0][0] in all[0];
    NoneIn(Flat(all), BACKSLASH);
    Alone(r);
  }

  lemma NoneIn(s: Text, x: Byte)
    requires s != [] && x !in s
    ensures x !in s[1..]
  {
  }
}
