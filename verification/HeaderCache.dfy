/** hcache.c: the header cache file, a list of records written as netstrings, and reading it
    back. */
module HeaderCache {

  type Byte = x: int | 0 <= x < 256

  /** C strings. */
  type Text = s: seq<Byte> | forall i :: 0 <= i < |s| ==> s[i] != 0

  const TAB: Byte := 9
  const NL: Byte := 10
  const PLUS: Byte := 43
  const MINUS: Byte := 45

  /** The longest netstring that is read. */
  const MAXLEN := 65536

  /** An unsigned long holds less than this. */
  const ULONG := 0x1_0000_0000_0000_0000

  const VERSION: seq<Byte> := [118, 101, 114, 115, 105, 111, 110, 32, 52]   // version 4
  const HEADER: seq<Byte> := [104, 101, 97, 100, 101, 114]                  // header
  const END: seq<Byte> := [101, 110, 100]                                   // end

  /** HCACHEDATA. */
  datatype Entry = Entry(boundname: Text, time: int, includes: seq<Text>, hdrscan: seq<Text>, age: int)

  // ---- numbers ----

  predicate IsDigit(c: Byte) {
    48 <= c <= 57
  }

  predicate IsSpace(c: Byte) {
    c == 32 || 9 <= c <= 13
  }

  /** A number in decimal. */
  function Dec(n: nat): (r: Text)
    ensures r != [] && forall i :: 0 <= i < |r| ==> IsDigit(r[i])
  {
    if n < 10 then [48 + n] else Dec(n / 10) + [48 + n % 10]
  }

  /** %lu of an int that was cast to unsigned long. */
  function Lu(n: int): Text {
    Dec(n % ULONG)
  }

  /** The value of a string of digits. */
  function Num(ds: seq<Byte>): nat
    requires forall i :: 0 <= i < |ds| ==> IsDigit(ds[i])
  {
    if ds == [] then 0
    else
      assert IsDigit(ds[|ds| - 1]);
      10 * Num(ds[..|ds| - 1]) + (ds[|ds| - 1] as int - 48)
  }

  /** How many digits s begins with, up to max. */
  function Digits(s: seq<Byte>, max: nat): (k: nat)
    ensures k <= |s| && k <= max && forall i :: 0 <= i < k ==> IsDigit(s[i])
    ensures k < |s| && k < max ==> !IsDigit(s[k])
  {
    if s == [] || max == 0 || !IsDigit(s[0]) then 0 else 1 + Digits(s[1..], max - 1)
  }

  function SkipSpace(s: seq<Byte>): (r: seq<Byte>)
    ensures |r| <= |s|
  {
    if s != [] && IsSpace(s[0]) then SkipSpace(s[1..]) else s
  }

  function Sign(s: seq<Byte>): nat {
    if s != [] && (s[0] == PLUS || s[0] == MINUS) then 1 else 0
  }

  datatype Scanned = Unmatched | Number(value: nat, rest: seq<Byte>)

  /** fscanf's " %9lu": spaces, then a number of at most nine characters with its sign. */
  function Scan(s: seq<Byte>): (r: Scanned)
    ensures r.Number? ==> |r.rest| < |s|
  {
    var t := SkipSpace(s);
    var u := t[Sign(t)..];
    var k := Digits(u, 9 - Sign(t));
    if k == 0 then Unmatched
    else
      var v := Num(u[..k]);
      Number(if t[0] == MINUS && v > 0 then (ULONG - v % ULONG) % ULONG else v, u[k..])
  }

  /** atoi */
  function Atoi(s: seq<Byte>): int {
    var t := SkipSpace(s);
    var u := t[Sign(t)..];
    var v: int := Num(u[..Digits(u, |u|)]);
    if t != [] && t[0] == MINUS then -v else v
  }

  // ---- netstrings ----

  /** What is read of b as a C string. */
  function CString(b: seq<Byte>): (r: Text)
    ensures |r| <= |b|
  {
    if b == [] || b[0] == 0 then [] else [b[0]] + CString(b[1..])
  }

  /** buf is the size of the buffer that is kept from one netstring to the next. */
  datatype Net = Bad | Net(str: Text, rest: seq<Byte>, buf: nat)

  function Grown(buf: nat, len: nat): nat {
    if len <= buf then buf else if 2 * buf < len then len else 2 * buf
  }

  /** read_netstring: length, tab, so many bytes, newline. There is no buffer for an empty
      string that comes first. */
  function ReadNet(s: seq<Byte>, buf: nat): (r: Net)
    ensures r.Net? ==> |r.rest| < |s|
  {
    var n := Scan(s);
    if n.Unmatched? || n.rest == [] || n.rest[0] != TAB || n.value > MAXLEN || Grown(buf, n.value) == 0 then Bad
    else
      var t := n.rest[1..];
      if |t| <= n.value || t[n.value] != NL then Bad
      else Net(CString(t[..n.value]), t[n.value + 1..], Grown(buf, n.value))
  }

  /** write_netstring */
  function NetOf(s: Text): seq<Byte> {
    Dec(|s|) + [TAB] + s + [NL]
  }

  datatype Nets = BadNets | Nets(strs: seq<Text>, rest: seq<Byte>, buf: nat)

  /** So many netstrings, one after the other. */
  function ReadNets(s: seq<Byte>, buf: nat, count: int): (r: Nets)
    ensures r.Nets? ==> |r.rest| <= |s|
    decreases |s|
  {
    if count <= 0 then Nets([], s, buf)
    else
      var n := ReadNet(s, buf);
      if n.Bad? then BadNets
      else
        var r := ReadNets(n.rest, n.buf, count - 1);
        if r.BadNets? then BadNets else Nets([n.str] + r.strs, r.rest, r.buf)
  }

  // ---- the file ----

  /** How reading a file ends: at its end mark, at something that is not as it should be, or
      with atoi called on a null pointer, which is not defined. */
  datatype Ending = AtEnd | Invalid | Undefined

  datatype Loaded = Loaded(list: seq<Entry>, ending: Ending)

  datatype Record = NoRecord(ending: Ending) | Record(entry: Entry, rest: seq<Byte>, buf: nat)

  /** A record after its type: its four fields and two lists. */
  function ReadRecord(s: seq<Byte>, buf: nat): (r: Record)
    ensures r.Record? ==> |r.rest| < |s|
  {
    var name := ReadNet(s, buf);
    if name.Bad? then NoRecord(Invalid) else
    var time := ReadNet(name.rest, name.buf);
    if time.Bad? then NoRecord(Invalid) else
    var age := ReadNet(time.rest, time.buf);
    if age.Bad? then NoRecord(Invalid) else
    var count := ReadNet(age.rest, age.buf);
    if count.Bad? then NoRecord(Invalid) else
    var includes := ReadNets(count.rest, count.buf, Atoi(count.str));
    if includes.BadNets? then NoRecord(Invalid) else
    var count2 := ReadNet(includes.rest, includes.buf);
    if count2.Bad? then NoRecord(Undefined) else
    var hdrscan := ReadNets(count2.rest, count2.buf, Atoi(count2.str));
    if hdrscan.BadNets? then NoRecord(Invalid)
    else
      Record(Entry(name.str, Atoi(time.str), includes.strs, hdrscan.strs, Atoi(age.str) + 1), hdrscan.rest, hdrscan.buf)
  }

  predicate HasName(list: seq<Entry>, name: Text) {
    exists i :: 0 <= i < |list| && list[i].boundname == name
  }

  /** The records up to the end mark, each put in front of those before it. */
  function ReadRecords(s: seq<Byte>, buf: nat, list: seq<Entry>): Loaded
    decreases |s|
  {
    var kind := ReadNet(s, buf);
    if kind.Bad? then Loaded(list, Invalid)
    else if kind.str == END then Loaded(list, AtEnd)
    else if kind.str != HEADER then Loaded(list, Invalid)
    else
      var r := ReadRecord(kind.rest, kind.buf);
      if r.NoRecord? then Loaded(list, r.ending)
      else if HasName(list, r.entry.boundname) then Loaded(list, Invalid)
      else ReadRecords(r.rest, r.buf, [r.entry] + list)
  }

  /** What hcache_init makes of a file. */
  function Load(file: seq<Byte>): Loaded {
    var version := ReadNet(file, 0);
    if version.Bad? || version.str != VERSION then Loaded([], Invalid) else ReadRecords(version.rest, version.buf, [])
  }

  /** An entry as hcache_done leaves it. */
  function Aged(e: Entry, maxage: nat): Entry {
    if maxage == 0 then e.(age := 0) else e
  }

  function NetsOf(strs: seq<Text>): seq<Byte> {
    if strs == [] then [] else NetOf(strs[0]) + NetsOf(strs[1..])
  }

  /** What hcache_done writes of an entry. */
  function RecordOf(e: Entry): seq<Byte> {
    NetOf(HEADER) + NetOf(e.boundname) + NetOf(Lu(e.time)) + NetOf(Lu(e.age))
    + NetOf(Lu(|e.includes|)) + NetsOf(e.includes) + NetOf(Lu(|e.hdrscan|)) + NetsOf(e.hdrscan) + [NL]
  }

  /** What it writes of a list, before the end mark. */
  function RecordsOf(list: seq<Entry>, maxage: nat): seq<Byte> {
    if list == [] then []
    else
      var e := Aged(list[0], maxage);
      (if e.age <= maxage then RecordOf(e) else []) + RecordsOf(list[1..], maxage)
  }

  function FileOf(list: seq<Entry>, maxage: nat): seq<Byte> {
    NetOf(VERSION) + RecordsOf(list, maxage) + NetOf(END)
  }

  // ---- the round trip ----

  /** A string short enough to be read back. */
  predicate Short(s: Text) {
    |s| <= MAXLEN
  }

  /** A record that fits the format. */
  predicate Fits(e: Entry) {
    && Short(e.boundname) && 0 <= e.time < 0x8000_0000 && 0 <= e.age < 0x8000_0000
    && |e.includes| < 0x8000_0000 && |e.hdrscan| < 0x8000_0000
    && (forall i :: 0 <= i < |e.includes| ==> Short(e.includes[i]))
    && (forall i :: 0 <= i < |e.hdrscan| ==> Short(e.hdrscan[i]))
  }

  /** What comes back: the entries not too old, last first, each with its age one greater. */
  function Back(list: seq<Entry>, maxage: nat): seq<Entry> {
    if list == [] then []
    else
      var e := Aged(list[0], maxage);
      Back(list[1..], maxage) + if e.age <= maxage then [e.(age := e.age + 1)] else []
  }

  predicate DistinctNames(list: seq<Entry>) {
    forall i, j :: 0 <= i < j < |list| ==> list[i].boundname != list[j].boundname
  }

  lemma {:induction false} NumDec(n: nat)
    ensures Num(Dec(n)) == n
    decreases n
  {
    if n >= 10 {
      NumDec(n / 10);
      assert Dec(n)[..|Dec(n)| - 1] == Dec(n / 10);
    }
  }

  lemma {:induction false} DecLen(n: nat, k: nat, p: nat)
    requires k > 0 && n < p && p == Pow10(k)
    ensures |Dec(n)| <= k
    decreases k
  {
    if n >= 10 {
      DecLen(n / 10, k - 1, Pow10(k - 1));
    }
  }

  function Pow10(k: nat): nat {
    if k == 0 then 1 else 10 * Pow10(k - 1)
  }

  lemma TenDigits(n: nat)
    requires n < 0x8000_0000
    ensures |Dec(n)| <= 10
  {
    assert Pow10(5) == 100000;
    assert Pow10(10) == 10_000_000_000;
    DecLen(n, 10, Pow10(10));
  }

  lemma {:induction false} DigitsAll(ds: seq<Byte>, t: seq<Byte>, max: nat)
    requires |ds| <= max && (forall i :: 0 <= i < |ds| ==> IsDigit(ds[i])) && (t == [] || !IsDigit(t[0]))
    ensures Digits(ds + t, max) == |ds|
    decreases |ds|
  {
    if ds == [] {
      assert ds + t == t;
    } else {
      assert (ds + t)[1..] == ds[1..] + t;
      DigitsAll(ds[1..], t, max - 1);
    }
  }

  /** A number written is a number read. */
  lemma ScanDec(n: nat, t: seq<Byte>)
    requires |Dec(n)| <= 9 && t != [] && !IsDigit(t[0])
    ensures Scan(Dec(n) + t) == Number(n, t)
  {
    var d := Dec(n);
    NumDec(n);
    hide Dec, Num, Digits;
    var s := d + t;
    assert s[0] == d[0] && IsDigit(s[0]);
    assert SkipSpace(s) == s && Sign(s) == 0;
    DigitsAll(d, t, 9);
    assert s[0..] == s && s[..|d|] == d && s[|d|..] == t;
  }

  lemma ScanSpace(s: seq<Byte>)
    ensures Scan([NL] + s) == Scan(s)
  {
    hide Digits, Num, Sign;
    assert ([NL] + s)[1..] == s;
    assert SkipSpace([NL] + s) == SkipSpace(s);
  }

  lemma AtoiDec(n: nat)
    ensures Atoi(Dec(n)) == n
  {
    var s := Dec(n);
    NumDec(n);
    hide Dec, Num, Digits;
    assert IsDigit(s[0]) && SkipSpace(s) == s && Sign(s) == 0;
    assert s + [] == s && s[0..] == s && s[..|s|] == s;
    DigitsAll(s, [], |s|);
  }

  lemma {:induction false} CStringText(s: Text)
    ensures CString(s) == s
    decreases |s|
  {
    if s != [] {
      CStringText(s[1..]);
      assert s == [s[0]] + s[1..];
    }
  }

  /** read_netstring undoes write_netstring, for any string that is not too long, except an
      empty one that is read before any other. */
  lemma NetBack(s: Text, t: seq<Byte>, buf: nat)
    requires Short(s) && (s != [] || buf > 0)
    ensures ReadNet(NetOf(s) + t, buf) == Net(s, t, Grown(buf, |s|))
    ensures ReadNet([NL] + (NetOf(s) + t), buf) == Net(s, t, Grown(buf, |s|))
    ensures Grown(buf, |s|) > 0
  {
    hide Scan, Dec, CString;
    var u := [TAB] + s + [NL] + t;
    assert NetOf(s) + t == Dec(|s|) + u;
    assert Pow10(5) == 100000;
    DecLen(|s|, 5, Pow10(5));
    ScanDec(|s|, u);
    ScanSpace(NetOf(s) + t);
    var v := u[1..];
    assert v == s + [NL] + t && v[..|s|] == s && v[|s|] == NL && v[|s| + 1..] == t;
    CStringText(s);
  }

  /** A number of more than nine digits is cut in two, and no tab follows what is read. */
  lemma LongNumber(n: nat, t: seq<Byte>)
    requires |Dec(n)| > 9
    ensures var r := Scan(Dec(n) + t); r.Number? && r.rest != [] && r.rest[0] != TAB
  {
    var ds := Dec(n);
    var s := ds + t;
    assert IsDigit(s[0]) && SkipSpace(s) == s && Sign(s) == 0 && s[0..] == s;
    assert s == ds[..9] + (ds[9..] + t);
    forall i | 0 <= i < 9
      ensures IsDigit(s[i])
    {
      assert s[i] == ds[i];
    }
    assert Digits(s, 9) == 9;
    assert s[9..][0] == ds[9];
  }

  /** What is written is refused exactly if it is too long, or empty and read first. */
  lemma NetRefused(s: Text, t: seq<Byte>, buf: nat)
    ensures ReadNet(NetOf(s) + t, buf).Bad? <==> |s| > MAXLEN || (s == [] && buf == 0)
  {
    hide Scan, Dec, CString;
    if Short(s) && (s != [] || buf > 0) {
      NetBack(s, t, buf);
    } else {
      var u := [TAB] + s + [NL] + t;
      assert NetOf(s) + t == Dec(|s|) + u;
      if |Dec(|s|)| <= 9 { ScanDec(|s|, u); } else { LongNumber(|s|, u); }
    }
  }

  lemma {:induction false} NetsBack(strs: seq<Text>, t: seq<Byte>, buf: nat) returns (buf': nat)
    requires buf > 0 && forall i :: 0 <= i < |strs| ==> Short(strs[i])
    ensures ReadNets(NetsOf(strs) + t, buf, |strs|) == Nets(strs, t, buf') && buf' > 0
    decreases |strs|
  {
    hide ReadNet, NetOf, Grown;
    if strs == [] {
      assert NetsOf(strs) + t == t;
      buf' := buf;
    } else {
      var rest := NetsOf(strs[1..]) + t;
      Rejoin(NetOf(strs[0]), NetsOf(strs[1..]), t);
      NetBack(strs[0], rest, buf);
      buf' := NetsBack(strs[1..], t, Grown(buf, |strs[0]|));
      assert strs == [strs[0]] + strs[1..];
    }
  }

  /** What follows the type of a record, up to its last newline, and then t. */
  function Fields(e: Entry, t: seq<Byte>): seq<Byte> {
    NetOf(e.boundname) + (NetOf(Lu(e.time)) + (NetOf(Lu(e.age)) + (NetOf(Lu(|e.includes|))
    + (NetsOf(e.includes) + (NetOf(Lu(|e.hdrscan|)) + (NetsOf(e.hdrscan) + t))))))
  }

  lemma RecordFields(e: Entry, t: seq<Byte>)
    ensures RecordOf(e) + t == NetOf(HEADER) + Fields(e, [NL] + t)
  {
    hide NetOf, NetsOf, Lu;
    Nine(NetOf(HEADER), NetOf(e.boundname), NetOf(Lu(e.time)), NetOf(Lu(e.age)), NetOf(Lu(|e.includes|)),
         NetsOf(e.includes), NetOf(Lu(|e.hdrscan|)), NetsOf(e.hdrscan), [NL], t);
  }

  lemma Nine(a: seq<Byte>, b: seq<Byte>, c: seq<Byte>, d: seq<Byte>, e: seq<Byte>, f: seq<Byte>, g: seq<Byte>, h: seq<Byte>, i: seq<Byte>, t: seq<Byte>)
    ensures a + b + c + d + e + f + g + h + i + t == a + (b + (c + (d + (e + (f + (g + (h + (i + t))))))))
  {
    Four(a, b, c, d + (e + (f + (g + (h + (i + t))))));
    Four(a + b + c, d, e, f + (g + (h + (i + t))));
    Four(a + b + c + d + e, f, g, h + (i + t));
    Four(a + b + c + d + e + f + g, h, i, t);
  }

  lemma Four(a: seq<Byte>, b: seq<Byte>, c: seq<Byte>, t: seq<Byte>)
    ensures a + b + c + t == a + (b + (c + t))
  {
  }

  lemma RecordBack(e: Entry, t: seq<Byte>, buf: nat) returns (buf': nat)
    requires Fits(e) && buf > 0
    ensures ReadRecord(Fields(e, t), buf) == Record(e.(age := e.age + 1), t, buf') && buf' > 0
  {
    hide ReadNet, NetOf, ReadNets, NetsOf, Lu, Atoi, Grown;
    var s7 := NetsOf(e.hdrscan) + t;
    var s6 := NetOf(Lu(|e.hdrscan|)) + s7;
    var s5 := NetsOf(e.includes) + s6;
    var s4 := NetOf(Lu(|e.includes|)) + s5;
    var s3 := NetOf(Lu(e.age)) + s4;
    var s2 := NetOf(Lu(e.time)) + s3;
    NetBack(e.boundname, s2, buf);
    var b1 := Grown(buf, |e.boundname|);
    var b2 := NumberBack(e.time, s3, b1);
    var b3 := NumberBack(e.age, s4, b2);
    var b4 := NumberBack(|e.includes|, s5, b3);
    var b5 := NetsBack(e.includes, s6, b4);
    var b6 := NumberBack(|e.hdrscan|, s7, b5);
    buf' := NetsBack(e.hdrscan, t, b6);
  }

  lemma NumberBack(n: nat, t: seq<Byte>, buf: nat) returns (buf': nat)
    requires n < 0x8000_0000 && buf > 0
    ensures ReadNet(NetOf(Lu(n)) + t, buf) == Net(Lu(n), t, buf') && buf' > 0 && Atoi(Lu(n)) == n
  {
    hide ReadNet, NetOf, Dec, Atoi;
    TenDigits(n);
    AtoiDec(n);
    NetBack(Dec(n), t, buf);
    buf' := Grown(buf, |Dec(n)|);
  }

  lemma AgedFits(e: Entry, maxage: nat)
    requires Fits(e)
    ensures Fits(Aged(e, maxage))
  {
  }

  lemma NewName(acc: seq<Entry>, e: Entry, rest: seq<Entry>, list: seq<Entry>)
    requires list != [] && list[0].boundname == e.boundname && rest == list[1..] && DistinctNames(list)
    requires forall i :: 0 <= i < |list| ==> !HasName(acc, list[i].boundname)
    ensures !HasName(acc, e.boundname) && forall i :: 0 <= i < |rest| ==> !HasName([e] + acc, rest[i].boundname)
  {
    forall i | 0 <= i < |rest|
      ensures !HasName([e] + acc, rest[i].boundname)
    {
      assert rest[i] == list[i + 1] && !HasName(acc, list[i + 1].boundname);
      var all := [e] + acc;
      forall k | 0 <= k < |all|
        ensures all[k].boundname != rest[i].boundname
      {
        if k > 0 { assert all[k] == acc[k - 1]; }
      }
    }
  }

  // ---- files that end too soon ----

  /** Part of a netstring is not read as one. */
  lemma NetCut(s: Text, pre: seq<Byte>, m: nat, buf: nat)
    requires Short(s) && m < |NetOf(s)| && (pre == [] || pre == [NL])
    ensures ReadNet(pre + NetOf(s)[..m], buf).Bad?
  {
    hide Dec, ReadNet, Scan;
    var ds, x := Dec(|s|), NetOf(s)[..m];
    assert Pow10(5) == 100000;
    DecLen(|s|, 5, Pow10(5));
    ScanSpace(x);
    assert [] + x == x;
    if m <= |ds| {
      assert x == ds[..m];
      ScanDigits(x);
      NoTab(pre + x, buf);
    } else {
      var t := s[..m - |ds| - 1];
      PartOf(ds, s, m);
      ScanDec(|s|, [TAB] + t);
      TooShort(pre + x, |s|, t, buf);
    }
  }

  lemma NoTab(x: seq<Byte>, buf: nat)
    requires var r := Scan(x); r.Unmatched? || r.rest == []
    ensures ReadNet(x, buf).Bad?
  {
    hide Scan, CString;
  }

  lemma TooShort(x: seq<Byte>, len: nat, t: seq<Byte>, buf: nat)
    requires Scan(x) == Number(len, [TAB] + t) && |t| <= len
    ensures ReadNet(x, buf).Bad?
  {
    hide Scan, CString;
    assert ([TAB] + t)[1..] == t;
  }

  lemma PartOf(ds: Text, s: Text, m: nat)
    requires |ds| < m < |ds| + |s| + 2
    ensures (ds + [TAB] + s + [NL])[..m] == ds + ([TAB] + s[..m - |ds| - 1])
  {
  }

  /** Digits with nothing after them are no number that a tab follows. */
  lemma ScanDigits(ds: seq<Byte>)
    requires |ds| <= 9 && forall i :: 0 <= i < |ds| ==> IsDigit(ds[i])
    ensures var r := Scan(ds); r.Unmatched? || r.rest == []
  {
    if ds != [] {
      assert SkipSpace(ds) == ds && Sign(ds) == 0 && ds[0..] == ds && ds + [] == ds;
      DigitsAll(ds, [], 9);
    }
  }

  lemma Slice(a: seq<Byte>, b: seq<Byte>, m: nat)
    requires m <= |a| + |b|
    ensures (a + b)[..m] == if m < |a| then a[..m] else a + b[..m - |a|]
  {
  }

  /** A netstring with more after it, cut off at m. */
  lemma FieldCut(s: Text, t: seq<Byte>, m: nat, buf: nat)
    requires Short(s) && buf > 0 && m <= |NetOf(s)| + |t|
    ensures var r := ReadNet((NetOf(s) + t)[..m], buf);
      if m < |NetOf(s)| then r.Bad? else r == Net(s, t[..m - |NetOf(s)|], Grown(buf, |s|))
    ensures Grown(buf, |s|) > 0
  {
    hide ReadNet, NetOf;
    Slice(NetOf(s), t, m);
    NetBack(s, [], buf);
    if m < |NetOf(s)| {
      NetCut(s, [], m, buf);
      assert [] + NetOf(s)[..m] == NetOf(s)[..m];
    } else {
      NetBack(s, t[..m - |NetOf(s)|], buf);
    }
  }

  lemma NumberCut(n: nat, t: seq<Byte>, m: nat, buf: nat) returns (buf': nat)
    requires n < 0x8000_0000 && buf > 0 && m <= |NetOf(Lu(n))| + |t|
    ensures var r := ReadNet((NetOf(Lu(n)) + t)[..m], buf);
      if m < |NetOf(Lu(n))| then r.Bad? else r == Net(Lu(n), t[..m - |NetOf(Lu(n))|], buf')
    ensures buf' > 0 && Atoi(Lu(n)) == n
  {
    hide ReadNet, NetOf, Dec, Atoi;
    TenDigits(n);
    AtoiDec(n);
    FieldCut(Dec(n), t, m, buf);
    buf' := Grown(buf, |Dec(n)|);
  }

  lemma {:induction false} NetsCut(strs: seq<Text>, t: seq<Byte>, m: nat, buf: nat) returns (buf': nat)
    requires buf > 0 && m <= |NetsOf(strs)| + |t| && forall i :: 0 <= i < |strs| ==> Short(strs[i])
    ensures var r := ReadNets((NetsOf(strs) + t)[..m], buf, |strs|);
      if m < |NetsOf(strs)| then r.BadNets? else r == Nets(strs, t[..m - |NetsOf(strs)|], buf')
    ensures buf' > 0
    decreases |strs|
  {
    hide ReadNet, NetOf, Grown;
    if strs == [] {
      assert NetsOf(strs) + t == t;
      buf' := buf;
    } else {
      var first, rest := NetOf(strs[0]), NetsOf(strs[1..]);
      Rejoin(first, rest, t);
      FieldCut(strs[0], rest + t, m, buf);
      buf' := 1;
      if m >= |first| {
        buf' := NetsCut(strs[1..], t, m - |first|, Grown(buf, |strs[0]|));
        assert strs == [strs[0]] + strs[1..];
      }
    }
  }

  /** Where in a record the count of its hdrscan list is. */
  function CountFrom(e: Entry): nat {
    |NetOf(HEADER)| + |NetOf(e.boundname)| + |NetOf(Lu(e.time))| + |NetOf(Lu(e.age))| + |NetOf(Lu(|e.includes|))| + |NetsOf(e.includes)|
  }

  function CountTo(e: Entry): nat {
    CountFrom(e) + |NetOf(Lu(|e.hdrscan|))|
  }

  /** How reading part of a record ends. */
  function EndingAt(e: Entry, m: int): Ending {
    if CountFrom(e) <= m < CountTo(e) then Undefined else Invalid
  }

  lemma FieldsCut(e: Entry, m: nat, buf: nat)
    requires Fits(e) && buf > 0 && m < |Fields(e, [])|
    ensures ReadRecord(Fields(e, [])[..m], buf) == NoRecord(EndingAt(e, m + |NetOf(HEADER)|))
  {
    hide ReadNet, NetOf, ReadNets, NetsOf, Lu, Atoi, Grown;
    var s7 := NetsOf(e.hdrscan) + [];
    var s6 := NetOf(Lu(|e.hdrscan|)) + s7;
    var s5 := NetsOf(e.includes) + s6;
    var s4 := NetOf(Lu(|e.includes|)) + s5;
    var s3 := NetOf(Lu(e.age)) + s4;
    var s2 := NetOf(Lu(e.time)) + s3;
    FieldCut(e.boundname, s2, m, buf);
    var m2 := m - |NetOf(e.boundname)|;
    if m2 < 0 { return; }
    var b2 := NumberCut(e.time, s3, m2, Grown(buf, |e.boundname|));
    var m3 := m2 - |NetOf(Lu(e.time))|;
    if m3 < 0 { return; }
    var b3 := NumberCut(e.age, s4, m3, b2);
    var m4 := m3 - |NetOf(Lu(e.age))|;
    if m4 < 0 { return; }
    var b4 := NumberCut(|e.includes|, s5, m4, b3);
    var m5 := m4 - |NetOf(Lu(|e.includes|))|;
    if m5 < 0 { return; }
    var b5 := NetsCut(e.includes, s6, m5, b4);
    var m6 := m5 - |NetsOf(e.includes)|;
    if m6 < 0 { return; }
    var b6 := NumberCut(|e.hdrscan|, s7, m6, b5);
    var m7 := m6 - |NetOf(Lu(|e.hdrscan|))|;
    if m7 < 0 { return; }
    var b7 := NetsCut(e.hdrscan, [], m7, b6);
  }

  /** One record, cut off: what has been read stays, and of its own only its last newline may
      be missing. */
  lemma RecordCut(e: Entry, m: nat, pre: seq<Byte>, buf: nat, acc: seq<Entry>)
    requires Fits(e) && buf > 0 && m < |RecordOf(e)| && (pre == [] || pre == [NL]) && !HasName(acc, e.boundname)
    ensures ReadRecords(pre + RecordOf(e)[..m], buf, acc) ==
      Loaded((if m == |RecordOf(e)| - 1 then [e.(age := e.age + 1)] else []) + acc, EndingAt(e, m))
  {
    hide ReadNet, NetOf, RecordOf, ReadRecord, HasName, Fits, Grown, Fields, EndingAt;
    var H, F := NetOf(HEADER), Fields(e, []);
    RecordIs(e);
    assert [] + acc == acc;
    if m < |H| {
      assert (H + (F + [NL]))[..m] == H[..m];
      NetCut(HEADER, pre, m, buf);
      HeadCut(e, m);
    } else {
      var k := m - |H|;
      Slice(H, F + [NL], m);
      NetBack(HEADER, (F + [NL])[..k], buf);
      assert [] + (H + (F + [NL])[..k]) == H + (F + [NL])[..k];
      var b := Grown(buf, |HEADER|);
      if k < |F| {
        assert (F + [NL])[..k] == F[..k];
        FieldsCut(e, k, b);
        NotAtEnd(e, m);
      } else {
        assert (F + [NL])[..k] == F;
        var b' := RecordBack(e, [], b);
        NothingLeft(b');
        TailCut(e);
      }
    }
  }

  lemma NothingLeft(buf: nat)
    ensures ReadNet([], buf).Bad?
  {
    var s: seq<Byte> := [];
    assert SkipSpace(s) == s && s[0..] == s;
  }

  lemma RecordIs(e: Entry)
    ensures RecordOf(e) == NetOf(HEADER) + (Fields(e, []) + [NL])
    ensures |RecordOf(e)| == |NetOf(HEADER)| + |Fields(e, [])| + 1
  {
    hide NetOf, NetsOf, Lu;
    RecordFields(e, []);
    assert RecordOf(e) + [] == RecordOf(e) && [NL] + [] == [NL];
    Nine([], NetOf(e.boundname), NetOf(Lu(e.time)), NetOf(Lu(e.age)), NetOf(Lu(|e.includes|)),
         NetsOf(e.includes), NetOf(Lu(|e.hdrscan|)), NetsOf(e.hdrscan), [], [NL]);
    assert Fields(e, []) + [NL] == Fields(e, [NL]);
  }

  lemma HeadCut(e: Entry, m: nat)
    requires m < |NetOf(HEADER)|
    ensures EndingAt(e, m) == Invalid
  {
    hide NetOf, NetsOf, Lu;
  }

  lemma NotAtEnd(e: Entry, m: nat)
    ensures EndingAt(e, m) != AtEnd
  {
    hide CountFrom, CountTo;
  }

  /** The count is not at the end of the record. */
  lemma TailCut(e: Entry)
    ensures CountTo(e) < |RecordOf(e)| && EndingAt(e, |RecordOf(e)| - 1) == Invalid
  {
    hide NetOf, NetsOf, Lu;
  }

  predicate Written(e: Entry, maxage: nat) {
    Aged(e, maxage).age <= maxage
  }

  /** How many entries of list reading gets past, and how it ends, when the text of its records
      and the end mark is cut off at m. */
  datatype Cut = Cut(past: nat, ending: Ending)

  function CutAt(list: seq<Entry>, maxage: nat, m: nat): Cut {
    if list == [] then Cut(0, if m < |NetOf(END)| then Invalid else AtEnd)
    else
      var e := Aged(list[0], maxage);
      if e.age <= maxage && m < |RecordOf(e)| then Cut(if m == |RecordOf(e)| - 1 then 1 else 0, EndingAt(e, m))
      else
        var c := CutAt(list[1..], maxage, if e.age <= maxage then m - |RecordOf(e)| else m);
        Cut(c.past + 1, c.ending)
  }

  lemma {:induction false} PastFits(list: seq<Entry>, maxage: nat, m: nat)
    ensures CutAt(list, maxage, m).past <= |list|
    decreases |list|
  {
    hide RecordOf, EndingAt;
    if list != [] {
      var e := Aged(list[0], maxage);
      if !(e.age <= maxage && m < |RecordOf(e)|) { PastFits(list[1..], maxage, if e.age <= maxage then m - |RecordOf(e)| else m); }
    }
  }

  lemma {:induction false} RecordsCut(list: seq<Entry>, maxage: nat, m: nat, pre: seq<Byte>, buf: nat, acc: seq<Entry>)
    requires (forall i :: 0 <= i < |list| ==> Fits(list[i])) && DistinctNames(list) && buf > 0
    requires forall i :: 0 <= i < |list| ==> !HasName(acc, list[i].boundname)
    requires pre == [] || pre == [NL]
    requires m <= |RecordsOf(list, maxage)| + |NetOf(END)|
    ensures var c := CutAt(list, maxage, m);
      c.past <= |list| && ReadRecords(pre + (RecordsOf(list, maxage) + NetOf(END))[..m], buf, acc) == Loaded(Back(list[..c.past], maxage) + acc, c.ending)
    decreases |list|
  {
    hide ReadNet, NetOf, RecordOf, ReadRecord, HasName, Fits, Grown, EndingAt, ReadRecords, RecordsOf, Back, CutAt;
    PastFits(list, maxage, m);
    CutStep(list, maxage, m);
    RecordsStep(list, maxage);
    BackNone(maxage);
    var end := NetOf(END);
    if list == [] {
      assert RecordsOf(list, maxage) + end == end && [] + acc == acc;
      EndCut(m, pre, buf, acc);
    } else {
      var e, rest := Aged(list[0], maxage), list[1..];
      var c := CutAt(list, maxage, m);
      assert Fits(list[0]);
      assert forall i :: 0 <= i < |rest| ==> rest[i] == list[i + 1];
      var t := RecordsOf(rest, maxage) + end;
      if e.age > maxage {
        assert [] + RecordsOf(rest, maxage) == RecordsOf(rest, maxage);
        RecordsCut(rest, maxage, m, pre, buf, acc);
        BackMore(list, c.past, maxage, acc);
        assert [] + acc == acc;
      } else {
        AgedFits(list[0], maxage);
        Rejoin(RecordOf(e), RecordsOf(rest, maxage), end);
        Slice(RecordOf(e), t, m);
        if m < |RecordOf(e)| {
          RecordCut(e, m, pre, buf, acc);
          BackOne(list[0], maxage);
          assert list[..0] == [] && list[..1] == [list[0]];
        } else {
          var entry := e.(age := e.age + 1);
          var k := m - |RecordOf(e)|;
          NewName(acc, entry, rest, list);
          var buf' := RecordRead(e, t[..k], pre, buf, acc);
          RecordsCut(rest, maxage, k, [NL], buf', [entry] + acc);
          BackMore(list, c.past, maxage, acc);
        }
      }
    }
  }

  /** A whole record is read, but for its last newline. */
  lemma RecordRead(e: Entry, t: seq<Byte>, pre: seq<Byte>, buf: nat, acc: seq<Entry>) returns (buf': nat)
    requires Fits(e) && buf > 0 && (pre == [] || pre == [NL]) && !HasName(acc, e.boundname)
    ensures buf' > 0 && ReadRecords(pre + (RecordOf(e) + t), buf, acc) == ReadRecords([NL] + t, buf', [e.(age := e.age + 1)] + acc)
  {
    hide ReadNet, NetOf, RecordOf, ReadRecord, HasName, Fits, Grown;
    RecordFields(e, t);
    var body := Fields(e, [NL] + t);
    NetBack(HEADER, body, buf);
    assert [] + (NetOf(HEADER) + body) == NetOf(HEADER) + body;
    buf' := RecordBack(e, [NL] + t, Grown(buf, |HEADER|));
  }

  lemma EndCut(m: nat, pre: seq<Byte>, buf: nat, acc: seq<Entry>)
    requires m <= |NetOf(END)| && buf > 0 && (pre == [] || pre == [NL])
    ensures ReadRecords(pre + NetOf(END)[..m], buf, acc) == Loaded(acc, if m < |NetOf(END)| then Invalid else AtEnd)
  {
    hide ReadNet, NetOf, ReadRecord, Grown;
    var end := NetOf(END);
    if m < |end| {
      NetCut(END, pre, m, buf);
    } else {
      NetBack(END, [], buf);
      assert end[..m] == end && end + [] == end && [] + end == end;
    }
  }

  lemma RecordsStep(list: seq<Entry>, maxage: nat)
    ensures RecordsOf(list, maxage) == if list == [] then [] else
      (if Aged(list[0], maxage).age <= maxage then RecordOf(Aged(list[0], maxage)) else []) + RecordsOf(list[1..], maxage)
  {
    hide RecordOf;
  }

  lemma BackNone(maxage: nat)
    ensures Back([], maxage) == []
  {
  }

  lemma BackStep(list: seq<Entry>, maxage: nat)
    requires list != []
    ensures var e := Aged(list[0], maxage);
      Back(list, maxage) == Back(list[1..], maxage) + if e.age <= maxage then [e.(age := e.age + 1)] else []
  {
  }

  lemma BackMore(list: seq<Entry>, n: nat, maxage: nat, acc: seq<Entry>)
    requires 0 < n <= |list|
    ensures var e := Aged(list[0], maxage);
      Back(list[..n], maxage) + acc == Back(list[1..][..n - 1], maxage) + ((if e.age <= maxage then [e.(age := e.age + 1)] else []) + acc)
  {
    hide Back;
    BackStep(list[..n], maxage);
    assert list[..n][1..] == list[1..][..n - 1];
  }

  lemma BackOne(e: Entry, maxage: nat)
    requires Aged(e, maxage).age <= maxage
    ensures var e' := Aged(e, maxage); Back([e], maxage) == [e'.(age := e'.age + 1)]
  {
    BackStep([e], maxage);
    BackNone(maxage);
    assert [e][1..] == [];
  }

  /** Where in the file the record of entry k begins, if it is written. */
  function Start(list: seq<Entry>, maxage: nat, k: nat): nat
    requires k <= |list|
  {
    |NetOf(VERSION)| + |RecordsOf(list[..k], maxage)|
  }

  /** The file ends in the count of the hdrscan list of entry k. */
  predicate InCount(list: seq<Entry>, maxage: nat, k: nat, n: nat) {
    && k < |list| && Written(list[k], maxage)
    && Start(list, maxage, k) + CountFrom(Aged(list[k], maxage)) <= n < Start(list, maxage, k) + CountTo(Aged(list[k], maxage))
  }

  /** All of entry k's record is there, but perhaps its last newline. */
  predicate Whole(list: seq<Entry>, maxage: nat, k: nat, n: nat) {
    k < |list| && Start(list, maxage, k + 1) - 1 <= n
  }

  /** Entry k of the rest of a list, in the file of the rest, is entry k + 1 in that of the list. */
  lemma StartShifts(list: seq<Entry>, maxage: nat, k: nat)
    requires k < |list|
    ensures Start(list, maxage, 0) == |NetOf(VERSION)|
    ensures Start(list, maxage, k + 1) == Start(list[1..], maxage, k)
      + if Written(list[0], maxage) then |RecordOf(Aged(list[0], maxage))| else 0
  {
    hide RecordOf, NetOf;
    var some := list[..k + 1];
    assert some[0] == list[0] && some[1..] == list[1..][..k] && list[..0] == [];
    RecordsStep(some, maxage);
    RecordsStep([], maxage);
  }

  /** The same, for what is cut off. */
  lemma CutShifts(list: seq<Entry>, maxage: nat, k: nat, n: nat, n': nat)
    requires k + 1 < |list| && n == n' + if Written(list[0], maxage) then |RecordOf(Aged(list[0], maxage))| else 0
    ensures InCount(list, maxage, k + 1, n) <==> InCount(list[1..], maxage, k, n')
    ensures Whole(list, maxage, k + 1, n) <==> Whole(list[1..], maxage, k, n')
  {
    hide RecordOf, NetOf, Start, CountFrom, CountTo;
    StartShifts(list, maxage, k);
    StartShifts(list, maxage, k + 1);
    assert list[1..][k] == list[k + 1];
  }

  /** A cut in the first record is in no later one. */
  lemma CutFirst(list: seq<Entry>, maxage: nat, k: nat, n: nat)
    requires k + 1 < |list| && Written(list[0], maxage) && n < |NetOf(VERSION)| + |RecordOf(Aged(list[0], maxage))|
    ensures !InCount(list, maxage, k + 1, n) && (Written(list[k + 1], maxage) ==> !Whole(list, maxage, k + 1, n))
  {
    hide RecordOf, NetOf, CountFrom, CountTo, RecordsOf;
    StartShifts(list, maxage, k);
    StartShifts(list, maxage, k + 1);
    if Written(list[k + 1], maxage) {
      LastCounts(list[1..], maxage, k);
    }
  }

  /** A written record makes the file longer. */
  lemma {:induction false} LastCounts(list: seq<Entry>, maxage: nat, k: nat)
    requires k < |list| && Written(list[k], maxage)
    ensures Start(list, maxage, k + 1) > |NetOf(VERSION)|
    decreases k
  {
    hide NetOf, RecordsOf, Start;
    StartShifts(list, maxage, k);
    RecordIs(Aged(list[0], maxage));
    if k == 0 {
      StartAtLeast(list[1..], maxage, 0);
    } else {
      assert list[1..][k - 1] == list[k];
      LastCounts(list[1..], maxage, k - 1);
    }
  }

  lemma StartAtLeast(list: seq<Entry>, maxage: nat, k: nat)
    requires k <= |list|
    ensures Start(list, maxage, k) >= |NetOf(VERSION)|
  {
    hide NetOf, RecordsOf;
  }

  lemma {:induction false} CutMeans(list: seq<Entry>, maxage: nat, m: nat)
    ensures var c, n := CutAt(list, maxage, m), m + |NetOf(VERSION)|;
      && c.past <= |list|
      && (c.ending == Undefined <==> exists k :: InCount(list, maxage, k, n))
      && (c.ending == AtEnd <==> m >= |RecordsOf(list, maxage)| + |NetOf(END)|)
      && (c.ending == AtEnd ==> c.past == |list|)
      && (forall k :: 0 <= k < |list| && Written(list[k], maxage) ==> (k < c.past <==> Whole(list, maxage, k, n)))
    decreases |list|
  {
    hide RecordOf, NetOf, EndingAt, RecordsOf, Start, Whole, InCount, CutAt;
    var c, n := CutAt(list, maxage, m), m + |NetOf(VERSION)|;
    CutStep(list, maxage, m);
    RecordsStep(list, maxage);
    if list == [] {
      NoCount(list, maxage, n);
    } else {
      var e, rest := Aged(list[0], maxage), list[1..];
      if e.age <= maxage && m < |RecordOf(e)| {
        FirstCut(list, maxage, m);
        forall k | 0 < k < |list|
          ensures !InCount(list, maxage, k, n) && (Written(list[k], maxage) ==> !Whole(list, maxage, k, n))
        {
          CutFirst(list, maxage, k - 1, n);
        }
        OnlyFirst(list, maxage, n);
      } else {
        var m' := if e.age <= maxage then m - |RecordOf(e)| else m;
        CutMeans(rest, maxage, m');
        FirstWhole(list, maxage, m);
        forall k | 0 < k < |list|
          ensures InCount(list, maxage, k, n) <==> InCount(rest, maxage, k - 1, m' + |NetOf(VERSION)|)
          ensures Whole(list, maxage, k, n) <==> Whole(rest, maxage, k - 1, m' + |NetOf(VERSION)|)
        {
          CutShifts(list, maxage, k - 1, n, m' + |NetOf(VERSION)|);
        }
        CountShifts(list, maxage, n, m' + |NetOf(VERSION)|);
        WholeShifts(list, maxage, n, m' + |NetOf(VERSION)|, c.past);
      }
    }
  }

  lemma CutStep(list: seq<Entry>, maxage: nat, m: nat)
    ensures CutAt(list, maxage, m) ==
      if list == [] then Cut(0, if m < |NetOf(END)| then Invalid else AtEnd)
      else
        var e := Aged(list[0], maxage);
        if e.age <= maxage && m < |RecordOf(e)| then Cut(if m == |RecordOf(e)| - 1 then 1 else 0, EndingAt(e, m))
        else
          var c := CutAt(list[1..], maxage, if e.age <= maxage then m - |RecordOf(e)| else m);
          Cut(c.past + 1, c.ending)
  {
    hide NetOf, RecordOf, EndingAt;
  }

  lemma NoCount(list: seq<Entry>, maxage: nat, n: nat)
    requires list == []
    ensures forall k :: !InCount(list, maxage, k, n)
  {
  }

  /** A cut in the record of the first entry. */
  lemma FirstCut(list: seq<Entry>, maxage: nat, m: nat)
    requires list != [] && Written(list[0], maxage) && m < |RecordOf(Aged(list[0], maxage))|
    ensures var e, n := Aged(list[0], maxage), m + |NetOf(VERSION)|;
      && (InCount(list, maxage, 0, n) <==> EndingAt(e, m) == Undefined) && EndingAt(e, m) != AtEnd
      && (Whole(list, maxage, 0, n) <==> m == |RecordOf(e)| - 1)
      && m < |RecordsOf(list, maxage)|
  {
    hide RecordOf, NetOf, CountFrom, CountTo, Start;
    StartShifts(list, maxage, 0);
    NoneWritten(list[1..], maxage);
    RecordsStep(list, maxage);
  }

  lemma NoneWritten(list: seq<Entry>, maxage: nat)
    ensures Start(list, maxage, 0) == |NetOf(VERSION)|
  {
    hide NetOf;
    assert list[..0] == [];
  }

  /** A cut after it. */
  lemma FirstWhole(list: seq<Entry>, maxage: nat, m: nat)
    requires list != [] && (Written(list[0], maxage) ==> m >= |RecordOf(Aged(list[0], maxage))|)
    ensures var n := m + |NetOf(VERSION)|; !InCount(list, maxage, 0, n) && Whole(list, maxage, 0, n)
  {
    hide RecordOf, NetOf, CountFrom, CountTo, Start;
    StartShifts(list, maxage, 0);
    NoneWritten(list[1..], maxage);
    TailCut(Aged(list[0], maxage));
  }

  lemma OnlyFirst(list: seq<Entry>, maxage: nat, n: nat)
    requires forall k :: 0 < k < |list| ==> !InCount(list, maxage, k, n)
    ensures (exists k :: InCount(list, maxage, k, n)) <==> InCount(list, maxage, 0, n)
  {
    hide Start;
  }

  lemma CountShifts(list: seq<Entry>, maxage: nat, n: nat, n': nat)
    requires list != [] && !InCount(list, maxage, 0, n)
    requires forall k :: 0 < k < |list| ==> (InCount(list, maxage, k, n) <==> InCount(list[1..], maxage, k - 1, n'))
    ensures (exists k :: InCount(list, maxage, k, n)) <==> exists k :: InCount(list[1..], maxage, k, n')
  {
    hide Start;
    if k: nat :| InCount(list[1..], maxage, k, n') {
      assert InCount(list, maxage, k + 1, n);
    }
  }

  lemma WholeShifts(list: seq<Entry>, maxage: nat, n: nat, n': nat, past: nat)
    requires list != [] && past > 0 && Whole(list, maxage, 0, n)
    requires forall k :: 0 < k < |list| ==> (Whole(list, maxage, k, n) <==> Whole(list[1..], maxage, k - 1, n'))
    requires forall k :: 0 <= k < |list| - 1 && Written(list[1..][k], maxage) ==> (k < past - 1 <==> Whole(list[1..], maxage, k, n'))
    ensures forall k :: 0 <= k < |list| && Written(list[k], maxage) ==> (k < past <==> Whole(list, maxage, k, n))
  {
    hide Whole, Written;
    forall k | 0 <= k < |list| && Written(list[k], maxage)
      ensures k < past <==> Whole(list, maxage, k, n)
    {
      if k > 0 { assert list[1..][k - 1] == list[k]; }
    }
  }

  /** Reading a written file that ends too soon: atoi is called on a null pointer if and only if
      the file ends in the count of a hdrscan list. Otherwise it ends at the end mark, if the
      file is all there, or else as invalid. The entries whose records are whole, but perhaps
      for the last newline, are kept. */
  lemma CutFile(list: seq<Entry>, maxage: nat, n: nat) returns (past: nat)
    requires (forall i :: 0 <= i < |list| ==> Fits(list[i])) && DistinctNames(list) && n <= |FileOf(list, maxage)|
    ensures past <= |list| && Load(FileOf(list, maxage)[..n]).list == Back(list[..past], maxage)
    ensures var ending := Load(FileOf(list, maxage)[..n]).ending;
      && (ending == Undefined <==> exists k :: InCount(list, maxage, k, n))
      && (ending == AtEnd <==> n == |FileOf(list, maxage)|)
      && (ending == AtEnd ==> past == |list|)
    ensures forall k :: 0 <= k < |list| && Written(list[k], maxage) ==> (k < past <==> Whole(list, maxage, k, n))
  {
    hide ReadNet, NetOf, RecordsOf, ReadRecords, Fits, Back, CutAt, InCount, Whole, Grown;
    var V, body := NetOf(VERSION), RecordsOf(list, maxage) + NetOf(END);
    Rejoin(V, RecordsOf(list, maxage), NetOf(END));
    Slice(V, body, n);
    if n < |V| {
      NetCut(VERSION, [], n, 0);
      assert [] + V[..n] == V[..n];
      past := Nothing(list, maxage, n);
    } else {
      var m := n - |V|;
      NetBack(VERSION, body[..m], 0);
      RecordsCut(list, maxage, m, [], Grown(0, |VERSION|), []);
      CutMeans(list, maxage, m);
      past := CutAt(list, maxage, m).past;
      assert [] + body[..m] == body[..m] && Back(list[..past], maxage) + [] == Back(list[..past], maxage);
    }
  }

  /** A cut in the version is in no record. */
  lemma {:induction false} Nothing(list: seq<Entry>, maxage: nat, n: nat) returns (past: nat)
    requires n < |NetOf(VERSION)|
    ensures past <= |list| && Back(list[..past], maxage) == []
    ensures forall k :: !InCount(list, maxage, k, n)
    ensures forall k :: 0 <= k < |list| && Written(list[k], maxage) ==> (k < past <==> Whole(list, maxage, k, n))
  {
    hide NetOf, RecordsOf, Back, CountFrom, CountTo, Start;
    past := 0;
    assert list[..0] == [];
    BackNone(maxage);
    forall k: nat | k < |list|
      ensures !InCount(list, maxage, k, n) && (Written(list[k], maxage) ==> !Whole(list, maxage, k, n))
    {
      StartAtLeast(list, maxage, k);
      if Written(list[k], maxage) { LastCounts(list, maxage, k); }
    }
  }

  /** Reading the file that a list was written to gives the list's entries back, last first,
      except those older than maxage; each is one older, or, with a maxage of 0, starts anew. */
  lemma RoundTrip(list: seq<Entry>, maxage: nat)
    requires (forall i :: 0 <= i < |list| ==> Fits(list[i])) && DistinctNames(list)
    ensures Load(FileOf(list, maxage)) == Loaded(Back(list, maxage), AtEnd)
  {
    hide FileOf, Load, Fits, Back, InCount, Whole;
    var file := FileOf(list, maxage);
    var past := CutFile(list, maxage, |file|);
    assert file[..|file|] == file && list[..|list|] == list;
  }

  /** A file that ends where the count of a hdrscan list should be: version, header, a name,
      time 1, age 0 and no includes. */
  lemma EndsUndefined()
    ensures var file := NetOf(VERSION) + (NetOf(HEADER) + (NetOf([97]) + (NetOf([49]) + (NetOf([48]) + NetOf([48])))));
      Load(file) == Loaded([], Undefined)
  {
    hide ReadNet, NetOf, Grown;
    var e: Entry := Entry([97], 1, [], [], 0);
    assert Lu(1) == [49] && Lu(0) == [48];
    var a, t, z := NetOf([97]), NetOf([49]), NetOf([48]);
    NetBack(VERSION, NetOf(HEADER) + (a + (t + (z + z))), 0);
    var b := Grown(0, |VERSION|);
    NetBack(HEADER, a + (t + (z + z)), b);
    var b1 := Grown(b, |HEADER|);
    NetBack([97], t + (z + z), b1);
    var b2 := NumberBack(1, z + z, Grown(b1, 1));
    var b3 := NumberBack(0, z, b2);
    assert z + [] == z;
    var b4 := NumberBack(0, [], b3);
    NothingLeft(b4);
  }

  // ---- files that this version has not written ----

  /** Whole records that have been written are read, whatever comes after them. */
  lemma {:induction false} RecordsThen(list: seq<Entry>, maxage: nat, t: seq<Byte>, pre: seq<Byte>, buf: nat, acc: seq<Entry>)
      returns (pre': seq<Byte>, buf': nat)
    requires (forall i :: 0 <= i < |list| ==> Fits(list[i])) && DistinctNames(list) && buf > 0 && (pre == [] || pre == [NL])
    requires forall i :: 0 <= i < |list| ==> !HasName(acc, list[i].boundname)
    ensures buf' > 0 && (pre' == [] || pre' == [NL])
    ensures ReadRecords(pre + (RecordsOf(list, maxage) + t), buf, acc) == ReadRecords(pre' + t, buf', Back(list, maxage) + acc)
    decreases |list|
  {
    hide RecordOf, HasName, Fits, ReadRecords, RecordsOf, Back;
    RecordsStep(list, maxage);
    if list == [] {
      BackNone(maxage);
      assert [] + t == t && [] + acc == acc;
      pre', buf' := pre, buf;
    } else {
      var e, rest := Aged(list[0], maxage), list[1..];
      assert Fits(list[0]);
      assert forall i :: 0 <= i < |rest| ==> rest[i] == list[i + 1];
      assert list[..|list|] == list && rest[..|rest|] == rest;
      BackMore(list, |list|, maxage, acc);
      if e.age > maxage {
        assert [] + RecordsOf(rest, maxage) == RecordsOf(rest, maxage) && [] + acc == acc;
        pre', buf' := RecordsThen(rest, maxage, t, pre, buf, acc);
      } else {
        var entry := e.(age := e.age + 1);
        AgedFits(list[0], maxage);
        NewName(acc, entry, rest, list);
        Rejoin(RecordOf(e), RecordsOf(rest, maxage), t);
        var b := RecordRead(e, RecordsOf(rest, maxage) + t, pre, buf, acc);
        pre', buf' := RecordsThen(rest, maxage, t, [NL], b, [entry] + acc);
      }
    }
  }

  /** The same from the start of the file. */
  lemma FileThen(list: seq<Entry>, maxage: nat, t: seq<Byte>) returns (pre: seq<Byte>, buf: nat)
    requires (forall i :: 0 <= i < |list| ==> Fits(list[i])) && DistinctNames(list)
    ensures buf > 0 && (pre == [] || pre == [NL])
    ensures Load(NetOf(VERSION) + (RecordsOf(list, maxage) + t)) == ReadRecords(pre + t, buf, Back(list, maxage))
  {
    hide ReadNet, NetOf, RecordsOf, Back, ReadRecords, Fits, DistinctNames, Grown;
    NetBack(VERSION, RecordsOf(list, maxage) + t, 0);
    pre, buf := RecordsThen(list, maxage, t, [], Grown(0, |VERSION|), []);
    assert [] + (RecordsOf(list, maxage) + t) == RecordsOf(list, maxage) + t;
    assert Back(list, maxage) + [] == Back(list, maxage);
  }

  /** Nothing is taken from a file whose first netstring is not this version, or that does not
      begin with a netstring at all. */
  lemma OtherVersion(v: Text, rest: seq<Byte>, file: seq<Byte>)
    ensures Short(v) && v != VERSION ==> Load(NetOf(v) + rest) == Loaded([], Invalid)
    ensures ReadNet(file, 0).Bad? ==> Load(file) == Loaded([], Invalid)
  {
    hide ReadNet, NetOf, ReadRecords;
    if Short(v) {
      if v == [] { NetRefused(v, rest, 0); } else { NetBack(v, rest, 0); }
    }
  }

  /** A record type other than the header and the end mark ends the reading; the entries before
      it are kept. So does what is no netstring. */
  lemma OtherRecord(list: seq<Entry>, maxage: nat, kind: Text, rest: seq<Byte>)
    requires (forall i :: 0 <= i < |list| ==> Fits(list[i])) && DistinctNames(list)
    requires Short(kind) && kind != HEADER && kind != END
    ensures Load(NetOf(VERSION) + (RecordsOf(list, maxage) + (NetOf(kind) + rest))) == Loaded(Back(list, maxage), Invalid)
  {
    hide ReadNet, NetOf, RecordsOf, Back, Load, Fits, DistinctNames, Grown;
    var pre, buf := FileThen(list, maxage, NetOf(kind) + rest);
    NetBack(kind, rest, buf);
    assert [] + (NetOf(kind) + rest) == NetOf(kind) + rest;
  }

  /** So does a record for a name that has been read already. */
  lemma SameName(list: seq<Entry>, maxage: nat, e: Entry, rest: seq<Byte>)
    requires (forall i :: 0 <= i < |list| ==> Fits(list[i])) && DistinctNames(list)
    requires Fits(e) && HasName(Back(list, maxage), e.boundname)
    ensures Load(NetOf(VERSION) + (RecordsOf(list, maxage) + (RecordOf(e) + rest))) == Loaded(Back(list, maxage), Invalid)
  {
    hide ReadNet, NetOf, RecordsOf, RecordOf, ReadRecord, Back, Load, Fits, DistinctNames, Grown, HasName;
    var pre, buf := FileThen(list, maxage, RecordOf(e) + rest);
    RecordFields(e, rest);
    var body := Fields(e, [NL] + rest);
    NetBack(HEADER, body, buf);
    assert [] + (NetOf(HEADER) + body) == NetOf(HEADER) + body;
    var b := RecordBack(e, [NL] + rest, Grown(buf, |HEADER|));
  }

  /** What comes back: each entry, unless it is too old, one older; with a maxage of 0, every
      entry, one old. */
  lemma {:induction false} BackHas(list: seq<Entry>, maxage: nat, e: Entry)
    ensures e in Back(list, maxage) <==>
      exists i :: 0 <= i < |list| && ComesBack(list[i], maxage, e)
    decreases |list|
  {
    hide Back;
    if list == [] {
      BackNone(maxage);
    } else {
      BackStep(list, maxage);
      var rest := list[1..];
      BackHas(rest, maxage, e);
      if e in Back(rest, maxage) {
        var i :| 0 <= i < |rest| && ComesBack(rest[i], maxage, e);
        assert ComesBack(list[i + 1], maxage, e);
      }
      if i :| 0 <= i < |list| && ComesBack(list[i], maxage, e) {
        if i > 0 { assert ComesBack(rest[i - 1], maxage, e); }
      }
      assert ComesBack(list[0], maxage, e) <==> Aged(list[0], maxage).age <= maxage && e == Aged(list[0], maxage).(age := Aged(list[0], maxage).age + 1);
    }
  }

  predicate ComesBack(e: Entry, maxage: nat, e': Entry) {
    if maxage == 0 then e' == e.(age := 1) else e.age <= maxage && e' == e.(age := e.age + 1)
  }

  /** A string of fewer than ten characters, as it is written. */
  lemma LineOf(s: Text)
    requires |s| < 10
    ensures NetOf(s) == [48 + |s|, TAB] + s + [NL]
  {
    assert [48 + |s|] + [TAB] == [48 + |s|, TAB];
  }

  lemma OneDigit(n: nat)
    requires n < 10
    ensures Lu(n) == [48 + n]
  {
  }

  /** A record, each string with its length before it: name, time, age, and two counted lists. */
  const RECORD: seq<Byte> :=
    [54, TAB] + HEADER + [NL] + [51, TAB, 97, 46, 99, NL] + [49, TAB, 53, NL] + [49, TAB, 51, NL]
    + [49, TAB, 49, NL] + [51, TAB, 98, 46, 104, NL] + [49, TAB, 48, NL] + [NL]

  lemma WrittenRecord(e: Entry)
    requires e == Entry([97, 46, 99], 5, [[98, 46, 104]], [], 3)
    ensures RecordOf(e) == RECORD
  {
    hide NetOf, Lu, NetsOf;
    OneDigit(5);
    OneDigit(3);
    OneDigit(1);
    OneDigit(0);
    LineOf(HEADER);
    LineOf([97, 46, 99]);
    LineOf([98, 46, 104]);
    LineOf([53]);
    LineOf([51]);
    LineOf([49]);
    LineOf([48]);
    NothingOf(e);
    var h, name, time, age, one, inc, none := NetOf(HEADER), NetOf([97, 46, 99]), NetOf([53]), NetOf([51]), NetOf([49]), NetOf([98, 46, 104]), NetOf([48]);
    assert name == [51, TAB, 97, 46, 99, NL] && inc == [51, TAB, 98, 46, 104, NL];
    assert time == [49, TAB, 53, NL] && age == [49, TAB, 51, NL] && one == [49, TAB, 49, NL] && none == [49, TAB, 48, NL];
    assert RecordOf(e) == h + name + time + age + one + inc + none + [] + [NL];
    assert h + name + time + age + one + inc + none + [] == h + name + time + age + one + inc + none;
  }

  /** The bytes of a file with one record, a.c of time 5 and age 3 that includes b.h. */
  lemma WrittenFile()
    ensures FileOf([Entry([97, 46, 99], 5, [[98, 46, 104]], [], 3)], 100) ==
      [57, TAB] + VERSION + [NL] + RECORD + ([51, TAB] + END + [NL])
  {
    hide NetOf, RecordOf, RecordsOf;
    var e := Entry([97, 46, 99], 5, [[98, 46, 104]], [], 3);
    WrittenRecord(e);
    LineOf(VERSION);
    LineOf(END);
    RecordsStep([e], 100);
    NothingOf(e);
    assert [e][1..] == [] && RecordOf(e) + [] == RecordOf(e);
  }

  lemma NothingOf(e: Entry)
    ensures RecordsOf([], 100) == [] && NetsOf([]) == [] && (|e.includes| == 1 ==> NetsOf(e.includes) == NetOf(e.includes[0]))
  {
    if |e.includes| == 1 {
      assert e.includes[1..] == [] && NetOf(e.includes[0]) + [] == NetOf(e.includes[0]);
    }
  }

  // ---- the functions as they run ----

  datatype Read = Null | Str(str: Text)

  /** What is left of a list that is being read, put after what has been read of it. */
  function After(l: seq<Text>, r: Nets): Nets {
    if r.BadNets? then BadNets else Nets(l + r.strs, r.rest, r.buf)
  }

  lemma AfterOne(l: seq<Text>, s: Text, r: Nets)
    ensures After(l, After([s], r)) == After(l + [s], r)
  {
    if r.Nets? { assert l + ([s] + r.strs) == l + [s] + r.strs; }
  }

  lemma Rejoin(out: seq<Byte>, a: seq<Byte>, b: seq<Byte>)
    ensures out + a + b == out + (a + b)
  {
  }

  class Cache {
    /** hcachelist, its head first. */
    var list: seq<Entry>
    /** The names in hcachehash. */
    var names: set<Text>
    /** What is left to be read, and read_netstring's buf_len. */
    var input: seq<Byte>
    var bufLen: nat
    /** What has been written. */
    var output: seq<Byte>

    constructor ()
      ensures list == [] && names == {} && bufLen == 0
    {
      list, names, input, bufLen, output := [], {}, [], 0, [];
    }

    method ReadNetstring() returns (r: Read)
      modifies this`input, this`bufLen
      ensures var n := ReadNet(old(input), old(bufLen));
        if n.Bad? then r == Null else r == Str(n.str) && input == n.rest && bufLen == n.buf
    {
      var n := Scan(input);
      if n.Unmatched? {
        return Null;
      }
      input := n.rest;
      if input == [] || input[0] != TAB {
        return Null;
      }
      input := input[1..];
      var len := n.value;
      if len > MAXLEN {
        return Null;
      }
      if len > bufLen {
        var newLen := bufLen * 2;
        if newLen < len {
          newLen := len;
        }
        bufLen := newLen;
      }
      if bufLen == 0 {
        return Null;
      }
      if |input| < len {
        return Null;
      }
      var buf := input[..len];
      input := input[len..];
      if input == [] || input[0] != NL {
        return Null;
      }
      input := input[1..];
      return Str(CString(buf));
    }

    /** The loops that read the includes and the hdrscan list. */
    method ReadList(count: int) returns (ok: bool, l: seq<Text>)
      modifies this`input, this`bufLen
      ensures var r := ReadNets(old(input), old(bufLen), count);
        if r.BadNets? then !ok else ok && l == r.strs && input == r.rest && bufLen == r.buf
    {
      hide ReadNet;
      l := [];
      var i := 0;
      while i < count
        invariant 0 <= i && (i <= count || i == 0)
        invariant ReadNets(old(input), old(bufLen), count) == After(l, ReadNets(input, bufLen, count - i))
      {
        ghost var r := ReadNet(input, bufLen);
        ghost var l0 := l;
        ghost var more := if r.Bad? then BadNets else ReadNets(r.rest, r.buf, count - i - 1);
        var s := ReadNetstring();
        if s == Null {
          return false, [];
        }
        l := l + [s.str];
        i := i + 1;
        AfterOne(l0, s.str, more);
      }
      ok := true;
    }

    /** One turn of the loop, from the record's type on. */
    method ReadOne() returns (c: Entry, ending: Ending)
      modifies this`input, this`bufLen
      ensures var r := ReadRecord(old(input), old(bufLen));
        if r.NoRecord? then ending == r.ending && ending != AtEnd
        else ending == AtEnd && c == r.entry && input == r.rest && bufLen == r.buf
    {
      hide ReadNet, ReadNets, Atoi;
      c, ending := Entry([], 0, [], [], 0), Invalid;
      var boundname := ReadNetstring();
      var timeStr := ReadNetstring();
      var ageStr := ReadNetstring();
      var includesCountStr := ReadNetstring();
      if boundname == Null || timeStr == Null || ageStr == Null || includesCountStr == Null {
        return;
      }
      var ok, includes := ReadList(Atoi(includesCountStr.str));
      if !ok {
        return;
      }
      var hdrscanCountStr := ReadNetstring();
      if includesCountStr == Null {
        return;
      }
      if hdrscanCountStr == Null {
        // The test above looks at the other count, so atoi gets a null pointer here.
        ending := Undefined;
        return;
      }
      var ok', hdrscan := ReadList(Atoi(hdrscanCountStr.str));
      if !ok' {
        return;
      }
      c := Entry(boundname.str, Atoi(timeStr.str), includes, hdrscan, Atoi(ageStr.str) + 1);
      ending := AtEnd;
    }

    /** hcache_init, once the file is open. */
    method HcacheInit(file: seq<Byte>) returns (ending: Ending)
      requires list == [] && names == {} && bufLen == 0
      modifies this`list, this`names, this`input, this`bufLen
      ensures Loaded(list, ending) == Load(file)
      ensures forall name: Text :: name in names <==> HasName(list, name)
    {
      hide ReadNet, ReadRecord, HasName;
      NoNames();
      input := file;
      var version := ReadNetstring();
      if version == Null || version.str != VERSION {
        return Invalid;
      }
      while true
        invariant ReadRecords(input, bufLen, list) == Load(file)
        invariant forall name: Text :: name in names <==> HasName(list, name)
        decreases |input|
      {
        var recordType := ReadNetstring();
        if recordType == Null {
          return Invalid;
        }
        if recordType.str == END {
          return AtEnd;
        }
        if recordType.str != HEADER {
          return Invalid;
        }
        var c, how := ReadOne();
        if how != AtEnd {
          return how;
        }
        if c.boundname in names {
          return Invalid;
        }
        OneMoreName(list, c);
        names := names + {c.boundname};
        list := [c] + list;
      }
    }

    method WriteNetstring(s: Text)
      modifies this`output
      ensures output == old(output) + NetOf(s)
    {
      output := output + (Dec(|s|) + [TAB] + s + [NL]);
    }

    /** The loops that write the includes and the hdrscan list. */
    method WriteList(strs: seq<Text>)
      modifies this`output
      ensures output == old(output) + NetsOf(strs)
    {
      hide NetOf;
      var l := strs;
      while l != []
        invariant output + NetsOf(l) == old(output) + NetsOf(strs)
        decreases |l|
      {
        Rejoin(output, NetOf(l[0]), NetsOf(l[1..]));
        WriteNetstring(l[0]);
        l := l[1..];
      }
    }

    method WriteOne(c: Entry)
      modifies this`output
      ensures output == old(output) + RecordOf(c)
    {
      hide NetOf, NetsOf, Lu;
      var includesCountStr, hdrscanCountStr := Lu(|c.includes|), Lu(|c.hdrscan|);
      var timeStr, ageStr := Lu(c.time), Lu(c.age);
      WriteNetstring(HEADER);
      WriteNetstring(c.boundname);
      WriteNetstring(timeStr);
      WriteNetstring(ageStr);
      WriteNetstring(includesCountStr);
      WriteList(c.includes);
      WriteNetstring(hdrscanCountStr);
      WriteList(c.hdrscan);
      output := output + [NL];
      ghost var a, b, d := NetOf(HEADER), NetOf(c.boundname), NetOf(timeStr);
      ghost var e, f, g := NetOf(ageStr), NetOf(includesCountStr), NetsOf(c.includes);
      ghost var h, i := NetOf(hdrscanCountStr), NetsOf(c.hdrscan);
      NineAfter(old(output), a, b, d, e, f, g, h, i, [NL]);
    }

    /** hcache_done, once the file is open. With a maxage of 0 it also resets the ages in the
        list itself. */
    method HcacheDone(maxage: nat)
      modifies this`output, this`list
      ensures output == FileOf(old(list), maxage)
      ensures |list| == |old(list)| && forall i :: 0 <= i < |list| ==> list[i] == Aged(old(list)[i], maxage)
    {
      hide NetOf, RecordOf;
      output := [];
      WriteNetstring(VERSION);
      assert output == NetOf(VERSION);
      var i := 0;
      while i < |list|
        invariant 0 <= i <= |list| == |old(list)|
        invariant forall k :: 0 <= k < i ==> list[k] == Aged(old(list)[k], maxage)
        invariant forall k :: i <= k < |list| ==> list[k] == old(list)[k]
        invariant output + RecordsOf(old(list)[i..], maxage) == NetOf(VERSION) + RecordsOf(old(list), maxage)
      {
        ghost var rest := old(list)[i..];
        assert rest[0] == list[i] && rest[1..] == old(list)[i + 1..];
        ghost var out := output;
        if maxage == 0 {
          list := list[i := list[i].(age := 0)];
        } else if list[i].age > maxage {
          assert [] + RecordsOf(rest[1..], maxage) == RecordsOf(rest[1..], maxage);
          i := i + 1;
          continue;
        }
        Rejoin(out, RecordOf(list[i]), RecordsOf(rest[1..], maxage));
        WriteOne(list[i]);
        i := i + 1;
      }
      WriteNetstring(END);
    }
  }

  lemma NoNames()
    ensures forall name: Text :: !HasName([], name)
  {
  }

  lemma OneMoreName(list: seq<Entry>, c: Entry)
    ensures forall name: Text :: HasName([c] + list, name) <==> name == c.boundname || HasName(list, name)
  {
    forall name: Text
      ensures HasName([c] + list, name) <==> name == c.boundname || HasName(list, name)
    {
      var all := [c] + list;
      if HasName(list, name) {
        var i :| 0 <= i < |list| && list[i].boundname == name;
        assert all[i + 1].boundname == name;
      }
      assert all[0].boundname == c.boundname;
    }
  }

  lemma NineAfter(o: seq<Byte>, a: seq<Byte>, b: seq<Byte>, c: seq<Byte>, d: seq<Byte>, e: seq<Byte>, f: seq<Byte>, g: seq<Byte>, h: seq<Byte>, i: seq<Byte>)
    ensures o + a + b + c + d + e + f + g + h + i == o + (a + b + c + d + e + f + g + h + i)
  {
    Rejoin(o, a, b);
    Rejoin(o, a + b, c);
    Rejoin(o, a + b + c, d);
    Rejoin(o, a + b + c + d, e);
    Rejoin(o, a + b + c + d + e, f);
    Rejoin(o, a + b + c + d + e + f, g);
    Rejoin(o, a + b + c + d + e + f + g, h);
    Rejoin(o, a + b + c + d + e + f + g + h, i);
  }
}
