/** md5.c: the streaming shell around the MD5 compression function. */
module Md5 {

  type Byte = x: int | 0 <= x < 256
  type Word = x: int | 0 <= x < 0x1_0000_0000

  /** The four registers. */
  type Regs = r: seq<Word> | |r| == 4 witness [0, 0, 0, 0]

  /** What one 64-byte block does to the registers. */
  type Compress = (Regs, seq<Byte>) -> Regs

  const TWO32 := 0x1_0000_0000
  const TWO64 := 0x1_0000_0000_0000_0000

  /** The initial registers, section 3.3 of RFC 1321. */
  const INIT: Regs := [0x67452301, 0xefcdab89, 0x98badcfe, 0x10325476]

  // ---- the specification ----

  /** The registers after all full blocks of m. */
  function Digested(f: Compress, h: Regs, m: seq<Byte>): Regs
    decreases |m|
  {
    if |m| < 64 then h else Digested(f, f(h, m[..64]), m[64..])
  }

  function Zeros(n: nat): seq<Byte> {
    seq(n, _ => 0)
  }

  /** x in n bytes, low-order byte first. */
  function LittleEndian(x: nat, n: nat): (r: seq<Byte>)
    ensures |r| == n
  {
    if n == 0 then [] else [x % 256] + LittleEndian(x / 256, n - 1)
  }

  /** The padding of a message of len bytes, section 3.1 of RFC 1321: a one bit, then zero bits
      up to 448 modulo 512. */
  function Padding(len: nat): seq<Byte> {
    [0x80] + Zeros((55 - len) % 64)
  }

  /** The message as it is digested: padded, and followed by its length in bits modulo 2^64,
      section 3.2 of RFC 1321. */
  function Padded(m: seq<Byte>): seq<Byte> {
    m + Padding(|m|) + LittleEndian(8 * |m| % TWO64, 8)
  }

  /** The digest: the registers, low-order byte first. */
  function Output(h: seq<Word>): seq<Byte> {
    if h == [] then [] else LittleEndian(h[0], 4) + Output(h[1..])
  }

  // ---- about it ----

  /** The padding brings the length to 448 bits modulo 512, and so does nothing shorter. */
  lemma PaddingFits(len: nat, k: nat)
    ensures (len + |Padding(len)|) % 64 == 56
    ensures (len + 1 + k) % 64 == 56 ==> k >= |Padding(len)| - 1
  {
    var q, r := len / 64, len % 64;
    assert len == 64 * q + r;
    var z := if r <= 55 then 55 - r else 119 - r;
    assert 55 - len == 64 * (if r <= 55 then -q else -q - 1) + z;
    assert (55 - len) % 64 == z;
    assert len + 1 + z == 64 * (if r <= 55 then q else q + 1) + 56;
    if k < z {
      ModApart(len + 1, k, z);
    }
  }

  lemma ModApart(a: nat, k: nat, z: nat)
    requires k < z < k + 64
    ensures (a + k) % 64 != (a + z) % 64
  {
  }

  lemma PaddedIsWhole(m: seq<Byte>)
    ensures |Padded(m)| % 64 == 0
  {
    hide Padding;
    PaddingFits(|m|, 0);
    Eight(|m| + |Padding(|m|)|);
  }

  lemma Eight(n: nat)
    requires n % 64 == 56
    ensures (n + 8) % 64 == 0
  {
  }

  lemma {:induction false} DigestedAppend(f: Compress, h: Regs, m: seq<Byte>, n: seq<Byte>)
    requires |m| % 64 == 0
    ensures Digested(f, h, m + n) == Digested(f, Digested(f, h, m), n)
    decreases |m|
  {
    if m == [] {
      assert m + n == n;
    } else {
      assert (m + n)[..64] == m[..64] && (m + n)[64..] == m[64..] + n;
      DigestedAppend(f, f(h, m[..64]), m[64..], n);
    }
  }

  /** What is left over does not matter. */
  lemma DigestedWhole(f: Compress, h: Regs, m: seq<Byte>)
    ensures Digested(f, h, m) == Digested(f, h, m[..|m| - |m| % 64])
  {
    var n := |m| - |m| % 64;
    assert m == m[..n] + m[n..];
    DigestedAppend(f, h, m[..n], m[n..]);
  }

  lemma DigestedBlock(f: Compress, h: Regs, m: seq<Byte>, b: seq<Byte>)
    requires |m| % 64 == 0 && |b| == 64
    ensures Digested(f, h, m + b) == f(Digested(f, h, m), b)
  {
    DigestedAppend(f, h, m, b);
    assert b[..64] == b && b[64..] == [];
  }

  /** The length of the message in bits, as the two count words have it. */
  predicate Counts(c0: Word, c1: Word, len: nat) {
    c1 * TWO32 + c0 == 8 * len % TWO64
  }

  lemma CountOffset(c0: Word, c1: Word, len: nat)
    requires Counts(c0, c1, len)
    ensures c0 / 8 % 64 == len % 64
  {
    var q := 8 * len / TWO64;
    var x := len - q * 0x2000_0000_0000_0000 - c1 * 0x2000_0000;
    assert c0 == 8 * x;
    ModShift(x, q * 0x80_0000_0000_0000 + c1 * 0x80_0000);
  }

  lemma ModShift(x: nat, k: int)
    ensures (x + 64 * k) % 64 == x % 64
  {
  }

  /** Adding to the two words with a carry adds to the length. */
  lemma CountMore(c0: Word, c1: Word, len: nat, n: nat, c0': Word, c1': Word)
    requires Counts(c0, c1, len) && n < 0x8000_0000
    requires var nbits := 8 * n % TWO32;
      && c0' == (c0 + nbits) % TWO32
      && c1' == (c1 + n / 0x2000_0000 + if c0' < nbits then 1 else 0) % TWO32
    ensures Counts(c0', c1', len + n)
  {
    var nbits := 8 * n % TWO32;
    var carry := if c0' < nbits then 1 else 0;
    assert 8 * n == n / 0x2000_0000 * TWO32 + nbits;
    assert c0 + nbits == carry * TWO32 + c0';
    var hi := c1 + n / 0x2000_0000 + carry;
    assert c1 * TWO32 + c0 + 8 * n == hi * TWO32 + c0';
    assert hi * TWO32 + c0' == (hi / TWO32) * TWO64 + c1' * TWO32 + c0';
    ModAdd(8 * len, 8 * n, hi / TWO32, c1' * TWO32 + c0');
  }

  lemma ModAdd(a: nat, b: nat, q: nat, r: nat)
    requires a % TWO64 + b == q * TWO64 + r && r < TWO64
    ensures (a + b) % TWO64 == r
  {
    assert a + b == (a / TWO64 + q) * TWO64 + r;
    ModIs(a / TWO64 + q, r);
  }

  lemma ModIs(q: nat, r: nat)
    requires r < TWO64
    ensures (q * TWO64 + r) % TWO64 == r
  {
  }

  /** The block begun holds what is left over of m. */
  predicate Begun(block: seq<Byte>, m: seq<Byte>) {
    |block| == 64 && block[..|m| % 64] == m[|m| - |m| % 64..]
  }

  lemma BegunAt(block: seq<Byte>, m: seq<Byte>)
    requires Begun(block, m)
    ensures |block| == 64 && block[..|m| % 64] == m[|m| - |m| % 64..]
  {
  }

  lemma NextBlock(f: Compress, h: Regs, m: seq<Byte>, data: seq<Byte>, p: nat)
    requires p + 64 <= |data| && (|m| + p) % 64 == 0
    ensures Digested(f, h, m + data[..p + 64]) == f(Digested(f, h, m + data[..p]), data[p..p + 64])
  {
    hide Digested;
    DigestedBlock(f, h, m + data[..p], data[p..p + 64]);
    assert m + data[..p] + data[p..p + 64] == m + data[..p + 64];
  }

  /** What is left when no full block is. */
  lemma BlocksEnd(f: Compress, h: Regs, m: seq<Byte>, data: seq<Byte>, p: nat, block: seq<Byte>)
    requires p <= |data| < p + 64 && (|m| + p) % 64 == 0 && |block| == 64 && block[..|data| - p] == data[p..]
    ensures Digested(f, h, m + data) == Digested(f, h, m + data[..p]) && Begun(block, m + data)
  {
    hide Digested;
    var all, whole := m + data, m + data[..p];
    assert |all| % 64 == |data| - p;
    DigestedWhole(f, h, all);
    assert all == whole + data[p..];
    assert all[..|whole|] == whole && all[|whole|..] == data[p..];
  }

  lemma BegunPart(block: seq<Byte>, m: seq<Byte>, data: seq<Byte>)
    requires |block| == 64 && |m| % 64 + |data| < 64
    requires block[..|m| % 64 + |data|] == (m + data)[|m| - |m| % 64..]
    ensures Begun(block, m + data)
  {
    Residue(|m|, |data|);
  }

  // ---- the implementation ----

  class State {
    const compress: Compress
    var count0: Word          // the low and high words of the length in bits
    var count1: Word
    var abcd: Regs            // the registers
    const buf: array<Byte>    // the block begun

    /** Everything appended so far. */
    ghost var message: seq<Byte>

    ghost predicate Valid()
      reads this, buf
    {
      && buf.Length == 64 && Counts(count0, count1, |message|)
      && abcd == Digested(compress, INIT, message)
      && Begun(buf[..], message)
    }

    /** md5_init */
    constructor (compress: Compress)
      ensures Valid() && message == [] && this.compress == compress && fresh(buf)
    {
      this.compress := compress;
      count0, count1 := 0, 0;
      abcd := INIT;
      buf := new Byte[64](_ => 0);
      message := [];
    }

    /** memcpy(buf + offset, p, |p|) */
    method Copy(offset: nat, p: seq<Byte>)
      requires offset + |p| <= buf.Length
      modifies buf
      ensures buf[..] == old(buf[..])[..offset] + p + old(buf[..])[offset + |p|..]
    {
      ghost var was := buf[..];
      var i := 0;
      while i < |p|
        invariant 0 <= i <= |p| && buf[..] == was[..offset] + p[..i] + was[offset + i..]
      {
        buf[offset + i] := p[i];
        assert p[..i + 1] == p[..i] + [p[i]];
        i := i + 1;
      }
      assert p[..i] == p;
    }

    /** md5_append: however a message is cut into pieces, the state depends on the whole only. */
    method Append(data: seq<Byte>)
      requires Valid() && |data| < 0x8000_0000
      modifies this, buf
      ensures Valid() && message == old(message) + data
    {
      hide Digested, Counts, Begun;
      var nbytes := |data|;
      BegunAt(buf[..], message);
      CountOffset(count0, count1, |message|);
      var offset := count0 / 8 % 64;
      var nbits: Word := 8 * nbytes % TWO32;
      if nbytes <= 0 {
        assert message + data == message;
        return;
      }
      // The length grows.
      CountUp(nbytes, nbits);
      ghost var m := message;
      message := message + data;
      // A block has been begun.
      var p := 0;
      if offset != 0 {
        var copy := if offset + nbytes > 64 then 64 - offset else nbytes;
        Fill(offset, data[..copy], m);
        if offset + copy < 64 {
          assert data[..copy] == data;
          BegunPart(buf[..], m, data);
          return;
        }
        p := copy;
      }
      assert m + data[..0] == m;
      WholeNow(|m|, offset, p);
      Blocks(data, p, m);
    }

    method CountUp(nbytes: nat, nbits: Word)
      requires Counts(count0, count1, |message|) && nbytes < 0x8000_0000 && nbits == 8 * nbytes % TWO32
      modifies `count0, `count1
      ensures Counts(count0, count1, |message| + nbytes)
    {
      hide Counts;
      ghost var c0, c1 := count0, count1;
      count1 := (count1 + nbytes / 0x2000_0000) % TWO32;
      count0 := (count0 + nbits) % TWO32;
      if count0 < nbits {
        count1 := (count1 + 1) % TWO32;
      }
      CountMore(c0, c1, |message|, nbytes, count0, count1);
    }

    /** The bytes that complete, or do not complete, the block begun. */
    method Fill(offset: nat, p: seq<Byte>, ghost m: seq<Byte>)
      requires buf.Length == 64 && offset == |m| % 64 && 0 < offset && offset + |p| <= 64
      requires abcd == Digested(compress, INIT, m) && buf[..offset] == m[|m| - offset..]
      modifies `abcd, buf
      ensures abcd == Digested(compress, INIT, m + p)
      ensures buf[..offset + |p|] == (m + p)[|m| - offset..]
    {
      hide Digested;
      Copy(offset, p);
      ghost var n := |m| - offset;
      assert buf[..offset + |p|] == m[n..] + p == (m + p)[n..];
      DigestedWhole(compress, INIT, m);
      if offset + |p| < 64 {
        DigestedWhole(compress, INIT, m + p);
        assert (m + p)[..n] == m[..n];
      } else {
        assert buf[..] == buf[..64] == (m + p)[n..];
        assert m + p == m[..n] + (m + p)[n..];
        DigestedBlock(compress, INIT, m[..n], (m + p)[n..]);
        abcd := compress(abcd, buf[..]);
      }
    }

    /** Process full blocks, and a final partial block. */
    method Blocks(data: seq<Byte>, from: nat, ghost m: seq<Byte>)
      requires buf.Length == 64 && from <= |data| && (|m| + from) % 64 == 0
      requires abcd == Digested(compress, INIT, m + data[..from])
      modifies `abcd, buf
      ensures abcd == Digested(compress, INIT, m + data)
      ensures Begun(buf[..], m + data)
    {
      hide Digested;
      var p := from;
      while |data| - p >= 64
        invariant from <= p <= |data| && (|m| + p) % 64 == 0
        invariant abcd == Digested(compress, INIT, m + data[..p])
      {
        NextBlock(compress, INIT, m, data, p);
        abcd := compress(abcd, data[p..p + 64]);
        p := p + 64;
      }
      if p < |data| {
        Copy(0, data[p..]);
      }
      assert buf[..|data| - p] == data[p..];
      BlocksEnd(compress, INIT, m, data, p, buf[..]);
    }

    /** md5_finish: the digest of the whole message, padded as RFC 1321 says. */
    method Finish() returns (digest: seq<Byte>)
      requires Valid()
      modifies this, buf
      ensures Valid() && message == Padded(old(message))
      ensures digest == Output(Digested(compress, INIT, Padded(old(message)))) && |digest| == 16
    {
      ghost var m := message;
      CountOffset(count0, count1, |m|);
      // The length is that without the padding.
      var data := SaveLength();
      // The padding leaves room for the length.
      var pad := [0x80] + Zeros(63);
      var n := (55 - count0 / 8) % 64 + 1;
      PadLength(count0 / 8, |m|);
      assert pad[..n] == Padding(|m|);
      Append(pad[..n]);
      // Then the length itself.
      Append(data);
      digest := Digest();
    }

    method SaveLength() returns (data: seq<Byte>)
      requires Valid()
      ensures data == LittleEndian(8 * |message| % TWO64, 8)
    {
      data := [];
      for i := 0 to 8
        invariant |data| == i
        invariant forall k :: 0 <= k < i ==> data[k] == ByteOf(if k / 4 == 0 then count0 else count1, k % 4)
      {
        data := data + [ByteOf(if i / 4 == 0 then count0 else count1, i % 4)];
      }
      TwoWords(count0, count1, data);
    }

    method Digest() returns (digest: seq<Byte>)
      ensures digest == Output(abcd) && |digest| == 16
    {
      digest := [];
      for i := 0 to 16
        invariant |digest| == i
        invariant forall k :: 0 <= k < i ==> digest[k] == ByteOf(abcd[k / 4], k % 4)
      {
        digest := digest + [ByteOf(abcd[i / 4], i % 4)];
      }
      FourWords(abcd, digest);
    }
  }

  /** However it was cut into pieces, the same message leads to the same state. */
  lemma SameMessage(a: State, b: State)
    requires a.Valid() && b.Valid() && a.compress == b.compress && a.message == b.message
    ensures a.count0 == b.count0 && a.count1 == b.count1 && a.abcd == b.abcd
    ensures a.buf[..|a.message| % 64] == b.buf[..|b.message| % 64]
  {
    hide Digested;
    BegunAt(a.buf[..], a.message);
    BegunAt(b.buf[..], b.message);
  }

  lemma Residue(len: nat, n: nat)
    requires len % 64 + n < 64
    ensures (len + n) % 64 == len % 64 + n
  {
  }

  lemma WholeNow(len: nat, offset: nat, p: nat)
    requires offset == len % 64 && (if offset == 0 then p == 0 else p == 64 - offset)
    ensures (len + p) % 64 == 0
  {
  }

  lemma PadLength(x: nat, len: nat)
    requires x % 64 == len % 64
    ensures (55 - x) % 64 == (55 - len) % 64
  {
  }

  /** (byte)(w >> (k << 3)) */
  function ByteOf(w: Word, k: nat): Byte
    requires k < 4
  {
    if k == 0 then w % 256 else if k == 1 then w / 256 % 256 else if k == 2 then w / 65536 % 256 else w / 16777216 % 256
  }

  lemma WordBytes(w: Word)
    ensures LittleEndian(w, 4) == [ByteOf(w, 0), ByteOf(w, 1), ByteOf(w, 2), ByteOf(w, 3)]
  {
    hide LittleEndian;
    Quotients(w);
    LittleStep(w, 4);
    LittleStep(w / 256, 3);
    LittleStep(w / 65536, 2);
    LittleStep(w / 16777216, 1);
    NoBytes(0);
  }

  lemma NoBytes(x: nat)
    ensures LittleEndian(x, 0) == []
  {
  }

  lemma ByteStep(hi: nat, lo: nat, p: nat)
    ensures var x := hi * (256 * p) + lo; x % 256 == lo % 256 && x / 256 == hi * p + lo / 256
  {
    var x := hi * (256 * p) + lo;
    assert x == 256 * (hi * p + lo / 256) + lo % 256;
  }

  lemma LittleSplit(lo: Word, hi: nat)
    ensures LittleEndian(hi * TWO32 + lo, 8) == LittleEndian(lo, 4) + LittleEndian(hi, 4)
  {
    hide LittleEndian;
    WordBytes(lo);
    Quotients(lo);
    ByteOff(hi, lo, 0x100_0000, 7);
    ByteOff(hi, lo / 256, 0x1_0000, 6);
    ByteOff(hi, lo / 65536, 0x100, 5);
    ByteOff(hi, lo / 16777216, 1, 4);
  }

  lemma ByteOff(hi: nat, lo: nat, p: nat, n: nat)
    ensures LittleEndian(hi * (256 * p) + lo, n + 1) == [lo % 256] + LittleEndian(hi * p + lo / 256, n)
  {
    hide LittleEndian;
    ByteStep(hi, lo, p);
    LittleStep(hi * (256 * p) + lo, n + 1);
  }

  lemma Quotients(lo: Word)
    ensures lo / 256 / 256 == lo / 65536 && lo / 65536 / 256 == lo / 16777216 && lo / 16777216 / 256 == 0
  {
  }

  lemma LittleStep(x: nat, n: nat)
    requires n > 0
    ensures LittleEndian(x, n) == [x % 256] + LittleEndian(x / 256, n - 1)
  {
  }

  lemma TwoWords(c0: Word, c1: Word, data: seq<Byte>)
    requires |data| == 8 && forall k :: 0 <= k < 8 ==> data[k] == ByteOf(if k / 4 == 0 then c0 else c1, k % 4)
    ensures data == LittleEndian(c1 * TWO32 + c0, 8)
  {
    LittleSplit(c0, c1);
    WordBytes(c0);
    WordBytes(c1);
  }

  lemma FourWords(h: Regs, d: seq<Byte>)
    requires |d| == 16 && forall k :: 0 <= k < 16 ==> d[k] == ByteOf(h[k / 4], k % 4)
    ensures d == Output(h)
  {
    hide LittleEndian, ByteOf;
    WordBytes(h[0]);
    WordBytes(h[1]);
    WordBytes(h[2]);
    WordBytes(h[3]);
    assert Output(h) == LittleEndian(h[0], 4) + Output(h[1..]);
    assert Output(h[1..]) == LittleEndian(h[1], 4) + Output(h[2..]);
    assert h[1..][1..] == h[2..] && h[2..][1..] == h[3..] && h[3..][1..] == [];
    assert Output(h[2..]) == LittleEndian(h[2], 4) + Output(h[3..]);
    assert Output(h[3..]) == LittleEndian(h[3], 4) + Output([]);
  }

  lemma BytesOf(w: Word, a: Byte, b: Byte, c: Byte, d: Byte)
    requires w == a + 256 * b + 65536 * c + 16777216 * d
    ensures ByteOf(w, 0) == a && ByteOf(w, 1) == b && ByteOf(w, 2) == c && ByteOf(w, 3) == d
  {
    Quotients(w);
    var x: nat, y: nat := b + 256 * (c + 256 * d), c + 256 * d;
    Shifted(w, a, x);
    Shifted(x, b, y);
    Shifted(y, c, d);
    assert w / 65536 == y && w / 16777216 == d;
  }

  lemma Shifted(x: nat, low: Byte, high: nat)
    requires x == low + 256 * high
    ensures x % 256 == low && x / 256 == high
  {
  }

  /** The registers begin with the bytes 01 23 45 67 89 ab cd ef fe dc ba 98 76 54 32 10. */
  lemma InitBytes()
    ensures Output(INIT) == [0x01, 0x23, 0x45, 0x67, 0x89, 0xab, 0xcd, 0xef, 0xfe, 0xdc, 0xba, 0x98, 0x76, 0x54, 0x32, 0x10]
  {
    hide LittleEndian, ByteOf, Output;
    var d: seq<Byte> := [0x01, 0x23, 0x45, 0x67, 0x89, 0xab, 0xcd, 0xef, 0xfe, 0xdc, 0xba, 0x98, 0x76, 0x54, 0x32, 0x10];
    BytesOf(INIT[0], 0x01, 0x23, 0x45, 0x67);
    BytesOf(INIT[1], 0x89, 0xab, 0xcd, 0xef);
    BytesOf(INIT[2], 0xfe, 0xdc, 0xba, 0x98);
    BytesOf(INIT[3], 0x76, 0x54, 0x32, 0x10);
    forall k | 0 <= k < 16
      ensures d[k] == ByteOf(INIT[k / 4], k % 4)
    {
    }
    FourWords(INIT, d);
  }

  /** The number that bytes stand for, low-order byte first. */
  function Value(bytes: seq<Byte>): nat {
    if bytes == [] then 0 else bytes[0] + 256 * Value(bytes[1..])
  }

  function Power(n: nat): (r: nat)
    ensures r > 0
  {
    if n == 0 then 1 else 256 * Power(n - 1)
  }

  lemma {:induction false} LittleValue(x: nat, n: nat)
    requires x < Power(n)
    ensures Value(LittleEndian(x, n)) == x
    decreases n
  {
    if n > 0 {
      assert LittleEndian(x, n)[1..] == LittleEndian(x / 256, n - 1);
      LittleValue(x / 256, n - 1);
    }
  }

  /** What is digested: the message, the byte 80, zeros, and in the last eight bytes the length
      of the message in bits, modulo 2^64. */
  lemma PaddedMeans(m: seq<Byte>)
    ensures var p := Padded(m); var n := |p| - 8;
      && n > |m| && p[..|m|] == m && p[|m|] == 0x80 && (forall k :: |m| < k < n ==> p[k] == 0)
      && Value(p[n..]) == 8 * |m| % TWO64
  {
    hide LittleEndian, Power, Value;
    var p := Padded(m);
    assert p[|p| - 8..] == LittleEndian(8 * |m| % TWO64, 8);
    EightBytes();
    LittleValue(8 * |m| % TWO64, 8);
  }

  lemma EightBytes()
    ensures Power(8) == TWO64
  {
    assert Power(4) == TWO32;
    assert Power(8) == 256 * Power(7) == 65536 * Power(6) == 16777216 * Power(5) == 4294967296 * Power(4);
  }
}
