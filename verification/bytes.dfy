/** Byte sequences, big-endian 32-bit integers and buffer concatenation. */
module Bytes {

  /** One element of a `Uint8Array` / Node `Buffer`: an integer from 0 to
      255. The bitwise operators of the source work on its 8-bit pattern,
      `Bits(b)`. */
  type byte = x: int | 0 <= x < 256

  function Bits(b: byte): bv8 { b as bv8 }

  function FromBits(x: bv8): byte { x as int }

  /** `a ^ b` on two bytes. */
  function Xor(a: byte, b: byte): byte
  {
    FromBits(Bits(a) ^ Bits(b))
  }

  /** An 8-byte DES block or key. */
  type Block = s: seq<byte> | |s| == 8 witness [0, 0, 0, 0, 0, 0, 0, 0]

  const U32_BOUND: int := 0x1_0000_0000

  function Min(a: int, b: int): int { if a <= b then a else b }

  /** `n` zero bytes, the contents of a fresh `new Uint8Array(n)`. */
  function Zeros(n: nat): (r: seq<byte>)
    ensures |r| == n && forall i :: 0 <= i < n ==> r[i] == 0
  {
    seq(n, _ => 0)
  }

  /** The unsigned big-endian value of the four bytes at `off`. The source
      computes `((b0 << 24) | (b1 << 16) | (b2 << 8) | b3) >>> 0`; the shifted
      bytes do not overlap, so the OR is this sum, and `>>> 0` makes it unsigned. */
  function ReadUint32BE(buf: seq<byte>, off: nat): (r: int)
    requires off + 4 <= |buf|
    ensures 0 <= r < U32_BOUND
  {
    buf[off] as int * 0x100_0000 + buf[off + 1] as int * 0x1_0000
      + buf[off + 2] as int * 0x100 + buf[off + 3] as int
  }

  /** The four bytes written by `writeUint32BE`: `(value >>> 24) & 0xff`, ...,
      `value & 0xff`; `>>>` first reduces the value modulo 2^32 (ToUint32). */
  function Be32(v: int): (r: seq<byte>)
    ensures |r| == 4
  {
    BeBytes(v % U32_BOUND, 4)
  }

  /** `x & 0xff`: `x` modulo 256, which for a negative `x` is also the low
      byte of its two's-complement form. */
  function LowByte(x: int): byte
  {
    x % 256
  }

  /** The low `n` base-256 digits of `u`, most significant first. */
  function BeBytes(u: int, n: nat): (r: seq<byte>)
    ensures |r| == n
    decreases n
  {
    if n == 0 then [] else BeBytes(u / 256, n - 1) + [LowByte(u)]
  }

  /** The four bytes of `Be32(v)` one by one. */
  lemma Be32Bytes(v: int)
    ensures var u := v % U32_BOUND;
      Be32(v) == [LowByte(u / 0x100_0000), LowByte(u / 0x1_0000), LowByte(u / 0x100), LowByte(u)]
  {
    var u := v % U32_BOUND;
    BeBytesFour(u);
    DivChain(u);
  }

  /** Four digits, unfolded without simplifying the quotients. */
  lemma BeBytesFour(u: int)
    ensures BeBytes(u, 4) == [LowByte(u / 256 / 256 / 256), LowByte(u / 256 / 256), LowByte(u / 256), LowByte(u)]
  {
    var q1 := u / 256;
    var q2 := q1 / 256;
    var q3 := q2 / 256;
    assert BeBytes(q3, 1) == BeBytes(q3 / 256, 0) + [LowByte(q3)];
    assert BeBytes(q2, 2) == BeBytes(q3, 1) + [LowByte(q2)];
    assert BeBytes(q1, 3) == BeBytes(q2, 2) + [LowByte(q1)];
    assert BeBytes(u, 4) == BeBytes(q1, 3) + [LowByte(u)];
    SnocFour(BeBytes(q3 / 256, 0), BeBytes(q3, 1), BeBytes(q2, 2), BeBytes(q1, 3), BeBytes(u, 4),
             LowByte(q3), LowByte(q2), LowByte(q1), LowByte(u));
  }

  lemma SnocFour<T>(s0: seq<T>, s1: seq<T>, s2: seq<T>, s3: seq<T>, s4: seq<T>, a: T, b: T, c: T, d: T)
    requires s0 == [] && s1 == s0 + [a] && s2 == s1 + [b] && s3 == s2 + [c] && s4 == s3 + [d]
    ensures s4 == [a, b, c, d]
  {
  }

  lemma DivChain(u: int)
    requires 0 <= u
    ensures u / 0x1_0000 == u / 256 / 256 && u / 0x100_0000 == u / 256 / 256 / 256
  {
    var q1 := u / 256;
    var q2 := q1 / 256;
    assert u / 0x1_0000 == q2;
    assert u / 0x100_0000 == q2 / 256;
  }

  /** A byte's bit pattern read back as a number is the byte. */
  lemma BitsValue(m: byte)
    ensures FromBits(Bits(m)) == m
  {
    var b := BitsOf(m);
    BitsOfValue(m);
    assert (b as int) as bv8 == b;
  }

  /** A bit pattern read as a number and back is the same pattern. */
  lemma FromBitsValue(x: bv8)
    ensures Bits(FromBits(x)) == x
  {
  }

  /** The bit pattern counted up from zero `m` times. */
  function BitsOf(m: nat): bv8
    requires m < 256
  {
    if m == 0 then 0 else BitsOf(m - 1) + 1
  }

  lemma {:induction false} BitsOfValue(m: nat)
    requires m < 256
    ensures BitsOf(m) as int == m
  {
    if m > 0 {
      BitsOfValue(m - 1);
      BitsSucc(BitsOf(m - 1));
    }
  }

  lemma BitsSucc(x: bv8)
    requires x as int < 255
    ensures (x + 1) as int == x as int + 1
  {
  }

  /** XOR with the same byte twice is the identity; XOR with zero changes nothing. */
  lemma XorInverse(a: byte, b: byte)
    ensures Xor(Xor(a, b), b) == a
  {
    FromBitsValue(Bits(a) ^ Bits(b));
    assert (Bits(a) ^ Bits(b)) ^ Bits(b) == Bits(a);
    BitsValue(a);
  }

  lemma XorZero(a: byte)
    ensures Xor(a, 0) == a && Xor(0, a) == a
  {
    assert Bits(0) == 0;
    BitsValue(a);
  }

  lemma XorComm(a: byte, b: byte)
    ensures Xor(a, b) == Xor(b, a)
  {
    assert Bits(a) ^ Bits(b) == Bits(b) ^ Bits(a);
  }

  lemma Digits(u: int)
    requires 0 <= u < U32_BOUND
    ensures u == (u / 0x100_0000 % 256) * 0x100_0000 + (u / 0x1_0000 % 256) * 0x1_0000
                 + (u / 0x100 % 256) * 0x100 + u % 256
  {
    var q1 := u / 256;
    var q2 := q1 / 256;
    assert u / 0x1_0000 == q2;
    assert u / 0x100_0000 == q2 / 256;
  }

  lemma SmallMod(v: int)
    requires 0 <= v < U32_BOUND
    ensures v % U32_BOUND == v
  {
  }

  /** Reading back what writeUint32BE wrote gives the value modulo 2^32. */
  lemma Uint32RoundTrip(v: int)
    ensures ReadUint32BE(Be32(v), 0) == v % U32_BOUND
  {
    var u := v % U32_BOUND;
    Be32Bytes(v);
    ReadOfDigits(u / 0x100_0000, u / 0x1_0000, u / 0x100, u);
    Digits(u);
  }

  /** Reading the low bytes of four values gives their base-256 sum. */
  lemma ReadOfDigits(x0: int, x1: int, x2: int, x3: int)
    ensures ReadUint32BE([LowByte(x0), LowByte(x1), LowByte(x2), LowByte(x3)], 0)
      == x0 % 256 * 0x100_0000 + x1 % 256 * 0x1_0000 + x2 % 256 * 0x100 + x3 % 256
  {
  }

  /** readUint32BE only looks at the four bytes it is pointed at. */
  lemma ReadUint32BEFrom(buf: seq<byte>, off: nat, v: int)
    requires off + 4 <= |buf| && buf[off..off + 4] == Be32(v)
    requires 0 <= v < U32_BOUND
    ensures ReadUint32BE(buf, off) == v
  {
    Uint32RoundTrip(v);
    SmallMod(v);
    assert buf[off] == Be32(v)[0] && buf[off + 1] == Be32(v)[1];
    assert buf[off + 2] == Be32(v)[2] && buf[off + 3] == Be32(v)[3];
  }

  /** `buf.slice(from, to)` for indices that are not negative: both ends are
      clamped to the buffer, and a start past the end gives nothing. */
  function Slice(buf: seq<byte>, from: nat, to: nat): seq<byte>
  {
    var a := Min(from, |buf|);
    var b := Min(to, |buf|);
    if a <= b then buf[a..b] else []
  }

  /** Reading at `d + off` is reading at `off` in the buffer from `d` on. */
  lemma ReadUint32BEShift(buf: seq<byte>, d: nat, off: nat)
    requires d + off + 4 <= |buf|
    ensures ReadUint32BE(buf, d + off) == ReadUint32BE(buf[d..], off)
  {
  }

  lemma DropAppend<T>(a: seq<T>, b: seq<T>)
    ensures (a + b)[|a|..] == b
  {
  }

  /** From one block boundary below `n` to the next. */
  lemma NextBlock(i: int, n: int)
    requires 0 <= i < n && i % 8 == 0 && n % 8 == 0
    ensures i + 8 <= n && (i + 8) % 8 == 0
  {
  }

  lemma AppendSlice<T>(a: seq<T>, b: seq<T>, lo: nat, hi: nat)
    requires lo <= hi <= |b|
    ensures (a + b)[|a| + lo..|a| + hi] == b[lo..hi]
  {
  }

  lemma DropOne<T>(a: T, s: seq<T>)
    ensures ([a] + s)[1..] == s
  {
  }

  lemma PushThree<T>(a: T, b: T, c: T)
    ensures [] + [a] + [b] + [c] == [a, b, c]
  {
  }

  lemma AppendNil<T>(s: seq<T>)
    ensures s + [] == s
  {
  }

  lemma TakeAll<T>(s: seq<T>)
    ensures s[..|s|] == s
  {
  }

  lemma TakeTake<T>(s: seq<T>, i: nat, j: nat)
    requires i <= j <= |s|
    ensures s[..j][..i] == s[..i]
  {
  }

  lemma TakeSnoc<T>(s: seq<T>, i: nat)
    requires i < |s|
    ensures s[..i + 1] == s[..i] + [s[i]]
  {
  }

  lemma TakeFront<T>(a: seq<T>, x: seq<T>, c: seq<T>)
    ensures (a + x + c)[..|a| + |x|] == a + x
  {
  }

  lemma TakeOfAppend<T>(a: seq<T>, b: seq<T>, n: nat)
    requires n <= |a|
    ensures (a + b)[..n] == a[..n]
  {
  }

  lemma AppendAssoc<T>(a: seq<T>, b: seq<T>, c: seq<T>)
    ensures a + b + c == a + (b + c)
  {
  }

  /** Slicing a suffix is slicing the whole at shifted bounds. */
  lemma DropSlice(s: seq<byte>, d: nat, a: nat, b: nat)
    requires a <= b && d + b <= |s|
    ensures s[d..][a..b] == s[d + a..d + b]
  {
  }

  lemma DropDrop(s: seq<byte>, d: nat, a: nat)
    requires d + a <= |s|
    ensures s[d..][a..] == s[d + a..]
  {
  }

  /** A slice of a slice is a slice of the whole. */
  lemma SliceOfSlice(s: seq<byte>, a: nat, b: nat, i: nat, j: nat)
    requires a <= b <= |s| && i <= j <= b - a
    ensures s[a..b][i..j] == s[a + i..a + j]
  {
    forall k | 0 <= k < j - i
      ensures s[a..b][i..j][k] == s[a + i..a + j][k]
    {
    }
  }

  /** Concatenation of byte buffers in order (the value `concatArrays` builds). */
  function Flatten(parts: seq<seq<byte>>): seq<byte>
  {
    if |parts| == 0 then [] else Flatten(parts[..|parts| - 1]) + parts[|parts| - 1]
  }

  /** Sum of the lengths of the buffers (the `reduce` in `concatArrays`). */
  function SumLengths(parts: seq<seq<byte>>): nat
  {
    if |parts| == 0 then 0 else SumLengths(parts[..|parts| - 1]) + |parts[|parts| - 1]|
  }

  lemma {:induction false} FlattenLength(parts: seq<seq<byte>>)
    ensures |Flatten(parts)| == SumLengths(parts)
  {
    if |parts| > 0 {
      FlattenLength(parts[..|parts| - 1]);
    }
  }

  lemma {:induction false} FlattenAppend(a: seq<seq<byte>>, b: seq<seq<byte>>)
    ensures Flatten(a + b) == Flatten(a) + Flatten(b)
    decreases |b|
  {
    if |b| == 0 {
      assert a + b == a;
    } else {
      var b' := b[..|b| - 1];
      assert (a + b)[..|a + b| - 1] == a + b';
      FlattenAppend(a, b');
    }
  }

  lemma FlattenCons(x: seq<byte>, rest: seq<seq<byte>>)
    ensures Flatten([x] + rest) == x + Flatten(rest)
  {
    FlattenAppend([x], rest);
    assert Flatten([x]) == Flatten([]) + x;
  }

  /** Every buffer of a concatenation is at most as long as the whole. */
  lemma {:induction false} PartNoLongerThanFlatten(parts: seq<seq<byte>>, i: nat)
    requires i < |parts|
    ensures |parts[i]| <= |Flatten(parts)|
  {
    FlattenAppend(parts[..i], parts[i..]);
    assert parts == parts[..i] + parts[i..];
    FlattenCons(parts[i], parts[i + 1..]);
    assert parts[i..] == [parts[i]] + parts[i + 1..];
  }

  /** `target.set(src, at)`: overwrite target[at .. at+|src|) with src. */
  method CopyInto(target: array<byte>, src: seq<byte>, at: nat)
    requires at + |src| <= target.Length
    modifies target
    ensures target[..] == old(target[..])[..at] + src + old(target[..])[at + |src|..]
  {
    var i := 0;
    while i < |src|
      invariant 0 <= i <= |src|
      invariant forall k :: 0 <= k < target.Length ==>
        target[k] == (if at <= k < at + i then src[k - at] else old(target[k]))
    {
      target[at + i] := src[i];
      i := i + 1;
    }
    assert target[..] == old(target[..])[..at] + src + old(target[..])[at + |src|..];
  }

  /** `writeUint32BE(buf, offset, value)` of chunk-reader.ts and cpi-encryptor.ts. */
  method WriteUint32BE(buf: array<byte>, off: nat, v: int)
    requires off + 4 <= buf.Length
    modifies buf
    ensures buf[..] == old(buf[..])[..off] + Be32(v) + old(buf[..])[off + 4..]
  {
    var u := v % U32_BOUND;
    buf[off] := LowByte(u / 0x100_0000);
    buf[off + 1] := LowByte(u / 0x1_0000);
    buf[off + 2] := LowByte(u / 0x100);
    buf[off + 3] := LowByte(u);
    Be32Bytes(v);
    Splice4(old(buf[..]), buf[..], off, Be32(v));
  }

  /** A sequence that agrees with `before` outside [off, off + 4) and holds `w` inside it. */
  lemma Splice4<T>(before: seq<T>, now: seq<T>, off: nat, w: seq<T>)
    requires |now| == |before| && off + 4 <= |before| && |w| == 4
    requires now[off] == w[0] && now[off + 1] == w[1] && now[off + 2] == w[2] && now[off + 3] == w[3]
    requires forall i :: 0 <= i < |before| && (i < off || off + 4 <= i) ==> now[i] == before[i]
    ensures now == before[..off] + w + before[off + 4..]
  {
    var r := before[..off] + w + before[off + 4..];
    assert |r| == |now|;
    forall i | 0 <= i < |now|
      ensures now[i] == r[i]
    {
      if i < off {
      } else if i < off + 4 {
        assert r[i] == w[i - off];
      } else {
        assert r[i] == before[off + 4..][i - off - 4];
      }
    }
  }
}
