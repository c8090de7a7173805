/** The encrypted CPI writer of cpi-encryptor.ts: Yamaha's MSB-parity DES
    keys and padding, the hand-written DES-CBC loop, the device-lock key
    derivation, the locked `CSEC` block and the final file layout. The DES
    and 3DES block functions are foreign code and are parameters here. */
module CpiEncryptor {
  import opened Wrappers
  import opened Bytes
  import opened ChunkCodec
  import opened PpfParser
  import opened PpiWriter

  // ---- Constants ----

  /** `DES_KEY_RAW`: ASCII "Foatfkio". */
  const DES_KEY_RAW: seq<byte> := [0x46, 0x6f, 0x61, 0x74, 0x66, 0x6b, 0x69, 0x6f]

  /** `DES_KEY_DUALSEAL`: ASCII "dualseal". */
  const DES_KEY_DUALSEAL: seq<byte> := [0x64, 0x75, 0x61, 0x6c, 0x73, 0x65, 0x61, 0x6c]

  const DES_IV: Block := [0, 0, 0, 0, 0, 0, 0, 0]

  const XOR_SEED: seq<byte> := [
    0x0f, 0x62, 0xbe, 0x39, 0xd1, 0x70, 0xc7, 0xf4,
    0x1a, 0x85, 0x2d, 0x5c, 0x96, 0xe8, 0x4b, 0xa3]

  /** `EXPANSION_TABLE`: for each third of the 24-byte key, eight pairs of
      indexes into the 16-byte key. */
  const EXPANSION_TABLE: seq<KeyIndex> := [
    0x07, 0x0c, 0x0e, 0x0a, 0x0b, 0x0d, 0x00, 0x01,
    0x06, 0x02, 0x0f, 0x03, 0x09, 0x04, 0x08, 0x05,
    0x00, 0x0f, 0x02, 0x08, 0x06, 0x09, 0x01, 0x0a,
    0x0e, 0x0c, 0x0b, 0x03, 0x04, 0x05, 0x07, 0x0d,
    0x07, 0x05, 0x0c, 0x04, 0x0f, 0x0d, 0x01, 0x09,
    0x08, 0x0a, 0x00, 0x03, 0x0b, 0x06, 0x0e, 0x02]

  /** `CSEC_ENCRYPTED_DATA`: the standard, not device-locked, security block. */
  const CSEC_ENCRYPTED_DATA: seq<byte> := [
    0x5a, 0x51, 0x7c, 0x40, 0x5f, 0x44, 0x7c, 0x02,
    0x90, 0x3b, 0xcc, 0x5e, 0x1d, 0x69, 0xdc, 0xf8,
    0x52, 0x2f, 0xe8, 0x75, 0xd0, 0xed, 0x7f, 0x97,
    0xf3, 0xef, 0x1e, 0x23, 0x6e, 0x4f, 0x9d, 0x80,
    0x29, 0x87, 0x42, 0x89, 0xad, 0xdc, 0xc3, 0xc2,
    0x23, 0xff, 0xa3, 0x65, 0x55, 0xc2, 0x5d, 0xaf,
    0xf4, 0x93, 0x11, 0x96, 0xf1, 0x4d, 0xa7, 0xd9,
    0x12, 0xe6, 0x07, 0xee, 0x15, 0xc0, 0x45, 0x24,
    0x26, 0x58, 0x5c, 0x1f, 0xb4, 0x50, 0x56, 0xe7,
    0x54, 0xbc, 0xe9, 0x49, 0xf6, 0xda, 0xf0, 0x55]

  /** An index into the 16-byte device key. */
  type KeyIndex = i: int | 0 <= i < 16

  // The tags of the security block's own chunks (not known to the reader).
  const ABCF: seq<byte> := [0x41, 0x42, 0x43, 0x46]
  const AIRI: seq<byte> := [0x41, 0x49, 0x52, 0x49]
  const AIVF: seq<byte> := [0x41, 0x49, 0x56, 0x46]
  const ABEI: seq<byte> := [0x41, 0x42, 0x45, 0x49]

  /** A block cipher under a fixed key schedule: key bytes and one 8-byte
      block to one 8-byte block (`des.update` of des.js for DES, the
      `des-ede3` block function of Node's crypto for 3DES). */
  type BlockCipher = (seq<byte>, Block) -> Block

  // ---- MSB parity ----

  /** The number of 1 bits of a bit pattern. */
  function OnesCount(x: bv8): nat
  {
    (if x & 0x01 != 0 then 1 else 0) + (if x & 0x02 != 0 then 1 else 0)
    + (if x & 0x04 != 0 then 1 else 0) + (if x & 0x08 != 0 then 1 else 0)
    + (if x & 0x10 != 0 then 1 else 0) + (if x & 0x20 != 0 then 1 else 0)
    + (if x & 0x40 != 0 then 1 else 0) + (if x & 0x80 != 0 then 1 else 0)
  }

  /** One byte of `msbParity`: keep bits 0-6, fold them into bit 7 by three
      shift-and-XOR steps, and set bit 7 to the complement of that fold.
      A `bv8` shift drops the bits that `& 0xff` removes in the source. */
  function MsbParityByte(x: byte): byte
  {
    FromBits(MsbParityBits(Bits(x)))
  }

  function MsbParityBits(x: bv8): bv8
  {
    var b := x & 0x7f;
    var t1 := b ^ (b << 4);
    var t2 := t1 ^ (t1 << 2);
    var t3 := t2 ^ (t2 << 1);
    b | (!t3 & 0x80)
  }

  /** Each byte keeps its low seven bits, gets an odd number of 1 bits, and
      stays the same when adjusted again. */
  lemma MsbParityByteProps(x: byte)
    ensures Bits(MsbParityByte(x)) & 0x7f == Bits(x) & 0x7f
    ensures OnesCount(Bits(MsbParityByte(x))) % 2 == 1
    ensures MsbParityByte(MsbParityByte(x)) == MsbParityByte(x)
  {
    FromBitsValue(MsbParityBits(Bits(x)));
    MsbParityBitsProps(Bits(x));
  }

  lemma MsbParityBitsProps(x: bv8)
    ensures MsbParityBits(x) & 0x7f == x & 0x7f
    ensures OnesCount(MsbParityBits(x)) % 2 == 1
    ensures MsbParityBits(MsbParityBits(x)) == MsbParityBits(x)
  {
  }

  /** The key `msbParity(keyBytes)` returns. */
  function MsbParity(keyBytes: seq<byte>): (r: seq<byte>)
    ensures |r| == |keyBytes|
  {
    seq(|keyBytes|, i requires 0 <= i < |keyBytes| => MsbParityByte(keyBytes[i]))
  }

  /** `msbParity`: adjust every byte into a fresh array. */
  method MsbParityKey(keyBytes: seq<byte>) returns (r: seq<byte>)
    ensures r == MsbParity(keyBytes)
  {
    var result := new byte[|keyBytes|](_ => 0);
    for i := 0 to |keyBytes|
      invariant forall k :: 0 <= k < i ==> result[k] == MsbParityByte(keyBytes[k])
    {
      result[i] := MsbParityByte(keyBytes[i]);
    }
    r := result[..];
  }

  /** `msbParity` keeps the length and each byte's low seven bits, gives
      every byte odd parity, and is idempotent. */
  lemma MsbParityProps(keyBytes: seq<byte>)
    ensures |MsbParity(keyBytes)| == |keyBytes|
    ensures forall i :: 0 <= i < |keyBytes| ==>
      Bits(MsbParity(keyBytes)[i]) & 0x7f == Bits(keyBytes[i]) & 0x7f
      && OnesCount(Bits(MsbParity(keyBytes)[i])) % 2 == 1
    ensures MsbParity(MsbParity(keyBytes)) == MsbParity(keyBytes)
  {
    forall i | 0 <= i < |keyBytes| {
      MsbParityByteProps(keyBytes[i]);
    }
  }

  // ---- Yamaha padding ----

  /** `addYamahaPadding(data)`: zeros up to the next multiple of 8, a whole
      block of them when the length is already one, the last byte holding
      the original length modulo 8. */
  function YamahaPad(data: seq<byte>): (r: seq<byte>)
    ensures |r| % 8 == 0 && |data| < |r| <= |data| + 8
  {
    var remainder := |data| % 8;
    var padLen := if remainder == 0 then 8 else 8 - remainder;
    data + Zeros(padLen - 1) + [remainder]
  }

  method AddYamahaPadding(data: seq<byte>) returns (r: seq<byte>)
    ensures r == YamahaPad(data)
  {
    var remainder := |data| % 8;
    var padLen := if remainder == 0 then 8 else 8 - remainder;
    var padded := new byte[|data| + padLen](_ => 0);
    CopyInto(padded, data, 0);
    padded[padded.Length - 1] := remainder;
    r := padded[..];
    assert r == data + Zeros(padLen - 1) + [remainder];
  }

  /** The padded length is the next multiple of 8 above the length (8 more
      when it already is one); the data comes first, then zeros, then one
      byte holding the length modulo 8. */
  lemma YamahaPadShape(data: seq<byte>)
    ensures var r := YamahaPad(data);
      && |r| % 8 == 0 && |data| < |r| <= |data| + 8
      && (|data| % 8 == 0 ==> |r| == |data| + 8)
      && r[..|data|] == data
      && (forall i :: |data| <= i < |r| - 1 ==> r[i] == 0)
      && r[|r| - 1] == |data| % 8
  {
    var r := YamahaPad(data);
    assert r[..|data|] == data;
  }

  // ---- DES-CBC ----

  function Xor8(a: Block, b: Block): Block
  {
    seq(8, i requires 0 <= i < 8 => Xor(a[i], b[i]))
  }

  /** CBC encryption from chaining block `prev`: each block is XORed with
      the previous ciphertext block, then encrypted. */
  function CbcEncrypt(encrypt: BlockCipher, key: seq<byte>, data: seq<byte>, prev: Block): (r: seq<byte>)
    requires |data| % 8 == 0
    ensures |r| == |data|
    decreases |data|
  {
    if data == [] then []
    else
      var c := encrypt(key, Xor8(data[..8], prev));
      c + CbcEncrypt(encrypt, key, data[8..], c)
  }

  /** The key `encryptDESCBC` uses: the one given, or `msbParity("Foatfkio")`. */
  function DesKey(key: Option<seq<byte>>): seq<byte>
  {
    if key.Some? then key.value else MsbParity(DES_KEY_RAW)
  }

  /** `encryptDESCBC(data, key)` for data of whole blocks. */
  method EncryptDesCbc(encrypt: BlockCipher, data: seq<byte>, key: Option<seq<byte>>) returns (r: seq<byte>)
    requires |data| % 8 == 0
    ensures r == CbcEncrypt(encrypt, DesKey(key), data, DES_IV)
  {
    var desKey := if key.Some? then key.value else MsbParity(DES_KEY_RAW);
    var encrypted := new byte[|data|](_ => 0);
    var prevBlock: Block := DES_IV;
    ghost var full := CbcEncrypt(encrypt, desKey, data, DES_IV);
    CbcStart(encrypt, desKey, data, full);
    assert encrypted[..0] == [];
    var i := 0;
    while i < |data|
      invariant 0 <= i <= |data| && i % 8 == 0
      invariant CbcSoFar(encrypt, desKey, data, i, prevBlock, encrypted[..i], full)
    {
      NextBlock(i, |data|);
      ghost var done := encrypted[..i];
      var encBlock := EncryptBlockAt(encrypt, desKey, data, i, prevBlock, encrypted);
      CbcEncryptStep(encrypt, desKey, data, i, prevBlock, done, full);
      prevBlock := encBlock;
      i := i + 8;
    }
    TakeAll(encrypted[..]);
    CbcDone(encrypt, desKey, data, prevBlock, encrypted[..], full);
    r := encrypted[..];
  }

  /** The loop state of `encryptDESCBC` after `i` bytes: the ciphertext so
      far, followed by CBC encryption of the rest chained on `prev`, is the
      whole ciphertext. */
  ghost predicate CbcSoFar(encrypt: BlockCipher, key: seq<byte>, data: seq<byte>, i: nat, prev: Block,
                           done: seq<byte>, full: seq<byte>)
  {
    && |data| % 8 == 0 && i <= |data| && i % 8 == 0
    && done + CbcEncrypt(encrypt, key, data[i..], prev) == full
  }

  lemma CbcStart(encrypt: BlockCipher, key: seq<byte>, data: seq<byte>, full: seq<byte>)
    requires |data| % 8 == 0 && full == CbcEncrypt(encrypt, key, data, DES_IV)
    ensures CbcSoFar(encrypt, key, data, 0, DES_IV, [], full)
  {
    assert data[0..] == data;
  }

  lemma CbcDone(encrypt: BlockCipher, key: seq<byte>, data: seq<byte>, prev: Block,
                done: seq<byte>, full: seq<byte>)
    requires CbcSoFar(encrypt, key, data, |data|, prev, done, full)
    ensures done == full
  {
    assert data[|data|..] == [];
    AppendNil(done);
  }

  /** One pass of the loop of `encryptDESCBC`: block `i` of the data, XORed
      with the previous ciphertext block and encrypted, is written at `i`. */
  method EncryptBlockAt(encrypt: BlockCipher, key: seq<byte>, data: seq<byte>, i: nat, prev: Block,
                        encrypted: array<byte>) returns (encBlock: Block)
    requires i + 8 <= |data| == encrypted.Length
    modifies encrypted
    ensures encBlock == encrypt(key, Xor8(data[i..i + 8], prev))
    ensures encrypted[..i + 8] == old(encrypted[..i]) + encBlock
  {
    var xored := XorBlock(data[i..i + 8], prev);
    encBlock := encrypt(key, xored);
    ghost var before := encrypted[..];
    CopyInto(encrypted, encBlock, i);
    TakeFront(before[..i], encBlock, before[i + 8..]);
  }

  /** CBC encryption from offset `i` emits one block, then goes on from
      offset `i + 8` chained on that block; so a ciphertext prefix `done`
      followed by the rest grows by that block. */
  lemma CbcEncryptStep(encrypt: BlockCipher, key: seq<byte>, data: seq<byte>, i: nat, prev: Block,
                       done: seq<byte>, full: seq<byte>)
    requires i + 8 <= |data| && CbcSoFar(encrypt, key, data, i, prev, done, full)
    ensures var c := encrypt(key, Xor8(data[i..i + 8], prev));
      CbcSoFar(encrypt, key, data, i + 8, c, done + c, full)
  {
    NextBlock(i, |data|);
    assert data[i..][..8] == data[i..i + 8] && data[i..][8..] == data[i + 8..];
  }

  /** The inner loop `xored[j] = data[i + j] ^ prevBlock[j]`. */
  method XorBlock(a: Block, b: Block) returns (r: Block)
    ensures r == Xor8(a, b)
  {
    var xored := new byte[8](_ => 0);
    for j := 0 to 8
      invariant forall k :: 0 <= k < j ==> xored[k] == Xor(a[k], b[k])
    {
      xored[j] := Xor(a[j], b[j]);
    }
    r := xored[..];
  }

  /** Block `i` of the ciphertext is the encryption of block `i` of the data
      XORed with ciphertext block `i - 1`, or with the chaining block for `i = 0`. */
  lemma {:induction false} CbcBlocks(encrypt: BlockCipher, key: seq<byte>, data: seq<byte>, prev: Block, i: nat)
    requires |data| % 8 == 0 && 8 * i + 8 <= |data|
    ensures var r := CbcEncrypt(encrypt, key, data, prev);
      var c: Block := if i == 0 then prev else r[8 * (i - 1)..8 * i];
      r[8 * i..8 * i + 8] == encrypt(key, Xor8(data[8 * i..8 * i + 8], c))
    decreases i
  {
    var r := CbcEncrypt(encrypt, key, data, prev);
    var c0 := encrypt(key, Xor8(data[..8], prev));
    var rest := CbcEncrypt(encrypt, key, data[8..], c0);
    assert r == c0 + rest;
    if i > 0 {
      var j := i - 1;
      assert 8 * i == 8 + 8 * j;
      CbcBlocks(encrypt, key, data[8..], c0, j);
      DropSlice(data, 8, 8 * j, 8 * j + 8);
      AppendSlice(c0, rest, 8 * j, 8 * j + 8);
      if j > 0 {
        AppendSlice(c0, rest, 8 * (j - 1), 8 * j);
      } else {
        TakeOfAppend(c0, rest, 8);
        TakeAll(c0);
      }
    }
  }

  // ---- Device-lock key derivation ----

  /** The XOR of column `i` over the first `n` 16-byte rows of `buf`. */
  function FoldColumn(buf: seq<byte>, i: nat, n: nat): byte
    requires |buf| == 128 && i < 16 && n <= 8
  {
    if n == 0 then 0 else Xor(FoldColumn(buf, i, n - 1), buf[(n - 1) * 16 + i])
  }

  /** Byte `i` of the long-path key: column `i` XORed over all eight rows. */
  function FoldedByte(buf: seq<byte>, i: nat): byte
    requires |buf| == 128 && i < 16
  {
    FoldColumn(buf, i, 8)
  }

  /** `keyDerivation(src)` on the encoded bytes: none for empty input;
      otherwise at most 128 bytes are used, XOR-folded into 16 when there are
      at least 16, or copied and extended with `XOR_SEED` when fewer. */
  function DeriveKey(src: seq<byte>): (r: Option<seq<byte>>)
    ensures r.None? <==> |src| == 0
    ensures r.Some? ==> |r.value| == 16
  {
    if |src| == 0 then None
    else
      var length := Min(|src|, 128);
      var buf := src[..length] + Zeros(128 - length);
      if length >= 16 then
        Some(seq(16, i requires 0 <= i < 16 => FoldedByte(buf, i)))
      else
        Some(src + seq(16 - length, j requires 0 <= j < 16 - length => Filler(src, j)))
  }

  /** Byte `length + j` of the key for a short input of `length` bytes: the
      seed byte there XORed with the input read cyclically. */
  function Filler(src: seq<byte>, j: nat): byte
    requires 0 < |src| < 16 && j < 16 - |src|
  {
    SeededFiller(XOR_SEED, src, j)
  }

  /** `Filler` for any 16-byte seed table; the loops below take the table as
      a parameter so that their proofs do not look inside the constant. */
  function SeededFiller(seed: seq<byte>, src: seq<byte>, j: nat): byte
    requires |seed| == 16 && 0 < |src| < 16 && j < 16 - |src|
  {
    Xor(seed[|src| + j], Cyclic(src, j))
  }

  /** Byte `j` of `src` repeated end to end. */
  function Cyclic(src: seq<byte>, j: nat): byte
    requires |src| > 0
    decreases j
  {
    if j < |src| then src[j] else Cyclic(src, j - |src|)
  }

  /** Reading cyclically is reading at `j % |src|`. */
  lemma {:induction false} CyclicIsMod(src: seq<byte>, j: nat)
    requires |src| > 0
    ensures Cyclic(src, j) == src[j % |src|]
    decreases j
  {
    if j >= |src| {
      CyclicIsMod(src, j - |src|);
      ModSub(j, |src|);
    }
  }

  /** Quotient and remainder are unique. */
  lemma ModUnique(x: int, n: int, q: int, r: int)
    requires n > 0 && 0 <= r < n && x == q * n + r
    ensures x % n == r
  {
    var q2, r2 := x / n, x % n;
    assert x == q2 * n + r2;
    var d := q - q2;
    assert d * n == r2 - r;
    MulBound(d, n);
  }

  lemma MulBound(d: int, n: int)
    requires n > 0 && -n < d * n < n
    ensures d == 0
  {
  }

  lemma ModSub(j: int, n: int)
    requires n > 0 && j >= n
    ensures (j - n) % n == j % n
  {
    var q, r := (j - n) / n, (j - n) % n;
    assert j - n == q * n + r;
    assert j == (q + 1) * n + r;
    ModUnique(j, n, q + 1, r);
  }

  /** `keyDerivation`: copy into a 128-byte buffer, then fill the 16 output bytes. */
  method KeyDerivation(src: seq<byte>) returns (r: Option<seq<byte>>)
    ensures r == DeriveKey(src)
  {
    var length := |src|;
    if length == 0 {
      return None;
    }
    if length > 128 {
      length := 128;
    }
    var buf := new byte[128](_ => 0);
    CopyInto(buf, src[..length], 0);
    assert buf[..] == src[..length] + Zeros(128 - length);
    var output;
    if length >= 16 {
      output := FoldRows(buf[..]);
    } else {
      output := ExtendShort(src, length);
    }
    r := Some(output);
  }

  /** The long path: `output[i]` is the XOR of column `i` over the eight rows. */
  method FoldRows(buf: seq<byte>) returns (r: seq<byte>)
    requires |buf| == 128
    ensures r == seq(16, i requires 0 <= i < 16 => FoldedByte(buf, i))
  {
    var output := new byte[16](_ => 0);
    for i := 0 to 16
      invariant forall k :: 0 <= k < i ==> output[k] == FoldedByte(buf, k)
    {
      var val := FoldOneColumn(buf, i);
      output[i] := val;
    }
    r := output[..];
  }

  /** The inner loop `val ^= buf[chunk * 16 + i]` over the eight rows. */
  method FoldOneColumn(buf: seq<byte>, i: nat) returns (val: byte)
    requires |buf| == 128 && i < 16
    ensures val == FoldedByte(buf, i)
  {
    val := 0;
    for chunk := 0 to 8
      invariant val == FoldColumn(buf, i, chunk)
    {
      val := Xor(val, buf[chunk * 16 + i]);
    }
  }

  /** The short path: copy the input, then fill up with the seed XORed with
      the input repeated. */
  method ExtendShort(src: seq<byte>, length: nat) returns (r: seq<byte>)
    requires 0 < length == |src| < 16
    ensures r == src + seq(16 - length, j requires 0 <= j < 16 - length => Filler(src, j))
  {
    var output := new byte[16](_ => 0);
    for i := 0 to length
      invariant forall k :: 0 <= k < i ==> output[k] == src[k]
    {
      output[i] := src[i];
    }
    FillTail(output, XOR_SEED, src, length);
    r := output[..];
    ExtendFromBytes(src, r);
  }

  /** The second loop of the short-input case: bytes `length` to 15 get the
      filler, the copied input before them stays. */
  method FillTail(output: array<byte>, seed: seq<byte>, src: seq<byte>, length: nat)
    requires output.Length == 16 && |seed| == 16 && 0 < length == |src| < 16
    modifies output
    ensures forall k :: 0 <= k < length ==> output[k] == old(output[k])
    ensures forall k :: 0 <= k < 16 - length ==> output[length + k] == SeededFiller(seed, src, k)
  {
    for j := 0 to 16 - length
      invariant forall k :: 0 <= k < length ==> output[k] == old(output[k])
      invariant forall k :: 0 <= k < j ==> output[length + k] == SeededFiller(seed, src, k)
    {
      output[length + j] := FillerByte(seed, src, length, j);
    }
  }

  /** Sixteen bytes holding the input, then the filler, are the extended key. */
  lemma ExtendFromBytes(src: seq<byte>, out: seq<byte>)
    requires 0 < |src| < 16 && |out| == 16
    requires forall k :: 0 <= k < |src| ==> out[k] == src[k]
    requires forall k :: 0 <= k < 16 - |src| ==> out[|src| + k] == Filler(src, k)
    ensures out == src + seq(16 - |src|, j requires 0 <= j < 16 - |src| => Filler(src, j))
  {
    var tail := seq(16 - |src|, j requires 0 <= j < 16 - |src| => Filler(src, j));
    forall n | 0 <= n < 16
      ensures out[n] == (src + tail)[n]
    {
      if n >= |src| {
        assert out[|src| + (n - |src|)] == Filler(src, n - |src|);
      }
    }
  }

  /** One step of the second loop: `XOR_SEED[length + j] ^ src[j % length]`. */
  method FillerByte(seed: seq<byte>, src: seq<byte>, length: nat, j: nat) returns (b: byte)
    requires |seed| == 16 && 0 < length == |src| < 16 && j < 16 - length
    ensures b == SeededFiller(seed, src, j)
  {
    var s := seed[length + j];
    var c := src[j % length];
    CyclicIsMod(src, j);
    assert s == seed[|src| + j] && c == Cyclic(src, j);
    b := Xor(s, c);
  }

  /** Only the first 128 input bytes matter. */
  lemma DeriveKeyFirst128(src: seq<byte>)
    requires |src| > 128
    ensures DeriveKey(src) == DeriveKey(src[..128])
  {
    assert src[..128][..128] == src[..128];
  }

  lemma {:induction false} FoldOneRow(buf: seq<byte>, i: nat, n: nat)
    requires |buf| == 128 && i < 16 && 1 <= n <= 8
    requires forall c :: 1 <= c < 8 ==> buf[c * 16 + i] == 0
    ensures FoldColumn(buf, i, n) == buf[i]
  {
    if n > 1 {
      FoldOneRow(buf, i, n - 1);
      assert buf[(n - 1) * 16 + i] == 0;
      XorZero(FoldColumn(buf, i, n - 1));
    } else {
      XorZero(buf[i]);
    }
  }

  /** A 16-byte input is its own key: the other seven rows of the fold are zero. */
  lemma DeriveKeyOf16(src: seq<byte>)
    requires |src| == 16
    ensures DeriveKey(src) == Some(src)
  {
    var buf := src[..16] + Zeros(112);
    forall i | 0 <= i < 16 ensures FoldedByte(buf, i) == src[i] {
      FoldOneRow(buf, i, 8);
    }
    assert src[..Min(16, 128)] + Zeros(128 - Min(16, 128)) == buf;
    assert seq(16, i requires 0 <= i < 16 => FoldedByte(buf, i)) == src;
  }

  /** A shorter input is kept as the start of the key, the rest is the seed
      XORed with the input repeated. */
  lemma DeriveKeyShort(src: seq<byte>)
    requires 0 < |src| < 16
    ensures var k := DeriveKey(src).value;
      && k[..|src|] == src
      && forall j :: 0 <= j < 16 - |src| ==> k[|src| + j] == Xor(XOR_SEED[|src| + j], src[j % |src|])
  {
    forall j | 0 <= j < 16 - |src|
      ensures Cyclic(src, j) == src[j % |src|]
    {
      CyclicIsMod(src, j);
    }
  }

  // ---- Key expansion ----

  /** Byte `j` of third `r` of the expanded key: the XOR of the two key bytes
      the index table names at `2j + 16r` and `2j + 1 + 16r`. The table is a
      parameter, so that the loops' proofs do not look inside the constant. */
  function TablePairXor(table: seq<KeyIndex>, key16: seq<byte>, r: nat, j: nat): byte
    requires |table| == 48 && |key16| == 16 && r < 3 && j < 8
  {
    Xor(key16[table[2 * j + r * 16]], key16[table[2 * j + 1 + r * 16]])
  }

  /** The 24 bytes `keyExpansion(key16)` returns, three thirds of eight. */
  function Expand(key16: seq<byte>): (r: seq<byte>)
    requires |key16| == 16
    ensures |r| == 24
  {
    TableExpand(EXPANSION_TABLE, key16)
  }

  /** `Expand` for any 48-entry index table. */
  function TableExpand(table: seq<KeyIndex>, key16: seq<byte>): (r: seq<byte>)
    requires |table| == 48 && |key16| == 16
    ensures |r| == 24
  {
    seq(24, n requires 0 <= n < 24 => TablePairXor(table, key16, n / 8, n % 8))
  }

  /** `keyExpansion`: the two nested loops over thirds and bytes, reading
      the expansion table. */
  method KeyExpansion(key16: seq<byte>) returns (r: seq<byte>)
    requires |key16| == 16
    ensures r == Expand(key16)
  {
    r := ExpandWithTable(EXPANSION_TABLE, key16);
  }

  /** The loops of `keyExpansion` over a given index table. */
  method ExpandWithTable(table: seq<KeyIndex>, key16: seq<byte>) returns (r: seq<byte>)
    requires |table| == 48 && |key16| == 16
    ensures r == TableExpand(table, key16)
  {
    var output := new byte[24](_ => 0);
    for row := 0 to 3
      invariant forall t, m :: 0 <= t < row && 0 <= m < 8 ==> output[8 * t + m] == TablePairXor(table, key16, t, m)
    {
      FillThird(output, table, key16, row);
    }
    r := output[..];
    ExpandFromBytes(table, key16, r);
  }

  /** The inner loop of `keyExpansion`: fills third `row` of the output and
      leaves the thirds before it as they were. */
  method FillThird(output: array<byte>, table: seq<KeyIndex>, key16: seq<byte>, row: nat)
    requires output.Length == 24 && |table| == 48 && |key16| == 16 && row < 3
    modifies output
    ensures forall m :: 0 <= m < 8 ==> output[8 * row + m] == TablePairXor(table, key16, row, m)
    ensures forall n :: 0 <= n < 8 * row ==> output[n] == old(output[n])
  {
    for j := 0 to 8
      invariant forall n :: 0 <= n < 8 * row ==> output[n] == old(output[n])
      invariant forall m :: 0 <= m < j ==> output[8 * row + m] == TablePairXor(table, key16, row, m)
    {
      output[8 * row + j] := PairXor(table, key16, row, j);
    }
  }

  /** One step of the inner loop of `keyExpansion`: the XOR of the two key
      bytes the table names for third `row`, pair `j`. */
  method PairXor(table: seq<KeyIndex>, key16: seq<byte>, row: nat, j: nat) returns (b: byte)
    requires |table| == 48 && |key16| == 16 && row < 3 && j < 8
    ensures b == TablePairXor(table, key16, row, j)
  {
    var idx1 := table[2 * j + row * 16];
    var idx2 := table[2 * j + 1 + row * 16];
    b := Xor(key16[idx1], key16[idx2]);
  }

  /** A 24-byte sequence whose byte `8t + m` is the pair XOR of third `t`,
      pair `m`, for every third and pair, is the expanded key. */
  lemma ExpandFromBytes(table: seq<KeyIndex>, key16: seq<byte>, out: seq<byte>)
    requires |table| == 48 && |key16| == 16 && |out| == 24
    requires forall t, m :: 0 <= t < 3 && 0 <= m < 8 ==> out[8 * t + m] == TablePairXor(table, key16, t, m)
    ensures out == TableExpand(table, key16)
  {
    forall n | 0 <= n < 24
      ensures out[n] == TableExpand(table, key16)[n]
    {
      var t, m := n / 8, n % 8;
      assert n == 8 * t + m;
      assert out[8 * t + m] == TablePairXor(table, key16, t, m);
    }
  }

  // ---- 3DES ----

  /** The 3DES key `tripleDesEncryptCBC` passes to Node: each 8-byte third
      of the expanded key with MSB parity. */
  function TripleKey(key24: seq<byte>): seq<byte>
    requires |key24| == 24
  {
    MsbParity(key24[..8]) + MsbParity(key24[8..16]) + MsbParity(key24[16..24])
  }

  /** `tripleDesEncryptCBC`: 3DES-EDE in CBC mode, zero IV, no padding. The
      CBC chaining is Node's, and the 3DES block function is a parameter. */
  function TripleDesEncryptCbc(tdes: BlockCipher, data: seq<byte>, key24: seq<byte>): (r: seq<byte>)
    requires |data| % 8 == 0 && |key24| == 24
    ensures |r| == |data|
  {
    CbcEncrypt(tdes, TripleKey(key24), data, DES_IV)
  }

  /** The 3DES key holds 24 bytes, each with odd parity and the low seven
      bits of the expanded key. */
  lemma TripleKeyParity(key24: seq<byte>)
    requires |key24| == 24
    ensures var k := TripleKey(key24);
      && |k| == 24
      && forall i :: 0 <= i < 24 ==> Bits(k[i]) & 0x7f == Bits(key24[i]) & 0x7f && OnesCount(Bits(k[i])) % 2 == 1
  {
    var k := TripleKey(key24);
    forall i | 0 <= i < 24 ensures Bits(k[i]) & 0x7f == Bits(key24[i]) & 0x7f && OnesCount(Bits(k[i])) % 2 == 1 {
      MsbParityByteProps(key24[i]);
      if i < 8 {
        assert k[i] == MsbParity(key24[..8])[i];
      } else if i < 16 {
        assert k[i] == MsbParity(key24[8..16])[i - 8];
      } else {
        assert k[i] == MsbParity(key24[16..24])[i - 16];
      }
    }
  }

  // ---- The device-locked CSEC ----

  /** `secondData[j] = (keySlot[j] + firstData[15 - j]) & 0xff`: the sum
      modulo 256. */
  function SecondData(keySlot: seq<byte>, firstData: seq<byte>): (r: seq<byte>)
    requires |keySlot| == 16 && |firstData| == 16
    ensures |r| == 16
  {
    seq(16, j requires 0 <= j < 16 => LowByte(keySlot[j] as int + firstData[15 - j] as int))
  }

  method ComputeSecondData(keySlot: seq<byte>, firstData: seq<byte>) returns (r: seq<byte>)
    requires |keySlot| == 16 && |firstData| == 16
    ensures r == SecondData(keySlot, firstData)
  {
    var secondData := new byte[16](_ => 0);
    for j := 0 to 16
      invariant forall k :: 0 <= k < j ==> secondData[k] == LowByte(keySlot[k] as int + firstData[15 - k] as int)
    {
      secondData[j] := LowByte(keySlot[j] as int + firstData[15 - j] as int);
    }
    r := secondData[..];
  }

  /** The key slot is recovered from the two halves of the key-verify
      block: `keySlot[j] = (secondData[j] - firstData[15 - j]) mod 256`. */
  lemma SecondDataRecoversKeySlot(keySlot: seq<byte>, firstData: seq<byte>)
    requires |keySlot| == 16 && |firstData| == 16
    ensures forall j :: 0 <= j < 16 ==> LowByte(SecondData(keySlot, firstData)[j] as int - firstData[15 - j] as int) == keySlot[j]
  {
  }

  /** The plaintext of the security block: `ABCF` holding 00 01, then the
      `ABEI` container of `AIRI` and `AIVF`. */
  function CsecPlaintext(airi: seq<byte>, aivf: seq<byte>): seq<byte>
  {
    Chunk(ABCF, [0x00, 0x01]) + Chunk(ABEI, Chunk(AIRI, airi) + Chunk(AIVF, aivf))
  }

  /** The locked security block built from the 16-byte key slot. */
  function LockedCsecOf(des: BlockCipher, tdes: BlockCipher, keySlot: seq<byte>, firstData: seq<byte>): seq<byte>
    requires |keySlot| == 16 && |firstData| == 16
  {
    var airi := CbcEncrypt(des, MsbParity(DES_KEY_DUALSEAL), YamahaPad(firstData), DES_IV);
    var aivf := TripleDesEncryptCbc(tdes, SecondData(keySlot, firstData), Expand(keySlot));
    CbcEncrypt(des, MsbParity(DES_KEY_RAW), YamahaPad(CsecPlaintext(airi, aivf)), DES_IV)
  }

  const EMPTY_FULL_ID: string := "Cannot generate device-locked CSEC: empty fullId"

  /** `generateLockedCSEC(fullId)` with the random `firstData` as a parameter. */
  function LockedCsec(des: BlockCipher, tdes: BlockCipher, fullId: seq<byte>, firstData: seq<byte>): Result<seq<byte>>
    requires |firstData| == 16
  {
    match DeriveKey(fullId)
    case None => Failure(EMPTY_FULL_ID)
    case Some(keySlot) => Success(LockedCsecOf(des, tdes, keySlot, firstData))
  }

  method GenerateLockedCsec(des: BlockCipher, tdes: BlockCipher, fullId: seq<byte>, firstData: seq<byte>)
    returns (r: Result<seq<byte>>)
    requires |firstData| == 16
    ensures r == LockedCsec(des, tdes, fullId, firstData)
  {
    var keySlot := KeyDerivation(fullId);
    if keySlot.None? {
      return Failure(EMPTY_FULL_ID);
    }
    var secondData := ComputeSecondData(keySlot.value, firstData);
    var firstDataPadded := AddYamahaPadding(firstData);
    var dualseal := MsbParityKey(DES_KEY_DUALSEAL);
    var airi := EncryptDesCbc(des, firstDataPadded, Some(dualseal));
    var key24 := KeyExpansion(keySlot.value);
    var aivf := TripleDesEncryptCbc(tdes, secondData, key24);
    var abcf := BuildChunk(ABCF, [0x00, 0x01]);
    var airiChunk := BuildChunk(AIRI, airi);
    var aivfChunk := BuildChunk(AIVF, aivf);
    var abei := BuildContainerChunk(ABEI, [airiChunk, aivfChunk]);
    var csecPlaintext := ConcatArrays([abcf, abei]);
    FlattenPair(airiChunk, aivfChunk);
    FlattenPair(abcf, abei);
    var csecPadded := AddYamahaPadding(csecPlaintext);
    var encrypted := EncryptDesCbc(des, csecPadded, None);
    r := Success(encrypted);
  }

  /** The locked block fails exactly for an empty `fullId`; otherwise its
      74-byte plaintext pads to 80 bytes, the length of the standard block. */
  lemma LockedCsecLength(des: BlockCipher, tdes: BlockCipher, fullId: seq<byte>, firstData: seq<byte>)
    requires |firstData| == 16
    ensures LockedCsec(des, tdes, fullId, firstData).Failure? <==> fullId == []
    ensures LockedCsec(des, tdes, fullId, firstData).Success? ==>
      |LockedCsec(des, tdes, fullId, firstData).value| == 80 == |CSEC_ENCRYPTED_DATA|
  {
    match DeriveKey(fullId)
    case None =>
    case Some(keySlot) => LockedCsecOfLength(des, tdes, keySlot, firstData);
  }

  /** The block built from any 16-byte key slot holds 80 bytes. */
  lemma LockedCsecOfLength(des: BlockCipher, tdes: BlockCipher, keySlot: seq<byte>, firstData: seq<byte>)
    requires |keySlot| == 16 && |firstData| == 16
    ensures |LockedCsecOf(des, tdes, keySlot, firstData)| == 80
  {
    var airi := CbcEncrypt(des, MsbParity(DES_KEY_DUALSEAL), YamahaPad(firstData), DES_IV);
    var aivf := TripleDesEncryptCbc(tdes, SecondData(keySlot, firstData), Expand(keySlot));
    PadLength(firstData, 24);
    assert |airi| == 24 && |aivf| == 16;
    CsecPlaintextLength(airi, aivf);
    PadLength(CsecPlaintext(airi, aivf), 80);
  }

  /** Data one to eight bytes short of a multiple `n` of 8 pads to `n` bytes. */
  lemma PadLength(data: seq<byte>, n: nat)
    requires n % 8 == 0 && n - 8 <= |data| < n
    ensures |YamahaPad(data)| == n
  {
  }

  lemma CsecPlaintextLength(airi: seq<byte>, aivf: seq<byte>)
    ensures |CsecPlaintext(airi, aivf)| == 34 + |airi| + |aivf|
  {
  }

  // ---- The encrypted file ----

  /** `alignPad`: zeros after the `XMDL` chunk up to a multiple of 4. */
  function AlignPad(modelName: seq<byte>): (r: nat)
    ensures r < 4
  {
    (4 - (8 + |modelName|) % 4) % 4
  }

  /** The `XPIH` payload of the encrypted file: `XMDL` with the raw model
      name (no NUL), the alignment zeros, then `XPID`. */
  function XpihPayload(modelName: seq<byte>, packInstallId: int): seq<byte>
  {
    Chunk(XMDL, modelName) + Zeros(AlignPad(modelName)) + Chunk(XPID, Be32(packInstallId))
  }

  /** `fullId ? generateLockedCSEC(fullId) : CSEC_ENCRYPTED_DATA`: an absent
      or empty `fullId` selects the standard block. */
  function CsecData(des: BlockCipher, tdes: BlockCipher, fullId: Option<seq<byte>>, firstData: seq<byte>): seq<byte>
    requires |firstData| == 16
  {
    if fullId.Some? && fullId.value != [] then LockedCsecOf(des, tdes, DeriveKey(fullId.value).value, firstData)
    else CSEC_ENCRYPTED_DATA
  }

  /** The plaintext payload: the same chunks the plaintext writer puts after its header. */
  function PayloadPlain(packData: PpfData, selectedIndices: Option<seq<int>>): seq<byte>
  {
    Flatten(ChunksOf(PayloadFrames(packData, selectedIndices)))
  }

  /** The ciphertext tail: the payload padded and DES-CBC encrypted under "Foatfkio". */
  function PayloadCipher(des: BlockCipher, packData: PpfData, selectedIndices: Option<seq<int>>): seq<byte>
  {
    CbcEncrypt(des, MsbParity(DES_KEY_RAW), YamahaPad(PayloadPlain(packData, selectedIndices)), DES_IV)
  }

  /** The bytes `buildEncryptedCPI` returns. */
  function EncryptedCpi(des: BlockCipher, tdes: BlockCipher, packData: PpfData, modelName: seq<byte>,
                        packInstallId: int, selectedIndices: Option<seq<int>>, fullId: Option<seq<byte>>,
                        firstData: seq<byte>): seq<byte>
    requires |firstData| == 16
  {
    Chunk(XPIH, XpihPayload(modelName, packInstallId))
    + Chunk(CSEC, CsecData(des, tdes, fullId, firstData))
    + PayloadCipher(des, packData, selectedIndices)
  }

  /** Step 1 of `buildEncryptedCPI`: the unencrypted model-lock header. */
  method BuildXpih(modelName: seq<byte>, packInstallId: int) returns (xpihChunk: seq<byte>)
    ensures xpihChunk == Chunk(XPIH, XpihPayload(modelName, packInstallId))
  {
    var xmdlChunk := BuildChunk(XMDL, modelName);
    var alignPad := (4 - |xmdlChunk| % 4) % 4;
    var padding := Zeros(alignPad);
    var xpidData := new byte[4](_ => 0);
    WriteUint32BE(xpidData, 0, packInstallId);
    assert xpidData[..] == Be32(packInstallId);
    var xpidChunk := BuildChunk(XPID, xpidData[..]);
    assert |xmdlChunk| == 8 + |modelName| && alignPad == AlignPad(modelName);
    var xpihInner := Assemble(xmdlChunk, padding, xpidChunk);
    assert xpihInner == XpihPayload(modelName, packInstallId);
    xpihChunk := BuildChunk(XPIH, xpihInner);
  }

  /** Step 2: the device-locked block for a non-empty `fullId`, the
      standard one otherwise. */
  method SelectCsec(des: BlockCipher, tdes: BlockCipher, fullId: Option<seq<byte>>, firstData: seq<byte>)
    returns (csecData: seq<byte>)
    requires |firstData| == 16
    ensures csecData == CsecData(des, tdes, fullId, firstData)
  {
    csecData := CSEC_ENCRYPTED_DATA;
    if fullId.Some? && fullId.value != [] {
      var locked := GenerateLockedCsec(des, tdes, fullId.value, firstData);
      csecData := locked.value;
    }
  }

  /** Steps 3 and 4: the payload chunks, concatenated, padded and encrypted. */
  method EncryptPayload(des: BlockCipher, packData: PpfData, selectedIndices: Option<seq<int>>)
    returns (payloadEncrypted: seq<byte>)
    ensures payloadEncrypted == PayloadCipher(des, packData, selectedIndices)
  {
    var payloadParts := PayloadParts(packData, selectedIndices);
    var payloadRaw := ConcatArrays(payloadParts);
    var payloadPadded := AddYamahaPadding(payloadRaw);
    payloadEncrypted := EncryptDesCbc(des, payloadPadded, None);
  }

  /** Three buffers copied one after another into a fresh one with a cursor:
      the `xpihPos` copies of step 1 and the `offset` copies of step 5. */
  method Assemble(a: seq<byte>, b: seq<byte>, c: seq<byte>) returns (r: seq<byte>)
    ensures r == a + b + c
  {
    var result := new byte[|a| + |b| + |c|](_ => 0);
    var offset := 0;
    CopyInto(result, a, offset);
    offset := offset + |a|;
    CopyInto(result, b, offset);
    offset := offset + |b|;
    CopyInto(result, c, offset);
    r := result[..];
    assert r == a + b + c;
  }

  /** `buildEncryptedCPI`. */
  method BuildEncryptedCpi(des: BlockCipher, tdes: BlockCipher, packData: PpfData, modelName: seq<byte>,
                           packInstallId: int, selectedIndices: Option<seq<int>>, fullId: Option<seq<byte>>,
                           firstData: seq<byte>) returns (r: seq<byte>)
    requires |firstData| == 16
    ensures r == EncryptedCpi(des, tdes, packData, modelName, packInstallId, selectedIndices, fullId, firstData)
  {
    var xpihChunk := BuildXpih(modelName, packInstallId);
    var csecData := SelectCsec(des, tdes, fullId, firstData);
    var csecChunk := BuildChunk(CSEC, csecData);
    var payloadEncrypted := EncryptPayload(des, packData, selectedIndices);
    r := Assemble(xpihChunk, csecChunk, payloadEncrypted);
  }

  // ---- Properties of the encrypted layout ----

  /** The alignment zeros never reach 4 and end the `XMDL` chunk on a multiple of 4. */
  lemma AlignPadProps(modelName: seq<byte>)
    ensures AlignPad(modelName) < 4
    ensures (8 + |modelName| + AlignPad(modelName)) % 4 == 0
  {
  }

  /** The encrypted header's payload is 20 bytes longer than the model name
      and its zeros, a multiple of 4. */
  lemma XpihPayloadLength(modelName: seq<byte>, packInstallId: int)
    ensures |XpihPayload(modelName, packInstallId)| == 20 + |modelName| + AlignPad(modelName)
    ensures |XpihPayload(modelName, packInstallId)| % 4 == 0
  {
    var p := XpihPayload(modelName, packInstallId);
    var k := 8 + |modelName| + AlignPad(modelName);
    assert |p| == k + 12;
    AlignPadProps(modelName);
    MultipleOf4(k, |p|);
  }

  lemma MultipleOf4(k: int, m: int)
    requires k % 4 == 0 && m == k + 12
    ensures m % 4 == 0
  {
  }

  /** The encrypted header's payload, piece by piece: `XMDL` with the bare
      model name, the zeros, then `XPID` with the install id in big-endian
      order at its end. Its length is a multiple of 4. */
  lemma XpihPayloadLayout(modelName: seq<byte>, packInstallId: int)
    requires 0 <= packInstallId < U32_BOUND && |modelName| < U32_BOUND
    ensures var p := XpihPayload(modelName, packInstallId);
      var n, a := |modelName|, AlignPad(modelName);
      && |p| == 20 + n + a && |p| % 4 == 0
      && p[..4] == XMDL && ReadUint32BE(p, 4) == n && p[8..8 + n] == modelName
      && p[8 + n..8 + n + a] == Zeros(a)
      && p[8 + n + a..12 + n + a] == XPID
      && ReadUint32BE(p, 16 + n + a) == packInstallId
  {
    XpihPayloadLength(modelName, packInstallId);
    XmdlAtStart(modelName, packInstallId);
    XpidAtEnd(modelName, packInstallId);
  }

  /** `XMDL` opens the encrypted header's payload, followed by the zeros. */
  lemma XmdlAtStart(modelName: seq<byte>, packInstallId: int)
    requires |modelName| < U32_BOUND
    ensures var p := XpihPayload(modelName, packInstallId);
      var n, a := |modelName|, AlignPad(modelName);
      && 8 + n + a <= |p|
      && p[..4] == XMDL && ReadUint32BE(p, 4) == n && p[8..8 + n] == modelName
      && p[8 + n..8 + n + a] == Zeros(a)
  {
    var z := Zeros(AlignPad(modelName));
    var y := Chunk(XPID, Be32(packInstallId));
    var p := XpihPayload(modelName, packInstallId);
    AppendAssoc(Chunk(XMDL, modelName), z, y);
    ChunkFoundAt(p, 0, XMDL, modelName, z + y);
    Tag4Of(XMDL);
    XpihTail(p, 8 + |modelName|, z, y);
  }

  /** `XPID` closes the encrypted header's payload, with the install id. */
  lemma XpidAtEnd(modelName: seq<byte>, packInstallId: int)
    requires 0 <= packInstallId < U32_BOUND
    ensures var p := XpihPayload(modelName, packInstallId);
      var n, a := |modelName|, AlignPad(modelName);
      && 20 + n + a == |p|
      && p[8 + n + a..12 + n + a] == XPID
      && ReadUint32BE(p, 16 + n + a) == packInstallId
  {
    var n, a := |modelName|, AlignPad(modelName);
    var x := Chunk(XMDL, modelName) + Zeros(a);
    var y := Chunk(XPID, Be32(packInstallId));
    var p := XpihPayload(modelName, packInstallId);
    var d := 8 + n + a;
    assert |x| == d && p == x + y;
    DropAppend(x, y);
    AppendNil(y);
    ChunkFoundAt(p, d, XPID, Be32(packInstallId), []);
    Tag4Of(XPID);
    ReadUint32BEFrom(p, d + 8, packInstallId);
  }

  /** A suffix `z ++ y` of `p` starting at `d`: `z` lies at `d`, `y` right after. */
  lemma XpihTail(p: seq<byte>, d: nat, z: seq<byte>, y: seq<byte>)
    requires d <= |p| && p[d..] == z + y
    ensures d + |z| <= |p| && p[d..d + |z|] == z && p[d + |z|..] == y
  {
    TakeOfAppend(z, y, |z|);
    TakeAll(z);
    DropSlice(p, d, 0, |z|);
    DropAppend(z, y);
    DropDrop(p, d, |z|);
  }

  /** The two writers disagree on `XMDL`: the encrypted header declares the
      bare model name's length, the plaintext writer's header declares one
      more, for its NUL. */
  lemma XmdlDiffers(modelName: seq<byte>, packInstallId: int)
    requires 0 <= packInstallId < U32_BOUND && |modelName| + 1 < U32_BOUND
    ensures |XpihPayload(modelName, packInstallId)| >= 8 && |HeaderFrame(modelName, packInstallId).payload| >= 8
    ensures ReadUint32BE(XpihPayload(modelName, packInstallId), 4) == |modelName|
    ensures ReadUint32BE(HeaderFrame(modelName, packInstallId).payload, 4) == |modelName| + 1
  {
    XmdlAtStart(modelName, packInstallId);
    XmdlInHeaderFrame(modelName, packInstallId);
  }

  /** The plaintext writer's `XMDL` declares the model name and its NUL. */
  lemma XmdlInHeaderFrame(modelName: seq<byte>, packInstallId: int)
    requires 0 <= packInstallId < U32_BOUND && |modelName| + 1 < U32_BOUND
    ensures |HeaderFrame(modelName, packInstallId).payload| >= 8
    ensures ReadUint32BE(HeaderFrame(modelName, packInstallId).payload, 4) == |modelName| + 1
  {
    HeaderPayloadLength(modelName, packInstallId);
    ChunkThen(XMDL, modelName + [0], Chunk(XPID, Be32(packInstallId)));
  }

  /** The security block is always 80 bytes; an absent or empty `fullId`
      selects the standard block. */
  lemma CsecDataLength(des: BlockCipher, tdes: BlockCipher, fullId: Option<seq<byte>>, firstData: seq<byte>)
    requires |firstData| == 16
    ensures |CsecData(des, tdes, fullId, firstData)| == 80
  {
    if fullId.Some? && fullId.value != [] {
      LockedCsecLength(des, tdes, fullId.value, firstData);
    } else {
      CsecConstantLength();
    }
  }

  /** Without a device id the fixed security block is used unchanged. */
  lemma CsecDataDefault(des: BlockCipher, tdes: BlockCipher, fullId: Option<seq<byte>>, firstData: seq<byte>)
    requires |firstData| == 16
    requires fullId.None? || fullId.value == []
    ensures CsecData(des, tdes, fullId, firstData) == CSEC_ENCRYPTED_DATA
  {
  }

  lemma CsecConstantLength()
    ensures |CSEC_ENCRYPTED_DATA| == 80
  {
  }

  /** The ciphertext tail is a positive multiple of 8 bytes, 1 to 8 bytes
      longer than the plaintext payload. */
  lemma PayloadCipherLength(des: BlockCipher, packData: PpfData, selectedIndices: Option<seq<int>>)
    ensures var c, p := PayloadCipher(des, packData, selectedIndices), PayloadPlain(packData, selectedIndices);
      |c| % 8 == 0 && |p| < |c| <= |p| + 8
  {
  }

  /** Where a reader finds each part of `out`, built from the header payload
      `x`, the security block `c` and the ciphertext tail `t`: the `XPIH` tag
      and the header length at 0 and 4, the `CSEC` tag and its length 80 right
      after the header, then exactly the tail. */
  ghost predicate CpiLayout(out: seq<byte>, x: seq<byte>, c: seq<byte>, t: seq<byte>)
  {
    && |out| == 96 + |x| + |t|
    && out[..4] == XPIH && ReadUint32BE(out, 4) == |x|
    && out[8..8 + |x|] == x
    && out[8 + |x|..12 + |x|] == CSEC && ReadUint32BE(out, 12 + |x|) == 80
    && out[16 + |x|..96 + |x|] == c
    && out[96 + |x|..] == t
  }

  /** The encrypted file has the layout `CpiLayout` of its three parts. */
  lemma EncryptedLayout(des: BlockCipher, tdes: BlockCipher, packData: PpfData, modelName: seq<byte>,
                        packInstallId: int, selectedIndices: Option<seq<int>>, fullId: Option<seq<byte>>,
                        firstData: seq<byte>)
    requires |firstData| == 16
    requires 0 <= packInstallId < U32_BOUND && 23 + |modelName| < U32_BOUND
    ensures CpiLayout(EncryptedCpi(des, tdes, packData, modelName, packInstallId, selectedIndices, fullId, firstData),
                      XpihPayload(modelName, packInstallId), CsecData(des, tdes, fullId, firstData),
                      PayloadCipher(des, packData, selectedIndices))
  {
    XpihPayloadLength(modelName, packInstallId);
    CsecDataLength(des, tdes, fullId, firstData);
    ThreeParts(EncryptedCpi(des, tdes, packData, modelName, packInstallId, selectedIndices, fullId, firstData),
               XpihPayload(modelName, packInstallId), CsecData(des, tdes, fullId, firstData),
               PayloadCipher(des, packData, selectedIndices));
  }

  /** `XPIH(x) ++ CSEC(c) ++ t` has the layout `CpiLayout` for any header
      payload `x`, 80-byte security block `c` and tail `t`. */
  lemma ThreeParts(out: seq<byte>, x: seq<byte>, c: seq<byte>, t: seq<byte>)
    requires |x| < U32_BOUND && |c| == 80
    requires out == Chunk(XPIH, x) + Chunk(CSEC, c) + t
    ensures CpiLayout(out, x, c, t)
  {
    var rest := Chunk(CSEC, c) + t;
    AppendAssoc(Chunk(XPIH, x), Chunk(CSEC, c), t);
    ChunkThen(XPIH, x, rest);
    CsecAt(out, 8 + |x|, c, t);
  }

  /** A CSEC chunk of an 80-byte block `c` followed by `t`, found at offset `d`. */
  lemma CsecAt(out: seq<byte>, d: nat, c: seq<byte>, t: seq<byte>)
    requires |c| == 80 && d <= |out| && out[d..] == Chunk(CSEC, c) + t
    ensures d + 88 <= |out|
    ensures && out[d..d + 4] == CSEC && ReadUint32BE(out, d + 4) == 80
      && out[d + 8..d + 88] == c && out[d + 88..] == t
  {
    ChunkThen(CSEC, c, t);
    DropSlice(out, d, 0, 4);
    ReadUint32BEShift(out, d, 4);
    DropSlice(out, d, 8, 88);
    DropDrop(out, d, 88);
  }
}
