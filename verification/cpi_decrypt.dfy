/** The reading side of the two decryption scripts decrypt-cpi.js and
    decrypt-cpi-v2.js: their copy of the parity adjustment, the padding
    removal, the hand-written CBC decryption loop and the offset walk that
    finds the header, the security block and the encrypted payload. The
    two scripts share these pieces line for line, so they are modelled
    once. The DES block decryption of des.js is a parameter. */
module CpiDecrypt {
  import opened Wrappers
  import opened Bytes
  import opened ChunkCodec
  import opened PpfParser
  import opened PpiWriter
  import opened PackRoundTrip
  import opened CpiEncryptor

  /** `des.decrypt(block)` under a key: the block handed over is the slice
      `encrypted.slice(i, i + 8)`, which is short at a ragged end. */
  type BlockDecipher = (seq<byte>, seq<byte>) -> Block

  // ---- adjustDESParity ----

  /** `key[i]` as the bit operations see it: a byte past the end of the key
      is `undefined`, which `& 0x7F` turns into 0. */
  function KeyByte(key: seq<byte>, i: nat): byte
  {
    if i < |key| then key[i] else 0
  }

  /** One byte of `adjustDESParity`. The script works on 32-bit integers
      without masking `t` back to a byte; `b` has 7 bits, so `t` stays below
      2^15 and the result below 2^8. */
  function AdjustParityByte(x: byte): byte
  {
    var b: bv32 := Bits(x) as bv32 & 0x7F;
    var t1 := b ^ (b << 4);
    var t2 := t1 ^ (t1 << 2);
    var t3 := t2 ^ (t2 << 1);
    FromBits((b | (!t3 & 0x80)) as bv8)
  }

  /** The 8 bytes `adjustDESParity(key)` returns. */
  function AdjustParity(key: seq<byte>): (r: seq<byte>)
    ensures |r| == 8
  {
    seq(8, i requires 0 <= i < 8 => AdjustParityByte(KeyByte(key, i)))
  }

  /** `adjustDESParity`: fill a fresh 8-byte buffer one byte at a time. */
  method AdjustDesParity(key: seq<byte>) returns (r: seq<byte>)
    ensures r == AdjustParity(key)
  {
    var adjusted := new byte[8](_ => 0);
    for i := 0 to 8
      invariant forall k :: 0 <= k < i ==> adjusted[k] == AdjustParityByte(KeyByte(key, k))
    {
      var b: bv32 := Bits(KeyByte(key, i)) as bv32 & 0x7F;
      var t := b;
      t := t ^ (t << 4);
      t := t ^ (t << 2);
      t := t ^ (t << 1);
      adjusted[i] := FromBits((b | (!t & 0x80)) as bv8);
    }
    r := adjusted[..];
  }

  /** The 32-bit computation gives the same byte as the encryptor's 8-bit one:
      left shifts never carry the higher bits down into bit 7. */
  lemma AdjustParityByteIsMsbParity(x: byte)
    ensures AdjustParityByte(x) == MsbParityByte(x)
  {
  }

  /** On an 8-byte key the script's adjustment is the encryptor's `msbParity`;
      on any key every byte keeps its low 7 bits and has odd parity. */
  lemma AdjustParityIsMsbParity(key: seq<byte>)
    ensures |key| == 8 ==> AdjustParity(key) == MsbParity(key)
    ensures forall i :: 0 <= i < 8 ==>
      Bits(AdjustParity(key)[i]) & 0x7F == Bits(KeyByte(key, i)) & 0x7F
      && OnesCount(Bits(AdjustParity(key)[i])) % 2 == 1
  {
    forall i | 0 <= i < 8
      ensures AdjustParity(key)[i] == MsbParityByte(KeyByte(key, i))
    {
      AdjustParityByteIsMsbParity(KeyByte(key, i));
    }
    forall i | 0 <= i < 8
      ensures Bits(AdjustParity(key)[i]) & 0x7F == Bits(KeyByte(key, i)) & 0x7F
      && OnesCount(Bits(AdjustParity(key)[i])) % 2 == 1
    {
      MsbParityByteProps(KeyByte(key, i));
    }
    if |key| == 8 {
      assert AdjustParity(key) == MsbParity(key);
    }
  }

  /** Both scripts key DES with `adjustDESParity("Foatfkio")`, the key the
      encryptor uses by default. */
  lemma ScriptKeyIsEncryptorKey()
    ensures AdjustParity(DES_KEY_RAW) == MsbParity(DES_KEY_RAW) == DesKey(None)
  {
    AdjustParityIsMsbParity(DES_KEY_RAW);
  }

  // ---- removeYamahaPadding ----

  /** `data.slice(0, end)`: a negative `end` counts back from the end of the
      buffer, down to nothing; a positive one is clamped to the buffer. */
  function SliceTo(data: seq<byte>, end: int): (r: seq<byte>)
    ensures |r| <= |data| && r == data[..|r|]
  {
    if end < 0 then data[..if |data| + end < 0 then 0 else |data| + end]
    else data[..Min(end, |data|)]
  }

  /** `removeYamahaPadding`: a last byte `r` of 1 to 7 is read as "r bytes of
      data in the last block" and the rest of that block is cut; any other
      last byte, and the empty buffer, leave the data as it is. */
  function RemoveYamahaPadding(data: seq<byte>): seq<byte>
  {
    if |data| == 0 then data
    else
      var remainder := data[|data| - 1];
      if 0 < remainder < 8 then SliceTo(data, |data| - 8 + remainder)
      else data
  }

  /** What the padding removal does: always a prefix, strictly shorter exactly
      when the last byte is 1 to 7, and for a buffer of at least 8 bytes cut
      at `length - 8 + r`. */
  lemma RemoveYamahaPaddingCases(data: seq<byte>)
    ensures var r := RemoveYamahaPadding(data);
      && r == data[..|r|]
      && (|r| < |data| <==> |data| > 0 && 0 < data[|data| - 1] < 8)
      && (|data| >= 8 && 0 < data[|data| - 1] < 8 ==> |r| == |data| - 8 + data[|data| - 1])
  {
  }

  /** For a length that is not a multiple of 8 the removal undoes the
      encryptor's padding. */
  lemma RemoveUndoesPadding(x: seq<byte>)
    requires |x| % 8 != 0
    ensures RemoveYamahaPadding(YamahaPad(x)) == x
  {
    var p := YamahaPad(x);
    YamahaPadShape(x);
    assert p[|p| - 1] == |x| % 8;
    assert |p| - 8 + |x| % 8 == |x|;
    assert p[..|x|] == x;
  }

  /** For a length that is a multiple of 8 the removal keeps the whole block
      of padding: the last byte is 0. */
  lemma AlignedPaddingKept(x: seq<byte>)
    requires |x| % 8 == 0
    ensures RemoveYamahaPadding(YamahaPad(x)) == YamahaPad(x)
    ensures |RemoveYamahaPadding(YamahaPad(x))| == |x| + 8
  {
    YamahaPadShape(x);
  }

  /** The eight zero bytes come back with eight more zeros after them. */
  lemma AlignedPaddingExample()
    ensures RemoveYamahaPadding(YamahaPad(Zeros(8))) == Zeros(16)
  {
    AlignedPaddingKept(Zeros(8));
    assert YamahaPad(Zeros(8)) == Zeros(8) + Zeros(7) + [0];
    assert Zeros(8) + Zeros(7) + [0] == Zeros(16);
  }

  /** The padding removal the format calls for: the last byte `r` is always
      `length mod 8` of the original, so the original ends at `length - 8 + r`,
      a whole block of padding being cut when `r` is 0. */
  function StripYamahaPadding(data: seq<byte>): (r: seq<byte>)
    ensures |r| <= |data| && r == data[..|r|]
  {
    if |data| >= 8 && data[|data| - 1] < 8 then data[..|data| - 8 + data[|data| - 1]]
    else data
  }

  /** The corrected removal undoes the padding of every input. */
  lemma StripUndoesPadding(x: seq<byte>)
    ensures StripYamahaPadding(YamahaPad(x)) == x
  {
    var p := YamahaPad(x);
    YamahaPadShape(x);
    assert p[|p| - 1] == |x| % 8;
    assert |p| - 8 + |x| % 8 == |x|;
    assert p[..|x|] == x;
  }

  /** Where the script's removal does cut, it cuts like the corrected one. */
  lemma StripAgreesWhenCut(data: seq<byte>)
    requires |data| >= 8 && 0 < data[|data| - 1] < 8
    ensures RemoveYamahaPadding(data) == StripYamahaPadding(data)
  {
  }

  // ---- decryptDES_CBC ----

  /** CBC decryption from chaining block `prev`: each block is decrypted and
      XORed with the previous ciphertext block. A ragged last block is
      decrypted as it is, and only as many bytes as it has are kept, since
      the writes past the end of the output buffer are dropped. */
  function CbcDecrypt(decrypt: BlockDecipher, key: seq<byte>, data: seq<byte>, prev: Block): (r: seq<byte>)
    ensures |r| == |data|
    decreases |data|
  {
    if |data| == 0 then []
    else if |data| < 8 then Xor8(decrypt(key, data), prev)[..|data|]
    else Xor8(decrypt(key, data[..8]), prev) + CbcDecrypt(decrypt, key, data[8..], data[..8])
  }

  /** `decryptDES_CBC(encrypted, keyBuf, ivBuf)` of decrypt-cpi-v2.js: step
      through the input 8 bytes at a time, write the XOR of the decrypted
      block and the previous ciphertext block, then chain on the ciphertext. */
  method DecryptDesCbc(decrypt: BlockDecipher, encrypted: seq<byte>, keyBuf: seq<byte>, ivBuf: Block)
    returns (r: seq<byte>)
    ensures r == CbcDecrypt(decrypt, keyBuf, encrypted, ivBuf)
  {
    var n := |encrypted|;
    var decrypted := new byte[n](_ => 0);
    var prevBlock: seq<byte> := ivBuf;
    ghost var ghostFull := CbcDecrypt(decrypt, keyBuf, encrypted, ivBuf);
    var i := 0;
    while i < n
      invariant 0 <= i && (i > n ==> decrypted[..] == ghostFull)
      invariant i <= n ==> (|prevBlock| == 8
        && decrypted[..i] + CbcDecrypt(decrypt, keyBuf, encrypted[i..], prevBlock) == ghostFull)
      decreases n - i
    {
      var block := Slice(encrypted, i, i + 8);
      var decryptedBlock := decrypt(keyBuf, block);
      ghost var before := decrypted[..];
      XorInto(decrypted, i, decryptedBlock, prevBlock);
      if i + 8 <= n {
        assert block == encrypted[i..i + 8];
        TakeAll(Xor8(decryptedBlock, prevBlock));
        TakeFront(before[..i], Xor8(decryptedBlock, prevBlock), before[i + 8..]);
        CbcDecryptFull(decrypt, keyBuf, encrypted, i, prevBlock, before[..i], decrypted[..i + 8], ghostFull);
      } else {
        assert block == encrypted[i..];
        AppendNil(before[..i] + Xor8(decryptedBlock, prevBlock)[..n - i]);
        CbcDecryptLast(decrypt, keyBuf, encrypted, i, prevBlock, before[..i], decrypted[..], ghostFull);
      }
      prevBlock := block;
      i := i + 8;
    }
    r := decrypted[..];
  }

  /** A whole block at `i`: its plaintext joins the done part, and the rest
      is decrypted chained on that block. */
  lemma CbcDecryptFull(decrypt: BlockDecipher, key: seq<byte>, data: seq<byte>, i: nat, prev: Block,
                       done: seq<byte>, now: seq<byte>, full: seq<byte>)
    requires i + 8 <= |data|
    requires done + CbcDecrypt(decrypt, key, data[i..], prev) == full
    requires now == done + Xor8(decrypt(key, data[i..i + 8]), prev)
    ensures now + CbcDecrypt(decrypt, key, data[i + 8..], data[i..i + 8]) == full
  {
    var rest := data[i..];
    assert rest[..8] == data[i..i + 8] && rest[8..] == data[i + 8..];
    AppendAssoc(done, Xor8(decrypt(key, data[i..i + 8]), prev), CbcDecrypt(decrypt, key, data[i + 8..], data[i..i + 8]));
  }

  /** A short last block at `i`: its truncated plaintext completes the output. */
  lemma CbcDecryptLast(decrypt: BlockDecipher, key: seq<byte>, data: seq<byte>, i: nat, prev: Block,
                       done: seq<byte>, now: seq<byte>, full: seq<byte>)
    requires i < |data| < i + 8
    requires done + CbcDecrypt(decrypt, key, data[i..], prev) == full
    requires now == done + Xor8(decrypt(key, data[i..]), prev)[..|data| - i]
    ensures now == full
  {
  }

  /** The inner loop `decrypted[i + j] = decryptedBlock[j] ^ prevBlock[j]`;
      a write past the end of the buffer is dropped. */
  method XorInto(decrypted: array<byte>, i: nat, decryptedBlock: Block, prevBlock: Block)
    requires i < decrypted.Length
    modifies decrypted
    ensures var m := Min(8, decrypted.Length - i);
      decrypted[..] == old(decrypted[..i]) + Xor8(decryptedBlock, prevBlock)[..m] + old(decrypted[i + m..])
  {
    ghost var m := Min(8, decrypted.Length - i);
    for j := 0 to 8
      invariant forall k :: 0 <= k < decrypted.Length && !(i <= k < i + j) ==> decrypted[k] == old(decrypted[k])
      invariant forall k :: 0 <= k < j && i + k < decrypted.Length ==> decrypted[i + k] == Xor(decryptedBlock[k], prevBlock[k])
    {
      if i + j < decrypted.Length {
        decrypted[i + j] := Xor(decryptedBlock[j], prevBlock[j]);
      }
    }
    assert decrypted[..] == old(decrypted[..i]) + Xor8(decryptedBlock, prevBlock)[..m] + old(decrypted[i + m..]);
  }

  /** Block `i` of the plaintext is the decryption of ciphertext block `i`
      XORed with ciphertext block `i - 1`, or with the chaining block for `i = 0`. */
  lemma {:induction false} CbcDecryptBlocks(decrypt: BlockDecipher, key: seq<byte>, data: seq<byte>, prev: Block, i: nat)
    requires 8 * i + 8 <= |data|
    ensures var c: Block := if i == 0 then prev else data[8 * (i - 1)..8 * i];
      CbcDecrypt(decrypt, key, data, prev)[8 * i..8 * i + 8] == Xor8(decrypt(key, data[8 * i..8 * i + 8]), c)
    decreases i
  {
    var r := CbcDecrypt(decrypt, key, data, prev);
    var rest := CbcDecrypt(decrypt, key, data[8..], data[..8]);
    assert r == Xor8(decrypt(key, data[..8]), prev) + rest;
    if i > 0 {
      var j := i - 1;
      assert 8 * i == 8 * j + 8;
      CbcDecryptBlocks(decrypt, key, data[8..], data[..8], j);
      assert data[8..][8 * (i - 1)..8 * (i - 1) + 8] == data[8 * i..8 * i + 8];
      assert r[8 * i..8 * i + 8] == rest[8 * (i - 1)..8 * (i - 1) + 8];
      if i > 1 {
        assert data[8..][8 * (i - 2)..8 * (i - 1)] == data[8 * (i - 1)..8 * i];
      }
    }
  }

  /** Decrypting the first `n` bytes, `n` a multiple of 8 (the script takes
      10240), gives the first `n` bytes of the whole decryption. */
  lemma {:induction false} CbcDecryptPrefix(decrypt: BlockDecipher, key: seq<byte>, data: seq<byte>, prev: Block, n: nat)
    requires n % 8 == 0
    ensures var m := Min(n, |data|);
      CbcDecrypt(decrypt, key, data[..m], prev) == CbcDecrypt(decrypt, key, data, prev)[..m]
    decreases n
  {
    var m := Min(n, |data|);
    if m == |data| {
      assert data[..m] == data;
    } else if n > 0 {
      assert |data| > n >= 8;
      CbcDecryptPrefix(decrypt, key, data[8..], data[..8], n - 8);
      assert data[..m][..8] == data[..8];
      assert data[..m][8..] == data[8..][..n - 8];
    }
  }

  /** XOR with the same block twice gives the block back. */
  lemma Xor8Twice(a: Block, b: Block)
    ensures Xor8(Xor8(a, b), b) == a
  {
    forall k | 0 <= k < 8 ensures Xor8(Xor8(a, b), b)[k] == a[k] {
      XorInverse(a[k], b[k]);
    }
  }

  /** With a block decryption that undoes the block encryption under the same
      key, CBC decryption undoes CBC encryption from the same chaining block. */
  lemma {:induction false} CbcRoundTrip(encrypt: BlockCipher, decrypt: BlockDecipher, key: seq<byte>,
                                        data: seq<byte>, prev: Block)
    requires forall b: Block :: decrypt(key, encrypt(key, b)) == b
    requires |data| % 8 == 0
    ensures CbcDecrypt(decrypt, key, CbcEncrypt(encrypt, key, data, prev), prev) == data
    decreases |data|
  {
    if data != [] {
      var x := Xor8(data[..8], prev);
      var c := encrypt(key, x);
      var tail := CbcEncrypt(encrypt, key, data[8..], c);
      var enc: seq<byte> := c + tail;
      assert enc[..8] == c && enc[8..] == tail;
      CbcRoundTrip(encrypt, decrypt, key, data[8..], c);
      Xor8Twice(data[..8], prev);
      assert data == data[..8] + data[8..];
    }
  }

  // ---- The offset walk of decryptCPI ----

  /** What the offset walk reads: the two declared sizes, the security block
      and the encrypted payload. */
  datatype Sections = Sections(xpihSize: int, csecSize: int, csecData: seq<byte>, encryptedPayload: seq<byte>)

  /** Node's `readUInt32BE` throws a RangeError when fewer than 4 bytes remain. */
  const OUT_OF_RANGE: string := "The value of \"offset\" is out of range."

  /** The sections `decryptCPI` finds: skip the `XPIH` tag, read its size,
      jump over the header, skip the `CSEC` tag, read its size, slice out the
      block and take everything after it. Slices are clamped to the file. */
  function WalkSections(data: seq<byte>): Result<Sections>
  {
    if |data| < 8 then Failure(OUT_OF_RANGE)
    else
      var xpihSize := ReadUint32BE(data, 4);
      var csecAt := 8 + xpihSize;
      if csecAt + 8 > |data| then Failure(OUT_OF_RANGE)
      else
        var csecSize := ReadUint32BE(data, csecAt + 4);
        var payloadAt := csecAt + 8 + csecSize;
        Success(Sections(xpihSize, csecSize, Slice(data, csecAt + 8, payloadAt), data[Min(payloadAt, |data|)..]))
  }

  /** The `offset` walk of `decryptCPI`, as both scripts write it. */
  method LocateSections(data: seq<byte>) returns (r: Result<Sections>)
    ensures r == WalkSections(data)
  {
    var offset := 0;
    offset := offset + 4;
    if offset + 4 > |data| {
      return Failure(OUT_OF_RANGE);
    }
    assert offset == 4;
    var xpihSize := ReadUint32BE(data, offset);
    offset := offset + 4;
    offset := offset + xpihSize;
    offset := offset + 4;
    if offset + 4 > |data| {
      return Failure(OUT_OF_RANGE);
    }
    assert offset == 8 + xpihSize + 4;
    var csecSize := ReadUint32BE(data, offset);
    offset := offset + 4;
    assert offset == 8 + xpihSize + 8;
    var csecData := Slice(data, offset, offset + csecSize);
    offset := offset + csecSize;
    var encryptedPayload := data[Min(offset, |data|)..];
    r := Success(Sections(xpihSize, csecSize, csecData, encryptedPayload));
    WalkFound(data, xpihSize, csecSize, r.value);
  }

  /** The walk on a file long enough for both size fields. */
  lemma WalkFound(data: seq<byte>, xs: nat, cs: nat, s: Sections)
    requires 8 <= |data| && xs == ReadUint32BE(data, 4)
    requires 8 + xs + 8 <= |data| && cs == ReadUint32BE(data, 8 + xs + 4)
    requires s == Sections(xs, cs, Slice(data, 8 + xs + 8, 8 + xs + 8 + cs), data[Min(8 + xs + 8 + cs, |data|)..])
    ensures WalkSections(data) == Success(s)
  {
  }

  /** The offsets land where they should: the security block sits right after
      the header whose size is read at 4, its own size is read 4 bytes after
      its tag, and the payload is the rest of the file. */
  lemma WalkSectionsShape(data: seq<byte>)
    ensures WalkSections(data).Success? <==> |data| >= 8 && 16 + ReadUint32BE(data, 4) <= |data|
    ensures WalkSections(data).Success? ==>
      var s, xs := WalkSections(data).value, ReadUint32BE(data, 4);
      && s.xpihSize == xs && s.csecSize == ReadUint32BE(data, 12 + xs)
      && (16 + xs + s.csecSize <= |data| ==>
            s.csecData == data[16 + xs..16 + xs + s.csecSize] && s.encryptedPayload == data[16 + xs + s.csecSize..])
  {
  }

  /** On the encryptor's output the walk finds the header size, the 80-byte
      security block the encryptor put there and exactly the ciphertext tail. */
  lemma WalkEncrypted(des: BlockCipher, tdes: BlockCipher, packData: PpfData, modelName: seq<byte>,
                      packInstallId: int, selectedIndices: Option<seq<int>>, fullId: Option<seq<byte>>,
                      firstData: seq<byte>)
    requires |firstData| == 16
    requires 0 <= packInstallId < U32_BOUND && 23 + |modelName| < U32_BOUND
    ensures WalkSections(EncryptedCpi(des, tdes, packData, modelName, packInstallId, selectedIndices, fullId, firstData))
      == Success(Sections(|XpihPayload(modelName, packInstallId)|, 80, CsecData(des, tdes, fullId, firstData),
                          PayloadCipher(des, packData, selectedIndices)))
  {
    var out := EncryptedCpi(des, tdes, packData, modelName, packInstallId, selectedIndices, fullId, firstData);
    EncryptedLayout(des, tdes, packData, modelName, packInstallId, selectedIndices, fullId, firstData);
    var xs := |XpihPayload(modelName, packInstallId)|;
    WalkAt(out, xs, CsecData(des, tdes, fullId, firstData), PayloadCipher(des, packData, selectedIndices));
  }

  /** The walk over a file whose sizes are `xs` and 80 at 4 and `12 + xs`. */
  lemma WalkAt(out: seq<byte>, xs: nat, c: seq<byte>, t: seq<byte>)
    requires |out| == 96 + xs + |t| && ReadUint32BE(out, 4) == xs && ReadUint32BE(out, 12 + xs) == 80
    requires out[16 + xs..96 + xs] == c && out[96 + xs..] == t
    ensures WalkSections(out) == Success(Sections(xs, 80, c, t))
  {
    var csecAt := 8 + ReadUint32BE(out, 4);
    assert csecAt == 8 + xs;
    assert ReadUint32BE(out, csecAt + 4) == 80;
    var payloadAt := csecAt + 8 + ReadUint32BE(out, csecAt + 4);
    assert payloadAt == 96 + xs;
    assert Slice(out, csecAt + 8, payloadAt) == c;
    assert out[Min(payloadAt, |out|)..] == t;
  }

  // ---- The whole way back ----

  /** The encrypted payload of `buildEncryptedCPI`, cut out by the offset
      walk, decrypted under the scripts' key and stripped of its padding, is
      the plaintext payload: the `EUID`, `ETIT` and `BLOB` chunks. The
      script's own removal gets there when the payload length is not a
      multiple of 8. */
  lemma DecryptEncrypted(des: BlockCipher, desDecrypt: BlockDecipher, tdes: BlockCipher, packData: PpfData,
                         modelName: seq<byte>, packInstallId: int, selectedIndices: Option<seq<int>>,
                         fullId: Option<seq<byte>>, firstData: seq<byte>)
    requires |firstData| == 16
    requires 0 <= packInstallId < U32_BOUND && 23 + |modelName| < U32_BOUND
    requires forall b: Block :: desDecrypt(MsbParity(DES_KEY_RAW), des(MsbParity(DES_KEY_RAW), b)) == b
    ensures WalkSections(EncryptedCpi(des, tdes, packData, modelName, packInstallId, selectedIndices, fullId, firstData))
      .Success?
    ensures var payload := WalkSections(EncryptedCpi(des, tdes, packData, modelName, packInstallId,
                                                    selectedIndices, fullId, firstData)).value.encryptedPayload;
      var plain := CbcDecrypt(desDecrypt, AdjustParity(DES_KEY_RAW), payload, DES_IV);
      && StripYamahaPadding(plain) == PayloadPlain(packData, selectedIndices)
      && (|PayloadPlain(packData, selectedIndices)| % 8 != 0 ==>
            RemoveYamahaPadding(plain) == PayloadPlain(packData, selectedIndices))
  {
    WalkEncrypted(des, tdes, packData, modelName, packInstallId, selectedIndices, fullId, firstData);
    DecryptTail(des, desDecrypt, PayloadPlain(packData, selectedIndices));
  }

  /** Decrypting what the encryptor's default key made of the padded `p`, and
      removing the padding, gives `p` back. */
  lemma DecryptTail(des: BlockCipher, desDecrypt: BlockDecipher, p: seq<byte>)
    requires forall b: Block :: desDecrypt(MsbParity(DES_KEY_RAW), des(MsbParity(DES_KEY_RAW), b)) == b
    ensures var plain := CbcDecrypt(desDecrypt, AdjustParity(DES_KEY_RAW),
                                    CbcEncrypt(des, MsbParity(DES_KEY_RAW), YamahaPad(p), DES_IV), DES_IV);
      && StripYamahaPadding(plain) == p
      && (|p| % 8 != 0 ==> RemoveYamahaPadding(plain) == p)
  {
    ScriptKeyIsEncryptorKey();
    CbcRoundTrip(des, desDecrypt, MsbParity(DES_KEY_RAW), YamahaPad(p), DES_IV);
    StripUndoesPadding(p);
    if |p| % 8 != 0 {
      RemoveUndoesPadding(p);
    }
  }

  /** The plaintext payload, behind any 8 bytes, parses back into the pack:
      its uid, its title and the selected blobs, with an empty icon read as
      absent. */
  lemma DecryptedPayloadParses(preamble: seq<byte>, packData: PpfData, modelName: seq<byte>,
                               packInstallId: int, selectedIndices: Option<seq<int>>)
    requires |preamble| == 8
    requires PackWritable(packData, modelName, selectedIndices)
    ensures ParsePpf(preamble + PayloadPlain(packData, selectedIndices))
      == PpfData(packData.uid, packData.title, NormalizeAll(SelectBlobs(packData.blobs, selectedIndices)))
  {
    PackRoundTrip.PackRoundTrip(preamble, packData, modelName, packInstallId, selectedIndices, false);
    assert PpiFrames(packData, modelName, packInstallId, selectedIndices, false) == PayloadFrames(packData, selectedIndices);
  }
}
