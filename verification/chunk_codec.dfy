/** The tag-length-value chunk framing of Yamaha pack files (chunk-reader.ts):
    a 4-byte ASCII tag, a 32-bit big-endian payload length, then the payload. */
module ChunkCodec {
  import opened Wrappers
  import opened Bytes

  // The tags the reader recognises, as the bytes of their ASCII names.
  const XPFH: seq<byte> := [0x58, 0x50, 0x46, 0x48]
  const XPIH: seq<byte> := [0x58, 0x50, 0x49, 0x48]
  const XMDL: seq<byte> := [0x58, 0x4d, 0x44, 0x4c]
  const XPID: seq<byte> := [0x58, 0x50, 0x49, 0x44]
  const EUID: seq<byte> := [0x45, 0x55, 0x49, 0x44]
  const ETIT: seq<byte> := [0x45, 0x54, 0x49, 0x54]
  const BLOB: seq<byte> := [0x42, 0x4c, 0x4f, 0x42]
  const EEXT: seq<byte> := [0x45, 0x45, 0x58, 0x54]
  const EICO: seq<byte> := [0x45, 0x49, 0x43, 0x4f]
  const FBIN: seq<byte> := [0x46, 0x42, 0x49, 0x4e]
  const CSEC: seq<byte> := [0x43, 0x53, 0x45, 0x43]

  /** `KNOWN_TAGS`. The security-block tags ABCF, AIRI, AIVF and ABEI are not in it. */
  const KNOWN_TAGS: set<seq<byte>> := {XPFH, XPIH, XMDL, XPID, EUID, ETIT, BLOB, EEXT, EICO, FBIN, CSEC}

  /** A chunk as the reader returns it: the tag read at `offset`, the declared
      size, and the (possibly cut off) payload. */
  datatype RawChunk = RawChunk(id: seq<byte>, size: int, data: seq<byte>, offset: nat)

  /** `isKnownTag`: four bytes are available at `pos` and they spell a known tag. */
  predicate IsKnownTag(buf: seq<byte>, pos: nat)
  {
    pos + 4 <= |buf| && buf[pos..pos + 4] in KNOWN_TAGS
  }

  /** Where `skipToNextTag` stops: the first known tag at or after `pos`, or `end`. */
  function SkipTo(buf: seq<byte>, pos: nat, end: nat): (r: nat)
    ensures pos <= r
    ensures pos <= end ==> r <= end
    ensures r < end ==> IsKnownTag(buf, r)
    decreases end - pos
  {
    if pos < end then (if IsKnownTag(buf, pos) then pos else SkipTo(buf, pos + 1, end)) else pos
  }

  /** Every position the skip passes over holds no known tag. */
  lemma {:induction false} SkipToSkips(buf: seq<byte>, pos: nat, end: nat)
    ensures forall p :: pos <= p < SkipTo(buf, pos, end) ==> !IsKnownTag(buf, p)
    decreases end - pos
  {
    if pos < end && !IsKnownTag(buf, pos) {
      SkipToSkips(buf, pos + 1, end);
    }
  }

  /** `skipToNextTag`: advance one byte at a time until a known tag or `end`. */
  method SkipToNextTag(buf: seq<byte>, pos: nat, end: nat) returns (p: nat)
    ensures p == SkipTo(buf, pos, end)
  {
    p := pos;
    while p < end
      invariant pos <= p
      invariant SkipTo(buf, p, end) == SkipTo(buf, pos, end)
      decreases end - p
    {
      if IsKnownTag(buf, p) {
        return;
      }
      p := p + 1;
    }
  }

  /** Where the payload of the chunk whose header is at `p` stops: after the
      declared size, or at `end` when the buffer is cut short. */
  function DataEnd(buf: seq<byte>, p: nat, end: nat): (r: nat)
    requires p + 8 <= end <= |buf|
    ensures p + 8 <= r <= end
  {
    Min(p + 8 + ReadUint32BE(buf, p + 4), end)
  }

  /** The chunk read from a header at `p`. */
  function HeaderAt(buf: seq<byte>, p: nat, end: nat): RawChunk
    requires p + 8 <= end <= |buf|
  {
    RawChunk(buf[p..p + 4], ReadUint32BE(buf, p + 4), buf[p + 8..DataEnd(buf, p, end)], p)
  }

  /** The chunks `readChunks` returns when scanning buf[pos..end). */
  function ScanChunks(buf: seq<byte>, pos: nat, end: nat): seq<RawChunk>
    requires end <= |buf|
    decreases end - pos, 1
  {
    if pos + 8 > end then [] else ScanAt(buf, SkipTo(buf, pos, end), end)
  }

  /** The rest of the scan once the skip has stopped at `p`. */
  function ScanAt(buf: seq<byte>, p: nat, end: nat): seq<RawChunk>
    requires end <= |buf|
    decreases end - p, 0
  {
    if p + 8 > end then []
    else if buf[p..p + 4] !in KNOWN_TAGS then []
    else [HeaderAt(buf, p, end)] + ScanChunks(buf, DataEnd(buf, p, end), end)
  }

  /** `readChunks(buf, startOffset, endOffset?)`. */
  method ReadChunks(buf: seq<byte>, startOffset: nat, endOffset: Option<nat>) returns (chunks: seq<RawChunk>)
    requires endOffset.Some? ==> endOffset.value <= |buf|
    ensures chunks == ScanChunks(buf, startOffset, if endOffset.Some? then endOffset.value else |buf|)
  {
    var end := if endOffset.Some? then endOffset.value else |buf|;
    chunks := [];
    var pos := startOffset;
    while pos + 8 <= end
      invariant chunks + ScanChunks(buf, pos, end) == ScanChunks(buf, startOffset, end)
      decreases end - pos
    {
      ghost var before := pos;
      pos := SkipToNextTag(buf, pos, end);
      assert ScanChunks(buf, before, end) == ScanAt(buf, pos, end);
      if pos + 8 > end {
        break;
      }
      var id := buf[pos..pos + 4];
      if id !in KNOWN_TAGS {
        assert false;
        break;
      }
      var size := ReadUint32BE(buf, pos + 4);
      var dataStart := pos + 8;
      var dataEnd := Min(dataStart + size, end);
      var data := buf[dataStart..dataEnd];
      assert dataEnd == DataEnd(buf, pos, end);
      var c := RawChunk(id, size, data, pos);
      assert c == HeaderAt(buf, pos, end);
      AppendAssoc(chunks, [c], ScanChunks(buf, dataEnd, end));
      chunks := chunks + [c];
      pos := dataEnd;
    }
  }

  /** `readSubChunks`: scan a container chunk's own payload from offset 0. */
  method ReadSubChunks(chunk: RawChunk) returns (subs: seq<RawChunk>)
    ensures subs == ScanChunks(chunk.data, 0, |chunk.data|)
  {
    subs := ReadChunks(chunk.data, 0, None);
  }

  // ---- What the scan returns, stated without reference to the scan ----

  /** A chunk read at `c.offset`: a known tag, the declared size read big-endian
      right after it, and the payload clamped so that it ends by `end`. */
  ghost predicate ChunkAt(buf: seq<byte>, end: nat, c: RawChunk)
    requires end <= |buf|
  {
    && c.offset + 8 <= end
    && c.id == buf[c.offset..c.offset + 4]
    && c.id in KNOWN_TAGS
    && c.size == ReadUint32BE(buf, c.offset + 4)
    && |c.data| == Min(c.size, end - c.offset - 8)
    && c.data == buf[c.offset + 8..c.offset + 8 + |c.data|]
  }

  function ChunkEnd(c: RawChunk): nat { c.offset + 8 + |c.data| }

  /** No known tag starts anywhere in [from, to). */
  ghost predicate NoTagIn(buf: seq<byte>, from: int, to: int)
  {
    forall p: nat :: from <= p < to ==> !IsKnownTag(buf, p)
  }

  /** No known tag starts at a position that still has 8 bytes before `end`. */
  ghost predicate NoHeaderFrom(buf: seq<byte>, from: int, end: int)
  {
    forall p: nat :: from <= p && p + 8 <= end ==> !IsKnownTag(buf, p)
  }

  /** The scan result, read declaratively, chunk by chunk from `pos`: each
      chunk is a known tag whose payload never extends past `end`, found after
      a gap that holds no known tag; chunks follow one another without
      overlap; and after the last one no known tag has room for a header. */
  ghost predicate ScanSound(buf: seq<byte>, pos: nat, end: nat, cs: seq<RawChunk>)
    requires end <= |buf|
    decreases |cs|
  {
    if cs == [] then NoHeaderFrom(buf, pos, end)
    else
      && pos <= cs[0].offset
      && ChunkAt(buf, end, cs[0])
      && NoTagIn(buf, pos, cs[0].offset)
      && ScanSound(buf, ChunkEnd(cs[0]), end, cs[1..])
  }

  /** The scan is sound in the sense of `ScanSound`. */
  lemma {:induction false} ScanChunksSound(buf: seq<byte>, pos: nat, end: nat)
    requires end <= |buf|
    ensures ScanSound(buf, pos, end, ScanChunks(buf, pos, end))
    decreases end - pos
  {
    var cs := ScanChunks(buf, pos, end);
    if pos + 8 <= end {
      var p := SkipTo(buf, pos, end);
      SkipToSkips(buf, pos, end);
      if p + 8 <= end {
        var dataEnd := DataEnd(buf, p, end);
        var c := HeaderAt(buf, p, end);
        var rest := ScanChunks(buf, dataEnd, end);
        assert IsKnownTag(buf, p);
        assert cs == ScanAt(buf, p, end);
        assert cs == [c] + rest;
        HeaderAtIsChunk(buf, p, end);
        ScanChunksSound(buf, dataEnd, end);
        assert cs[0] == c && cs[1..] == rest;
      } else {
        assert cs == [];
      }
    }
  }

  /** A header the skip stopped at is read as a chunk in the sense of `ChunkAt`. */
  lemma HeaderAtIsChunk(buf: seq<byte>, p: nat, end: nat)
    requires p + 8 <= end <= |buf| && IsKnownTag(buf, p)
    ensures ChunkAt(buf, end, HeaderAt(buf, p, end))
    ensures ChunkEnd(HeaderAt(buf, p, end)) == DataEnd(buf, p, end)
  {
  }

  /** The scan finds nothing exactly when no known tag has 8 bytes of room
      before `end`; in particular when fewer than 8 bytes remain. */
  lemma ScanChunksEmpty(buf: seq<byte>, pos: nat, end: nat)
    requires end <= |buf|
    ensures ScanChunks(buf, pos, end) == [] <==> NoHeaderFrom(buf, pos, end)
  {
    ScanChunksSound(buf, pos, end);
    var cs := ScanChunks(buf, pos, end);
    if cs != [] {
      assert ChunkAt(buf, end, cs[0]);
      assert IsKnownTag(buf, cs[0].offset);
    }
  }

  /** A byte that does not start a known tag is skipped and nothing else changes. */
  lemma ScanSkipsJunk(buf: seq<byte>, pos: nat, end: nat)
    requires end <= |buf|
    requires !IsKnownTag(buf, pos)
    ensures ScanChunks(buf, pos, end) == ScanChunks(buf, pos + 1, end)
  {
    if pos + 8 <= end {
      var p := SkipTo(buf, pos, end);
      assert p == SkipTo(buf, pos + 1, end);
      if pos + 9 > end {
        assert p + 8 > end;
        assert ScanChunks(buf, pos, end) == [];
      }
    }
  }

  /** The scan depends only on the bytes from `k` on. */
  lemma {:induction false} SkipToLocal(b1: seq<byte>, b2: seq<byte>, k: nat, pos: nat, end: nat)
    requires |b1| == |b2| && k <= pos && k <= |b1| && b1[k..] == b2[k..]
    ensures SkipTo(b1, pos, end) == SkipTo(b2, pos, end)
    decreases end - pos
  {
    if pos < end {
      if pos + 4 <= |b1| {
        assert b1[pos..pos + 4] == b1[k..][pos - k..pos - k + 4];
        assert b2[pos..pos + 4] == b2[k..][pos - k..pos - k + 4];
      }
      SkipToLocal(b1, b2, k, pos + 1, end);
    }
  }

  lemma SliceLocal(b1: seq<byte>, b2: seq<byte>, k: nat, i: nat, j: nat)
    requires |b1| == |b2| && k <= i <= j <= |b1| && b1[k..] == b2[k..]
    ensures b1[i..j] == b2[i..j]
  {
    forall t | i <= t < j
      ensures b1[t] == b2[t]
    {
      assert b1[t] == b1[k..][t - k] && b2[t] == b2[k..][t - k];
    }
  }

  lemma HeaderLocal(b1: seq<byte>, b2: seq<byte>, k: nat, p: nat, end: nat)
    requires |b1| == |b2| && k <= p && p + 8 <= end <= |b1| && b1[k..] == b2[k..]
    ensures IsKnownTag(b1, p) == IsKnownTag(b2, p)
    ensures DataEnd(b1, p, end) == DataEnd(b2, p, end)
    ensures HeaderAt(b1, p, end) == HeaderAt(b2, p, end)
  {
    SliceLocal(b1, b2, k, p, p + 8);
    assert b1[p..p + 4] == b1[p..p + 8][..4];
    assert b2[p..p + 4] == b2[p..p + 8][..4];
    assert b1[p + 4] == b2[p + 4] && b1[p + 5] == b2[p + 5] && b1[p + 6] == b2[p + 6] && b1[p + 7] == b2[p + 7] by {
      assert b1[p + 4] == b1[p..p + 8][4] && b2[p + 4] == b2[p..p + 8][4];
      assert b1[p + 5] == b1[p..p + 8][5] && b2[p + 5] == b2[p..p + 8][5];
      assert b1[p + 6] == b1[p..p + 8][6] && b2[p + 6] == b2[p..p + 8][6];
      assert b1[p + 7] == b1[p..p + 8][7] && b2[p + 7] == b2[p..p + 8][7];
    }
    assert ReadUint32BE(b1, p + 4) == ReadUint32BE(b2, p + 4);
    SliceLocal(b1, b2, k, p + 8, DataEnd(b1, p, end));
  }

  lemma {:induction false} ScanChunksLocal(b1: seq<byte>, b2: seq<byte>, k: nat, pos: nat, end: nat)
    requires |b1| == |b2| && k <= pos && k <= |b1| && b1[k..] == b2[k..] && end <= |b1|
    ensures ScanChunks(b1, pos, end) == ScanChunks(b2, pos, end)
    decreases end - pos
  {
    if pos + 8 <= end {
      SkipToLocal(b1, b2, k, pos, end);
      var p := SkipTo(b1, pos, end);
      assert ScanChunks(b1, pos, end) == ScanAt(b1, p, end);
      assert ScanChunks(b2, pos, end) == ScanAt(b2, p, end);
      if p + 8 <= end {
        HeaderLocal(b1, b2, k, p, end);
        assert IsKnownTag(b1, p);
        ScanChunksLocal(b1, b2, k, DataEnd(b1, p, end), end);
      }
    }
  }

  // ---- Text payloads ----

  /** The payload with every zero byte removed, wherever it sits. */
  function WithoutNul(s: seq<byte>): (r: seq<byte>)
    ensures 0 !in r
  {
    if s == [] then []
    else
      assert s == [s[0]] + s[1..];
      (if s[0] == 0 then [] else [s[0]]) + WithoutNul(s[1..])
  }

  /** `chunkText`: the payload decoded as text with NUL characters removed.
      Bytes stand for characters; text decoding is not modelled. */
  function ChunkText(c: RawChunk): seq<byte>
  {
    WithoutNul(c.data)
  }

  /** Removing NULs keeps every other byte: only the count of zero bytes changes. */
  lemma {:induction false} WithoutNulCounts(s: seq<byte>)
    ensures multiset(WithoutNul(s)) == multiset(s)[0 := 0]
  {
    if s != [] {
      assert s == [s[0]] + s[1..];
      WithoutNulCounts(s[1..]);
    }
  }

  /** NULs are removed independently in every part of the payload. */
  lemma {:induction false} WithoutNulAppend(a: seq<byte>, b: seq<byte>)
    ensures WithoutNul(a + b) == WithoutNul(a) + WithoutNul(b)
  {
    if a == [] {
      assert a + b == b;
    } else {
      var h := if a[0] == 0 then [] else [a[0]];
      var ab := a + b;
      assert ab[1..] == a[1..] + b && ab[0] == a[0];
      WithoutNulCons(ab);
      WithoutNulCons(a);
      WithoutNulAppend(a[1..], b);
      AppendAssoc(h, WithoutNul(a[1..]), WithoutNul(b));
    }
  }

  /** Text without NULs is left as it is. */
  lemma {:induction false} WithoutNulKeepsText(s: seq<byte>)
    requires 0 !in s
    ensures WithoutNul(s) == s
  {
    if s != [] {
      assert 0 !in s[1..];
      WithoutNulKeepsText(s[1..]);
      WithoutNulCons(s);
      assert s == [s[0]] + s[1..];
    }
  }

  lemma WithoutNulCons(s: seq<byte>)
    requires s != []
    ensures WithoutNul(s) == (if s[0] == 0 then [] else [s[0]]) + WithoutNul(s[1..])
  {
  }

  /** The text of a NUL-terminated payload is the text itself. */
  lemma TextOfTerminated(t: seq<byte>)
    requires 0 !in t
    ensures WithoutNul(t + [0]) == t
  {
    WithoutNulAppend(t, [0]);
    WithoutNulKeepsText(t);
    assert WithoutNul([0]) == [] + WithoutNul([]);
  }

  // ---- Writing ----

  /** The four tag bytes `buildChunk` stores: the first four bytes of the
      encoded tag, zero-filled when the tag is shorter. */
  function Tag4(id: seq<byte>): (r: seq<byte>)
    ensures |r| == 4
    ensures forall i :: 0 <= i < 4 ==> r[i] == if i < |id| then id[i] else 0
  {
    if |id| >= 4 then id[..4] else id + Zeros(4 - |id|)
  }

  /** The bytes of the chunk `buildChunk(id, data)`. */
  function Chunk(id: seq<byte>, data: seq<byte>): (r: seq<byte>)
    ensures |r| == 8 + |data|
  {
    Tag4(id) + Be32(|data|) + data
  }

  /** `buildChunk`: tag, big-endian payload length, payload, in a fresh buffer. */
  method BuildChunk(id: seq<byte>, data: seq<byte>) returns (r: seq<byte>)
    ensures r == Chunk(id, data)
    ensures |r| == 8 + |data|
    ensures r[..4] == Tag4(id) && r[4..8] == Be32(|data|) && r[8..] == data
  {
    var buf := new byte[8 + |data|](_ => 0);
    var tagBytes := id;
    CopyInto(buf, tagBytes[..Min(4, |tagBytes|)], 0);
    assert buf[..4] == Tag4(id);
    WriteUint32BE(buf, 4, |data|);
    assert buf[..4] == Tag4(id);
    CopyInto(buf, data, 8);
    assert buf[..8] == Tag4(id) + Be32(|data|);
    r := buf[..];
    assert r == r[..8] + r[8..];
  }

  /** `concatArrays`: the buffers one after another in a fresh buffer. */
  method ConcatArrays(arrays: seq<seq<byte>>) returns (r: seq<byte>)
    ensures r == Flatten(arrays)
    ensures |r| == SumLengths(arrays)
  {
    var totalLen := 0;
    var i := 0;
    while i < |arrays|
      invariant 0 <= i <= |arrays|
      invariant totalLen == SumLengths(arrays[..i])
    {
      assert arrays[..i + 1][..i] == arrays[..i];
      totalLen := totalLen + |arrays[i]|;
      i := i + 1;
    }
    assert arrays[..|arrays|] == arrays;
    FlattenLength(arrays);
    var result := new byte[totalLen](_ => 0);
    var pos := 0;
    i := 0;
    while i < |arrays|
      invariant 0 <= i <= |arrays|
      invariant result.Length == |Flatten(arrays)|
      invariant pos == |Flatten(arrays[..i])| <= result.Length
      invariant result[..pos] == Flatten(arrays[..i])
    {
      FlattenAppend(arrays[..i + 1], arrays[i + 1..]);
      assert arrays[..i + 1] + arrays[i + 1..] == arrays;
      assert arrays[..i + 1][..i] == arrays[..i];
      ghost var done := result[..pos];
      CopyInto(result, arrays[i], pos);
      assert result[..pos + |arrays[i]|] == done + arrays[i];
      pos := pos + |arrays[i]|;
      i := i + 1;
    }
    assert arrays[..i] == arrays;
    r := result[..];
    assert r == result[..pos];
  }

  /** `buildContainerChunk`: a chunk whose payload is the concatenated sub-chunks. */
  method BuildContainerChunk(id: seq<byte>, subChunks: seq<seq<byte>>) returns (r: seq<byte>)
    ensures r == Chunk(id, Flatten(subChunks))
    ensures |r| == 8 + SumLengths(subChunks)
  {
    var inner := ConcatArrays(subChunks);
    r := BuildChunk(id, inner);
  }

  /** `buildTextChunk`: the text followed by one NUL, which the declared length counts. */
  method BuildTextChunk(id: seq<byte>, text: seq<byte>) returns (r: seq<byte>)
    ensures r == Chunk(id, text + [0])
    ensures |r| == 9 + |text| && r[|r| - 1] == 0
  {
    var strBytes := text + [0];
    r := BuildChunk(id, strBytes);
  }

  /** The declared length of a built chunk reads back as the payload length. */
  lemma ChunkDeclaredLength(id: seq<byte>, data: seq<byte>)
    requires |data| < U32_BOUND
    ensures ReadUint32BE(Chunk(id, data), 4) == |data|
  {
    var c := Chunk(id, data);
    var h := Tag4(id) + Be32(|data|);
    assert c == h + data;
    assert c[4..8] == h[4..8];
    assert h[4..8] == Be32(|data|);
    ReadUint32BEFrom(c, 4, |data|);
  }

  // ---- Reading back what was written ----

  /** A chunk to be written: its tag and payload. */
  datatype Frame = Frame(tag: seq<byte>, payload: seq<byte>)

  function ChunkOf(f: Frame): seq<byte> { Chunk(f.tag, f.payload) }

  /** The built chunks of a list of frames, in order. */
  function ChunksOf(fs: seq<Frame>): seq<seq<byte>>
  {
    if fs == [] then [] else [ChunkOf(fs[0])] + ChunksOf(fs[1..])
  }

  lemma {:induction false} ChunksOfShape(fs: seq<Frame>)
    ensures |ChunksOf(fs)| == |fs| && forall i :: 0 <= i < |fs| ==> ChunksOf(fs)[i] == ChunkOf(fs[i])
  {
    if fs != [] {
      ChunksOfShape(fs[1..]);
      assert ChunksOf(fs) == [ChunkOf(fs[0])] + ChunksOf(fs[1..]);
    }
  }

  /** Frames a reader can recover exactly: a known tag and a payload whose
      length fits the 32-bit length field. */
  ghost predicate Readable(fs: seq<Frame>)
  {
    forall i :: 0 <= i < |fs| ==> fs[i].tag in KNOWN_TAGS && |fs[i].payload| < U32_BOUND
  }

  /** What the reader returns for frames written one after another from `off`. */
  function ReadBack(fs: seq<Frame>, off: nat): seq<RawChunk>
  {
    if fs == [] then []
    else [RawChunk(fs[0].tag, |fs[0].payload|, fs[0].payload, off)]
         + ReadBack(fs[1..], off + 8 + |fs[0].payload|)
  }

  lemma {:induction false} ReadBackShape(fs: seq<Frame>, off: nat)
    ensures |ReadBack(fs, off)| == |fs|
    ensures forall i :: 0 <= i < |fs| ==>
      ReadBack(fs, off)[i].id == fs[i].tag && ReadBack(fs, off)[i].data == fs[i].payload
  {
    if fs != [] {
      ReadBackShape(fs[1..], off + 8 + |fs[0].payload|);
      forall i | 1 <= i < |fs|
        ensures ReadBack(fs, off)[i] == ReadBack(fs[1..], off + 8 + |fs[0].payload|)[i - 1]
      {
      }
    }
  }

  lemma ChunkParts(id: seq<byte>, data: seq<byte>)
    ensures var c := Chunk(id, data);
      |c| == 8 + |data| && c[..4] == Tag4(id) && c[4..8] == Be32(|data|) && c[8..] == data
  {
  }

  /** A chunk followed by anything: the tag, the declared length and the
      payload sit where a reader looks for them, and the rest follows. */
  lemma ChunkThen(id: seq<byte>, data: seq<byte>, rest: seq<byte>)
    requires |data| < U32_BOUND
    ensures var b := Chunk(id, data) + rest;
      && |b| == 8 + |data| + |rest|
      && b[..4] == Tag4(id) && ReadUint32BE(b, 4) == |data|
      && b[8..8 + |data|] == data && b[8 + |data|..] == rest
  {
    var b := Chunk(id, data) + rest;
    ChunkParts(id, data);
    assert b[..4] == Tag4(id);
    assert b[4..8] == Be32(|data|);
    ReadUint32BEFrom(b, 4, |data|);
    assert b[8..8 + |data|] == data;
    assert b[8 + |data|..] == rest;
  }

  /** A chunk followed by `t`, found at offset `d` of `out`. */
  lemma ChunkFoundAt(out: seq<byte>, d: nat, id: seq<byte>, data: seq<byte>, t: seq<byte>)
    requires |data| < U32_BOUND && d <= |out| && out[d..] == Chunk(id, data) + t
    ensures d + 8 + |data| + |t| == |out|
    ensures && out[d..d + 4] == Tag4(id) && ReadUint32BE(out, d + 4) == |data|
      && out[d + 8..d + 8 + |data|] == data && out[d + 8 + |data|..] == t
  {
    ChunkThen(id, data, t);
    FieldsShift(out, d, Chunk(id, data) + t, Tag4(id), data, t);
  }

  /** Tag, length, payload and tail of a chunk found at `d` of `out`, read
      from the suffix `b` of `out` that starts there. */
  lemma FieldsShift(out: seq<byte>, d: nat, b: seq<byte>, tag: seq<byte>, data: seq<byte>, t: seq<byte>)
    requires d <= |out| && out[d..] == b && |b| == 8 + |data| + |t|
    requires b[..4] == tag && ReadUint32BE(b, 4) == |data|
    requires b[8..8 + |data|] == data && b[8 + |data|..] == t
    ensures d + 8 + |data| + |t| == |out|
    ensures && out[d..d + 4] == tag && ReadUint32BE(out, d + 4) == |data|
      && out[d + 8..d + 8 + |data|] == data && out[d + 8 + |data|..] == t
  {
    DropSlice(out, d, 0, 4);
    ReadUint32BEShift(out, d, 4);
    DropSlice(out, d, 8, 8 + |data|);
    DropDrop(out, d, 8 + |data|);
  }

  lemma Tag4Of(id: seq<byte>)
    requires |id| == 4
    ensures Tag4(id) == id
  {
    TakeAll(id);
  }

  /** One step of the scan over a well-formed chunk stored at `off`: it is
      read whole, with its declared size, and the scan continues right after
      its payload. */
  lemma ScanOneChunk(buf: seq<byte>, off: nat, tag: seq<byte>, payload: seq<byte>)
    requires tag in KNOWN_TAGS && off + 8 + |payload| <= |buf|
    requires buf[off..off + 4] == tag && ReadUint32BE(buf, off + 4) == |payload|
    requires buf[off + 8..off + 8 + |payload|] == payload
    ensures ScanChunks(buf, off, |buf|)
      == [RawChunk(tag, |payload|, payload, off)] + ScanChunks(buf, off + 8 + |payload|, |buf|)
  {
    assert IsKnownTag(buf, off);
    assert SkipTo(buf, off, |buf|) == off;
    assert HeaderAt(buf, off, |buf|) == RawChunk(tag, |payload|, payload, off);
  }

  lemma KnownTagLength(tag: seq<byte>)
    requires tag in KNOWN_TAGS
    ensures |tag| == 4
  {
  }

  lemma ReadBackCons(fs: seq<Frame>, off: nat, tag: seq<byte>, payload: seq<byte>)
    requires fs != [] && fs[0] == Frame(tag, payload)
    ensures ReadBack(fs, off) == [RawChunk(tag, |payload|, payload, off)] + ReadBack(fs[1..], off + 8 + |payload|)
  {
  }

  lemma ReadableSplit(fs: seq<Frame>)
    requires Readable(fs) && fs != []
    ensures fs[0].tag in KNOWN_TAGS && |fs[0].payload| < U32_BOUND && Readable(fs[1..])
  {
    forall i | 0 <= i < |fs[1..]| ensures fs[1..][i] == fs[i + 1] { }
  }

  /** The first built chunk stored at `off`, then the others right after it. */
  lemma SplitAfterChunk(buf: seq<byte>, off: nat, fs: seq<Frame>, tag: seq<byte>, payload: seq<byte>)
    requires fs != [] && fs[0] == Frame(tag, payload) && |payload| < U32_BOUND
    requires off <= |buf| && buf[off..] == Flatten(ChunksOf(fs))
    ensures off + 8 + |payload| <= |buf|
    ensures buf[off..off + 4] == Tag4(tag) && ReadUint32BE(buf, off + 4) == |payload|
    ensures buf[off + 8..off + 8 + |payload|] == payload
    ensures buf[off + 8 + |payload|..] == Flatten(ChunksOf(fs[1..]))
  {
    var rest := Flatten(ChunksOf(fs[1..]));
    assert buf[off..] == Chunk(tag, payload) + rest by {
      assert ChunksOf(fs) == [ChunkOf(fs[0])] + ChunksOf(fs[1..]);
      FlattenCons(ChunkOf(fs[0]), ChunksOf(fs[1..]));
    }
    ChunkFoundAt(buf, off, tag, payload, rest);
  }

  /** The built chunks of `fs` lie in `buf` one after the other from `off`
      to its end. */
  ghost predicate StoredAt(buf: seq<byte>, off: nat, fs: seq<Frame>)
    decreases |fs|
  {
    if fs == [] then off == |buf|
    else
      var n := off + 8 + |fs[0].payload|;
      && n <= |buf| && buf[off..off + 4] == fs[0].tag && ReadUint32BE(buf, off + 4) == |fs[0].payload|
      && buf[off + 8..n] == fs[0].payload && StoredAt(buf, n, fs[1..])
  }

  /** Concatenated built chunks are stored one after the other. */
  lemma {:induction false} StoredFromFlatten(buf: seq<byte>, off: nat, fs: seq<Frame>)
    requires Readable(fs)
    requires off <= |buf| && buf[off..] == Flatten(ChunksOf(fs))
    ensures StoredAt(buf, off, fs)
    decreases |fs|
  {
    if fs == [] {
      assert |buf| == off;
    } else {
      ReadableSplit(fs);
      KnownTagLength(fs[0].tag);
      Tag4Of(fs[0].tag);
      SplitAfterChunk(buf, off, fs, fs[0].tag, fs[0].payload);
      StoredFromFlatten(buf, off + 8 + |fs[0].payload|, fs[1..]);
      StoredCons(buf, off, fs);
    }
  }

  lemma StoredCons(buf: seq<byte>, off: nat, fs: seq<Frame>)
    requires fs != [] && off + 8 + |fs[0].payload| <= |buf|
    requires buf[off..off + 4] == fs[0].tag && ReadUint32BE(buf, off + 4) == |fs[0].payload|
    requires buf[off + 8..off + 8 + |fs[0].payload|] == fs[0].payload
    requires StoredAt(buf, off + 8 + |fs[0].payload|, fs[1..])
    ensures StoredAt(buf, off, fs)
  {
  }

  /** The built chunks of `fs`, stored from `off` to the end of `buf`, read
      back as `ReadBack(fs, off)`. */
  lemma {:induction false} ReadBuiltChunksAt(buf: seq<byte>, off: nat, fs: seq<Frame>)
    requires Readable(fs) && StoredAt(buf, off, fs)
    ensures off <= |buf|
    ensures ScanChunks(buf, off, |buf|) == ReadBack(fs, off)
    decreases |fs|
  {
    if fs != [] {
      var tag, payload := fs[0].tag, fs[0].payload;
      var n := off + 8 + |payload|;
      StoredSplit(buf, off, fs, n);
      ReadableSplit(fs);
      ScanOneChunk(buf, off, tag, payload);
      ReadBuiltChunksAt(buf, n, fs[1..]);
      ReadBackCons(fs, off, tag, payload);
    }
  }

  lemma StoredSplit(buf: seq<byte>, off: nat, fs: seq<Frame>, n: nat)
    requires fs != [] && StoredAt(buf, off, fs) && n == off + 8 + |fs[0].payload|
    ensures n <= |buf| && buf[off..off + 4] == fs[0].tag && ReadUint32BE(buf, off + 4) == |fs[0].payload|
    ensures buf[off + 8..n] == fs[0].payload && StoredAt(buf, n, fs[1..])
  {
  }

  /** Round trip for any run of built chunks after an arbitrary prefix. */
  lemma ReadBuiltChunks(pre: seq<byte>, fs: seq<Frame>)
    requires Readable(fs)
    ensures var buf := pre + Flatten(ChunksOf(fs));
      ScanChunks(buf, |pre|, |buf|) == ReadBack(fs, |pre|)
  {
    var buf := pre + Flatten(ChunksOf(fs));
    assert buf[|pre|..] == Flatten(ChunksOf(fs));
    StoredFromFlatten(buf, |pre|, fs);
    ReadBuiltChunksAt(buf, |pre|, fs);
  }

  /** Round trip: a built chunk with a known tag reads back as exactly one chunk. */
  lemma ReadBuiltChunk(tag: seq<byte>, payload: seq<byte>)
    requires tag in KNOWN_TAGS && |payload| < U32_BOUND
    ensures var buf := Chunk(tag, payload);
      ScanChunks(buf, 0, |buf|) == [RawChunk(tag, |payload|, payload, 0)]
  {
    var buf := Chunk(tag, payload);
    AppendNil(buf);
    ChunkFoundAt(buf, 0, tag, payload, []);
    KnownTagLength(tag);
    Tag4Of(tag);
    ScanOneChunk(buf, 0, tag, payload);
  }
}
