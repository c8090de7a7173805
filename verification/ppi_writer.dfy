/** The plaintext PPI/CPI writer of ppi-writer.ts: an optional model-lock
    header, the pack's uid and title, then one `BLOB` container per file. */
module PpiWriter {
  import opened Wrappers
  import opened Bytes
  import opened ChunkCodec
  import opened PpfParser

  // ---- Which blobs are written ----

  /** The blobs whose index is listed, in their original order. */
  function Filter(blobs: seq<BlobEntry>, indices: seq<int>): seq<BlobEntry>
  {
    if blobs == [] then []
    else
      var n := |blobs| - 1;
      Filter(blobs[..n], indices) + (if n in indices then [blobs[n]] else [])
  }

  /** `selectedIndices ? blobs.filter((_, i) => selectedIndices.includes(i)) : blobs`.
      An empty list is truthy in JavaScript, so it selects nothing. */
  function SelectBlobs(blobs: seq<BlobEntry>, selectedIndices: Option<seq<int>>): seq<BlobEntry>
  {
    match selectedIndices
    case None => blobs
    case Some(indices) => Filter(blobs, indices)
  }

  /** The listed indices below `n`, increasing, each once. */
  function Kept(n: nat, indices: seq<int>): seq<nat>
  {
    if n == 0 then [] else Kept(n - 1, indices) + (if n - 1 in indices then [n - 1] else [])
  }

  lemma {:induction false} KeptShape(n: nat, indices: seq<int>)
    ensures forall k :: 0 <= k < |Kept(n, indices)| ==> Kept(n, indices)[k] < n
    ensures forall k1, k2 :: 0 <= k1 < k2 < |Kept(n, indices)| ==> Kept(n, indices)[k1] < Kept(n, indices)[k2]
    ensures forall i :: i in Kept(n, indices) <==> 0 <= i < n && i in indices
  {
    if n > 0 {
      KeptShape(n - 1, indices);
    }
  }

  lemma {:induction false} FilterPicks(blobs: seq<BlobEntry>, indices: seq<int>)
    ensures |Filter(blobs, indices)| == |Kept(|blobs|, indices)|
    ensures forall k :: 0 <= k < |Filter(blobs, indices)| ==>
      Kept(|blobs|, indices)[k] < |blobs| && Filter(blobs, indices)[k] == blobs[Kept(|blobs|, indices)[k]]
  {
    if blobs != [] {
      var n := |blobs| - 1;
      FilterPicks(blobs[..n], indices);
      KeptShape(|blobs|, indices);
    }
  }

  /** With a list of indices, exactly the blobs whose index is listed are
      written, in their original order; repeated and out-of-range indices add
      nothing. Without one, all blobs are written. */
  lemma SelectionExact(blobs: seq<BlobEntry>, selectedIndices: Option<seq<int>>)
    ensures selectedIndices.None? ==> SelectBlobs(blobs, selectedIndices) == blobs
    ensures selectedIndices.Some? ==>
      var ks := Kept(|blobs|, selectedIndices.value);
      var r := SelectBlobs(blobs, selectedIndices);
      && |r| == |ks|
      && (forall k :: 0 <= k < |r| ==> ks[k] < |blobs| && r[k] == blobs[ks[k]])
      && (forall k1, k2 :: 0 <= k1 < k2 < |ks| ==> ks[k1] < ks[k2])
      && (forall i :: i in ks <==> 0 <= i < |blobs| && i in selectedIndices.value)
  {
    if selectedIndices.Some? {
      FilterPicks(blobs, selectedIndices.value);
      KeptShape(|blobs|, selectedIndices.value);
    }
  }

  // ---- The chunks written ----

  /** `if (blob.iconCode)`: present and non-empty. */
  predicate IconPresent(b: BlobEntry)
  {
    b.iconCode.Some? && b.iconCode.value != []
  }

  /** A text chunk as `buildTextChunk` writes it: the text and one NUL. */
  function TextFrame(tag: seq<byte>, text: seq<byte>): Frame
  {
    Frame(tag, text + [0])
  }

  /** The sub-chunks of a blob's container: `EUID`, `ETIT`, `EEXT`, `EICO`
      only for a non-empty icon code, then the raw `FBIN`. */
  function BlobSubFrames(b: BlobEntry): seq<Frame>
  {
    [TextFrame(EUID, b.uid), TextFrame(ETIT, b.title), TextFrame(EEXT, b.extension)]
    + (if IconPresent(b) then [TextFrame(EICO, b.iconCode.value)] else [])
    + [Frame(FBIN, b.binaryData)]
  }

  function BlobFrame(b: BlobEntry): Frame
  {
    Frame(BLOB, Flatten(ChunksOf(BlobSubFrames(b))))
  }

  function BlobFrames(blobs: seq<BlobEntry>): (r: seq<Frame>)
    ensures |r| == |blobs|
  {
    if blobs == [] then [] else [BlobFrame(blobs[0])] + BlobFrames(blobs[1..])
  }

  /** The model-lock header: `XMDL` (model name and NUL) then `XPID` (the
      install id big-endian), with nothing between them. */
  function HeaderFrame(modelName: seq<byte>, packInstallId: int): Frame
  {
    Frame(XPIH, Flatten(ChunksOf([TextFrame(XMDL, modelName), Frame(XPID, Be32(packInstallId))])))
  }

  function HasHeader(modelName: seq<byte>, includeHeader: bool): bool
  {
    includeHeader && modelName != []
  }

  /** The chunks after the header: `EUID` and `ETIT` of the pack, then one
      `BLOB` per selected blob. The encrypted writer uses the same list. */
  function PayloadFrames(packData: PpfData, selectedIndices: Option<seq<int>>): seq<Frame>
  {
    [TextFrame(EUID, packData.uid), TextFrame(ETIT, packData.title)]
    + BlobFrames(SelectBlobs(packData.blobs, selectedIndices))
  }

  /** The top-level chunks `buildPPI` writes, in order. */
  function PpiFrames(packData: PpfData, modelName: seq<byte>, packInstallId: int,
                     selectedIndices: Option<seq<int>>, includeHeader: bool): seq<Frame>
  {
    (if HasHeader(modelName, includeHeader) then [HeaderFrame(modelName, packInstallId)] else [])
    + PayloadFrames(packData, selectedIndices)
  }

  /** The bytes `buildPPI` returns: its chunks one after another. */
  function PpiBytes(packData: PpfData, modelName: seq<byte>, packInstallId: int,
                    selectedIndices: Option<seq<int>>, includeHeader: bool): seq<byte>
  {
    Flatten(ChunksOf(PpiFrames(packData, modelName, packInstallId, selectedIndices, includeHeader)))
  }

  // ---- The writer ----

  /** The `BLOB` container for one blob, as the loop body builds it. */
  method BuildBlob(blob: BlobEntry) returns (r: seq<byte>)
    ensures r == ChunkOf(BlobFrame(blob))
  {
    var blobParts: seq<seq<byte>> := [];
    ghost var fs: seq<Frame> := [];
    var p := BuildTextChunk(EUID, blob.uid);
    PushChunk(blobParts, fs, TextFrame(EUID, blob.uid), p);
    blobParts, fs := blobParts + [p], fs + [TextFrame(EUID, blob.uid)];
    p := BuildTextChunk(ETIT, blob.title);
    PushChunk(blobParts, fs, TextFrame(ETIT, blob.title), p);
    blobParts, fs := blobParts + [p], fs + [TextFrame(ETIT, blob.title)];
    p := BuildTextChunk(EEXT, blob.extension);
    PushChunk(blobParts, fs, TextFrame(EEXT, blob.extension), p);
    blobParts, fs := blobParts + [p], fs + [TextFrame(EEXT, blob.extension)];
    PushThree(TextFrame(EUID, blob.uid), TextFrame(ETIT, blob.title), TextFrame(EEXT, blob.extension));
    ghost var head := fs;
    if blob.iconCode.Some? && blob.iconCode.value != [] {
      p := BuildTextChunk(EICO, blob.iconCode.value);
      PushChunk(blobParts, fs, TextFrame(EICO, blob.iconCode.value), p);
      blobParts, fs := blobParts + [p], fs + [TextFrame(EICO, blob.iconCode.value)];
    } else {
      AppendNil(fs);
    }
    assert fs == head + if IconPresent(blob) then [TextFrame(EICO, blob.iconCode.value)] else [];
    p := BuildChunk(FBIN, blob.binaryData);
    PushChunk(blobParts, fs, Frame(FBIN, blob.binaryData), p);
    blobParts, fs := blobParts + [p], fs + [Frame(FBIN, blob.binaryData)];
    assert fs == BlobSubFrames(blob);
    r := BuildContainerChunk(BLOB, blobParts);
  }

  /** The payload parts: the pack's `EUID` and `ETIT`, then the loop over the
      selected blobs. */
  method PayloadParts(packData: PpfData, selectedIndices: Option<seq<int>>) returns (parts: seq<seq<byte>>)
    ensures parts == ChunksOf(PayloadFrames(packData, selectedIndices))
  {
    var p := BuildTextChunk(EUID, packData.uid);
    parts := [p];
    p := BuildTextChunk(ETIT, packData.title);
    parts := parts + [p];
    var ts := [TextFrame(EUID, packData.uid), TextFrame(ETIT, packData.title)];
    assert parts == ChunksOf(ts) by {
      ChunksOfShape(ts);
    }
    var blobs := SelectBlobs(packData.blobs, selectedIndices);
    var i := 0;
    while i < |blobs|
      invariant 0 <= i <= |blobs|
      invariant parts == ChunksOf(ts) + ChunksOf(BlobFrames(blobs[..i]))
    {
      var b := BuildBlob(blobs[i]);
      BlobFramesSnoc(blobs[..i], blobs[i]);
      TakeSnoc(blobs, i);
      ChunksSnoc(ChunksOf(ts), BlobFrames(blobs[..i]), BlobFrame(blobs[i]));
      parts := parts + [b];
      i := i + 1;
    }
    assert blobs[..i] == blobs;
    ChunksOfAppend(ts, BlobFrames(blobs));
  }

  /** The model-lock header chunk. */
  method BuildHeader(modelName: seq<byte>, packInstallId: int) returns (r: seq<byte>)
    ensures r == ChunkOf(HeaderFrame(modelName, packInstallId))
  {
    var xmdlChunk := BuildTextChunk(XMDL, modelName);
    var xpidData := new byte[4](_ => 0);
    WriteUint32BE(xpidData, 0, packInstallId);
    assert xpidData[..] == Be32(packInstallId);
    var xpidChunk := BuildChunk(XPID, xpidData[..]);
    ghost var fs := [TextFrame(XMDL, modelName), Frame(XPID, Be32(packInstallId))];
    assert [xmdlChunk, xpidChunk] == ChunksOf(fs) by {
      ChunksOfShape(fs);
    }
    r := BuildContainerChunk(XPIH, [xmdlChunk, xpidChunk]);
  }

  /** `buildPPI`: collect the parts, then copy them into one buffer. */
  method BuildPPI(packData: PpfData, modelName: seq<byte>, packInstallId: int,
                  selectedIndices: Option<seq<int>>, includeHeader: bool) returns (r: seq<byte>)
    ensures r == PpiBytes(packData, modelName, packInstallId, selectedIndices, includeHeader)
  {
    var parts: seq<seq<byte>> := [];
    if includeHeader && modelName != [] {
      var xpihChunk := BuildHeader(modelName, packInstallId);
      parts := [xpihChunk];
    }
    var hs := if HasHeader(modelName, includeHeader) then [HeaderFrame(modelName, packInstallId)] else [];
    assert parts == ChunksOf(hs) by {
      ChunksOfShape(hs);
    }
    var payload := PayloadParts(packData, selectedIndices);
    parts := parts + payload;
    ChunksOfAppend(hs, PayloadFrames(packData, selectedIndices));
    r := ConcatArrays(parts);
  }

  lemma {:induction false} ChunksOfAppend(a: seq<Frame>, b: seq<Frame>)
    ensures ChunksOf(a + b) == ChunksOf(a) + ChunksOf(b)
  {
    if a == [] {
      assert a + b == b;
    } else {
      assert (a + b)[1..] == a[1..] + b;
      ChunksOfAppend(a[1..], b);
    }
  }

  /** Pushing the chunk of frame `f` onto the chunks of `fs`. */
  lemma PushChunk(parts: seq<seq<byte>>, fs: seq<Frame>, f: Frame, p: seq<byte>)
    requires parts == ChunksOf(fs) && p == ChunkOf(f)
    ensures parts + [p] == ChunksOf(fs + [f])
  {
    ChunksOfAppend(fs, [f]);
    assert ChunksOf([f]) == [ChunkOf(f)];
  }

  /** Appending one more frame's chunk after a prefix `pre`. */
  lemma ChunksSnoc(pre: seq<seq<byte>>, fs: seq<Frame>, f: Frame)
    ensures pre + ChunksOf(fs) + [ChunkOf(f)] == pre + ChunksOf(fs + [f])
  {
    ChunksOfAppend(fs, [f]);
    assert ChunksOf([f]) == [ChunkOf(f)];
    AppendAssoc(pre, ChunksOf(fs), [ChunkOf(f)]);
  }

  lemma BlobFramesCons(blobs: seq<BlobEntry>)
    requires blobs != []
    ensures BlobFrames(blobs)[0] == BlobFrame(blobs[0])
    ensures BlobFrames(blobs)[1..] == BlobFrames(blobs[1..])
  {
    assert BlobFrames(blobs) == [BlobFrame(blobs[0])] + BlobFrames(blobs[1..]);
  }

  lemma {:induction false} BlobFramesSnoc(blobs: seq<BlobEntry>, b: BlobEntry)
    ensures BlobFrames(blobs + [b]) == BlobFrames(blobs) + [BlobFrame(b)]
  {
    if blobs == [] {
      assert [] + [b] == [b];
    } else {
      assert (blobs + [b])[1..] == blobs[1..] + [b];
      BlobFramesSnoc(blobs[1..], b);
    }
  }

  // ---- What the output looks like ----

  lemma FlattenPair(a: seq<byte>, b: seq<byte>)
    ensures Flatten([a, b]) == a + b
  {
    assert [a, b][..1] == [a];
    assert Flatten([a]) == Flatten([]) + a;
  }

  lemma FlattenChunksAppend(a: seq<Frame>, b: seq<Frame>)
    ensures Flatten(ChunksOf(a + b)) == Flatten(ChunksOf(a)) + Flatten(ChunksOf(b))
  {
    ChunksOfAppend(a, b);
    FlattenAppend(ChunksOf(a), ChunksOf(b));
  }

  lemma FlattenChunksPair(f: Frame, g: Frame)
    ensures Flatten(ChunksOf([f, g])) == ChunkOf(f) + ChunkOf(g)
  {
    ChunksOfShape([f, g]);
    assert ChunksOf([f, g]) == [ChunkOf(f), ChunkOf(g)];
    FlattenPair(ChunkOf(f), ChunkOf(g));
  }

  lemma FlattenChunksOne(f: Frame)
    ensures Flatten(ChunksOf([f])) == ChunkOf(f)
  {
    assert ChunksOf([f]) == [ChunkOf(f)];
    assert Flatten([ChunkOf(f)]) == Flatten([]) + ChunkOf(f);
  }

  /** The output in order: the optional header chunk, the pack's `EUID` and
      `ETIT` text chunks, then the `BLOB` chunks of the selected blobs. */
  lemma PpiLayout(packData: PpfData, modelName: seq<byte>, packInstallId: int,
                  selectedIndices: Option<seq<int>>, includeHeader: bool)
    ensures PpiBytes(packData, modelName, packInstallId, selectedIndices, includeHeader)
      == (if HasHeader(modelName, includeHeader) then ChunkOf(HeaderFrame(modelName, packInstallId)) else [])
         + Chunk(EUID, packData.uid + [0]) + Chunk(ETIT, packData.title + [0])
         + Flatten(ChunksOf(BlobFrames(SelectBlobs(packData.blobs, selectedIndices))))
  {
    var hs := if HasHeader(modelName, includeHeader) then [HeaderFrame(modelName, packInstallId)] else [];
    var u, t := TextFrame(EUID, packData.uid), TextFrame(ETIT, packData.title);
    var bs := BlobFrames(SelectBlobs(packData.blobs, selectedIndices));
    var hb := if HasHeader(modelName, includeHeader) then ChunkOf(HeaderFrame(modelName, packInstallId)) else [];
    assert Flatten(ChunksOf(hs)) == hb by {
      if hs != [] { FlattenChunksOne(hs[0]); }
    }
    var fb := Flatten(ChunksOf(bs));
    var cu, ct := Chunk(EUID, packData.uid + [0]), Chunk(ETIT, packData.title + [0]);
    assert PpiFrames(packData, modelName, packInstallId, selectedIndices, includeHeader) == hs + ([u, t] + bs);
    assert Flatten(ChunksOf([u, t] + bs)) == cu + ct + fb by {
      FlattenChunksAppend([u, t], bs);
      FlattenChunksPair(u, t);
    }
    assert Flatten(ChunksOf(hs + ([u, t] + bs))) == hb + (cu + ct + fb) by {
      FlattenChunksAppend(hs, [u, t] + bs);
    }
    AppendAssoc(hb, cu + ct, fb);
    AppendAssoc(hb, cu, ct);
  }

  /** The output starts with tag `XPIH` exactly when the header is asked for
      and the model name is non-empty; otherwise it starts with `EUID`. */
  lemma HeaderIff(packData: PpfData, modelName: seq<byte>, packInstallId: int,
                  selectedIndices: Option<seq<int>>, includeHeader: bool)
    ensures var r := PpiBytes(packData, modelName, packInstallId, selectedIndices, includeHeader);
      && |r| >= 4
      && (r[..4] == XPIH <==> includeHeader && modelName != [])
      && (!(includeHeader && modelName != []) ==> r[..4] == EUID)
  {
    PpiStart(packData, modelName, packInstallId, selectedIndices, includeHeader);
    assert XPIH[1] != EUID[1];
  }

  /** The first tag of the output: `XPIH` with the header, `EUID` without. */
  lemma PpiStart(packData: PpfData, modelName: seq<byte>, packInstallId: int,
                 selectedIndices: Option<seq<int>>, includeHeader: bool)
    ensures var r := PpiBytes(packData, modelName, packInstallId, selectedIndices, includeHeader);
      |r| >= 4 && r[..4] == if HasHeader(modelName, includeHeader) then XPIH else EUID
  {
    PpiLayout(packData, modelName, packInstallId, selectedIndices, includeHeader);
    var r := PpiBytes(packData, modelName, packInstallId, selectedIndices, includeHeader);
    var cu, ct := Chunk(EUID, packData.uid + [0]), Chunk(ETIT, packData.title + [0]);
    var fb := Flatten(ChunksOf(BlobFrames(SelectBlobs(packData.blobs, selectedIndices))));
    if HasHeader(modelName, includeHeader) {
      var h := HeaderFrame(modelName, packInstallId);
      AppendAssoc(ChunkOf(h) + cu, ct, fb);
      AppendAssoc(ChunkOf(h), cu, ct + fb);
      ChunkStartsWith(XPIH, h.payload, cu + (ct + fb));
    } else {
      assert [] + cu == cu;
      ChunkStartsWith(EUID, packData.uid + [0], ct + fb);
    }
  }

  /** A chunk with a 4-byte tag, followed by anything, starts with that tag. */
  lemma ChunkStartsWith(id: seq<byte>, data: seq<byte>, rest: seq<byte>)
    requires |id| == 4
    ensures |Chunk(id, data) + rest| >= 4 && (Chunk(id, data) + rest)[..4] == id
  {
    ChunkParts(id, data);
    Tag4Of(id);
    TakeOfAppend(Chunk(id, data), rest, 4);
  }

  lemma HeaderPayloadLength(modelName: seq<byte>, packInstallId: int)
    ensures HeaderFrame(modelName, packInstallId).payload
      == Chunk(XMDL, modelName + [0]) + Chunk(XPID, Be32(packInstallId))
    ensures |HeaderFrame(modelName, packInstallId).payload| == 21 + |modelName|
  {
    FlattenChunksPair(TextFrame(XMDL, modelName), Frame(XPID, Be32(packInstallId)));
  }

  /** The header's payload is the `XMDL` text chunk (model name and NUL)
      followed at once by the 12-byte `XPID` chunk, with no padding; the
      install id reads back from its last four bytes. */
  lemma HeaderLayout(modelName: seq<byte>, packInstallId: int)
    requires 0 <= packInstallId < U32_BOUND && 21 + |modelName| < U32_BOUND
    ensures var p := HeaderFrame(modelName, packInstallId).payload;
      var h := ChunkOf(HeaderFrame(modelName, packInstallId));
      && p == Chunk(XMDL, modelName + [0]) + Chunk(XPID, Be32(packInstallId))
      && |p| == 21 + |modelName|
      && h[..4] == XPIH && ReadUint32BE(h, 4) == 21 + |modelName|
      && p[9 + |modelName|..13 + |modelName|] == XPID
      && ReadUint32BE(p, 17 + |modelName|) == packInstallId
  {
    HeaderPayloadLength(modelName, packInstallId);
    var p := HeaderFrame(modelName, packInstallId).payload;
    TaggedStart(XPIH, p);
    XpidAfterText(modelName, packInstallId);
  }

  /** A chunk with a 4-byte tag starts with the tag and its payload length. */
  lemma TaggedStart(id: seq<byte>, p: seq<byte>)
    requires |id| == 4 && |p| < U32_BOUND
    ensures var h := Chunk(id, p);
      |h| >= 8 && h[..4] == id && ReadUint32BE(h, 4) == |p|
  {
    ChunkThen(id, p, []);
    AppendNil(Chunk(id, p));
    Tag4Of(id);
  }

  /** `XMDL` with the model name and NUL, then `XPID` with the install id. */
  lemma XpidAfterText(modelName: seq<byte>, packInstallId: int)
    requires 0 <= packInstallId < U32_BOUND
    ensures var p := Chunk(XMDL, modelName + [0]) + Chunk(XPID, Be32(packInstallId));
      && |p| == 21 + |modelName|
      && p[9 + |modelName|..13 + |modelName|] == XPID
      && ReadUint32BE(p, 17 + |modelName|) == packInstallId
  {
    var x := Chunk(XMDL, modelName + [0]);
    var y := Chunk(XPID, Be32(packInstallId));
    var p := x + y;
    ChunkParts(XMDL, modelName + [0]);
    DropAppend(x, y);
    AppendNil(y);
    ChunkFoundAt(p, |x|, XPID, Be32(packInstallId), []);
    Tag4Of(XPID);
    ReadUint32BEFrom(p, |x| + 8, packInstallId);
  }
}
