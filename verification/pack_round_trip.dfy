/** Reading back what the plaintext writer wrote: `parsePPFRaw` applied to
    any 8-byte preamble followed by the output of `buildPPI`. */
module PackRoundTrip {
  import opened Wrappers
  import opened Bytes
  import opened ChunkCodec
  import opened PpfParser
  import opened PpiWriter

  /** What the reader makes of a written blob: an icon code that is absent
      or empty is not written, so it reads back as absent. */
  function Normalize(b: BlobEntry): BlobEntry
  {
    b.(iconCode := if IconPresent(b) then b.iconCode else None)
  }

  function NormalizeAll(bs: seq<BlobEntry>): seq<BlobEntry>
  {
    if bs == [] then [] else [Normalize(bs[0])] + NormalizeAll(bs[1..])
  }

  lemma {:induction false} NormalizeAllShape(bs: seq<BlobEntry>)
    ensures |NormalizeAll(bs)| == |bs|
    ensures forall i :: 0 <= i < |bs| ==> NormalizeAll(bs)[i] == Normalize(bs[i])
  {
    if bs != [] {
      NormalizeAllShape(bs[1..]);
      assert NormalizeAll(bs) == [Normalize(bs[0])] + NormalizeAll(bs[1..]);
    }
  }

  /** A blob the reader gives back: its texts hold no NUL (the reader drops
      NULs from text) and its container fits the 32-bit length field. */
  predicate BlobWritable(b: BlobEntry)
  {
    && 0 !in b.uid && 0 !in b.title && 0 !in b.extension
    && (b.iconCode.Some? ==> 0 !in b.iconCode.value)
    && |BlobFrame(b).payload| < U32_BOUND
  }

  /** A pack whose written form reads back: NUL-free texts, every length
      within 32 bits, every selected blob writable. */
  predicate PackWritable(packData: PpfData, modelName: seq<byte>, selectedIndices: Option<seq<int>>)
  {
    && 0 !in packData.uid && 0 !in packData.title
    && |packData.uid| + 1 < U32_BOUND && |packData.title| + 1 < U32_BOUND
    && 21 + |modelName| < U32_BOUND
    && forall b :: b in SelectBlobs(packData.blobs, selectedIndices) ==> BlobWritable(b)
  }

  lemma TagsDistinct()
    ensures EUID != ETIT && EUID != EEXT && EUID != EICO && EUID != FBIN && EUID != BLOB && EUID != XPIH
    ensures ETIT != EEXT && ETIT != EICO && ETIT != FBIN && ETIT != BLOB && ETIT != XPIH
    ensures EEXT != EICO && EEXT != FBIN && EICO != FBIN && BLOB != XPIH
  {
    assert EUID[1] != ETIT[1] && EUID[1] != EEXT[1] && EUID[1] != EICO[1] && EUID[0] != FBIN[0];
    assert EUID[0] != BLOB[0] && EUID[0] != XPIH[0];
    assert ETIT[1] != EEXT[1] && ETIT[1] != EICO[1] && ETIT[0] != FBIN[0] && ETIT[0] != BLOB[0];
    assert ETIT[0] != XPIH[0] && EEXT[1] != EICO[1] && EEXT[0] != FBIN[0] && EICO[0] != FBIN[0];
    assert BLOB[0] != XPIH[0];
  }

  // ---- One blob ----

  lemma EntryPrefix(rs: seq<RawChunk>, k: nat)
    requires k < |rs|
    ensures Entry(rs[..k + 1]) == ApplySub(Entry(rs[..k]), rs[k])
  {
    assert rs[..k + 1][..k] == rs[..k];
    assert rs[..k + 1][k] == rs[k];
  }

  /** Every sub-chunk of a writable blob fits the 32-bit length field. */
  lemma SubFramesReadable(b: BlobEntry)
    requires |BlobFrame(b).payload| < U32_BOUND
    ensures Readable(BlobSubFrames(b))
  {
    var subs := BlobSubFrames(b);
    ChunksOfShape(subs);
    forall i | 0 <= i < |subs|
      ensures subs[i].tag in KNOWN_TAGS && |subs[i].payload| < U32_BOUND
    {
      var f := subs[i];
      assert ChunksOf(subs)[i] == ChunkOf(f);
      assert |ChunkOf(f)| == 8 + |f.payload|;
      PartNoLongerThanFlatten(ChunksOf(subs), i);
      SubFrameTag(b, i);
    }
  }

  /** Every sub-chunk of a blob carries one of the reader's tags. */
  lemma SubFrameTag(b: BlobEntry, i: nat)
    requires i < |BlobSubFrames(b)|
    ensures BlobSubFrames(b)[i].tag in KNOWN_TAGS
  {
    SubTagsKnown();
    var subs := BlobSubFrames(b);
    var n := |subs|;
    if i < 3 {
      assert subs[i].tag == [EUID, ETIT, EEXT][i];
    } else if i == n - 1 {
      assert subs[i].tag == FBIN;
    } else {
      assert subs[i].tag == EICO;
    }
  }

  lemma SubTagsKnown()
    ensures EUID in KNOWN_TAGS && ETIT in KNOWN_TAGS && EEXT in KNOWN_TAGS
    ensures EICO in KNOWN_TAGS && FBIN in KNOWN_TAGS
  {
  }

  /** The sub-chunks of a written blob, as the reader sees them. */
  lemma ReadSubFrames(b: BlobEntry) returns (rs: seq<RawChunk>)
    requires |BlobFrame(b).payload| < U32_BOUND
    ensures var data := BlobFrame(b).payload; rs == ScanChunks(data, 0, |data|)
    ensures |rs| == |BlobSubFrames(b)|
    ensures forall i :: 0 <= i < |rs| ==>
      rs[i].id == BlobSubFrames(b)[i].tag && rs[i].data == BlobSubFrames(b)[i].payload
  {
    var subs := BlobSubFrames(b);
    SubFramesReadable(b);
    ReadBuiltChunks([], subs);
    var data := Flatten(ChunksOf(subs));
    assert [] + data == data;
    rs := ReadBack(subs, 0);
    ReadBackShape(subs, 0);
  }

  // Each sub-chunk tag sets its own field of the entry.
  lemma ApplyUid(e: BlobEntry, s: RawChunk)
    requires s.id == EUID
    ensures ApplySub(e, s) == e.(uid := ChunkText(s))
  {
  }

  lemma ApplyTitle(e: BlobEntry, s: RawChunk)
    requires s.id == ETIT
    ensures ApplySub(e, s) == e.(title := ChunkText(s))
  {
    TagsDistinct();
  }

  lemma ApplyExtension(e: BlobEntry, s: RawChunk)
    requires s.id == EEXT
    ensures ApplySub(e, s) == e.(extension := ChunkText(s))
  {
    TagsDistinct();
  }

  lemma ApplyIcon(e: BlobEntry, s: RawChunk)
    requires s.id == EICO
    ensures ApplySub(e, s) == e.(iconCode := Some(ChunkText(s)))
  {
    TagsDistinct();
  }

  lemma ApplyBinary(e: BlobEntry, s: RawChunk)
    requires s.id == FBIN
    ensures ApplySub(e, s) == e.(binaryData := s.data)
  {
    TagsDistinct();
  }

  /** The first three sub-chunks set uid, title and extension. */
  lemma EntryTexts(b: BlobEntry, rs: seq<RawChunk>)
    requires 0 !in b.uid && 0 !in b.title && 0 !in b.extension
    requires |rs| >= 3
    requires rs[0].id == EUID && rs[0].data == b.uid + [0]
    requires rs[1].id == ETIT && rs[1].data == b.title + [0]
    requires rs[2].id == EEXT && rs[2].data == b.extension + [0]
    ensures Entry(rs[..3]) == BlobEntry(b.uid, b.title, b.extension, None, [])
  {
    TextOfTerminated(b.uid);
    TextOfTerminated(b.title);
    TextOfTerminated(b.extension);
    assert rs[..0] == [];
    EntryPrefix(rs, 0);
    ApplyUid(EMPTY_ENTRY, rs[0]);
    var e1 := EMPTY_ENTRY.(uid := b.uid);
    EntryPrefix(rs, 1);
    ApplyTitle(e1, rs[1]);
    var e2 := e1.(title := b.title);
    EntryPrefix(rs, 2);
    ApplyExtension(e2, rs[2]);
  }

  /** Without an icon: `EUID`, `ETIT`, `EEXT`, `FBIN`. */
  lemma EntryWithoutIcon(b: BlobEntry, rs: seq<RawChunk>)
    requires 0 !in b.uid && 0 !in b.title && 0 !in b.extension
    requires |rs| == 4
    requires rs[0].id == EUID && rs[0].data == b.uid + [0]
    requires rs[1].id == ETIT && rs[1].data == b.title + [0]
    requires rs[2].id == EEXT && rs[2].data == b.extension + [0]
    requires rs[3].id == FBIN && rs[3].data == b.binaryData
    ensures Entry(rs) == BlobEntry(b.uid, b.title, b.extension, None, b.binaryData)
  {
    EntryTexts(b, rs);
    EntryPrefix(rs, 3);
    ApplyBinary(BlobEntry(b.uid, b.title, b.extension, None, []), rs[3]);
    assert rs[..4] == rs;
  }

  /** With an icon: `EUID`, `ETIT`, `EEXT`, `EICO`, `FBIN`. */
  lemma EntryWithIcon(b: BlobEntry, icon: seq<byte>, rs: seq<RawChunk>)
    requires 0 !in b.uid && 0 !in b.title && 0 !in b.extension && 0 !in icon
    requires |rs| == 5
    requires rs[0].id == EUID && rs[0].data == b.uid + [0]
    requires rs[1].id == ETIT && rs[1].data == b.title + [0]
    requires rs[2].id == EEXT && rs[2].data == b.extension + [0]
    requires rs[3].id == EICO && rs[3].data == icon + [0]
    requires rs[4].id == FBIN && rs[4].data == b.binaryData
    ensures Entry(rs) == BlobEntry(b.uid, b.title, b.extension, Some(icon), b.binaryData)
  {
    var e3 := BlobEntry(b.uid, b.title, b.extension, None, []);
    var e4 := BlobEntry(b.uid, b.title, b.extension, Some(icon), []);
    EntryTexts(b, rs);
    TextOfTerminated(icon);
    EntryPrefix(rs, 3);
    ApplyIcon(e3, rs[3]);
    EntryPrefix(rs, 4);
    ApplyBinary(e4, rs[4]);
    assert rs[..5] == rs;
  }

  /** A written `BLOB` reads back as the blob, with an empty icon code as absent. */
  lemma BlobRoundTrip(b: BlobEntry, c: RawChunk)
    requires BlobWritable(b) && c.data == BlobFrame(b).payload
    ensures BlobOf(c) == Normalize(b)
  {
    var rs := ReadSubFrames(b);
    var subs := BlobSubFrames(b);
    assert BlobOf(c) == Entry(rs);
    assert subs[0] == TextFrame(EUID, b.uid) && subs[1] == TextFrame(ETIT, b.title);
    assert subs[2] == TextFrame(EEXT, b.extension);
    if IconPresent(b) {
      var icon := b.iconCode.value;
      assert subs[3] == TextFrame(EICO, icon) && subs[4] == Frame(FBIN, b.binaryData);
      EntryWithIcon(b, icon, rs);
      assert Normalize(b) == BlobEntry(b.uid, b.title, b.extension, Some(icon), b.binaryData);
    } else {
      assert subs[3] == Frame(FBIN, b.binaryData);
      EntryWithoutIcon(b, rs);
      assert Normalize(b) == BlobEntry(b.uid, b.title, b.extension, None, b.binaryData);
    }
  }

  // ---- The top-level chunks ----

  /** A scan holding no chunk tagged `tag` has no text for it. */
  lemma {:induction false} FirstTextAbsent(cs: seq<RawChunk>, tag: seq<byte>)
    requires forall i :: 0 <= i < |cs| ==> cs[i].id != tag
    ensures FirstText(cs, tag) == []
  {
    if cs != [] {
      assert forall i :: 0 <= i < |cs[1..]| ==> cs[1..][i] == cs[i + 1];
      FirstTextAbsent(cs[1..], tag);
    }
  }

  /** The `BLOB` chunks of the selected blobs read back as the blobs. */
  lemma {:induction false} BlobChunksRead(bs: seq<BlobEntry>, off: nat)
    requires forall b :: b in bs ==> BlobWritable(b)
    ensures BlobsOf(ReadBack(BlobFrames(bs), off)) == NormalizeAll(bs)
  {
    if bs != [] {
      var fs := BlobFrames(bs);
      var f := BlobFrame(bs[0]);
      var tag, payload := f.tag, f.payload;
      BlobFramesCons(bs);
      var next := off + 8 + |payload|;
      ReadBackCons(fs, off, tag, payload);
      var c := RawChunk(tag, |payload|, payload, off);
      var rest := ReadBack(BlobFrames(bs[1..]), next);
      assert bs[0] in bs;
      BlobRoundTrip(bs[0], c);
      assert forall b :: b in bs[1..] ==> b in bs;
      BlobChunksRead(bs[1..], next);
      BlobsOfCons(ReadBack(fs, off), c, rest);
    }
  }

  lemma BlobsOfCons(cs: seq<RawChunk>, c: RawChunk, rest: seq<RawChunk>)
    requires cs == [c] + rest && c.id == BLOB
    ensures BlobsOf(cs) == [BlobOf(c)] + BlobsOf(rest)
  {
    assert cs[1..] == rest;
  }

  /** The `BLOB` chunks hold no top-level `EUID` or `ETIT`. */
  lemma BlobChunksNoText(bs: seq<BlobEntry>, off: nat)
    ensures FirstText(ReadBack(BlobFrames(bs), off), EUID) == []
    ensures FirstText(ReadBack(BlobFrames(bs), off), ETIT) == []
  {
    TagsDistinct();
    var fs := BlobFrames(bs);
    var cs := ReadBack(fs, off);
    ReadBackShape(fs, off);
    forall i | 0 <= i < |cs| ensures cs[i].id == BLOB {
      BlobFramesAt(bs, i);
    }
    FirstTextAbsent(cs, EUID);
    FirstTextAbsent(cs, ETIT);
  }

  /** What the reader collects from `cs`: the first non-empty `EUID` and
      `ETIT` texts and the blobs, in order. */
  ghost predicate ReadsAs(cs: seq<RawChunk>, uid: seq<byte>, title: seq<byte>, blobs: seq<BlobEntry>)
  {
    FirstText(cs, EUID) == uid && FirstText(cs, ETIT) == title && BlobsOf(cs) == blobs
  }

  /** The part after the header: the pack's own text chunks, then the blobs. */
  lemma PayloadRead(packData: PpfData, selectedIndices: Option<seq<int>>, off: nat)
    requires PackWritable(packData, [], selectedIndices)
    ensures ReadsAs(ReadBack(PayloadFrames(packData, selectedIndices), off),
                    packData.uid, packData.title, NormalizeAll(SelectBlobs(packData.blobs, selectedIndices)))
  {
    var blobs := SelectBlobs(packData.blobs, selectedIndices);
    var off2 := off + 8 + (|packData.uid| + 1) + 8 + (|packData.title| + 1);
    BlobChunksRead(blobs, off2);
    BlobChunksNoText(blobs, off2);
    TextsThenRest(PayloadFrames(packData, selectedIndices), off, packData.uid, packData.title,
                  BlobFrames(blobs), off2, NormalizeAll(blobs));
  }

  /** Frames `EUID(uid)`, `ETIT(title)`, then frames `bs` that carry no text
      and whose blobs are `blobs`: the reader takes the two texts and `blobs`. */
  lemma TextsThenRest(fs: seq<Frame>, off: nat, uid: seq<byte>, title: seq<byte>, bs: seq<Frame>, off2: nat,
                      blobs: seq<BlobEntry>)
    requires 0 !in uid && 0 !in title
    requires fs == [TextFrame(EUID, uid), TextFrame(ETIT, title)] + bs
    requires off2 == off + 8 + (|uid| + 1) + 8 + (|title| + 1)
    requires FirstText(ReadBack(bs, off2), EUID) == [] && FirstText(ReadBack(bs, off2), ETIT) == []
    requires BlobsOf(ReadBack(bs, off2)) == blobs
    ensures ReadsAs(ReadBack(fs, off), uid, title, blobs)
  {
    var u, t := TextFrame(EUID, uid), TextFrame(ETIT, title);
    var off1 := off + 8 + |u.payload|;
    assert |u.payload| == |uid| + 1 && |t.payload| == |title| + 1;
    ReadBackTwo(fs, off, u, t, bs, off1, off2);
    var cu, ct := RawChunk(u.tag, |u.payload|, u.payload, off), RawChunk(t.tag, |t.payload|, t.payload, off1);
    var rest := ReadBack(bs, off2);
    TextOfTerminated(uid);
    TextOfTerminated(title);
    ReadTwoTexts(cu, ct, rest, uid, title);
  }

  /** An `EUID` chunk, an `ETIT` chunk, then chunks without those texts: the
      reader takes the two texts from the first two chunks and the blobs
      from the rest. */
  lemma ReadTwoTexts(cu: RawChunk, ct: RawChunk, rest: seq<RawChunk>, uid: seq<byte>, title: seq<byte>)
    requires cu.id == EUID && ct.id == ETIT && ChunkText(cu) == uid && ChunkText(ct) == title
    requires FirstText(rest, EUID) == [] && FirstText(rest, ETIT) == []
    ensures ReadsAs([cu] + ([ct] + rest), uid, title, BlobsOf(rest))
  {
    TagsDistinct();
    var cs := [cu] + ([ct] + rest);
    DropOne(cu, [ct] + rest);
    DropOne(ct, rest);
    assert [] + BlobsOf(rest) == BlobsOf(rest);
    assert [] + BlobsOf([ct] + rest) == BlobsOf([ct] + rest);
  }

  /** Reading frames that start with the header frame `h` collects what
      reading the frames after it collects. */
  lemma HeaderPassedOver(fs: seq<Frame>, h: Frame, ps: seq<Frame>, off: nat)
    requires fs == [h] + ps && h.tag == XPIH
    ensures var rest := ReadBack(ps, off + 8 + |h.payload|);
      && FirstText(ReadBack(fs, off), EUID) == FirstText(rest, EUID)
      && FirstText(ReadBack(fs, off), ETIT) == FirstText(rest, ETIT)
      && BlobsOf(ReadBack(fs, off)) == BlobsOf(rest)
  {
    TagsDistinct();
    assert fs[1..] == ps;
    ReadBackCons(fs, off, h.tag, h.payload);
    SkipChunk(RawChunk(h.tag, |h.payload|, h.payload, off), ReadBack(ps, off + 8 + |h.payload|));
  }

  /** Reading back two frames and then `bs`. */
  lemma ReadBackTwo(fs: seq<Frame>, off: nat, f1: Frame, f2: Frame, bs: seq<Frame>, off1: nat, off2: nat)
    requires fs == [f1, f2] + bs
    requires off1 == off + 8 + |f1.payload| && off2 == off1 + 8 + |f2.payload|
    ensures ReadBack(fs, off)
      == [RawChunk(f1.tag, |f1.payload|, f1.payload, off)]
         + ([RawChunk(f2.tag, |f2.payload|, f2.payload, off1)] + ReadBack(bs, off2))
  {
    ReadBackCons(fs, off, f1.tag, f1.payload);
    assert fs[1..] == [f2] + bs;
    ReadBackCons(fs[1..], off + 8 + |f1.payload|, f2.tag, f2.payload);
    assert fs[1..][1..] == bs;
  }

  /** A chunk that is neither `EUID`, `ETIT` nor `BLOB` adds nothing to what
      the reader collects. */
  lemma SkipChunk(c: RawChunk, rest: seq<RawChunk>)
    requires c.id != EUID && c.id != ETIT && c.id != BLOB
    ensures FirstText([c] + rest, EUID) == FirstText(rest, EUID)
    ensures FirstText([c] + rest, ETIT) == FirstText(rest, ETIT)
    ensures BlobsOf([c] + rest) == BlobsOf(rest)
  {
    assert ([c] + rest)[1..] == rest;
    assert [] + BlobsOf(rest) == BlobsOf(rest);
  }

  lemma PpiReadable(packData: PpfData, modelName: seq<byte>, packInstallId: int,
                    selectedIndices: Option<seq<int>>, includeHeader: bool)
    requires PackWritable(packData, modelName, selectedIndices)
    ensures Readable(PpiFrames(packData, modelName, packInstallId, selectedIndices, includeHeader))
  {
    var blobs := SelectBlobs(packData.blobs, selectedIndices);
    var hs := if HasHeader(modelName, includeHeader) then [HeaderFrame(modelName, packInstallId)] else [];
    var ts := [TextFrame(EUID, packData.uid), TextFrame(ETIT, packData.title)];
    HeaderPayloadLength(modelName, packInstallId);
    assert Readable(hs);
    assert Readable(ts);
    BlobFramesReadable(blobs);
    ReadableAppend(ts, BlobFrames(blobs));
    ReadableAppend(hs, ts + BlobFrames(blobs));
  }

  /** Frames that are each readable stay readable when put one after the other. */
  lemma ReadableAppend(a: seq<Frame>, b: seq<Frame>)
    requires Readable(a) && Readable(b)
    ensures Readable(a + b)
  {
    forall i | 0 <= i < |a + b|
      ensures (a + b)[i].tag in KNOWN_TAGS && |(a + b)[i].payload| < U32_BOUND
    {
      if i >= |a| {
        assert (a + b)[i] == b[i - |a|];
      }
    }
  }

  lemma {:induction false} BlobFramesReadable(blobs: seq<BlobEntry>)
    requires forall b :: b in blobs ==> BlobWritable(b)
    ensures Readable(BlobFrames(blobs))
  {
    if blobs != [] {
      assert blobs[0] in blobs;
      assert forall b :: b in blobs[1..] ==> b in blobs;
      BlobFramesReadable(blobs[1..]);
      ReadableAppend([BlobFrame(blobs[0])], BlobFrames(blobs[1..]));
    }
  }

  lemma {:induction false} BlobFramesAt(blobs: seq<BlobEntry>, i: nat)
    requires i < |blobs|
    ensures BlobFrames(blobs)[i] == BlobFrame(blobs[i])
  {
    if i > 0 {
      BlobFramesAt(blobs[1..], i - 1);
    }
  }

  /** Round trip: after any 8-byte preamble, `parsePPFRaw` recovers from the
      output of `buildPPI` the pack's uid and title and exactly the selected
      blobs in order, each with all its fields (an empty icon code as absent).
      The model-lock header, when written, is passed over. */
  lemma PackRoundTrip(preamble: seq<byte>, packData: PpfData, modelName: seq<byte>, packInstallId: int,
                      selectedIndices: Option<seq<int>>, includeHeader: bool)
    requires |preamble| == 8
    requires PackWritable(packData, modelName, selectedIndices)
    ensures ParsePpf(preamble + PpiBytes(packData, modelName, packInstallId, selectedIndices, includeHeader))
      == PpfData(packData.uid, packData.title, NormalizeAll(SelectBlobs(packData.blobs, selectedIndices)))
  {
    var fs := PpiFrames(packData, modelName, packInstallId, selectedIndices, includeHeader);
    var blobs := NormalizeAll(SelectBlobs(packData.blobs, selectedIndices));
    PpiReadable(packData, modelName, packInstallId, selectedIndices, includeHeader);
    ReadBuiltChunks(preamble, fs);
    FramesRead(packData, modelName, packInstallId, selectedIndices, includeHeader);
    InterpretReadsAs(ReadBack(fs, 8), packData.uid, packData.title, blobs);
  }

  /** The chunks of a written file, scanned from offset 8, read as the pack. */
  lemma FramesRead(packData: PpfData, modelName: seq<byte>, packInstallId: int,
                   selectedIndices: Option<seq<int>>, includeHeader: bool)
    requires PackWritable(packData, modelName, selectedIndices)
    ensures ReadsAs(ReadBack(PpiFrames(packData, modelName, packInstallId, selectedIndices, includeHeader), 8),
                    packData.uid, packData.title, NormalizeAll(SelectBlobs(packData.blobs, selectedIndices)))
  {
    var fs := PpiFrames(packData, modelName, packInstallId, selectedIndices, includeHeader);
    assert PackWritable(packData, [], selectedIndices);
    if HasHeader(modelName, includeHeader) {
      var h := HeaderFrame(modelName, packInstallId);
      assert fs == [h] + PayloadFrames(packData, selectedIndices);
      HeaderPassedOver(fs, h, PayloadFrames(packData, selectedIndices), 8);
      PayloadRead(packData, selectedIndices, 8 + 8 + |h.payload|);
    } else {
      assert fs == PayloadFrames(packData, selectedIndices);
      PayloadRead(packData, selectedIndices, 8);
    }
  }

  /** Chunks that read as a pack are interpreted as that pack. */
  lemma InterpretReadsAs(cs: seq<RawChunk>, uid: seq<byte>, title: seq<byte>, blobs: seq<BlobEntry>)
    requires ReadsAs(cs, uid, title, blobs)
    ensures Interpret(cs) == PpfData(uid, title, blobs)
  {
    UidAndTitleFirstNonEmpty(cs);
    BlobsInOrder(cs);
  }

  /** The case of a plain file without header or selection, blob by blob. */
  lemma PlainRoundTrip(preamble: seq<byte>, packData: PpfData, modelName: seq<byte>, packInstallId: int)
    requires |preamble| == 8
    requires PackWritable(packData, modelName, None)
    ensures var d := ParsePpf(preamble + PpiBytes(packData, modelName, packInstallId, None, false));
      && d.uid == packData.uid && d.title == packData.title
      && |d.blobs| == |packData.blobs|
      && forall i :: 0 <= i < |d.blobs| ==>
        var b, w := d.blobs[i], packData.blobs[i];
        && b.uid == w.uid && b.title == w.title && b.extension == w.extension
        && b.binaryData == w.binaryData
        && b.iconCode == (if w.iconCode.Some? && w.iconCode.value != [] then w.iconCode else None)
  {
    PackRoundTrip(preamble, packData, modelName, packInstallId, None, false);
    NormalizeAllShape(packData.blobs);
  }
}
