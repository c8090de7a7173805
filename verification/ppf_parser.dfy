/** The PPF (pack project file) reader of ppi-parser.ts: an 8-byte preamble,
    then top-level chunks; `BLOB` containers carry the files of the pack. */
module PpfParser {
  import opened Wrappers
  import opened Bytes
  import opened ChunkCodec

  /** `PPFBlobEntry`: one file of the pack. `iconCode` is absent unless an
      `EICO` sub-chunk was seen. */
  datatype BlobEntry = BlobEntry(
    uid: seq<byte>,
    title: seq<byte>,
    extension: seq<byte>,
    iconCode: Option<seq<byte>>,
    binaryData: seq<byte>)

  /** `PPFData`: the pack's own uid and title and its files in order. */
  datatype PpfData = PpfData(uid: seq<byte>, title: seq<byte>, blobs: seq<BlobEntry>)

  /** The entry a `BLOB` starts from before its sub-chunks are applied. */
  const EMPTY_ENTRY: BlobEntry := BlobEntry([], [], [], None, [])

  /** One `case` of the switch over a blob's sub-chunks. */
  function ApplySub(e: BlobEntry, s: RawChunk): BlobEntry
  {
    if s.id == EUID then e.(uid := ChunkText(s))
    else if s.id == ETIT then e.(title := ChunkText(s))
    else if s.id == EEXT then e.(extension := ChunkText(s))
    else if s.id == EICO then e.(iconCode := Some(ChunkText(s)))
    else if s.id == FBIN then e.(binaryData := s.data)
    else e
  }

  /** The entry after the switch has seen `subs` in order. */
  function Entry(subs: seq<RawChunk>): BlobEntry
  {
    if subs == [] then EMPTY_ENTRY else ApplySub(Entry(subs[..|subs| - 1]), subs[|subs| - 1])
  }

  /** The entry a `BLOB` chunk becomes: its payload scanned as sub-chunks. */
  function BlobOf(c: RawChunk): BlobEntry
  {
    Entry(ScanChunks(c.data, 0, |c.data|))
  }

  /** One iteration of the loop over top-level chunks. */
  function Step(d: PpfData, c: RawChunk): PpfData
  {
    if c.id == XPIH then d
    else if c.id == EUID && d.uid == [] then d.(uid := ChunkText(c))
    else if c.id == ETIT && d.title == [] then d.(title := ChunkText(c))
    else if c.id == BLOB then d.(blobs := d.blobs + [BlobOf(c)])
    else d
  }

  /** The state after the loop has seen `cs` in order. */
  function Interpret(cs: seq<RawChunk>): PpfData
  {
    if cs == [] then PpfData([], [], []) else Step(Interpret(cs[..|cs| - 1]), cs[|cs| - 1])
  }

  /** What `parsePPFRaw(buf)` returns. */
  function ParsePpf(buf: seq<byte>): PpfData
  {
    Interpret(ScanChunks(buf, 8, |buf|))
  }

  /** `parsePPFRaw`: scan from offset 8, then interpret the chunks one by one. */
  method ParsePPFRaw(buf: seq<byte>) returns (data: PpfData)
    ensures data == ParsePpf(buf)
  {
    var chunks := ReadChunks(buf, 8, None);
    var uid: seq<byte> := [];
    var title: seq<byte> := [];
    var blobs: seq<BlobEntry> := [];
    var i := 0;
    while i < |chunks|
      invariant 0 <= i <= |chunks|
      invariant PpfData(uid, title, blobs) == Interpret(chunks[..i])
    {
      var chunk := chunks[i];
      assert chunks[..i + 1][..i] == chunks[..i];
      if chunk.id == XPIH {
        // a CPI header inside a PPF is skipped
      } else if chunk.id == EUID && uid == [] {
        uid := ChunkText(chunk);
      } else if chunk.id == ETIT && title == [] {
        title := ChunkText(chunk);
      } else if chunk.id == BLOB {
        var entry := ReadEntry(chunk);
        blobs := blobs + [entry];
      }
      i := i + 1;
    }
    assert chunks[..|chunks|] == chunks;
    data := PpfData(uid, title, blobs);
  }

  /** The inner loop over one `BLOB` chunk's sub-chunks: later fields
      overwrite earlier ones. */
  method ReadEntry(chunk: RawChunk) returns (entry: BlobEntry)
    ensures entry == BlobOf(chunk)
  {
    var sub := ReadSubChunks(chunk);
    entry := EMPTY_ENTRY;
    var j := 0;
    while j < |sub|
      invariant 0 <= j <= |sub|
      invariant entry == Entry(sub[..j])
    {
      var s := sub[j];
      assert sub[..j + 1][..j] == sub[..j];
      if s.id == EUID {
        entry := entry.(uid := ChunkText(s));
      } else if s.id == ETIT {
        entry := entry.(title := ChunkText(s));
      } else if s.id == EEXT {
        entry := entry.(extension := ChunkText(s));
      } else if s.id == EICO {
        entry := entry.(iconCode := Some(ChunkText(s)));
      } else if s.id == FBIN {
        entry := entry.(binaryData := s.data);
      }
      j := j + 1;
    }
    assert sub[..|sub|] == sub;
  }

  // ---- The preamble ----

  /** The first 8 bytes never affect the result. */
  lemma PreambleIgnored(p1: seq<byte>, p2: seq<byte>, rest: seq<byte>)
    requires |p1| == 8 && |p2| == 8
    ensures ParsePpf(p1 + rest) == ParsePpf(p2 + rest)
  {
    assert (p1 + rest)[8..] == rest == (p2 + rest)[8..];
    ScanChunksLocal(p1 + rest, p2 + rest, 8, 8, |p1 + rest|);
  }

  // ---- Top-level XPIH chunks ----

  /** The chunks other than `XPIH`, in order. */
  function WithoutXpih(cs: seq<RawChunk>): (r: seq<RawChunk>)
    ensures forall i :: 0 <= i < |r| ==> r[i].id != XPIH
  {
    if cs == [] then []
    else WithoutXpih(cs[..|cs| - 1]) + (if cs[|cs| - 1].id == XPIH then [] else [cs[|cs| - 1]])
  }

  /** Top-level `XPIH` chunks are ignored entirely. */
  lemma {:induction false} XpihIgnored(cs: seq<RawChunk>)
    ensures Interpret(cs) == Interpret(WithoutXpih(cs))
  {
    if cs != [] {
      var init, c := cs[..|cs| - 1], cs[|cs| - 1];
      XpihIgnored(init);
      if c.id != XPIH {
        var w := WithoutXpih(init) + [c];
        assert w[..|w| - 1] == WithoutXpih(init);
      } else {
        assert WithoutXpih(cs) == WithoutXpih(init);
      }
    }
  }

  // ---- The pack's uid and title ----

  /** The text of the first chunk tagged `tag` whose text is non-empty, or
      empty when there is none. */
  function FirstText(cs: seq<RawChunk>, tag: seq<byte>): seq<byte>
  {
    if cs == [] then []
    else if cs[0].id == tag && ChunkText(cs[0]) != [] then ChunkText(cs[0])
    else FirstText(cs[1..], tag)
  }

  lemma {:induction false} FirstTextSnoc(cs: seq<RawChunk>, c: RawChunk, tag: seq<byte>)
    ensures FirstText(cs + [c], tag)
      == if FirstText(cs, tag) != [] then FirstText(cs, tag)
         else if c.id == tag then ChunkText(c) else []
  {
    if cs == [] {
      assert [] + [c] == [c];
      assert [c][1..] == [];
    } else {
      assert (cs + [c])[1..] == cs[1..] + [c];
      FirstTextSnoc(cs[1..], c, tag);
    }
  }

  /** `uid` is the text of the first `EUID` whose text is non-empty; `title`
      the text of the first such `ETIT`. An earlier empty one is replaced. */
  lemma {:induction false} UidAndTitleFirstNonEmpty(cs: seq<RawChunk>)
    ensures Interpret(cs).uid == FirstText(cs, EUID)
    ensures Interpret(cs).title == FirstText(cs, ETIT)
  {
    if cs != [] {
      var init, c := cs[..|cs| - 1], cs[|cs| - 1];
      assert cs == init + [c];
      UidAndTitleFirstNonEmpty(init);
      FirstTextSnoc(init, c, EUID);
      FirstTextSnoc(init, c, ETIT);
    }
  }

  /** Where the first non-empty text comes from: a chunk with that tag, with
      no earlier chunk of that tag carrying non-empty text. */
  lemma {:induction false} FirstTextSource(cs: seq<RawChunk>, tag: seq<byte>)
    ensures FirstText(cs, tag) != [] ==>
      exists i :: 0 <= i < |cs| && cs[i].id == tag && ChunkText(cs[i]) == FirstText(cs, tag)
        && forall j :: 0 <= j < i && cs[j].id == tag ==> ChunkText(cs[j]) == []
    ensures FirstText(cs, tag) == [] ==>
      forall j :: 0 <= j < |cs| && cs[j].id == tag ==> ChunkText(cs[j]) == []
  {
    if cs != [] {
      FirstTextSource(cs[1..], tag);
      if !(cs[0].id == tag && ChunkText(cs[0]) != []) {
        if FirstText(cs, tag) != [] {
          var i :| 0 <= i < |cs[1..]| && cs[1..][i].id == tag && ChunkText(cs[1..][i]) == FirstText(cs, tag)
            && forall j :: 0 <= j < i && cs[1..][j].id == tag ==> ChunkText(cs[1..][j]) == [];
          assert cs[i + 1] == cs[1..][i];
          forall j | 0 <= j < i + 1 && cs[j].id == tag
            ensures ChunkText(cs[j]) == []
          {
            if j > 0 {
              assert cs[j] == cs[1..][j - 1];
            }
          }
        } else {
          forall j | 0 <= j < |cs| && cs[j].id == tag
            ensures ChunkText(cs[j]) == []
          {
            if j > 0 {
              assert cs[j] == cs[1..][j - 1];
            }
          }
        }
      }
    }
  }

  // ---- The blobs ----

  /** One entry per `BLOB` chunk, in the order met. */
  function BlobsOf(cs: seq<RawChunk>): seq<BlobEntry>
  {
    if cs == [] then []
    else (if cs[0].id == BLOB then [BlobOf(cs[0])] else []) + BlobsOf(cs[1..])
  }

  /** The number of `BLOB` chunks. */
  function CountBlobs(cs: seq<RawChunk>): nat
  {
    if cs == [] then 0 else (if cs[0].id == BLOB then 1 else 0) + CountBlobs(cs[1..])
  }

  lemma {:induction false} BlobsOfSnoc(cs: seq<RawChunk>, c: RawChunk)
    ensures BlobsOf(cs + [c]) == BlobsOf(cs) + (if c.id == BLOB then [BlobOf(c)] else [])
  {
    if cs == [] {
      assert [] + [c] == [c];
      assert [c][1..] == [];
    } else {
      var h := if cs[0].id == BLOB then [BlobOf(cs[0])] else [];
      var t := if c.id == BLOB then [BlobOf(c)] else [];
      assert (cs + [c])[0] == cs[0];
      assert (cs + [c])[1..] == cs[1..] + [c];
      BlobsOfSnoc(cs[1..], c);
      AppendAssoc(h, BlobsOf(cs[1..]), t);
    }
  }

  lemma {:induction false} BlobsOfCount(cs: seq<RawChunk>)
    ensures |BlobsOf(cs)| == CountBlobs(cs)
  {
    if cs != [] {
      BlobsOfCount(cs[1..]);
    }
  }

  /** `blobs` holds exactly one entry per top-level `BLOB` chunk, in order. */
  lemma {:induction false} BlobsInOrder(cs: seq<RawChunk>)
    ensures Interpret(cs).blobs == BlobsOf(cs)
    ensures |Interpret(cs).blobs| == CountBlobs(cs)
  {
    if cs != [] {
      var init, c := cs[..|cs| - 1], cs[|cs| - 1];
      assert cs == init + [c];
      BlobsInOrder(init);
      BlobsOfSnoc(init, c);
    }
    BlobsOfCount(cs);
  }

  // ---- Inside a blob ----

  /** The last sub-chunk tagged `tag`, if any. */
  function LastTagged(subs: seq<RawChunk>, tag: seq<byte>): Option<RawChunk>
  {
    if subs == [] then None
    else
      var later := LastTagged(subs[1..], tag);
      if later.Some? then later else if subs[0].id == tag then Some(subs[0]) else None
  }

  lemma {:induction false} LastTaggedSnoc(subs: seq<RawChunk>, c: RawChunk, tag: seq<byte>)
    ensures LastTagged(subs + [c], tag) == if c.id == tag then Some(c) else LastTagged(subs, tag)
  {
    if subs == [] {
      assert [] + [c] == [c];
      assert [c][1..] == [];
    } else {
      assert (subs + [c])[1..] == subs[1..] + [c];
      LastTaggedSnoc(subs[1..], c, tag);
    }
  }

  /** The text of the last sub-chunk tagged `tag`, or empty. */
  function LastText(subs: seq<RawChunk>, tag: seq<byte>): seq<byte>
  {
    match LastTagged(subs, tag)
    case None => []
    case Some(s) => ChunkText(s)
  }

  /** Each field of an entry comes from the last sub-chunk of its tag; a
      missing one leaves the default (empty text or bytes, no icon). `FBIN`
      bytes are kept raw, NULs included. */
  lemma {:induction false} EntryLastWins(subs: seq<RawChunk>)
    ensures Entry(subs).uid == LastText(subs, EUID)
    ensures Entry(subs).title == LastText(subs, ETIT)
    ensures Entry(subs).extension == LastText(subs, EEXT)
    ensures Entry(subs).iconCode == match LastTagged(subs, EICO)
      case None => None
      case Some(s) => Some(ChunkText(s))
    ensures Entry(subs).binaryData == match LastTagged(subs, FBIN)
      case None => []
      case Some(s) => s.data
  {
    if subs != [] {
      var init, c := subs[..|subs| - 1], subs[|subs| - 1];
      assert subs == init + [c];
      EntryLastWins(init);
      LastTaggedSnoc(init, c, EUID);
      LastTaggedSnoc(init, c, ETIT);
      LastTaggedSnoc(init, c, EEXT);
      LastTaggedSnoc(init, c, EICO);
      LastTaggedSnoc(init, c, FBIN);
    }
  }

  /** Where the last sub-chunk of a tag sits: it has the tag and no later one does. */
  lemma {:induction false} LastTaggedSource(subs: seq<RawChunk>, tag: seq<byte>)
    ensures LastTagged(subs, tag).Some? ==>
      exists i :: 0 <= i < |subs| && subs[i] == LastTagged(subs, tag).value && subs[i].id == tag
        && forall j :: i < j < |subs| ==> subs[j].id != tag
    ensures LastTagged(subs, tag).None? ==> forall j :: 0 <= j < |subs| ==> subs[j].id != tag
  {
    if subs != [] {
      LastTaggedSource(subs[1..], tag);
      var later := LastTagged(subs[1..], tag);
      if later.Some? {
        var i :| 0 <= i < |subs[1..]| && subs[1..][i] == later.value && subs[1..][i].id == tag
          && forall j :: i < j < |subs[1..]| ==> subs[1..][j].id != tag;
        assert subs[i + 1] == subs[1..][i];
        forall j | i + 1 < j < |subs| ensures subs[j].id != tag {
          assert subs[j] == subs[1..][j - 1];
        }
      } else {
        forall j | 0 < j < |subs| ensures subs[j].id != tag {
          assert subs[j] == subs[1..][j - 1];
        }
      }
    }
  }
}
