/** The instrument-info (.n27) reader of n27-parser.ts: NUL-terminated text
    in fixed windows and two big-endian capacities at fixed offsets. */
module N27Parser {
  import opened Bytes

  /** `InstrumentInfo`. Capacities are in bytes. */
  datatype InstrumentInfo = InstrumentInfo(
    name: seq<byte>,
    fileName: string,
    serial: seq<byte>,
    fullId: seq<byte>,
    waveCapacity: int,
    paramCapacity: int)

  /** Whether the loop of `readNullTerminatedString` goes on at `p`: a byte
      past the end of the buffer reads as `undefined`, which is not 0. */
  predicate NotNul(buf: seq<byte>, p: nat)
  {
    p >= |buf| || buf[p] != 0
  }

  /** Where the loop stops when started at `p` with bound `limit`. */
  function StopAt(buf: seq<byte>, p: nat, limit: nat): (r: nat)
    ensures p <= limit ==> p <= r <= limit
    decreases limit - p
  {
    if p < limit && NotNul(buf, p) then StopAt(buf, p + 1, limit) else p
  }

  /** The text `readNullTerminatedString(buf, offset, maxLen)` returns. */
  function NulTerminated(buf: seq<byte>, offset: nat, maxLen: nat): seq<byte>
  {
    Slice(buf, offset, StopAt(buf, offset, offset + maxLen))
  }

  /** `readNullTerminatedString`: advance `end` while it is inside the window
      and not at a NUL, then slice. */
  method ReadNullTerminatedString(buf: seq<byte>, offset: nat, maxLen: nat) returns (s: seq<byte>)
    ensures s == NulTerminated(buf, offset, maxLen)
  {
    var end := offset;
    while end < offset + maxLen && (end >= |buf| || buf[end] != 0)
      invariant offset <= end <= offset + maxLen
      invariant StopAt(buf, end, offset + maxLen) == StopAt(buf, offset, offset + maxLen)
    {
      end := end + 1;
    }
    s := Slice(buf, offset, end);
  }

  lemma {:induction false} StopAtBytes(buf: seq<byte>, p: nat, limit: nat)
    requires p <= limit
    ensures forall q :: p <= q < StopAt(buf, p, limit) ==> NotNul(buf, q)
    ensures StopAt(buf, p, limit) < limit ==> !NotNul(buf, StopAt(buf, p, limit))
    decreases limit - p
  {
    if p < limit && NotNul(buf, p) {
      StopAtBytes(buf, p + 1, limit);
    }
  }

  /** The text read is the longest run of non-NUL bytes that starts at
      `offset`, fits in `maxLen` bytes and lies inside the buffer: it never
      holds a NUL, and when it stops short of both the window and the buffer
      end, the next byte is a NUL. */
  lemma NulTerminatedShape(buf: seq<byte>, offset: nat, maxLen: nat)
    ensures var s := NulTerminated(buf, offset, maxLen);
      && |s| <= maxLen
      && 0 !in s
      && (offset <= |buf| ==> offset + |s| <= |buf| && s == buf[offset..offset + |s|])
      && (offset > |buf| ==> s == [])
      && (|s| < maxLen && offset + |s| < |buf| ==> buf[offset + |s|] == 0)
  {
    var stop := StopAt(buf, offset, offset + maxLen);
    StopAtBytes(buf, offset, offset + maxLen);
    var s := NulTerminated(buf, offset, maxLen);
    if offset <= |buf| {
      var b := Min(stop, |buf|);
      assert s == buf[offset..b];
      forall k | 0 <= k < |s| ensures s[k] != 0 {
        assert s[k] == buf[offset + k];
        assert NotNul(buf, offset + k);
      }
      if |s| < maxLen && offset + |s| < |buf| {
        assert b == stop;
      }
    }
  }

  /** The instrument info `parseN27(buf, fileName)` returns. */
  function N27Info(buf: seq<byte>, fileName: string): InstrumentInfo
  {
    var big := |buf| >= 0x84;
    InstrumentInfo(
      NulTerminated(buf, 0, 64),
      fileName,
      if |buf| >= 88 then NulTerminated(buf, 64, 24) else [],
      if |buf| >= 120 then NulTerminated(buf, 88, 32) else [],
      if big then ReadUint32BE(buf, 0x78) * 1024 else 0,
      if big then ReadUint32BE(buf, 0x80) * 1024 else 0)
  }

  /** `parseN27`: every buffer, the empty one included, gives an info record. */
  method ParseN27(buf: seq<byte>, fileName: string) returns (info: InstrumentInfo)
    ensures info == N27Info(buf, fileName)
  {
    var name := ReadNullTerminatedString(buf, 0, 64);
    var serial: seq<byte> := [];
    if |buf| >= 88 {
      serial := ReadNullTerminatedString(buf, 64, 24);
    }
    var fullId: seq<byte> := [];
    if |buf| >= 120 {
      fullId := ReadNullTerminatedString(buf, 88, 32);
    }
    var waveCapacity := 0;
    var paramCapacity := 0;
    if |buf| >= 0x84 {
      var waveUnits := ReadUint32BE(buf, 0x78);
      var paramUnits := ReadUint32BE(buf, 0x80);
      waveCapacity := waveUnits * 1024;
      paramCapacity := paramUnits * 1024;
    }
    info := InstrumentInfo(name, fileName, serial, fullId, waveCapacity, paramCapacity);
  }

  /** The fields of the info record: each text is read inside its own window
      and holds no NUL; short buffers give empty text and zero capacities;
      capacities are 1024 times a 32-bit value; the file name is passed through. */
  lemma N27Fields(buf: seq<byte>, fileName: string)
    ensures var info := N27Info(buf, fileName);
      && info.fileName == fileName
      && |info.name| <= 64 && 0 !in info.name && info.name == buf[..|info.name|]
      && (|buf| < 88 ==> info.serial == [])
      && (|buf| >= 88 ==>
            |info.serial| <= 24 && 0 !in info.serial && info.serial == buf[64..64 + |info.serial|])
      && (|buf| < 120 ==> info.fullId == [])
      && (|buf| >= 120 ==>
            |info.fullId| <= 32 && 0 !in info.fullId && info.fullId == buf[88..88 + |info.fullId|])
      && (|buf| < 0x84 ==> info.waveCapacity == 0 && info.paramCapacity == 0)
      && (|buf| >= 0x84 ==>
            info.waveCapacity == 1024 * ReadUint32BE(buf, 0x78) && info.paramCapacity == 1024 * ReadUint32BE(buf, 0x80))
      && info.waveCapacity % 1024 == 0 && info.paramCapacity % 1024 == 0
      && 0 <= info.waveCapacity < 1024 * U32_BOUND && 0 <= info.paramCapacity < 1024 * U32_BOUND
  {
    NulTerminatedShape(buf, 0, 64);
    NulTerminatedShape(buf, 64, 24);
    NulTerminatedShape(buf, 88, 32);
  }

  /** A name stops at the first NUL even when more text follows it. */
  lemma NameStopsAtNul(buf: seq<byte>, k: nat)
    requires k < 64 && k < |buf| && buf[k] == 0 && 0 !in buf[..k]
    ensures N27Info(buf, "").name == buf[..k]
  {
    NulTerminatedShape(buf, 0, 64);
  }

  /** A 64-byte buffer holding "Genos", a NUL and zeros. */
  lemma GenosExample()
    ensures var buf := [0x47, 0x65, 0x6e, 0x6f, 0x73] + Zeros(59);
      N27Info(buf, "Genos.n27") == InstrumentInfo([0x47, 0x65, 0x6e, 0x6f, 0x73], "Genos.n27", [], [], 0, 0)
  {
    var buf: seq<byte> := [0x47, 0x65, 0x6e, 0x6f, 0x73] + Zeros(59);
    assert buf[5] == 0;
    assert buf[..5] == [0x47, 0x65, 0x6e, 0x6f, 0x73];
    NameStopsAtNul(buf, 5);
  }
}
