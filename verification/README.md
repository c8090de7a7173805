# Yamaha pack formats: chunk codec, PPF/PPI/CPI writers and readers

This project models the binary "Pack" format stack that the CRM uses for
Yamaha organ updates, and proves properties of the model.

The layers are:

- **Chunk framing.** Files are runs of tag-length-value chunks: a 4-byte ASCII tag, a 32-bit big-endian payload length, then the payload. The reader is tolerant. It walks forward one byte at a time until it meets one of eleven known tags. It clamps a chunk that declares more bytes than remain.
- **PPF reader.** A pack project file has an 8-byte preamble, then top-level chunks. The pack's uid and title are the first non-empty `EUID` and `ETIT`. Each `BLOB` container is one file of the pack, with sub-chunks `EUID`, `ETIT`, `EEXT`, `EICO` and `FBIN`.
- **N27 reader.** An instrument-info file holds NUL-terminated texts in fixed windows (model name, serial, device `fullId`) and two big-endian capacities.
- **Plaintext PPI writer.** It writes an optional `XPIH` model-lock header (`XMDL` + `XPID`), then the pack's `EUID` and `ETIT`, then one `BLOB` per selected file.
- **Encrypted CPI writer.** It writes an unencrypted `XPIH` header and an 80-byte `CSEC` security block. The block is either the standard constant or a device-locked block built from the instrument's `fullId`. Then comes the DES-CBC ciphertext of the padded payload. The encryptor covers:
  - Yamaha's MSB-parity keys;
  - its padding, whose last byte holds the length modulo 8;
  - the hand-written CBC loop;
  - the key derivation (XOR fold or seed extension);
  - the 48-entry key expansion for 3DES.
- **Batch converter.** It fetches and parses one pack file. It then makes one encrypted file for each customer and uploads it, or records why that failed. Each file is locked to the model named in the customer's info file. It is device-locked as well when that file carries a `fullId`.
- **Decryption scripts.** Two scripts mirror the writer. Each has a copy of the parity adjustment, a padding removal and the offset walk that finds header, security block and payload. Only decrypt-cpi-v2.js has a hand-written CBC decryption loop (scripts/decrypt-cpi-v2.js:19-38). decrypt-cpi.js hands the whole CBC decryption to the des.js library.

## Form of the model

Each loop of the source is a `method` with a `while` or `for` loop. The method is proved equal to a specification function (`ensures r == Spec(inputs)`). The properties are then proved about those functions as lemmas.

- Fresh buffers are `array<byte>` values filled in place, as in the source. The methods return the filled contents as a sequence.
- `byte` is an integer from 0 to 255. The bitwise operators of the source act on its `bv8` pattern through `Bits`, `FromBits` and `Xor`.
- DES, 3DES and the DES block decryption are function parameters.
- The storage download and upload are function parameters that return a `Result`.
- The 16 random bytes of a locked block are a parameter. The converter's randomness is a function from the customer's position to 16 bytes.

One piece of the source is modelled on values rather than in place. Each iteration of the converter's loop is specified by a pure `Outcome` function of the collaborators, so the batch method is proved equal to `Conversion`.

The modules follow the source files:

- `Wrappers`: `Option` and `Result`.
- `Bytes`: bytes, big-endian 32-bit values and buffer copies.
- `ChunkCodec`: `chunk-reader.ts`.
- `PpfParser`: `ppi-parser.ts`.
- `N27Parser`: `n27-parser.ts`.
- `PpiWriter`: `ppi-writer.ts`.
- `PackRoundTrip`: reading back what `buildPPI` writes.
- `CpiEncryptor`: `cpi-encryptor.ts`.
- `CpiConverter`: `cpi-converter.ts`.
- `CpiDecrypt`: `decrypt-cpi.js` and `decrypt-cpi-v2.js`. Their shared pieces are identical, so they are modelled once.

## Model

| member | source | states |
|---|---|---|
| Bytes.ReadUint32BE | src/lib/formats/chunk-reader.ts:26-28 | the value of four bytes read big-endian is an unsigned 32-bit number |
| Bytes.Be32 | src/lib/formats/cpi-encryptor.ts:124-129 | the bytes written for a value are exactly four |
| Bytes.WriteUint32BE | src/lib/formats/chunk-reader.ts:89-94 | the array afterwards is the old array with the four big-endian bytes of the value modulo 2^32 at the offset, and is unchanged elsewhere |
| Bytes.Be32Bytes | src/lib/formats/chunk-reader.ts:89-94 | each of the four written bytes is the matching base-256 digit of the value modulo 2^32 |
| Bytes.Uint32RoundTrip | src/lib/formats/chunk-reader.ts:26-28 | reading back the four written bytes gives the value modulo 2^32, so any value below 2^32 comes back unchanged |
| Bytes.ReadUint32BEFrom | src/lib/formats/chunk-reader.ts:26-28 | a value below 2^32 written anywhere in a buffer reads back at that offset |
| Bytes.ReadUint32BEShift | src/lib/formats/chunk-reader.ts:26-28 | reading at d + off equals reading at off in the buffer from d on |
| Bytes.CopyInto | src/lib/formats/chunk-reader.ts:83 | `set` overwrites exactly the target range with the source and keeps the rest |
| Bytes.XorInverse | src/lib/formats/cpi-encryptor.ts:114 | XORing a byte twice with the same byte gives it back |
| ChunkCodec.SkipTo | src/lib/formats/chunk-reader.ts:36-42 | the skip never goes backwards, never passes the end, and stops before the end only at a known tag |
| ChunkCodec.SkipToSkips | src/lib/formats/chunk-reader.ts:36-42 | no position the skip passes over starts a known tag |
| ChunkCodec.SkipToNextTag | src/lib/formats/chunk-reader.ts:36-42 | the loop stops where `SkipTo` says |
| ChunkCodec.DataEnd | src/lib/formats/chunk-reader.ts:57-58 | a payload ends after its header and never past the end of the scan |
| ChunkCodec.ReadChunks | src/lib/formats/chunk-reader.ts:44-66 | the cursor loop returns the chunks of `ScanChunks` from the start offset to the given end, or to the buffer end when none is given |
| ChunkCodec.ReadSubChunks | src/lib/formats/chunk-reader.ts:68-70 | a container's sub-chunks are its payload scanned from offset 0 |
| ChunkCodec.ScanChunksSound | src/lib/formats/chunk-reader.ts:44-66 | every chunk returned has a known tag and the size read after it. Its data holds the lesser of that size and what remains before the end. Offsets increase, with no overlap and no known tag in the gaps. No known tag with room for a header follows the last chunk |
| ChunkCodec.HeaderAtIsChunk | src/lib/formats/chunk-reader.ts:53-61 | a header at a known tag is read with its size and a payload clamped to the end |
| ChunkCodec.ScanChunksEmpty | src/lib/formats/chunk-reader.ts:49-54 | the scan is empty exactly when no known tag has 8 bytes of room before the end |
| ChunkCodec.ScanSkipsJunk | src/lib/formats/chunk-reader.ts:36-42 | a position that does not start a known tag is skipped without any other effect |
| ChunkCodec.ScanChunksLocal | src/lib/formats/chunk-reader.ts:44-66 | the scan from a position depends only on the bytes from there on |
| ChunkCodec.WithoutNul | src/lib/formats/chunk-reader.ts:72-74 | the text of a chunk holds no NUL |
| ChunkCodec.WithoutNulCounts | src/lib/formats/chunk-reader.ts:72-74 | every NUL is removed wherever it sits and every other byte is kept: the multiset of bytes loses exactly its zeros |
| ChunkCodec.WithoutNulAppend | src/lib/formats/chunk-reader.ts:72-74 | NUL removal works part by part on a concatenation |
| ChunkCodec.WithoutNulKeepsText | src/lib/formats/chunk-reader.ts:72-74 | text without NUL is left as it is |
| ChunkCodec.TextOfTerminated | src/lib/formats/chunk-reader.ts:112-115 | the text of a NUL-terminated payload is the text itself |
| ChunkCodec.Tag4 | src/lib/formats/chunk-reader.ts:100-101 | the stored tag is four bytes: the first four of the tag, zero-filled when it is shorter |
| ChunkCodec.Chunk | src/lib/formats/chunk-reader.ts:98-105 | a built chunk is 8 bytes longer than its payload |
| ChunkCodec.BuildChunk | src/lib/formats/chunk-reader.ts:98-105 | bytes 0 to 4 are the stored tag, bytes 4 to 8 the payload length big-endian, the rest the payload |
| ChunkCodec.ConcatArrays | src/lib/formats/chunk-reader.ts:78-87 | the result is the in-order concatenation, and its length is the sum of the lengths |
| ChunkCodec.BuildContainerChunk | src/lib/formats/chunk-reader.ts:107-110 | a container is the chunk of the concatenated sub-chunks, 8 bytes longer than their total |
| ChunkCodec.BuildTextChunk | src/lib/formats/chunk-reader.ts:112-115 | the payload is the text and one NUL, which the declared length counts |
| ChunkCodec.ChunkDeclaredLength | src/lib/formats/chunk-reader.ts:98-105 | the declared length of a built chunk reads back as the payload length |
| ChunkCodec.ChunkThen | src/lib/formats/chunk-reader.ts:98-105 | in a built chunk followed by anything, tag, length and payload sit where a reader looks for them |
| ChunkCodec.ScanOneChunk | src/lib/formats/chunk-reader.ts:49-62 | a well-formed chunk is read whole with its declared size, and the scan resumes right after its payload |
| ChunkCodec.ReadBuiltChunksAt | src/lib/formats/chunk-reader.ts:44-66 | built chunks stored one after the other read back exactly, tag, size, data and offset |
| ChunkCodec.ReadBuiltChunks | src/lib/formats/chunk-reader.ts:44-66 | round trip for any concatenation of known-tag chunks after any prefix |
| ChunkCodec.ReadBuiltChunk | src/lib/formats/chunk-reader.ts:98-105 | a built chunk with a known tag and a payload below 2^32 reads back as exactly one chunk with that tag, size, payload and offset 0 |
| ChunkCodec.ReadBackShape | src/lib/formats/chunk-reader.ts:61 | the chunks read back are one per frame, with its tag and payload |
| PpfParser.ParsePPFRaw | src/lib/formats/ppi-parser.ts:26-57 | the loop over top-level chunks returns `ParsePpf` of the buffer |
| PpfParser.ReadEntry | src/lib/formats/ppi-parser.ts:39-52 | the loop over a blob's sub-chunks builds the entry `BlobOf` of that chunk |
| PpfParser.PreambleIgnored | src/lib/formats/ppi-parser.ts:27 | the first 8 bytes never affect the result |
| PpfParser.WithoutXpih | src/lib/formats/ppi-parser.ts:33 | the filtered chunk list holds no `XPIH` |
| PpfParser.XpihIgnored | src/lib/formats/ppi-parser.ts:33 | top-level `XPIH` chunks can be removed without changing the result |
| PpfParser.UidAndTitleFirstNonEmpty | src/lib/formats/ppi-parser.ts:34-37 | the uid is the text of the first `EUID` with non-empty text, and the title likewise for `ETIT` |
| PpfParser.FirstTextSnoc | src/lib/formats/ppi-parser.ts:34-37 | a later chunk of the tag counts only while the text found so far is empty |
| PpfParser.FirstTextSource | src/lib/formats/ppi-parser.ts:34-37 | a non-empty text comes from a chunk of that tag before which every chunk of the tag had empty text; an empty one means every chunk of the tag had empty text |
| PpfParser.BlobsOfSnoc | src/lib/formats/ppi-parser.ts:38-53 | one more chunk adds an entry exactly when it is a `BLOB` |
| PpfParser.BlobsOfCount | src/lib/formats/ppi-parser.ts:38-53 | the entries are as many as the `BLOB` chunks |
| PpfParser.BlobsInOrder | src/lib/formats/ppi-parser.ts:38-53 | the blobs are exactly one entry per top-level `BLOB` chunk, in the order met |
| PpfParser.LastTaggedSnoc | src/lib/formats/ppi-parser.ts:43-51 | a later sub-chunk of a tag replaces an earlier one |
| PpfParser.EntryLastWins | src/lib/formats/ppi-parser.ts:40-51 | each field comes from the last sub-chunk of its tag. A missing one leaves the default: empty text, empty bytes, no icon. `FBIN` bytes are kept raw |
| PpfParser.LastTaggedSource | src/lib/formats/ppi-parser.ts:43-51 | the last sub-chunk of a tag has the tag and no later sub-chunk does; none means no sub-chunk has it |
| N27Parser.StopAt | src/lib/formats/n27-parser.ts:17 | the loop stops between its start and its bound |
| N27Parser.StopAtBytes | src/lib/formats/n27-parser.ts:17 | every byte passed over is not NUL, and a stop before the bound is at a NUL |
| N27Parser.ReadNullTerminatedString | src/lib/formats/n27-parser.ts:15-19 | the loop returns `NulTerminated` of the buffer and window |
| N27Parser.NulTerminatedShape | src/lib/formats/n27-parser.ts:15-19 | the text is the longest NUL-free run from the offset that fits the window and the buffer. A start past the end gives nothing. A stop short of both is at a NUL |
| N27Parser.ParseN27 | src/lib/formats/n27-parser.ts:25-41 | every buffer, the empty one included, gives the info record `N27Info` |
| N27Parser.N27Fields | src/lib/formats/n27-parser.ts:25-41 | the name is at most 64 NUL-free bytes from 0. The serial is empty below 88 bytes, else at most 24 NUL-free bytes from 64. The fullId is empty below 120 bytes, else at most 32 NUL-free bytes from 88. The capacities are 0 below 0x84 bytes, else 1024 times the big-endian values at 0x78 and 0x80, so multiples of 1024. The file name passes through |
| N27Parser.NameStopsAtNul | src/lib/formats/n27-parser.ts:26 | the name stops at the first NUL even when text follows |
| N27Parser.GenosExample | src/lib/formats/n27-parser.ts:26-40 | 64 bytes holding "Genos" and zeros give name "Genos", empty serial and fullId, and zero capacities |
| PpiWriter.KeptShape | src/lib/formats/ppi-writer.ts:33-35 | the kept indexes are in range, strictly increasing, and exactly the listed ones below the blob count |
| PpiWriter.FilterPicks | src/lib/formats/ppi-writer.ts:33-35 | the filtered blobs are the blobs at the kept indexes |
| PpiWriter.SelectionExact | src/lib/formats/ppi-writer.ts:33-35 | with a list, exactly the listed blobs are written, in original order, and repeated or out-of-range indexes add nothing; without one, all blobs are written |
| PpiWriter.BlobFrames | src/lib/formats/ppi-writer.ts:37-47 | one container per blob |
| PpiWriter.BuildBlob | src/lib/formats/ppi-writer.ts:38-46 | the loop body builds the `BLOB` container of `EUID`, `ETIT`, `EEXT`, `EICO` only for a non-empty icon code, then raw `FBIN` |
| PpiWriter.PayloadParts | src/lib/formats/ppi-writer.ts:30-47 | the parts after the header are the pack's `EUID` and `ETIT`, then one container per selected blob |
| PpiWriter.BuildHeader | src/lib/formats/ppi-writer.ts:19-26 | the header chunk is `XPIH` of `XMDL` (name and NUL) and `XPID` |
| PpiWriter.BuildPPI | src/lib/formats/ppi-writer.ts:9-58 | the output is `PpiBytes`, the parts copied one after another |
| PpiWriter.ChunksOfAppend | src/lib/formats/ppi-writer.ts:49-57 | the parts of two frame lists are the parts of each, in order |
| PpiWriter.PpiLayout | src/lib/formats/ppi-writer.ts:9-58 | the output is the optional header chunk, `EUID` (uid and NUL), `ETIT` (title and NUL), then the containers of the selected blobs |
| PpiWriter.HeaderIff | src/lib/formats/ppi-writer.ts:18-28 | the output starts with `XPIH` exactly when the header is asked for and the model name is non-empty; otherwise it starts with `EUID` |
| PpiWriter.PpiStart | src/lib/formats/ppi-writer.ts:18-31 | the first tag is `XPIH` with the header and `EUID` without |
| PpiWriter.HeaderPayloadLength | src/lib/formats/ppi-writer.ts:19-26 | the header payload is `XMDL` then `XPID`, 21 bytes longer than the model name |
| PpiWriter.HeaderLayout | src/lib/formats/ppi-writer.ts:19-26 | the header payload is the `XMDL` text chunk followed at once by `XPID`, with no padding. The header declares that length. The install id reads back from the last four bytes |
| PpiWriter.XpidAfterText | src/lib/formats/ppi-writer.ts:20-25 | `XPID` sits right after the `XMDL` text chunk, and the install id reads back from it |
| PackRoundTrip.NormalizeAllShape | src/lib/formats/ppi-writer.ts:42-44 | each blob read back is the written blob with an empty icon code dropped |
| PackRoundTrip.SubFramesReadable | src/lib/formats/ppi-writer.ts:38-45 | the sub-chunks of a container that fits 32 bits have known tags and fitting lengths |
| PackRoundTrip.ReadSubFrames | src/lib/formats/ppi-parser.ts:39 | the reader sees one sub-chunk per written sub-chunk, with its tag and payload |
| PackRoundTrip.EntryWithoutIcon | src/lib/formats/ppi-parser.ts:43-51 | the sub-chunks `EUID`, `ETIT`, `EEXT`, `FBIN` give the entry with no icon |
| PackRoundTrip.EntryWithIcon | src/lib/formats/ppi-parser.ts:43-51 | with `EICO` between them the entry has that icon |
| PackRoundTrip.BlobRoundTrip | src/lib/formats/ppi-parser.ts:38-53 | a written `BLOB` of a blob without NULs reads back as the blob, an empty icon code as absent |
| PackRoundTrip.BlobChunksRead | src/lib/formats/ppi-parser.ts:38-53 | the written containers read back as the selected blobs |
| PackRoundTrip.BlobChunksNoText | src/lib/formats/ppi-parser.ts:34-37 | the containers hold no top-level `EUID` or `ETIT` |
| PackRoundTrip.PayloadRead | src/lib/formats/ppi-writer.ts:30-47 | the part after the header reads as the pack's uid, title and selected blobs |
| PackRoundTrip.HeaderPassedOver | src/lib/formats/ppi-parser.ts:33 | a leading header chunk adds nothing to what is read |
| PackRoundTrip.SkipChunk | src/lib/formats/ppi-parser.ts:32-54 | a chunk other than `EUID`, `ETIT` and `BLOB` adds nothing |
| PackRoundTrip.PpiReadable | src/lib/formats/ppi-writer.ts:9-58 | every written chunk has a known tag and a length below 2^32 |
| PackRoundTrip.FramesRead | src/lib/formats/ppi-parser.ts:27 | the chunks scanned from offset 8 collect the pack, with or without header |
| PackRoundTrip.InterpretReadsAs | src/lib/formats/ppi-parser.ts:32-56 | chunks that collect a pack are interpreted as that pack |
| PackRoundTrip.PackRoundTrip | src/lib/formats/ppi-parser.ts:26-57 | after any 8-byte preamble the reader recovers, from any output of the writer, the uid, the title and exactly the selected blobs in order, each with all its fields; the header is passed over |
| PackRoundTrip.PlainRoundTrip | src/lib/formats/ppi-parser.ts:26-57 | without header or selection every blob comes back field by field, and the icon code comes back exactly when it was present and non-empty |
| CpiEncryptor.MsbParityByteProps | src/lib/formats/cpi-encryptor.ts:77-82 | each adjusted byte keeps its low seven bits, has an odd number of 1 bits, and stays the same when adjusted again |
| CpiEncryptor.MsbParity | src/lib/formats/cpi-encryptor.ts:74-85 | the key keeps its length |
| CpiEncryptor.MsbParityKey | src/lib/formats/cpi-encryptor.ts:74-85 | the loop returns `MsbParity` of the key |
| CpiEncryptor.MsbParityProps | src/lib/formats/cpi-encryptor.ts:74-85 | the length is kept, each byte keeps its low seven bits and gets odd parity, and the adjustment is idempotent |
| CpiEncryptor.YamahaPad | src/lib/formats/cpi-encryptor.ts:91-98 | the padded length is a multiple of 8 and 1 to 8 bytes longer |
| CpiEncryptor.AddYamahaPadding | src/lib/formats/cpi-encryptor.ts:91-98 | the buffer filled in place is `YamahaPad` of the data |
| CpiEncryptor.YamahaPadShape | src/lib/formats/cpi-encryptor.ts:91-98 | the length is a multiple of 8, 1 to 8 bytes longer, exactly 8 longer for aligned data. The data comes first, then zeros, then one byte holding the length modulo 8 |
| CpiEncryptor.PadLength | src/lib/formats/cpi-encryptor.ts:91-98 | data 1 to 8 bytes short of a multiple n of 8 pads to n bytes |
| CpiEncryptor.CbcEncrypt | src/lib/formats/cpi-encryptor.ts:105-122 | CBC encryption keeps the length |
| CpiEncryptor.EncryptDesCbc | src/lib/formats/cpi-encryptor.ts:105-122 | the loop returns CBC encryption from the zero IV under the given key, or under `msbParity("Foatfkio")` when none is given |
| CpiEncryptor.EncryptBlockAt | src/lib/formats/cpi-encryptor.ts:112-118 | one pass encrypts data block i XORed with the chaining block and writes it at i |
| CpiEncryptor.XorBlock | src/lib/formats/cpi-encryptor.ts:112-115 | the inner loop is the bytewise XOR of two blocks |
| CpiEncryptor.CbcEncryptStep | src/lib/formats/cpi-encryptor.ts:111-119 | one block of output chains the rest of the encryption on that block |
| CpiEncryptor.CbcBlocks | src/lib/formats/cpi-encryptor.ts:111-119 | ciphertext block i is the encryption of data block i XORed with ciphertext block i - 1, or with the IV for the first |
| CpiEncryptor.DeriveKey | src/lib/formats/cpi-encryptor.ts:140-165 | no key exactly for empty input, otherwise 16 bytes |
| CpiEncryptor.KeyDerivation | src/lib/formats/cpi-encryptor.ts:140-165 | the loops return `DeriveKey` of the input |
| CpiEncryptor.FoldRows | src/lib/formats/cpi-encryptor.ts:150-157 | output byte i is the XOR of column i over the eight 16-byte rows of the zero-filled buffer |
| CpiEncryptor.FoldOneColumn | src/lib/formats/cpi-encryptor.ts:152-155 | the inner loop XORs column i over the eight rows |
| CpiEncryptor.ExtendShort | src/lib/formats/cpi-encryptor.ts:158-163 | a short input is copied, then filled with the seed XORed with the input repeated |
| CpiEncryptor.FillTail | src/lib/formats/cpi-encryptor.ts:160-162 | bytes from the input length to 15 get the filler and the copied input stays |
| CpiEncryptor.FillerByte | src/lib/formats/cpi-encryptor.ts:161 | one filler byte is the seed byte XORed with the input at j modulo its length |
| CpiEncryptor.CyclicIsMod | src/lib/formats/cpi-encryptor.ts:161 | reading the input cyclically is reading at j modulo its length |
| CpiEncryptor.DeriveKeyFirst128 | src/lib/formats/cpi-encryptor.ts:144-147 | only the first 128 input bytes matter |
| CpiEncryptor.DeriveKeyOf16 | src/lib/formats/cpi-encryptor.ts:146-157 | a 16-byte input is its own key, because the other seven rows are zero |
| CpiEncryptor.DeriveKeyShort | src/lib/formats/cpi-encryptor.ts:158-163 | for fewer than 16 bytes the key starts with the input, and byte length + j is `XOR_SEED[length + j]` XORed with the input at j modulo length |
| CpiEncryptor.Expand | src/lib/formats/cpi-encryptor.ts:170-180 | the expanded key has 24 bytes |
| CpiEncryptor.KeyExpansion | src/lib/formats/cpi-encryptor.ts:170-180 | the nested loops return `Expand` of the key |
| CpiEncryptor.ExpandWithTable | src/lib/formats/cpi-encryptor.ts:170-180 | the loops over any 48-entry table return `TableExpand` |
| CpiEncryptor.FillThird | src/lib/formats/cpi-encryptor.ts:173-177 | output byte 8r + j is the XOR of the key bytes at table entries 2j + 16r and 2j + 1 + 16r, and earlier thirds stay |
| CpiEncryptor.PairXor | src/lib/formats/cpi-encryptor.ts:174-176 | one step XORs the two key bytes the table names |
| CpiEncryptor.ExpandFromBytes | src/lib/formats/cpi-encryptor.ts:170-180 | 24 bytes holding the pair XOR at every position are the expanded key |
| CpiEncryptor.TripleDesEncryptCbc | src/lib/formats/cpi-encryptor.ts:187-198 | 3DES-CBC without padding keeps the length |
| CpiEncryptor.TripleKeyParity | src/lib/formats/cpi-encryptor.ts:188-192 | the 3DES key has 24 bytes, each with the expanded key's low seven bits and odd parity |
| CpiEncryptor.SecondData | src/lib/formats/cpi-encryptor.ts:211-215 | the key-verify half has 16 bytes |
| CpiEncryptor.ComputeSecondData | src/lib/formats/cpi-encryptor.ts:212-215 | the loop returns `SecondData` |
| CpiEncryptor.SecondDataRecoversKeySlot | src/lib/formats/cpi-encryptor.ts:211-215 | the key slot is recovered as second byte j minus first byte 15 - j, modulo 256 |
| CpiEncryptor.GenerateLockedCsec | src/lib/formats/cpi-encryptor.ts:204-235 | the steps return `LockedCsec` of the fullId and the random bytes |
| CpiEncryptor.LockedCsecLength | src/lib/formats/cpi-encryptor.ts:204-235 | the locked block fails exactly for an empty fullId; otherwise it has 80 bytes, the length of `CSEC_ENCRYPTED_DATA` |
| CpiEncryptor.LockedCsecOfLength | src/lib/formats/cpi-encryptor.ts:217-234 | from any 16-byte key slot the 74-byte plaintext pads and encrypts to 80 bytes |
| CpiEncryptor.CsecPlaintextLength | src/lib/formats/cpi-encryptor.ts:226-230 | the plaintext is 34 bytes longer than `AIRI` and `AIVF` together |
| CpiEncryptor.AlignPad | src/lib/formats/cpi-encryptor.ts:258 | the alignment padding is below 4 |
| CpiEncryptor.AlignPadProps | src/lib/formats/cpi-encryptor.ts:258 | the padding is below 4 and ends the `XMDL` chunk on a multiple of 4 |
| CpiEncryptor.BuildXpih | src/lib/formats/cpi-encryptor.ts:253-270 | the cursor copies build the `XPIH` chunk of `XpihPayload` |
| CpiEncryptor.SelectCsec | src/lib/formats/cpi-encryptor.ts:273 | the block chosen is `CsecData` |
| CpiEncryptor.EncryptPayload | src/lib/formats/cpi-encryptor.ts:276-308 | the payload chunks, concatenated, padded and encrypted, are `PayloadCipher` |
| CpiEncryptor.Assemble | src/lib/formats/cpi-encryptor.ts:311-320 | three buffers copied with a cursor give their concatenation |
| CpiEncryptor.BuildEncryptedCpi | src/lib/formats/cpi-encryptor.ts:246-321 | the output is `EncryptedCpi` of the inputs |
| CpiEncryptor.XpihPayloadLength | src/lib/formats/cpi-encryptor.ts:253-269 | the header payload is 20 bytes longer than the model name and its padding, a multiple of 4 |
| CpiEncryptor.XpihPayloadLayout | src/lib/formats/cpi-encryptor.ts:253-269 | the header payload is `XMDL` with the bare model name and its length, then the zero padding, then `XPID` with the install id big-endian at its end |
| CpiEncryptor.XmdlAtStart | src/lib/formats/cpi-encryptor.ts:254-259 | `XMDL` with the name opens the header payload, followed by the zeros |
| CpiEncryptor.XpidAtEnd | src/lib/formats/cpi-encryptor.ts:261-269 | `XPID` with the install id closes the header payload |
| CpiEncryptor.XmdlDiffers | src/lib/formats/cpi-encryptor.ts:254-255 | the encrypted header's `XMDL` declares the bare name's length; the plaintext writer's declares one more, for its NUL |
| CpiEncryptor.XmdlInHeaderFrame | src/lib/formats/ppi-writer.ts:19 | the plaintext writer's `XMDL` declares the name and its NUL |
| CpiEncryptor.CsecDataLength | src/lib/formats/cpi-encryptor.ts:273 | the security block is always 80 bytes |
| CpiEncryptor.CsecDataDefault | src/lib/formats/cpi-encryptor.ts:273 | an absent or empty fullId selects the standard block, without error |
| CpiEncryptor.CsecConstantLength | src/lib/formats/cpi-encryptor.ts:53-64 | the standard block is 80 bytes |
| CpiEncryptor.PayloadCipherLength | src/lib/formats/cpi-encryptor.ts:306-308 | the ciphertext tail is a positive multiple of 8, 1 to 8 bytes longer than the plaintext payload |
| CpiEncryptor.EncryptedLayout | src/lib/formats/cpi-encryptor.ts:246-321 | the output is the `XPIH` chunk of the header payload, then `CSEC` with declared length 80 and the block, then exactly the ciphertext tail |
| CpiEncryptor.ThreeParts | src/lib/formats/cpi-encryptor.ts:311-320 | the three parts lie where a reader looks for them |
| CpiEncryptor.CsecAt | src/lib/formats/cpi-encryptor.ts:273-274 | the `CSEC` tag, length 80, block and tail sit at the offset found |
| CpiConverter.SafeVersion | src/lib/cpi-converter.ts:90 | the sanitised label is as long as the label in UTF-16 code units and holds only safe characters |
| CpiConverter.SafeVersionAppend | src/lib/cpi-converter.ts:90 | sanitising and the code-unit length work part by part on a concatenation |
| CpiConverter.SafeVersionKeepsSafe | src/lib/cpi-converter.ts:90 | a label of safe characters is unchanged |
| CpiConverter.SafeVersionBmp | src/lib/cpi-converter.ts:90 | for a label inside the Basic Multilingual Plane the length is kept, safe characters stay in place and every other one becomes `_` |
| CpiConverter.SafeVersionProps | src/lib/cpi-converter.ts:90 | every character of the result is safe, sanitising is idempotent, and a safe label is unchanged |
| CpiConverter.SafeVersionAstral | src/lib/cpi-converter.ts:90 | `V5` followed by an emoji outside the Basic Multilingual Plane becomes `V5__`: the pattern has no `u` flag, so each half of the surrogate pair is replaced |
| CpiConverter.NatToString | src/lib/cpi-converter.ts:89 | the decimal form is non-empty and all digits |
| CpiConverter.NatToStringValue | src/lib/cpi-converter.ts:89 | the digits of `String(n)` read back in base 10 give `n`, and there is no leading zero except for `0` itself |
| CpiConverter.LastSegment | src/lib/cpi-converter.ts:66 | the last segment holds no `/`, is a suffix of the URL, and is preceded by `/` when shorter |
| CpiConverter.N27FileNameProps | src/lib/cpi-converter.ts:66 | the shown file name has no `/` and is never empty; a URL without `/` is its own name |
| CpiConverter.LastSegmentWithoutSlash | src/lib/cpi-converter.ts:66 | a URL without `/` is its own last segment |
| CpiConverter.CpiFileNameShape | src/lib/cpi-converter.ts:89-94 | the name is the identifier, `_`, the sanitised label and `.cpi`, and lies at the end of a path starting `updates/`. The identifier is the customer id when non-empty, else the number |
| CpiConverter.ConvertCustomer | src/lib/cpi-converter.ts:55-102 | one iteration returns the customer's `Outcome` |
| CpiConverter.CollectStep | src/lib/cpi-converter.ts:98-107 | each outcome goes to the end of exactly one list |
| CpiConverter.Outcomes | src/lib/cpi-converter.ts:54 | one outcome per customer |
| CpiConverter.GenerateCpisForCustomers | src/lib/cpi-converter.ts:41-112 | the loop returns `Conversion`: the pack is fetched and parsed once, then each customer's outcome is appended in turn |
| CpiConverter.CollectPartition | src/lib/cpi-converter.ts:54-109 | the lists' lengths add up to the customers, and each holds its customers' ids in input order |
| CpiConverter.CollectHasEveryCustomer | src/lib/cpi-converter.ts:54-109 | each customer's result is in `successful`, or its error entry with its id is in `failed` |
| CpiConverter.OutcomeId | src/lib/cpi-converter.ts:98-102 | a result carries its customer's id and a non-empty model name |
| CpiConverter.BatchPartition | src/lib/cpi-converter.ts:54-109 | every customer lands in exactly one of the lists, both in input order |
| CpiConverter.NoInfoFile | src/lib/cpi-converter.ts:56-62 | no info file gives the missing-file failure whatever the storage holds, so nothing is fetched |
| CpiConverter.NoModelName | src/lib/cpi-converter.ts:69-75 | an info file without a name gives the no-name failure whatever the upload does, so nothing is built or stored |
| CpiConverter.SuccessUploads | src/lib/cpi-converter.ts:79-102 | on success the encrypted file for the parsed name, with install id 1, all blobs and the fullId lock exactly when it is non-empty, is uploaded to the customer's path, and the result records the URL and the name |
| CpiConverter.ConversionOutcome | src/lib/cpi-converter.ts:48-49 | a failed pack fetch fails the call with its message; otherwise every customer is accounted for |
| CpiDecrypt.AdjustParity | scripts/decrypt-cpi.js:5-16 | the adjusted key always has 8 bytes |
| CpiDecrypt.AdjustDesParity | scripts/decrypt-cpi-v2.js:5-16 | the loop returns `AdjustParity` of the key |
| CpiDecrypt.AdjustParityByteIsMsbParity | scripts/decrypt-cpi.js:8-13 | the unmasked 32-bit computation gives the encryptor's byte |
| CpiDecrypt.AdjustParityIsMsbParity | scripts/decrypt-cpi.js:5-16 | on an 8-byte key it is `msbParity`. On any key each byte keeps its low seven bits and has odd parity |
| CpiDecrypt.ScriptKeyIsEncryptorKey | scripts/decrypt-cpi-v2.js:84-87 | the scripts' key is the encryptor's default key |
| CpiDecrypt.SliceTo | scripts/decrypt-cpi.js:40 | a slice from 0 is a prefix |
| CpiDecrypt.RemoveYamahaPaddingCases | scripts/decrypt-cpi.js:31-44 | the result is a prefix. It is shorter exactly when the last byte is 1 to 7, and then, for 8 bytes or more, it ends at length - 8 + that byte |
| CpiDecrypt.RemoveUndoesPadding | scripts/decrypt-cpi-v2.js:41-53 | for a length not a multiple of 8 the removal undoes the padding |
| CpiDecrypt.AlignedPaddingKept | scripts/decrypt-cpi.js:31-44 | for a length that is a multiple of 8, all 8 pad bytes stay |
| CpiDecrypt.AlignedPaddingExample | scripts/decrypt-cpi.js:31-44 | eight zeros come back as sixteen |
| CpiDecrypt.StripYamahaPadding | scripts/decrypt-cpi.js:31-44 | the corrected removal returns a prefix |
| CpiDecrypt.StripUndoesPadding | scripts/decrypt-cpi.js:31-44 | the corrected removal undoes the padding of every input |
| CpiDecrypt.StripAgreesWhenCut | scripts/decrypt-cpi.js:37-41 | where the script cuts, it cuts like the corrected removal |
| CpiDecrypt.CbcDecrypt | scripts/decrypt-cpi-v2.js:19-38 | decryption keeps the length |
| CpiDecrypt.DecryptDesCbc | scripts/decrypt-cpi-v2.js:19-38 | the loop returns `CbcDecrypt` from the IV |
| CpiDecrypt.XorInto | scripts/decrypt-cpi-v2.js:30-32 | the XOR of the two blocks is written at i, and writes past the end are dropped |
| CpiDecrypt.CbcDecryptFull | scripts/decrypt-cpi-v2.js:25-35 | a whole block joins the output, and the rest chains on it |
| CpiDecrypt.CbcDecryptLast | scripts/decrypt-cpi-v2.js:25-35 | a short last block completes the output truncated |
| CpiDecrypt.CbcDecryptBlocks | scripts/decrypt-cpi-v2.js:19-38 | plaintext block i is the decryption of ciphertext block i XORed with block i - 1, or with the IV for the first |
| CpiDecrypt.CbcDecryptPrefix | scripts/decrypt-cpi-v2.js:103-106 | decrypting a block-aligned prefix gives the prefix of the whole decryption |
| CpiDecrypt.Xor8Twice | scripts/decrypt-cpi-v2.js:30-32 | XOR with a block twice gives the block back |
| CpiDecrypt.CbcRoundTrip | scripts/decrypt-cpi-v2.js:19-38 | with a block decryption that inverts the encryption, CBC decryption inverts `encryptDESCBC` |
| CpiDecrypt.LocateSections | scripts/decrypt-cpi-v2.js:60-81 | the offset walk returns `WalkSections` |
| CpiDecrypt.WalkFound | scripts/decrypt-cpi.js:51-76 | with both size fields present the walk succeeds with the sizes, the block and the rest |
| CpiDecrypt.WalkSectionsShape | scripts/decrypt-cpi.js:51-76 | the walk succeeds exactly when both size fields are present. The header size is read at 4 and the block size at 12 + that size. When the block fits it is the bytes from 16 + header size, and the payload is everything after it |
| CpiDecrypt.WalkEncrypted | scripts/decrypt-cpi.js:51-76 | on the encryptor's output the walk finds the header size, block size 80, the block written and exactly the ciphertext tail |
| CpiDecrypt.WalkAt | scripts/decrypt-cpi-v2.js:60-81 | the walk over a file with sizes at 4 and 12 + header size |
| CpiDecrypt.DecryptEncrypted | scripts/decrypt-cpi.js:80-100 | the payload cut out, decrypted under the scripts' key and stripped gives back the plaintext payload; the script's own removal does so when the payload length is not a multiple of 8 |
| CpiDecrypt.DecryptTail | scripts/decrypt-cpi-v2.js:19-53 | removing the padding after decrypting what the encryptor made of padded data gives the data back, for the script's removal when the length is not a multiple of 8 |
| CpiDecrypt.DecryptedPayloadParses | src/lib/formats/ppi-parser.ts:26-57 | the plaintext payload after any 8 bytes parses back into the pack's uid, title and selected blobs |

## Left out

- The DES and 3DES block functions (des.js, Node's `des-ede3`) are foreign code. They are function parameters. The round-trip lemmas require that the block decryption inverts the block encryption under the key used.
- The scripts' calls into des.js do not match the interface that src/types/des.js.d.ts:11-32 declares. That module exports `DES`, `CBC`, `EDE`, `utils` and `Cipher`, and its cipher objects have only `update` and `final`. decrypt-cpi-v2.js calls `new` on the module object itself and then a `decrypt` method (scripts/decrypt-cpi-v2.js:2,20,27). decrypt-cpi.js calls `create` on the module object (scripts/decrypt-cpi.js:1,20). The model puts a working DES block decryption where those calls are. So `CpiDecrypt.CbcRoundTrip`, `CpiDecrypt.DecryptTail` and `CpiDecrypt.DecryptEncrypted` describe the scripts with that substitution, not the scripts as they would run against that interface.
- The v1 `decryptDES_CBC` (scripts/decrypt-cpi.js:19-28) is des.js's own CBC wrapper with hex encodings, which is foreign code. The v2 hand-written loop, which `CpiDecrypt.DecryptDesCbc` models, is the one whose chaining is visible.
- Node's CBC chaining inside `createCipheriv('des-ede3-cbc')` is taken as standard CBC over the 3DES block parameter, with a zero IV and no padding.
- `TextEncoder` and `TextDecoder` are not modelled. Binary-format texts (uids, titles, model name, fullId) are byte sequences, and `chunkText` is "remove every zero byte". URLs and version labels are Dafny strings. Their characters are Unicode scalar values. Where JavaScript works on UTF-16 code units, as the version-label replacement does, the model counts them with `Utf16Length`.
- `randomBytes(16)` is a parameter.
- The storage calls (`downloadFile`, `uploadFileWithPath`), `fs` and `console` output are left out. The two storage calls are function parameters that may fail with a message. Their side effects are not modelled, and the source's async behaviour is taken as sequential.
- The serial-number search and the hex dumps of the scripts are diagnostics and are left out.
- The `instanceof Error` fallback message of the converter's `catch` is left out. In the model the only failures are those of the collaborators and the two checked cases. The only throw in the encryptor, an empty `fullId`, cannot be reached from the converter, which passes `fullId` only when it is non-empty.
- ChunkCodec.ReadChunks: requires an explicit end offset to lie within the buffer. Past it, the source reads `undefined` bytes, which a sequence cannot.
- The PPF/CPI layout lemmas take the install id in `0 .. 2^32-1` and lengths below 2^32. `Be32` itself models the `>>>` reduction modulo 2^32 for any integer.
- CpiDecrypt.RemoveYamahaPaddingCases: states the exact cut only for inputs of at least 8 bytes. For shorter inputs it states that the result is a prefix and when it is shorter, since the source relies on negative `slice` indices there. `SliceTo` models those indices.
- `EXPANSION_TABLE`, `XOR_SEED` and `CSEC_ENCRYPTED_DATA` are copied byte for byte. Their derivation from the instrument firmware is not modelled.

## Findings

| source | as written | input that shows it | evidently intended | confidence | as-written member | corrected member |
|---|---|---|---|---|---|---|
| scripts/decrypt-cpi.js:31-44 | `removeYamahaPadding` (the same in decrypt-cpi-v2.js) cuts only when the last byte is 1 to 7. Data whose length is a multiple of 8 gets a whole block of padding ending in 0 from `addYamahaPadding`, and that block is kept | 8 zero bytes pad to 16 zero bytes, and the removal returns all 16 | the last byte is the original length modulo 8, so the original always ends at length - 8 + last byte, a whole block being cut when it is 0 | not executed | CpiDecrypt.AlignedPaddingKept | CpiDecrypt.StripUndoesPadding |
