# binfileutils in Dafny

This project models the section container of iden3's `binfileutils`
(`src/binfileutils.js`). The container is the binary format used by circom and
snarkjs for `.r1cs`, `.zkey` and `.wtns` files. A file starts with a 4-byte type
tag and a 32-bit version word. After that comes one of two layouts:

- **Layout 1** (bit 28 of the version word clear): a section count, then records
  `id:u32, length:u64, payload`, one after the other.
- **Layout 2** (bit 28 set, `BIN_FORMAT_2`): a reserved count, a table of that
  many 20-byte entries `id:u32, size:u64, offset:u64` (a multiple of 256,
  zero-filled), then the payloads. A slot with id 0 is free.

Sections are written in sessions. `startWriteSection` writes the header or table
entry with a zero size, and `endWriteSection` patches the size in. They are read
in sessions too. `startReadUniqueSection` moves the cursor to the single
occurrence of an id, and `endReadSection` checks that exactly the payload was
consumed. `readBinFile` parses the header and the table into a map from section
id to its list of `(p, size)` descriptors. `copySection`, `readSection` and
`sectionIsEqual` build on these sessions.

The project has six modules:

- `Errors`: `Option`, `Result` and `Outcome`, plus the error kinds the source
  throws.
- `Bytes`: bytes and the little-endian codec. `U32`/`U64` store a value modulo
  2^32/2^64. `Splice` is a write at a position: it replaces bytes, grows the
  file, and reads a gap as zeros.
- `Header`: `decodeVersion`, the reserved-table size and the type tag.
- `Container`: the file handle as a value (`Handle`). It also holds the section
  map, the two table scans of `readBinFile` and the session transitions as pure
  functions. These functions are the specification.
- `BinFileUtils`: the source's engine in imperative form. The `BinFile` class
  has the handle's fields (`pos`, `binVersion`, `pSectionsTable`,
  `writingSection`, `readingSection`), which the methods update in place. Each
  operation (`ReadBinFile`, `CreateBinFile`, `StartWriteSection`, …,
  `SectionIsEqual`) is a method with its loops and invariants. Its `ensures` ties
  the new state to the `Container` function of the old state.
- `RoundTrip`: what a writer and a reader agree on. Writing sections into a
  freshly created container and reopening the bytes with `readBinFile` gives back
  every uniquely named section's payload, for both layouts. It also covers the
  corner cases: id 0 in Layout 2, a Layout 2 table with no slots, and a Layout 1
  count larger than the sections written.

The two round-trip tests of the repository, at
`test/binfileutils.test.js:38-83` and `:85-130`, both create their file with
version word `1 | 0x10000000`, so both exercise Layout 2. The Layout 1 round trip
is stated here from the code alone.

## Model

| member | source | states |
|---|---|---|
| Header.DecodeVersion | src/binfileutils.js:231-239 | The layout is Layout 2 exactly when bit 28 is set. A logical version is present exactly for Layout 2, and then version + flag is the word. |
| Header.DecodeLayout2 | src/binfileutils.js:231-239 | Any version below 2^28 with the flag added decodes back to that version and Layout 2. |
| Header.DecodeLayout1 | src/binfileutils.js:231-239 | A word with bit 28 clear, whatever its other bits, decodes to Layout 1 with an undefined version. |
| Header.VersionTooNewWord | src/binfileutils.js:20-22 | A version word is rejected as too new exactly when bit 28 is set and the word minus the flag exceeds maxVersion. A Layout 1 word, whose version is undefined, is never rejected. |
| Header.ReservedCount | src/binfileutils.js:89 | The reserved table size is a multiple of 256, at least n and below n + 256. |
| Header.TagRoundTrip | src/binfileutils.js:78-80 | The tag createBinFile writes reads back equal, as readBinFile checks at lines 12-16, exactly when it has four characters, each below 256. |
| Header.TagBytes | src/binfileutils.js:78-79 | The tag bytes are four: each character code of the tag truncated to a byte, and 0 past the end of the string. |
| Header.Latin1 | src/binfileutils.js:13-14 | The string read from the tag bytes has one character per byte, with that byte as its code. |
| Bytes.U32RoundTrip | src/binfileutils.js:18 | readULE32 of what writeULE32 stored is the value modulo 2^32, and the value itself when it fits. |
| Bytes.U64RoundTrip | src/binfileutils.js:42 | readULE64 of what writeULE64 stored is the value modulo 2^64, and the value itself when it fits. |
| Container.ParseFile | src/binfileutils.js:8-34 | Fails with InvalidFormat exactly when the tag differs. Fails with UnsupportedVersion exactly when a Layout 2 logical version exceeds maxVersion, and a Layout 1 file never does. On success the tag matched, the header is present and the layout is the flag's. |
| Container.Created | src/binfileutils.js:75-103 | createBinFile writes the tag, the version word, then the count (Layout 1) or the reserved count and that many zero 20-byte entries (Layout 2). The cursor is at the end and (Layout 2) the table cursor is at offset 12. |
| Container.AddDescriptor | src/binfileutils.js:43-47 | Adding a descriptor for an id creates its list when absent and appends to it, and leaves every other id's list unchanged. |
| Container.ScanSequential | src/binfileutils.js:40-49 | The Layout 1 scan of count records, each header adding its descriptor and skipping its payload, fails only with OutOfBounds. |
| Container.SequentialCursor | src/binfileutils.js:40-49 | A successful Layout 1 scan ends with the cursor past the 12-byte headers of all count records. |
| Container.ScanTable | src/binfileutils.js:57-71 | The Layout 2 scan of count table entries fails only with OutOfBounds, and on success its cursor is exactly 20·count bytes further on. |
| Container.ParseSections | src/binfileutils.js:26-54 | Reading the count word and scanning by the layout fails only with OutOfBounds, and succeeds only when the count word lies inside the file. |
| Container.StartWrite | src/binfileutils.js:105-125 | Fails exactly when a write session is open. Layout 1 appends id and a zero length at the cursor. Layout 2 writes (id, 0, cursor) into the next table slot and keeps the cursor. |
| Container.EndWrite | src/binfileutils.js:127-146 | Fails exactly when no session is open. Patches the bytes written since the placeholder (Layout 1) or since the payload start (Layout 2) into the size field, keeps the cursor, and (Layout 2) advances the table cursor by 20. |
| Container.StartRead | src/binfileutils.js:148-156 | Fails with AlreadyReading, MissingSection or DuplicatedSection in the source's order. Succeeds exactly for a single descriptor, moving the cursor to its payload. |
| Container.EndRead | src/binfileutils.js:158-164 | Fails with NotReading when no session is open. Unless noCheck, fails with SizeMismatch when the cursor is not exactly size bytes past the start. Otherwise closes the session. |
| Container.CollectLookup | src/binfileutils.js:43-47 | The map lists, per id, the descriptors of the records carrying that id in on-disk order, and has a key exactly for the ids found. |
| Container.CollectAppend | src/binfileutils.js:40-49 | Collecting two runs of records is collecting the first, then the second. |
| Container.MatchingUnique | src/binfileutils.js:151-153 | An id carried by a single kept record yields exactly that record's descriptor, the one startReadUniqueSection opens. |
| Container.ZeroSkipped | src/binfileutils.js:64 | Layout 2 parsing never records id 0, whatever the table holds. |
| BinFileUtils.BinFile.Read | src/binfileutils.js:12 | A read returns the n bytes at the cursor and advances it, or fails past the end of the file and changes nothing. |
| BinFileUtils.BinFile.ReadULE32 | src/binfileutils.js:18 | Reads the little-endian value of the 4 bytes at the cursor and advances it by 4, or fails past the end of the file and changes nothing. |
| BinFileUtils.BinFile.ReadULE64 | src/binfileutils.js:42 | Reads the little-endian value of the 8 bytes at the cursor and advances it by 8, or fails past the end of the file and changes nothing. |
| BinFileUtils.BinFile.Write | src/binfileutils.js:80 | Writes the bytes at the cursor, growing the file as needed, and advances the cursor by their number. |
| BinFileUtils.BinFile.WriteULE32 | src/binfileutils.js:82 | Writes the 4-byte encoding at the cursor and advances it. |
| BinFileUtils.BinFile.WriteULE64 | src/binfileutils.js:95-96 | Writes the 8-byte encoding at the cursor and advances it. |
| BinFileUtils.ReadBinFile | src/binfileutils.js:8-34 | Returns exactly ParseFile's outcome. On success the handle holds the file, the cursor where the section scan ended (after the Layout 2 table, or after the last skipped Layout 1 payload) and the layout. |
| BinFileUtils.NextRecord | src/binfileutils.js:41-48 | One loop round reads a record header, appends its descriptor and skips the payload, so the rest of the scan is unchanged. |
| BinFileUtils.ReadSectionsV1 | src/binfileutils.js:36-50 | The section map and final cursor are those of the sequential scan over the count read first. |
| BinFileUtils.NextEntry | src/binfileutils.js:59-70 | One loop round reads a table entry and adds it unless its id is 0. |
| BinFileUtils.ReadSectionsV2 | src/binfileutils.js:52-72 | The section map and final cursor are those of the table scan over the reserved count. |
| BinFileUtils.CreateBinFile | src/binfileutils.js:75-103 | The new handle's state is Created(tag, version, nSections). |
| BinFileUtils.WriteZeroTable | src/binfileutils.js:93-97 | The loop appends exactly 20·count zero bytes. |
| BinFileUtils.StartWriteSection | src/binfileutils.js:105-125 | The handle moves to StartWrite of its old state, or stays unchanged with AlreadyWriting. |
| BinFileUtils.EndWriteSection | src/binfileutils.js:127-146 | The handle moves to EndWrite of its old state, or stays unchanged with NotWriting. |
| BinFileUtils.StartReadUniqueSection | src/binfileutils.js:148-156 | The handle moves to StartRead of its old state, or stays unchanged with the error. |
| BinFileUtils.EndReadSection | src/binfileutils.js:158-164 | The handle moves to EndRead of its old state, or stays unchanged with the error. |
| BinFileUtils.ReadSection | src/binfileutils.js:194-212 | The defaults are offset 0 and length = size − offset. Fails when offset + length exceeds the first descriptor's size, and otherwise returns the file bytes [p + offset, p + offset + length), failing only when they lie outside the file. A successful read leaves the cursor after the bytes read; a failure changes nothing. |
| BinFileUtils.CopyChunks | src/binfileutils.js:184-188 | Copying n bytes in page-size chunks appends exactly the n source bytes at the destination cursor. When the source is too short, it stops at the first chunk reaching past its end, after whole chunks only. |
| BinFileUtils.CopyAndClose | src/binfileutils.js:184-190 | After the copy, closes the write session (patching the size) and the read session, with the size check skipped when noCheck is set. CopySection sets noCheck exactly when the copied size differs from the section's declared size. |
| BinFileUtils.CopySection | src/binfileutils.js:177-192 | The default size is the section's declared size. Fails as startReadUniqueSection or startWriteSection does, and then copies the bytes as CopyAndClose states. |
| BinFileUtils.FirstMismatch | src/binfileutils.js:224 | Returns no index exactly when the buffers are equal, and otherwise the first index where they differ. |
| BinFileUtils.MismatchIndex | src/binfileutils.js:224 | Two different buffers of one length differ at some index. |
| BinFileUtils.CompareChunk | src/binfileutils.js:221-224 | Succeeds exactly when both files hold len bytes at their cursors, advances both by len and returns whether those bytes are equal; otherwise fails with OutOfBounds. |
| BinFileUtils.CompareChunks | src/binfileutils.js:220-225 | true means both n-byte spans exist and are equal. false means some common prefix differs. |
| BinFileUtils.SectionIsEqual | src/binfileutils.js:214-229 | Returns false when the declared sizes differ. Otherwise, when both spans exist, returns whether the two sections' bytes are equal. Only a true answer closes both read sessions. |
| RoundTrip.WriteAllLayout2 | src/binfileutils.js:105-146 | Writing sections into a new Layout 2 container fills table slots in order, with entries (id, length, offset), and lays the payloads out after the table. |
| RoundTrip.Layout2Step | src/binfileutils.js:114-145 | One write session puts the entry into the next free slot and appends the payload. |
| RoundTrip.ScanEncoded | src/binfileutils.js:57-71 | Scanning encoded entries recovers them, skipping id 0. |
| RoundTrip.Table2 | src/binfileutils.js:54-71 | The reserved table of a written file scans to the written sections followed by free slots. |
| RoundTrip.ParseLayout2 | src/binfileutils.js:8-72 | readBinFile on a written Layout 2 file succeeds, with the directory of the written sections as its map. |
| RoundTrip.Layout2Lookup | src/binfileutils.js:64-70 | A unique nonzero id is listed once, at its payload. |
| RoundTrip.Layout2Found | test/binfileutils.test.js:116-120 | A written Layout 2 section with a unique nonzero id reads back as its payload through a checked read session. |
| RoundTrip.Layout2ZeroMissing | src/binfileutils.js:64 | A section written with id 0 is never found: startReadUniqueSection reports it missing. |
| RoundTrip.Layout2RoundTrip | test/binfileutils.test.js:85-130 | Write then read: every section with a unique nonzero id reads back as its payload, and id 0 is missing. |
| RoundTrip.Layout2NoSlots | src/binfileutils.js:89-123 | With nSections = 0 no slot is reserved, and startWriteSection does not check for one. Writing a section succeeds, yet readBinFile finds no section at all. |
| RoundTrip.Layout1Step | src/binfileutils.js:108-136 | One Layout 1 write session appends the record: id, patched length, payload. |
| RoundTrip.WriteAllLayout1 | src/binfileutils.js:105-146 | Writing sections into a new Layout 1 container appends their records after the header and count. |
| RoundTrip.ScanRecords | src/binfileutils.js:40-49 | Scanning readable records recovers their headers in order, and the cursor lands after the last payload. |
| RoundTrip.RecordsHeaders | src/binfileutils.js:41-42 | The record headers of written records decode to their ids and lengths. |
| RoundTrip.ParseLayout1 | src/binfileutils.js:8-50 | readBinFile on a written Layout 1 file whose count matches succeeds for every maximum version, with the records as its map. |
| RoundTrip.Layout1CountTooLarge | src/binfileutils.js:40-42 | A Layout 1 count larger than the sections written makes readBinFile run past the end of the file. |
| RoundTrip.Layout1Lookup | src/binfileutils.js:43-47 | A unique id, 0 included, is listed once at its payload. |
| RoundTrip.Layout1Found | src/binfileutils.js:148-164 | A written Layout 1 section with a unique id reads back as its payload through a checked read session. |
| RoundTrip.Layout1RoundTrip | src/binfileutils.js:36-50 | Write then read: every section with a unique id reads back as its payload. |
| RoundTrip.ReadBackUnique | src/binfileutils.js:148-164 | Reading a section listed once and lying inside the file yields exactly its bytes, and the size check passes. |

## Left out

- File I/O (`fastfile`): the model has no files, caches or `close`. A file is a
  byte sequence. A read past the end fails with OutOfBounds and changes nothing.
  A write past the end zero-fills the gap.
- `cacheSize` is left out. `pageSize` is kept only as the chunk size of
  `copySection` and `sectionIsEqual`.
- Asynchrony: every `await` is a plain call.
- Error message texts: each `throw` is an error kind.
- `writeBigInt` and `readBigInt`: these wrap the `Scalar` representation of
  ffjavascript, which is not part of this model.
- `BigBuffer` for reads of 2^30 bytes or more: `ReadSection` returns the same
  bytes as a sequence.
- JavaScript numbers: the model uses unbounded integers. Precision loss above
  2^53 is not modelled. Neither are non-integer or `NaN` offsets and lengths,
  nor `String.fromCharCode`/`charCodeAt` on characters above U+FFFF.
- BinFileUtils.CopySection: requires `source != dest`. Copying a section into
  the file it is read from, through one shared handle, is not modelled.
- BinFileUtils.CopyChunks, BinFileUtils.CopyAndClose: require distinct handles,
  for the same reason.
- BinFileUtils.SectionIsEqual: requires `fd1 != fd2`. Comparing a handle with
  itself is not modelled.
- BinFileUtils.CompareChunks, BinFileUtils.CompareChunk: require distinct
  handles, for the same reason.
- BinFileUtils.StartWriteSection: requires a table cursor on Layout 2 handles.
  Writing into a Layout 2 handle returned by `readBinFile` seeks to an undefined
  table position in the source. The model has no such position.
- BinFileUtils.EndWriteSection: requires a table cursor on Layout 2 handles,
  for the same reason.
- Container.StartWrite, Container.EndWrite: require a table cursor on Layout 2
  handles, for the same reason.
- RoundTrip.WriteSection, RoundTrip.WriteAll: require a table cursor on Layout 2
  handles, for the same reason.
- BinFileUtils.CopySection, BinFileUtils.CopyAndClose: also require a table
  cursor on a Layout 2 destination, for the same reason.
- RoundTrip.Layout2RoundTrip, RoundTrip.Layout1RoundTrip: require ids below
  2^32 and sizes and offsets below 2^64. Larger values are truncated by the u32
  and u64 writes and read back changed.
- RoundTrip.Layout1RoundTrip: requires the count given to `createBinFile` to
  equal the number of sections written. A larger count is covered by
  `Layout1CountTooLarge`. With a smaller count, `readBinFile` sees only the
  first records; no lemma states this.
- The rollup build configuration and the tests themselves are not modelled.
