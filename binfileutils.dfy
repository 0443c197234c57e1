/**
 * The container engine as the source runs it: a file handle whose fields are
 * updated step by step, and the operations that open, create, write, read,
 * copy and compare sections. Each operation is proved against the value-level
 * specification in module Container.
 */
module BinFileUtils {
  import opened Errors
  import opened Bytes
  import opened Header
  import opened Container

  type Positive = n: nat | n > 0 witness 1

  /**
   * An open file: its bytes and cursor (the file abstraction), the layout
   * (binVersion), the Layout 2 table cursor (pSectionsTable) and the two
   * session slots (writingSection, readingSection).
   */
  class BinFile {
    var data: seq<byte>
    var pos: nat
    var format: Format
    var pSectionsTable: Option<nat>
    var writingSection: Option<nat>
    var readingSection: Option<Descriptor>
    const pageSize: Positive

    function State(): Handle
      reads this
    {
      Handle(data, pos, format, pSectionsTable, writingSection, readingSection)
    }

    /** A handle over `contents` with the cursor at 0, as the file abstraction opens or creates it. */
    constructor (contents: seq<byte>, pageSize: Positive)
      ensures State() == Handle(contents, 0, Format1, None, None, None)
      ensures this.pageSize == pageSize
    {
      data := contents;
      pos := 0;
      format := Format1;
      pSectionsTable := None;
      writingSection := None;
      readingSection := None;
      this.pageSize := pageSize;
    }

    /** Read `n` bytes at the cursor and advance it; fails past the end of the file. */
    method Read(n: nat) returns (r: Result<seq<byte>>)
      modifies this
      ensures r.Ok? <==> old(pos) + n <= |data|
      ensures r.Ok? ==> r.value == data[old(pos)..old(pos) + n] && State() == old(State()).(pos := old(pos) + n)
      ensures r.Err? ==> r.error == OutOfBounds && State() == old(State())
    {
      if pos + n <= |data| {
        r := Ok(data[pos..pos + n]);
        pos := pos + n;
      } else {
        r := Err(OutOfBounds);
      }
    }

    method ReadULE32() returns (r: Result<nat>)
      modifies this
      ensures r.Ok? <==> old(pos) + 4 <= |data|
      ensures r.Ok? ==> r.value == FromLE(data[old(pos)..old(pos) + 4]) && State() == old(State()).(pos := old(pos) + 4)
      ensures r.Err? ==> r.error == OutOfBounds && State() == old(State())
    {
      var b := Read(4);
      r := if b.Ok? then Ok(FromLE(b.value)) else Err(b.error);
    }

    method ReadULE64() returns (r: Result<nat>)
      modifies this
      ensures r.Ok? <==> old(pos) + 8 <= |data|
      ensures r.Ok? ==> r.value == FromLE(data[old(pos)..old(pos) + 8]) && State() == old(State()).(pos := old(pos) + 8)
      ensures r.Err? ==> r.error == OutOfBounds && State() == old(State())
    {
      var b := Read(8);
      r := if b.Ok? then Ok(FromLE(b.value)) else Err(b.error);
    }

    /** Write `b` at the cursor and advance it. */
    method Write(b: seq<byte>)
      modifies this
      ensures State() == Container.Write(old(State()), b)
    {
      data := Splice(data, pos, b);
      pos := pos + |b|;
    }

    method WriteULE32(v: int)
      modifies this
      ensures State() == Container.Write(old(State()), U32(v))
    {
      Write(U32(v));
    }

    method WriteULE64(v: int)
      modifies this
      ensures State() == Container.Write(old(State()), U64(v))
    {
      Write(U64(v));
    }
  }

  /** Open `contents` as a container of type `tag`, rejecting versions above `maxVersion`, and build its section map. */
  method ReadBinFile(contents: seq<byte>, tag: string, maxVersion: int, pageSize: Positive)
    returns (fd: BinFile, r: Result<SectionMap>)
    ensures fresh(fd) && fd.data == contents && fd.pageSize == pageSize
    ensures match ParseFile(contents, tag, maxVersion)
      case Ok(o) => r == Ok(o.sections) && fd.State() == Reopened(contents, o)
      case Err(e) => r == Err(e)
  {
    fd := new BinFile(contents, pageSize);
    var b := fd.Read(4);
    if b.Err? {
      return fd, Err(b.error);
    }
    var readType: string := "";
    for i := 0 to 4
      invariant readType == Latin1(b.value[..i])
    {
      readType := readType + [b.value[i] as char];
    }
    assert b.value[..4] == contents[..4];
    if readType != tag {
      return fd, Err(InvalidFormat);
    }
    var v := fd.ReadULE32();
    if v.Err? {
      return fd, Err(v.error);
    }
    var d := DecodeVersion(v.value);
    if VersionTooNew(d, maxVersion) {
      return fd, Err(UnsupportedVersion);
    }
    var sections;
    if d.format == Format1 {
      sections := ReadSectionsV1(fd);
    } else {
      sections := ReadSectionsV2(fd);
    }
    if sections.Err? {
      return fd, Err(sections.error);
    }
    fd.format := d.format;
    r := sections;
  }

  /** One round of the Layout 1 loop: read a record header at the cursor, note its descriptor, skip its payload. */
  method NextRecord(fd: BinFile, ghost data: seq<byte>, ghost count: nat, sections: SectionMap)
    returns (r: Result<SectionMap>, ghost rest: nat)
    requires fd.data == data && count > 0
    modifies fd
    ensures fd.State() == old(fd.State()).(pos := fd.pos) && rest == count - 1
    ensures r.Err? ==> ScanSequential(data, old(fd.pos), count, sections) == Err(r.error)
    ensures r.Ok? ==> ScanSequential(data, fd.pos, rest, r.value) == ScanSequential(data, old(fd.pos), count, sections)
  {
    ghost var p0 := fd.pos;
    rest := count - 1;
    var ht := fd.ReadULE32();
    if ht.Err? {
      SequentialShort(data, p0, count, sections);
      return Err(ht.error), rest;
    }
    var hl := fd.ReadULE64();
    if hl.Err? {
      SequentialShort(data, p0, count, sections);
      return Err(hl.error), rest;
    }
    r := Ok(AddDescriptor(sections, ht.value, Descriptor(fd.pos, hl.value)));
    fd.pos := fd.pos + hl.value;
    SequentialNext(data, p0, count, sections, fd.pos, rest, r.value);
  }

  /** One round of the Layout 2 loop: read a table entry at the cursor and note it unless its id is 0. */
  method NextEntry(fd: BinFile, ghost data: seq<byte>, ghost count: nat, sections: SectionMap)
    returns (r: Result<SectionMap>, ghost rest: nat)
    requires fd.data == data && count > 0
    modifies fd
    ensures fd.State() == old(fd.State()).(pos := fd.pos) && rest == count - 1
    ensures r.Err? ==> ScanTable(data, old(fd.pos), count, sections) == Err(r.error)
    ensures r.Ok? ==> ScanTable(data, fd.pos, rest, r.value) == ScanTable(data, old(fd.pos), count, sections)
  {
    ghost var p0 := fd.pos;
    rest := count - 1;
    var sectionId := fd.ReadULE32();
    if sectionId.Err? {
      TableShort(data, p0, count, sections);
      return Err(sectionId.error), rest;
    }
    var sectionSize := fd.ReadULE64();
    if sectionSize.Err? {
      TableShort(data, p0, count, sections);
      return Err(sectionSize.error), rest;
    }
    var sectionOffset := fd.ReadULE64();
    if sectionOffset.Err? {
      TableShort(data, p0, count, sections);
      return Err(sectionOffset.error), rest;
    }
    if sectionId.value != 0 {
      r := Ok(AddDescriptor(sections, sectionId.value, Descriptor(sectionOffset.value, sectionSize.value)));
    } else {
      r := Ok(sections);
    }
    TableNext(data, p0, count, sections, fd.pos, rest, r.value);
  }

  /** Layout 1: read the section count, then each record header, skipping its payload. */
  method ReadSectionsV1(fd: BinFile) returns (r: Result<SectionMap>)
    modifies fd
    ensures fd.data == old(fd.data) && fd.format == old(fd.format) && fd.pSectionsTable == old(fd.pSectionsTable)
    ensures fd.writingSection == old(fd.writingSection) && fd.readingSection == old(fd.readingSection)
    ensures match ParseSections(fd.data, old(fd.pos), Format1)
      case Ok(s) => r == Ok(s.0) && fd.pos == s.1
      case Err(e) => r == Err(e)
  {
    var count := fd.ReadULE32();
    if count.Err? {
      return Err(count.error);
    }
    var nSections := count.value;
    ghost var data := fd.data;
    ghost var goal := ScanSequential(data, fd.pos, nSections, map[]);
    var sections: SectionMap := map[];
    var i := 0;
    ghost var left := nSections;
    while i < nSections
      invariant 0 <= i <= nSections && left == nSections - i
      invariant fd.State() == old(fd.State()).(pos := fd.pos)
      invariant ScanSequential(data, fd.pos, left, sections) == goal
    {
      var next;
      next, left := NextRecord(fd, data, left, sections);
      if next.Err? {
        return Err(next.error);
      }
      sections := next.value;
      i := i + 1;
    }
    r := Ok(sections);
  }

  /** Layout 2: read the reserved count, then every table entry, ignoring slots with id 0. */
  method ReadSectionsV2(fd: BinFile) returns (r: Result<SectionMap>)
    modifies fd
    ensures fd.data == old(fd.data) && fd.format == old(fd.format) && fd.pSectionsTable == old(fd.pSectionsTable)
    ensures fd.writingSection == old(fd.writingSection) && fd.readingSection == old(fd.readingSection)
    ensures match ParseSections(fd.data, old(fd.pos), Format2)
      case Ok(s) => r == Ok(s.0) && fd.pos == s.1
      case Err(e) => r == Err(e)
  {
    var count := fd.ReadULE32();
    if count.Err? {
      return Err(count.error);
    }
    var nReserved := count.value;
    ghost var data := fd.data;
    ghost var goal := ScanTable(data, fd.pos, nReserved, map[]);
    var sections: SectionMap := map[];
    var i := 0;
    ghost var left := nReserved;
    while i < nReserved
      invariant 0 <= i <= nReserved && left == nReserved - i
      invariant fd.State() == old(fd.State()).(pos := fd.pos)
      invariant ScanTable(data, fd.pos, left, sections) == goal
    {
      var next;
      next, left := NextEntry(fd, data, left, sections);
      if next.Err? {
        return Err(next.error);
      }
      sections := next.value;
      i := i + 1;
    }
    r := Ok(sections);
  }

  /** Create a container of type `tag` with version word `version`, prepared for `nSections` sections. */
  method CreateBinFile(tag: string, version: nat, nSections: nat, pageSize: Positive) returns (fd: BinFile)
    ensures fresh(fd) && fd.pageSize == pageSize
    ensures fd.State() == Created(tag, version, nSections)
  {
    fd := new BinFile([], pageSize);
    var buff := new byte[4];
    for i := 0 to 4
      invariant buff[..i] == TagBytes(tag)[..i]
      invariant fd.State() == Handle([], 0, Format1, None, None, None)
    {
      buff[i] := if i < |tag| then (tag[i] as int) % 256 else 0;
    }
    assert buff[..] == TagBytes(tag);
    fd.Write(buff[..]);
    SpliceAppend([], buff[..]);
    fd.WriteULE32(version);
    SpliceAppend(TagBytes(tag), U32(version));
    assert fd.data == TagBytes(tag) + U32(version) && fd.pos == 8;
    var d := DecodeVersion(version);
    ghost var header := TagBytes(tag) + U32(version);
    if d.format == Format1 {
      fd.WriteULE32(nSections);
      SpliceAppend(header, U32(nSections));
      assert fd.State() == Handle(header + U32(nSections), 12, Format1, None, None, None);
    } else {
      var nReserved := ReservedCount(nSections);
      fd.WriteULE32(nReserved);
      SpliceAppend(header, U32(nReserved));
      fd.pSectionsTable := Some(fd.pos);
      assert fd.State() == Handle(header + U32(nReserved), 12, Format1, Some(12), None, None);
      WriteZeroTable(fd, nReserved);
      assert fd.data == header + U32(nReserved) + Zeros(20 * nReserved);
    }
    fd.format := d.format;
  }

  /** Append `count` all-zero 20-byte table entries at the end of the file. */
  method WriteZeroTable(fd: BinFile, count: nat)
    requires fd.pos == |fd.data|
    modifies fd
    ensures fd.State() == old(fd.State()).(data := old(fd.data) + Zeros(20 * count), pos := old(fd.pos) + 20 * count)
  {
    for i := 0 to count
      invariant fd.State() == old(fd.State()).(data := old(fd.data) + Zeros(20 * i), pos := old(fd.pos) + 20 * i)
    {
      ghost var before := fd.State();
      fd.WriteULE32(0);
      fd.WriteULE64(0);
      fd.WriteULE64(0);
      ZeroEntryAppended(before);
      ZerosAdd(20 * i, 20);
    }
  }

  /** Writing id, size and offset 0 at the end of the file appends 20 zero bytes. */
  lemma ZeroEntryAppended(h: Handle)
    requires h.pos == |h.data|
    ensures Container.Write(Container.Write(Container.Write(h, U32(0)), U64(0)), U64(0))
      == h.(data := h.data + Zeros(20), pos := h.pos + 20)
  {
    UZero();
    SpliceAppend(h.data, Zeros(4));
    SpliceAppend(h.data + Zeros(4), Zeros(8));
    SpliceAppend(h.data + Zeros(4) + Zeros(8), Zeros(8));
    ZerosAdd(4, 8);
    ZerosAdd(12, 8);
  }

  /** Open a write session for section `id`. */
  method StartWriteSection(fd: BinFile, id: nat) returns (r: Outcome)
    requires Writable(fd.State())
    modifies fd
    ensures match StartWrite(old(fd.State()), id)
      case Ok(h) => r == Pass && fd.State() == h
      case Err(e) => r == Fail(e) && fd.State() == old(fd.State())
  {
    if fd.writingSection.Some? {
      return Fail(AlreadyWriting);
    }
    ghost var h0 := fd.State();
    if fd.format == Format1 {
      fd.WriteULE32(id);
      fd.writingSection := Some(fd.pos);
      fd.WriteULE64(0);
      SpliceTwice(h0.data, h0.pos, U32(id), U64(0));
    } else {
      fd.writingSection := Some(fd.pos);
      var currentPos := fd.pos;
      fd.pos := fd.pSectionsTable.value;
      fd.WriteULE32(id);
      fd.WriteULE64(0);
      fd.WriteULE64(currentPos);
      fd.pos := currentPos;
      SpliceTwice(h0.data, h0.table.value, U32(id), U64(0));
      SpliceTwice(h0.data, h0.table.value, U32(id) + U64(0), U64(currentPos));
    }
    r := Pass;
  }

  /** Close the write session, patching the section size in. */
  method EndWriteSection(fd: BinFile) returns (r: Outcome)
    requires Writable(fd.State())
    modifies fd
    ensures match EndWrite(old(fd.State()))
      case Ok(h) => r == Pass && fd.State() == h
      case Err(e) => r == Fail(e) && fd.State() == old(fd.State())
  {
    if fd.writingSection.None? {
      return Fail(NotWriting);
    }
    ghost var expected := EndWrite(fd.State()).value;
    if fd.format == Format1 {
      var sectionSize := fd.pos - fd.writingSection.value - 8;
      var oldPos := fd.pos;
      fd.pos := fd.writingSection.value;
      fd.WriteULE64(sectionSize);
      fd.pos := oldPos;
      fd.writingSection := None;
    } else {
      var sectionSize := fd.pos - fd.writingSection.value;
      var currentPos := fd.pos;
      fd.pos := fd.pSectionsTable.value + 4;
      fd.WriteULE64(sectionSize);
      fd.pos := currentPos;
      fd.pSectionsTable := Some(fd.pSectionsTable.value + 20);
      fd.writingSection := None;
    }
    assert fd.State() == expected;
    r := Pass;
  }

  /** Open a read session on the only occurrence of section `id`, moving the cursor to its payload. */
  method StartReadUniqueSection(fd: BinFile, sections: SectionMap, id: nat) returns (r: Outcome)
    modifies fd
    ensures match StartRead(old(fd.State()), sections, id)
      case Ok(h) => r == Pass && fd.State() == h
      case Err(e) => r == Fail(e) && fd.State() == old(fd.State())
  {
    if fd.readingSection.Some? {
      return Fail(AlreadyReading);
    }
    if id !in sections {
      return Fail(MissingSection);
    }
    if |sections[id]| > 1 {
      return Fail(DuplicatedSection);
    }
    if |sections[id]| == 0 {
      return Fail(Undefined);
    }
    fd.pos := sections[id][0].p;
    fd.readingSection := Some(sections[id][0]);
    r := Pass;
  }

  /** Close the read session; unless `noCheck`, the whole payload must have been consumed. */
  method EndReadSection(fd: BinFile, noCheck: bool) returns (r: Outcome)
    modifies fd
    ensures match EndRead(old(fd.State()), noCheck)
      case Ok(h) => r == Pass && fd.State() == h
      case Err(e) => r == Fail(e) && fd.State() == old(fd.State())
  {
    if fd.readingSection.None? {
      return Fail(NotReading);
    }
    if !noCheck {
      if fd.pos - fd.readingSection.value.p != fd.readingSection.value.size {
        return Fail(SizeMismatch);
      }
    }
    fd.readingSection := None;
    r := Pass;
  }

  /**
   * The bytes [offset, offset + length) of the first occurrence of section `id`; offset defaults to 0, length to the rest.
   * The read is positioned, and like every positioned read of the file abstraction it leaves the cursor after the bytes read.
   */
  method ReadSection(fd: BinFile, sections: SectionMap, id: nat, offset: Option<int>, length: Option<int>)
    returns (r: Result<seq<byte>>)
    modifies fd
    ensures r.Err? ==> fd.State() == old(fd.State())
    ensures Lookup(sections, id) == [] ==> r == Err(Undefined)
    ensures Lookup(sections, id) != [] ==>
      var d := sections[id][0];
      var off := if offset.Some? then offset.value else 0;
      var len := if length.Some? then length.value else d.size - off;
      && (off + len > d.size ==> r == Err(OutOfRange))
      && (off + len <= d.size && len < 0 ==> r == Err(InvalidLength))
      && (off + len <= d.size && 0 <= len && !(0 <= d.p + off && d.p + off + len <= |fd.data|) ==> r == Err(OutOfBounds))
      && (r.Ok? <==> off + len <= d.size && 0 <= len && 0 <= d.p + off && d.p + off + len <= |fd.data|)
      && (r.Ok? ==> r.value == fd.data[d.p + off..d.p + off + len] && fd.State() == old(fd.State()).(pos := d.p + off + len))
  {
    if id !in sections || |sections[id]| == 0 {
      return Err(Undefined);
    }
    var off := if offset.Some? then offset.value else 0;
    var len := if length.Some? then length.value else sections[id][0].size - off;
    if off + len > sections[id][0].size {
      return Err(OutOfRange);
    }
    if len < 0 {
      return Err(InvalidLength);
    }
    var at := sections[id][0].p + off;
    if at < 0 || at + len > |fd.data| {
      return Err(OutOfBounds);
    }
    r := Ok(fd.data[at..at + len]);
    fd.pos := at + len;
  }

  function Min(a: int, b: int): int
  {
    if a < b then a else b
  }

  /** The first `n` bytes from `p` when `n` is positive: the file must hold them. */
  predicate Holds(data: seq<byte>, p: nat, n: nat)
  {
    n == 0 || p + n <= |data|
  }

  function Span(data: seq<byte>, p: nat, n: nat): seq<byte>
    requires Holds(data, p, n)
  {
    if n == 0 then [] else data[p..p + n]
  }

  /** `c` is a whole number of chunks of `m` bytes. */
  predicate WholeChunks(c: nat, m: Positive)
    decreases c
  {
    c == 0 || (c >= m && WholeChunks(c - m, m))
  }

  /** A further whole chunk keeps the count a whole number of chunks. */
  lemma WholeChunksNext(c: nat, m: Positive, next: nat)
    requires WholeChunks(c, m) && next == c + m
    ensures WholeChunks(next, m)
  {
  }

  /** One more chunk written after the chunks already copied extends the copied prefix. */
  lemma ChunkStep(t0: Handle, data: seq<byte>, p0: nat, before: nat, after: nat, chunk: seq<byte>)
    requires before < after && p0 + after <= |data| && chunk == data[p0 + before..p0 + after]
    ensures Holds(data, p0, after)
    ensures Container.Write(Put(t0, Span(data, p0, before)), chunk) == Put(t0, Span(data, p0, after))
  {
    assert Span(data, p0, after) == Span(data, p0, before) + chunk by {
      if before > 0 {
        assert data[p0..p0 + after] == data[p0..p0 + before] + data[p0 + before..p0 + after];
      }
    }
    if before > 0 {
      WriteTwice(t0, Span(data, p0, before), chunk);
    }
  }

  lemma WriteTwice(h: Handle, a: seq<byte>, b: seq<byte>)
    ensures Container.Write(Container.Write(h, a), b) == Container.Write(h, a + b)
  {
    SpliceTwice(h.data, h.pos, a, b);
  }

  /** A handle after writing `b` in chunks at its cursor: untouched when nothing is written. */
  function Put(h: Handle, b: seq<byte>): Handle
  {
    if b == [] then h else Container.Write(h, b)
  }

  /**
   * The chunk loop of copySection: move `n` bytes from the cursor of `source` to the
   * cursor of `dest`, `source.pageSize` bytes at a time, stopping at the first chunk
   * that reaches past the end of `source`.
   */
  method CopyChunks(source: BinFile, dest: BinFile, n: nat) returns (r: Outcome)
    requires source != dest
    modifies source, dest
    ensures Holds(old(source.data), old(source.pos), n) ==>
      && r == Pass
      && source.State() == old(source.State()).(pos := old(source.pos) + n)
      && dest.State() == Put(old(dest.State()), Span(old(source.data), old(source.pos), n))
    ensures !Holds(old(source.data), old(source.pos), n) ==>
      var c := source.pos - old(source.pos);
      && r == Fail(OutOfBounds)
      && source.State() == old(source.State()).(pos := source.pos)
      && 0 <= c < n && WholeChunks(c, source.pageSize)
      && Holds(source.data, old(source.pos), c) && |source.data| < old(source.pos) + c + source.pageSize
      && dest.State() == Put(old(dest.State()), Span(source.data, old(source.pos), c))
  {
    var chunkSize := source.pageSize;
    ghost var s0 := source.State();
    ghost var t0 := dest.State();
    var p := 0;
    // `p` advances by the chunk size, and by the shorter last chunk when that ends the loop
    while p < n
      invariant p <= n && (p < n ==> WholeChunks(p, chunkSize))
      invariant Holds(s0.data, s0.pos, p)
      invariant source.State() == s0.(pos := s0.pos + p)
      invariant dest.State() == Put(t0, Span(s0.data, s0.pos, p))
    {
      ghost var before := p;
      var l := Min(n - p, chunkSize);
      var buff := source.Read(l);
      if buff.Err? {
        assert source.pos - s0.pos == p && s0.pos + p + l > |s0.data| && l <= chunkSize;
        return Fail(buff.error);
      }
      dest.Write(buff.value);
      p := p + l;
      ChunkStep(t0, s0.data, s0.pos, before, p, buff.value);
      if p < n {
        WholeChunksNext(before, chunkSize, p);
      }
    }
    r := Pass;
  }

  /**
   * The outcome of copying `n` bytes from the cursor of read handle `s1` into write handle `t1`
   * in chunks of `chunk` bytes, ending in handles `s` and `t`.
   */
  predicate Copied(s1: Handle, t1: Handle, n: nat, chunk: Positive, r: Outcome, s: Handle, t: Handle)
    requires Writable(t1) && t1.writing.Some?
  {
    if Holds(s1.data, s1.pos, n) then
      // the whole range is copied and both sessions are closed
      && r == Pass
      && s == s1.(pos := s1.pos + n, reading := None)
      && t == EndWrite(Put(t1, Span(s1.data, s1.pos, n))).value
    else
      // the copy stops at the first chunk reaching past the end of the source; both sessions stay open
      var c := s.pos - s1.pos;
      && r == Fail(OutOfBounds)
      && s == s1.(pos := s.pos)
      && 0 <= c < n && WholeChunks(c, chunk)
      && Holds(s1.data, s1.pos, c) && |s1.data| < s1.pos + c + chunk
      && t == Put(t1, Span(s1.data, s1.pos, c))
  }

  /**
   * The part of copySection after both sessions are open: copy `n` bytes in chunks,
   * then close the write session and the read session (size check unless `noCheck`).
   */
  method CopyAndClose(source: BinFile, dest: BinFile, n: nat, noCheck: bool) returns (r: Outcome)
    requires source != dest
    requires Writable(dest.State()) && dest.writingSection.Some?
    requires source.readingSection.Some? && source.readingSection.value.p == source.pos
    requires noCheck || source.readingSection.value.size == n
    modifies source, dest
    ensures Copied(old(source.State()), old(dest.State()), n, source.pageSize, r, source.State(), dest.State())
  {
    r := CopyChunks(source, dest, n);
    if r.Fail? {
      return;
    }
    var closedWrite := EndWriteSection(dest);
    var closedRead := EndReadSection(source, noCheck);
  }

  /**
   * Copy `size` bytes (default: the whole section) of section `id` from `source`
   * into a new section with the same id in `dest`.
   */
  method CopySection(source: BinFile, sections: SectionMap, dest: BinFile, id: nat, size: Option<nat>) returns (r: Outcome)
    requires source != dest
    requires Writable(dest.State())
    modifies source, dest
    ensures size.None? && Lookup(sections, id) == [] ==>
      r == Fail(Undefined) && source.State() == old(source.State()) && dest.State() == old(dest.State())
    ensures size.Some? || Lookup(sections, id) != [] ==>
      var n := if size.Some? then size.value else sections[id][0].size;
      match StartRead(old(source.State()), sections, id)
      case Err(e) => r == Fail(e) && source.State() == old(source.State()) && dest.State() == old(dest.State())
      case Ok(s1) =>
        match StartWrite(old(dest.State()), id)
        case Err(e) => r == Fail(e) && source.State() == s1 && dest.State() == old(dest.State())
        case Ok(t1) => Copied(s1, t1, n, source.pageSize, r, source.State(), dest.State())
  {
    var n: nat;
    if size.Some? {
      n := size.value;
    } else {
      if id !in sections || |sections[id]| == 0 {
        return Fail(Undefined);
      }
      n := sections[id][0].size;
    }
    var started := StartReadUniqueSection(source, sections, id);
    if started.Fail? {
      return started;
    }
    var writeStarted := StartWriteSection(dest, id);
    if writeStarted.Fail? {
      return writeStarted;
    }
    r := CopyAndClose(source, dest, n, n != sections[id][0].size);
  }

  /** Some prefix of at most `n` bytes, present in both files, differs. */
  predicate Differs(d1: seq<byte>, q1: nat, d2: seq<byte>, q2: nat, n: nat)
  {
    exists k | 0 < k <= n && Holds(d1, q1, k) && Holds(d2, q2, k) :: Span(d1, q1, k) != Span(d2, q2, k)
  }

  /** One chunk read after the span read so far extends it. */
  lemma SpanStep(data: seq<byte>, p0: nat, before: nat, after: nat, chunk: seq<byte>)
    requires before <= after && p0 + after <= |data| && chunk == data[p0 + before..p0 + after]
    ensures Holds(data, p0, after)
    ensures Span(data, p0, after) == Span(data, p0, before) + chunk
  {
    if before > 0 {
      assert data[p0..p0 + after] == data[p0..p0 + before] + data[p0 + before..p0 + after];
    }
  }

  /** The inner byte loop of sectionIsEqual: the first index where two equally long buffers differ. */
  method FirstMismatch(a: seq<byte>, b: seq<byte>) returns (r: Option<nat>)
    requires |a| == |b|
    ensures r.None? <==> a == b
    ensures r.Some? ==> r.value < |a| && a[r.value] != b[r.value] && a[..r.value] == b[..r.value]
  {
    for j := 0 to |a|
      invariant a[..j] == b[..j]
    {
      if a[j] != b[j] {
        return Some(j);
      }
      assert a[..j + 1] == a[..j] + [a[j]] && b[..j + 1] == b[..j] + [b[j]];
    }
    assert a[..|a|] == a && b[..|b|] == b;
    return None;
  }

  /** Two different sequences of the same length differ at some index. */
  lemma {:induction false} MismatchIndex(a: seq<byte>, b: seq<byte>) returns (j: nat)
    requires |a| == |b| && a != b
    ensures j < |a| && a[j] != b[j]
    decreases |a|
  {
    if a[0] != b[0] {
      j := 0;
    } else {
      assert a == [a[0]] + a[1..] && b == [b[0]] + b[1..];
      var k := MismatchIndex(a[1..], b[1..]);
      j := k + 1;
    }
  }

  /** A differing chunk at `i` gives a differing prefix of both spans, and differing spans of `n` bytes. */
  lemma MismatchWitness(d1: seq<byte>, q1: nat, d2: seq<byte>, q2: nat, n: nat, i: nat, len: nat)
    requires i + len <= n && q1 + i + len <= |d1| && q2 + i + len <= |d2|
    requires d1[q1 + i..q1 + i + len] != d2[q2 + i..q2 + i + len]
    ensures Differs(d1, q1, d2, q2, n)
  {
    var j := MismatchIndex(d1[q1 + i..q1 + i + len], d2[q2 + i..q2 + i + len]);
    var k := i + j + 1;
    assert Span(d1, q1, k)[i + j] != Span(d2, q2, k)[i + j];
  }

  /** When both spans of `n` bytes exist, a differing prefix makes them differ. */
  lemma DiffersSpans(d1: seq<byte>, q1: nat, d2: seq<byte>, q2: nat, n: nat)
    requires Differs(d1, q1, d2, q2, n) && Holds(d1, q1, n) && Holds(d2, q2, n)
    ensures Span(d1, q1, n) != Span(d2, q2, n)
  {
    var k :| 0 < k <= n && Holds(d1, q1, k) && Holds(d2, q2, k) && Span(d1, q1, k) != Span(d2, q2, k);
    assert Span(d1, q1, k) == Span(d1, q1, n)[..k] && Span(d2, q2, k) == Span(d2, q2, n)[..k];
  }

  /** One round of the chunk loop of sectionIsEqual: read `len` bytes from each file and compare them. */
  method CompareChunk(fd1: BinFile, fd2: BinFile, len: nat) returns (r: Result<bool>)
    requires fd1 != fd2
    modifies fd1, fd2
    ensures fd1.State() == old(fd1.State()).(pos := fd1.pos) && fd2.State() == old(fd2.State()).(pos := fd2.pos)
    ensures r.Ok? <==> old(fd1.pos) + len <= |fd1.data| && old(fd2.pos) + len <= |fd2.data|
    ensures r.Ok? ==>
      && fd1.pos == old(fd1.pos) + len && fd2.pos == old(fd2.pos) + len
      && r.value == (fd1.data[old(fd1.pos)..fd1.pos] == fd2.data[old(fd2.pos)..fd2.pos])
    ensures r.Err? ==> r.error == OutOfBounds
  {
    var buff1 := fd1.Read(len);
    if buff1.Err? {
      return Err(buff1.error);
    }
    var buff2 := fd2.Read(len);
    if buff2.Err? {
      return Err(buff2.error);
    }
    var mismatch := FirstMismatch(buff1.value, buff2.value);
    r := Ok(mismatch.None?);
  }

  /** The chunk loop of sectionIsEqual: compare `n` bytes at the two cursors, `m` bytes at a time. */
  method CompareChunks(fd1: BinFile, fd2: BinFile, n: nat, m: Positive) returns (r: Result<bool>)
    requires fd1 != fd2
    modifies fd1, fd2
    ensures fd1.State() == old(fd1.State()).(pos := fd1.pos) && fd2.State() == old(fd2.State()).(pos := fd2.pos)
    ensures r == Ok(true) ==>
      && Holds(fd1.data, old(fd1.pos), n) && Holds(fd2.data, old(fd2.pos), n)
      && Span(fd1.data, old(fd1.pos), n) == Span(fd2.data, old(fd2.pos), n)
      && fd1.pos == old(fd1.pos) + n && fd2.pos == old(fd2.pos) + n
    ensures r == Ok(false) ==> Differs(fd1.data, old(fd1.pos), fd2.data, old(fd2.pos), n)
    ensures r.Err? ==> r.error == OutOfBounds && !(Holds(fd1.data, old(fd1.pos), n) && Holds(fd2.data, old(fd2.pos), n))
  {
    ghost var h1, h2 := fd1.State(), fd2.State();
    ghost var q1, q2 := fd1.pos, fd2.pos;
    var i := 0;
    // `i` advances by the chunk size, and by the shorter last chunk when that ends the loop
    while i < n
      invariant i <= n
      invariant Holds(h1.data, q1, i) && Holds(h2.data, q2, i)
      invariant Span(h1.data, q1, i) == Span(h2.data, q2, i)
      invariant fd1.State() == h1.(pos := q1 + i) && fd2.State() == h2.(pos := q2 + i)
    {
      ghost var before := i;
      var len := Min(n - i, m);
      var same := CompareChunk(fd1, fd2, len);
      if same.Err? {
        assert !(Holds(h1.data, q1, n) && Holds(h2.data, q2, n));
        return same;
      }
      ghost var c1, c2 := h1.data[q1 + i..fd1.pos], h2.data[q2 + i..fd2.pos];
      if !same.value {
        MismatchWitness(h1.data, q1, h2.data, q2, n, i, len);
        return same;
      }
      i := i + len;
      SpanStep(h1.data, q1, before, i, c1);
      SpanStep(h2.data, q2, before, i, c2);
    }
    r := Ok(true);
  }

  /** Whether section `id` has the same declared size and the same bytes in two containers. */
  method SectionIsEqual(fd1: BinFile, sections1: SectionMap, fd2: BinFile, sections2: SectionMap, id: nat)
    returns (r: Result<bool>)
    requires fd1 != fd2
    modifies fd1, fd2
    ensures match StartRead(old(fd1.State()), sections1, id)
      case Err(e) => r == Err(e) && fd1.State() == old(fd1.State()) && fd2.State() == old(fd2.State())
      case Ok(a1) =>
        match StartRead(old(fd2.State()), sections2, id)
        case Err(e) => r == Err(e) && fd1.State() == a1 && fd2.State() == old(fd2.State())
        case Ok(a2) =>
          var d1, d2 := sections1[id][0], sections2[id][0];
          && (d1.size != d2.size ==> r == Ok(false) && fd1.State() == a1 && fd2.State() == a2)
          && (d1.size == d2.size && Holds(a1.data, d1.p, d1.size) && Holds(a2.data, d2.p, d1.size) ==>
                r == Ok(Span(a1.data, d1.p, d1.size) == Span(a2.data, d2.p, d1.size)))
          && (r == Ok(true) ==>
                && d1.size == d2.size
                && Holds(a1.data, d1.p, d1.size) && Holds(a2.data, d2.p, d1.size)
                && Span(a1.data, d1.p, d1.size) == Span(a2.data, d2.p, d1.size)
                && fd1.State() == a1.(pos := d1.p + d1.size, reading := None)
                && fd2.State() == a2.(pos := d2.p + d2.size, reading := None))
          // a false answer or a failed read leaves both read sessions open
          && (r != Ok(true) ==> fd1.State() == a1.(pos := fd1.pos) && fd2.State() == a2.(pos := fd2.pos))
          && (r.Err? ==> r.error == OutOfBounds)
  {
    var maxBuffSize: Positive := fd1.pageSize * 16;
    var started1 := StartReadUniqueSection(fd1, sections1, id);
    if started1.Fail? {
      return Err(started1.error);
    }
    var started2 := StartReadUniqueSection(fd2, sections2, id);
    if started2.Fail? {
      return Err(started2.error);
    }
    if sections1[id][0].size != sections2[id][0].size {
      return Ok(false);
    }
    var totalBytes := sections1[id][0].size;
    ghost var p1, p2 := fd1.pos, fd2.pos;
    assert p1 == sections1[id][0].p && p2 == sections2[id][0].p;
    r := CompareChunks(fd1, fd2, totalBytes, maxBuffSize);
    if r.Err? {
      return;
    }
    if !r.value {
      assert r == Ok(false);
      if Holds(fd1.data, p1, totalBytes) && Holds(fd2.data, p2, totalBytes) {
        DiffersSpans(fd1.data, p1, fd2.data, p2, totalBytes);
      }
      return;
    }
    var closed1 := EndReadSection(fd1, false);
    var closed2 := EndReadSection(fd2, false);
  }
}
