/**
 * The container as values: a handle over the file bytes, the section map,
 * the two table scans, and the session transitions. These functions are the
 * specifications the imperative operations of module BinFileUtils are proved against.
 */
module Container {
  import opened Errors
  import opened Bytes
  import opened Header

  /** Where one occurrence of a section lives: absolute payload start and payload length. */
  datatype Descriptor = Descriptor(p: nat, size: nat)

  /** Section id to its descriptors, in the order they were found in the file. */
  type SectionMap = map<nat, seq<Descriptor>>

  /**
   * The state of an open file handle: the bytes, the cursor, the layout,
   * the Layout 2 table cursor (absent where the source leaves it undefined),
   * the size-field position of an open write session and the descriptor of an
   * open read session.
   */
  datatype Handle = Handle(
    data: seq<byte>,
    pos: nat,
    format: Format,
    table: Option<nat>,
    writing: Option<nat>,
    reading: Option<Descriptor>)

  /** A Layout 2 handle can only write sections when it has a table cursor. */
  predicate Writable(h: Handle)
  {
    h.format == Format2 ==> h.table.Some?
  }

  /** A sequential write at the cursor. */
  function Write(h: Handle, b: seq<byte>): Handle
  {
    h.(data := Splice(h.data, h.pos, b), pos := h.pos + |b|)
  }

  /** A sequential read of `n` bytes at the cursor. */
  function Read(h: Handle, n: nat): Result<(seq<byte>, Handle)>
  {
    if h.pos + n <= |h.data| then Ok((h.data[h.pos..h.pos + n], h.(pos := h.pos + n)))
    else Err(OutOfBounds)
  }

  // ----- the section map -----

  function Lookup(m: SectionMap, id: nat): seq<Descriptor>
  {
    if id in m then m[id] else []
  }

  /** Append a descriptor to the list of `id`, creating the list when absent. */
  function AddDescriptor(m: SectionMap, id: nat, d: Descriptor): (r: SectionMap)
    ensures r.Keys == m.Keys + {id}
    ensures Lookup(r, id) == Lookup(m, id) + [d]
    ensures forall other | other != id :: Lookup(r, other) == Lookup(m, other)
  {
    m[id := Lookup(m, id) + [d]]
  }

  /** One table entry or sequential record header, as found on disk. */
  datatype Entry = Entry(id: nat, size: nat, offset: nat)

  function DescriptorOf(e: Entry): Descriptor
  {
    Descriptor(e.offset, e.size)
  }

  predicate Kept(e: Entry, skipZero: bool)
  {
    !(skipZero && e.id == 0)
  }

  /** Fold the entries into the map in order; Layout 2 skips entries with id 0. */
  function Collect(m: SectionMap, es: seq<Entry>, skipZero: bool): SectionMap
    decreases |es|
  {
    if es == [] then m
    else Collect(if Kept(es[0], skipZero) then AddDescriptor(m, es[0].id, DescriptorOf(es[0])) else m, es[1..], skipZero)
  }

  /** The descriptors of the kept entries carrying `id`, in order. */
  function Matching(es: seq<Entry>, id: nat, skipZero: bool): seq<Descriptor>
    decreases |es|
  {
    if es == [] then []
    else (if Kept(es[0], skipZero) && es[0].id == id then [DescriptorOf(es[0])] else []) + Matching(es[1..], id, skipZero)
  }

  lemma AppendAssoc<T>(a: seq<T>, b: seq<T>, c: seq<T>)
    ensures a + b + c == a + (b + c)
  {
  }

  /** The map built by Collect lists, per id, the old descriptors followed by the matching entries in on-disk order. */
  lemma {:induction false} CollectLookup(m: SectionMap, es: seq<Entry>, skipZero: bool, id: nat)
    ensures Lookup(Collect(m, es, skipZero), id) == Lookup(m, id) + Matching(es, id, skipZero)
    ensures id in Collect(m, es, skipZero) <==> id in m || Matching(es, id, skipZero) != []
    decreases |es|
  {
    if es != [] {
      var m' := if Kept(es[0], skipZero) then AddDescriptor(m, es[0].id, DescriptorOf(es[0])) else m;
      var head := if Kept(es[0], skipZero) && es[0].id == id then [DescriptorOf(es[0])] else [];
      assert Collect(m, es, skipZero) == Collect(m', es[1..], skipZero);
      assert Matching(es, id, skipZero) == head + Matching(es[1..], id, skipZero);
      assert Lookup(m', id) == Lookup(m, id) + head;
      assert id in m' <==> id in m || head != [];
      CollectLookup(m', es[1..], skipZero, id);
      AppendAssoc(Lookup(m, id), head, Matching(es[1..], id, skipZero));
    }
  }

  lemma {:induction false} CollectAppend(m: SectionMap, a: seq<Entry>, b: seq<Entry>, skipZero: bool)
    ensures Collect(m, a + b, skipZero) == Collect(Collect(m, a, skipZero), b, skipZero)
    decreases |a|
  {
    if a == [] {
      assert a + b == b;
    } else {
      assert (a + b)[0] == a[0] && (a + b)[1..] == a[1..] + b;
      CollectAppend(if Kept(a[0], skipZero) then AddDescriptor(m, a[0].id, DescriptorOf(a[0])) else m, a[1..], b, skipZero);
    }
  }

  lemma {:induction false} MatchingNone(es: seq<Entry>, id: nat, skipZero: bool)
    requires forall j | 0 <= j < |es| :: es[j].id != id
    ensures Matching(es, id, skipZero) == []
    decreases |es|
  {
    if es != [] {
      MatchingNone(es[1..], id, skipZero);
    }
  }

  /** An id carried by exactly one kept entry matches that entry alone. */
  lemma {:induction false} MatchingUnique(es: seq<Entry>, id: nat, k: nat, skipZero: bool)
    requires k < |es| && es[k].id == id && Kept(es[k], skipZero)
    requires forall j | 0 <= j < |es| && j != k :: es[j].id != id
    ensures Matching(es, id, skipZero) == [DescriptorOf(es[k])]
    decreases |es|
  {
    if k == 0 {
      MatchingNone(es[1..], id, skipZero);
    } else {
      MatchingUnique(es[1..], id, k - 1, skipZero);
    }
  }

  /** Layout 2 reading never records id 0, whatever the table holds. */
  lemma {:induction false} ZeroSkipped(es: seq<Entry>)
    ensures Matching(es, 0, true) == []
    decreases |es|
  {
    if es != [] {
      ZeroSkipped(es[1..]);
    }
  }

  // ----- parsing the section table -----

  /** Layout 1: read `count` records `id:u32, len:u64`, skipping each payload. */
  function ScanSequential(data: seq<byte>, pos: nat, count: nat, acc: SectionMap): (r: Result<(SectionMap, nat)>)
    ensures r.Err? ==> r.error == OutOfBounds
    decreases count
  {
    if count == 0 then Ok((acc, pos))
    else if pos + 12 > |data| then Err(OutOfBounds)
    else
      var id := FromLE(data[pos..pos + 4]);
      var len := FromLE(data[pos + 4..pos + 12]);
      ScanSequential(data, pos + 12 + len, count - 1, AddDescriptor(acc, id, Descriptor(pos + 12, len)))
  }

  /** Layout 2: read `count` table entries `id:u32, size:u64, offset:u64`, ignoring id 0. */
  function ScanTable(data: seq<byte>, pos: nat, count: nat, acc: SectionMap): (r: Result<(SectionMap, nat)>)
    ensures r.Err? ==> r.error == OutOfBounds
    ensures r.Ok? ==> r.value.1 == pos + 20 * count
    decreases count
  {
    if count == 0 then Ok((acc, pos))
    else if pos + 20 > |data| then Err(OutOfBounds)
    else
      var id := FromLE(data[pos..pos + 4]);
      var size := FromLE(data[pos + 4..pos + 12]);
      var offset := FromLE(data[pos + 12..pos + 20]);
      ScanTable(data, pos + 20, count - 1, if id != 0 then AddDescriptor(acc, id, Descriptor(offset, size)) else acc)
  }

  /** A record that does not fit ends a Layout 1 scan out of bounds. */
  lemma SequentialShort(data: seq<byte>, pos: nat, count: nat, acc: SectionMap)
    requires count > 0 && pos + 12 > |data|
    ensures ScanSequential(data, pos, count, acc) == Err(OutOfBounds)
  {
  }

  /** A record that fits adds its descriptor, and the scan goes on after its payload. */
  lemma SequentialNext(data: seq<byte>, pos: nat, count: nat, acc: SectionMap, next: nat, nextCount: nat, nextAcc: SectionMap)
    requires count > 0 && pos + 12 <= |data|
    requires next == pos + 12 + FromLE(data[pos + 4..pos + 12]) && nextCount == count - 1
    requires nextAcc == AddDescriptor(acc, FromLE(data[pos..pos + 4]), Descriptor(pos + 12, FromLE(data[pos + 4..pos + 12])))
    ensures ScanSequential(data, next, nextCount, nextAcc) == ScanSequential(data, pos, count, acc)
  {
  }

  /** A successful Layout 1 scan ends past the 12-byte headers of all `count` records. */
  lemma {:induction false} SequentialCursor(data: seq<byte>, pos: nat, count: nat, acc: SectionMap)
    ensures var r := ScanSequential(data, pos, count, acc); r.Ok? ==> r.value.1 >= pos + 12 * count
    decreases count
  {
    if count > 0 && pos + 12 <= |data| {
      var len := FromLE(data[pos + 4..pos + 12]);
      var next, nextAcc := pos + 12 + len, AddDescriptor(acc, FromLE(data[pos..pos + 4]), Descriptor(pos + 12, len));
      SequentialNext(data, pos, count, acc, next, count - 1, nextAcc);
      SequentialCursor(data, next, count - 1, nextAcc);
    }
  }

  /** An entry that does not fit ends a Layout 2 scan out of bounds. */
  lemma TableShort(data: seq<byte>, pos: nat, count: nat, acc: SectionMap)
    requires count > 0 && pos + 20 > |data|
    ensures ScanTable(data, pos, count, acc) == Err(OutOfBounds)
  {
  }

  /** An entry that fits adds its descriptor unless its id is 0, and the scan goes on with the next entry. */
  lemma TableNext(data: seq<byte>, pos: nat, count: nat, acc: SectionMap, next: nat, nextCount: nat, nextAcc: SectionMap)
    requires count > 0 && pos + 20 <= |data| && next == pos + 20 && nextCount == count - 1
    requires
      var id, size, offset := FromLE(data[pos..pos + 4]), FromLE(data[pos + 4..pos + 12]), FromLE(data[pos + 12..pos + 20]);
      nextAcc == if id != 0 then AddDescriptor(acc, id, Descriptor(offset, size)) else acc
    ensures ScanTable(data, next, nextCount, nextAcc) == ScanTable(data, pos, count, acc)
  {
  }

  /** What readBinFile yields: the layout, the cursor after the table, and the section map. */
  datatype Opened = Opened(format: Format, pos: nat, sections: SectionMap)

  predicate TagOk(data: seq<byte>, tag: string)
  {
    4 <= |data| && Latin1(data[..4]) == tag
  }

  function VersionWord(data: seq<byte>): Decoded
    requires 8 <= |data|
  {
    DecodeVersion(FromLE(data[4..8]))
  }

  function ParseFile(data: seq<byte>, tag: string, maxVersion: int): (r: Result<Opened>)
    ensures r == Err(InvalidFormat) <==> 4 <= |data| && !TagOk(data, tag)
    ensures r == Err(UnsupportedVersion) <==>
      TagOk(data, tag) && 8 <= |data| && VersionWord(data).version.Some? && VersionWord(data).version.value > maxVersion
    ensures r == Err(UnsupportedVersion) ==> FlagSet(FromLE(data[4..8]))
    ensures r.Ok? ==> TagOk(data, tag) && 12 <= |data| && r.value.format == VersionWord(data).format
  {
    if |data| < 4 then Err(OutOfBounds)
    else if Latin1(data[..4]) != tag then Err(InvalidFormat)
    else if |data| < 8 then Err(OutOfBounds)
    else
      var d := DecodeVersion(FromLE(data[4..8]));
      if VersionTooNew(d, maxVersion) then Err(UnsupportedVersion)
      else
        var scan :- ParseSections(data, 8, d.format);
        Ok(Opened(d.format, scan.1, scan.0))
  }

  /** Read the section count (Layout 1) or reserved count (Layout 2) at `at`, then scan that many records or entries. */
  function ParseSections(data: seq<byte>, at: nat, format: Format): (r: Result<(SectionMap, nat)>)
    ensures r.Err? ==> r.error == OutOfBounds
    ensures r.Ok? ==> at + 4 <= |data|
  {
    if at + 4 > |data| then Err(OutOfBounds)
    else
      var n := FromLE(data[at..at + 4]);
      if format == Format1 then ScanSequential(data, at + 4, n, map[]) else ScanTable(data, at + 4, n, map[])
  }

  /** The handle readBinFile returns for a parsed file: no table cursor, no sessions. */
  function Reopened(data: seq<byte>, o: Opened): Handle
  {
    Handle(data, o.pos, o.format, None, None, None)
  }

  // ----- creating a file -----

  /** The handle createBinFile returns: header, then the section count (Layout 1) or a zeroed reserved table (Layout 2). */
  function Created(tag: string, version: nat, n: nat): (h: Handle)
    ensures h.format == DecodeVersion(version).format
    ensures |h.data| >= 12 && h.data[..4] == TagBytes(tag) && h.data[4..8] == U32(version)
    ensures h.format == Format1 ==> |h.data| == 12 && h.data[8..12] == U32(n) && h.table == None
    ensures h.format == Format2 ==>
      && h.data[8..12] == U32(ReservedCount(n))
      && |h.data| == 12 + 20 * ReservedCount(n)
      && (forall i | 12 <= i < |h.data| :: h.data[i] == 0)
      && h.table == Some(12)
    ensures h.pos == |h.data| && h.writing == None && h.reading == None
  {
    var header := TagBytes(tag) + U32(version);
    match DecodeVersion(version).format
    case Format1 =>
      Handle(header + U32(n), 12, Format1, None, None, None)
    case Format2 =>
      var r := ReservedCount(n);
      var data := header + U32(r) + Zeros(20 * r);
      Handle(data, |data|, Format2, Some(12), None, None)
  }

  // ----- write sessions -----

  /** The 20-byte table entry `id:u32, size:u64, offset:u64`. */
  function EncodeEntry(e: Entry): (b: seq<byte>)
    ensures |b| == 20
  {
    U32(e.id) + U64(e.size) + U64(e.offset)
  }

  function StartWrite(h: Handle, id: nat): (r: Result<Handle>)
    requires Writable(h)
    ensures r.Err? <==> h.writing.Some?
    ensures r.Err? ==> r.error == AlreadyWriting
    ensures r.Ok? ==> Writable(r.value) && r.value.writing.Some?
    ensures r.Ok? ==> r.value.format == h.format && r.value.table == h.table && r.value.reading == h.reading
    // Layout 1: id and a zero size placeholder are appended at the cursor; the session remembers the placeholder.
    ensures r.Ok? && h.format == Format1 ==>
      && r.value.data == Splice(h.data, h.pos, U32(id) + U64(0))
      && r.value.writing == Some(h.pos + 4)
      && r.value.pos == h.pos + 12
    // Layout 2: the next table slot gets (id, 0, payload start); the cursor stays at the payload start.
    ensures r.Ok? && h.format == Format2 ==>
      && r.value.data == Splice(h.data, h.table.value, EncodeEntry(Entry(id, 0, h.pos)))
      && r.value.writing == Some(h.pos)
      && r.value.pos == h.pos
  {
    if h.writing.Some? then Err(AlreadyWriting)
    else match h.format
      case Format1 =>
        var h1 := Write(h, U32(id));
        SpliceTwice(h.data, h.pos, U32(id), U64(0));
        Ok(Write(h1.(writing := Some(h1.pos)), U64(0)))
      case Format2 =>
        Ok(h.(data := Splice(h.data, h.table.value, EncodeEntry(Entry(id, 0, h.pos))), writing := Some(h.pos)))
  }

  /** Where endWriteSection patches the size in: the placeholder (Layout 1) or the slot's size field (Layout 2). */
  function SizeField(h: Handle): nat
    requires Writable(h) && h.writing.Some?
  {
    if h.format == Format1 then h.writing.value else h.table.value + 4
  }

  /** The size endWriteSection records: bytes since the placeholder's end (Layout 1) or since the payload start (Layout 2). */
  function WrittenSize(h: Handle): int
    requires h.writing.Some?
  {
    if h.format == Format1 then h.pos - h.writing.value - 8 else h.pos - h.writing.value
  }

  function EndWrite(h: Handle): (r: Result<Handle>)
    requires Writable(h)
    ensures r.Err? <==> h.writing.None?
    ensures r.Err? ==> r.error == NotWriting
    ensures r.Ok? ==> Writable(r.value) && r.value.writing.None?
    ensures r.Ok? ==> r.value.pos == h.pos && r.value.format == h.format && r.value.reading == h.reading
    ensures r.Ok? ==> r.value.data == Splice(h.data, SizeField(h), U64(WrittenSize(h)))
    ensures r.Ok? ==> r.value.table == if h.format == Format1 then h.table else Some(h.table.value + 20)
  {
    if h.writing.None? then Err(NotWriting)
    else
      var data := Splice(h.data, SizeField(h), U64(WrittenSize(h)));
      match h.format
      case Format1 => Ok(h.(data := data, writing := None))
      case Format2 => Ok(h.(data := data, table := Some(h.table.value + 20), writing := None))
  }

  // ----- read sessions -----

  function StartRead(h: Handle, sections: SectionMap, id: nat): (r: Result<Handle>)
    ensures h.reading.Some? ==> r == Err(AlreadyReading)
    ensures h.reading.None? && id !in sections ==> r == Err(MissingSection)
    ensures h.reading.None? && id in sections && |sections[id]| > 1 ==> r == Err(DuplicatedSection)
    ensures r.Ok? <==> h.reading.None? && id in sections && |sections[id]| == 1
    ensures r.Ok? ==> r.value == h.(pos := sections[id][0].p, reading := Some(sections[id][0]))
  {
    if h.reading.Some? then Err(AlreadyReading)
    else if id !in sections then Err(MissingSection)
    else if |sections[id]| > 1 then Err(DuplicatedSection)
    else if |sections[id]| == 0 then Err(Undefined)
    else Ok(h.(pos := sections[id][0].p, reading := Some(sections[id][0])))
  }

  /** Whether the cursor sits exactly at the end of the section being read. */
  predicate ConsumedAll(h: Handle)
    requires h.reading.Some?
  {
    h.pos - h.reading.value.p == h.reading.value.size
  }

  function EndRead(h: Handle, noCheck: bool): (r: Result<Handle>)
    ensures h.reading.None? ==> r == Err(NotReading)
    ensures h.reading.Some? && !noCheck && !ConsumedAll(h) ==> r == Err(SizeMismatch)
    ensures r.Ok? <==> h.reading.Some? && (noCheck || ConsumedAll(h))
    ensures r.Ok? ==> r.value == h.(reading := None)
  {
    if h.reading.None? then Err(NotReading)
    else if !noCheck && !ConsumedAll(h) then Err(SizeMismatch)
    else Ok(h.(reading := None))
  }
}
