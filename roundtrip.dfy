/**
 * Writing sections into a freshly created container and reading the file
 * back: the exact bytes the writer produces in each layout, the section map
 * readBinFile recovers from them, and where each payload is found again.
 */
module RoundTrip {
  import opened Errors
  import opened Bytes
  import opened Header
  import opened Container

  /** A section a writer emits: startWriteSection(id), the payload, endWriteSection. */
  datatype Section = Section(id: nat, payload: seq<byte>)

  /** One complete write session on a handle. */
  function WriteSection(h: Handle, s: Section): (r: Result<Handle>)
    requires Writable(h)
    ensures r.Ok? ==> Writable(r.value)
  {
    var started :- StartWrite(h, s.id);
    EndWrite(Write(started, s.payload))
  }

  /** The sections written one after another, stopping at the first failure. */
  function WriteAll(h: Handle, ss: seq<Section>): (r: Result<Handle>)
    requires Writable(h)
    ensures r.Ok? ==> Writable(r.value)
    decreases |ss|
  {
    if ss == [] then Ok(h)
    else
      var h' :- WriteAll(h, ss[..|ss| - 1]);
      WriteSection(h', ss[|ss| - 1])
  }

  /** A 4-character tag whose characters all fit in a byte: the tags readBinFile can recognise. */
  predicate ByteTag(tag: string)
  {
    |tag| == 4 && forall i | 0 <= i < 4 :: tag[i] as int < 256
  }

  /** The header createBinFile writes: tag and version word. */
  function HeaderBytes(tag: string, version: nat): (b: seq<byte>)
    ensures |b| == 8
  {
    TagBytes(tag) + U32(version)
  }

  // ----- Layout 2 -----

  /** The payloads back to back, in writing order. */
  function Payloads(ss: seq<Section>): (b: seq<byte>)
    decreases |ss|
  {
    if ss == [] then [] else Payloads(ss[..|ss| - 1]) + ss[|ss| - 1].payload
  }

  /** The table entries of `ss` when the first payload starts at `base`. */
  function Directory(ss: seq<Section>, base: nat): (es: seq<Entry>)
    ensures |es| == |ss|
    decreases |ss|
  {
    if ss == [] then []
    else
      var s := ss[|ss| - 1];
      Directory(ss[..|ss| - 1], base) + [Entry(s.id, |s.payload|, base + |Payloads(ss[..|ss| - 1])|)]
  }

  function EncodeEntries(es: seq<Entry>): (b: seq<byte>)
    ensures |b| == 20 * |es|
  {
    if es == [] then [] else EncodeEntry(es[0]) + EncodeEntries(es[1..])
  }

  /** The header, the reserved count and the used slots of the table. */
  function Head2(tag: string, version: nat, r: nat, ss: seq<Section>): seq<byte>
  {
    HeaderBytes(tag, version) + U32(r) + EncodeEntries(Directory(ss, 12 + 20 * r))
  }

  /** The Layout 2 file after `ss` were written into a container with `r` reserved slots. */
  function Image2(tag: string, version: nat, r: nat, ss: seq<Section>): seq<byte>
    requires |ss| <= r
  {
    Head2(tag, version, r, ss) + Zeros(20 * (r - |ss|)) + Payloads(ss)
  }

  /** The handle after `ss` were written: cursor at the end, table cursor past the used slots, no session. */
  function Written2(tag: string, version: nat, r: nat, ss: seq<Section>): Handle
    requires |ss| <= r
  {
    Handle(Image2(tag, version, r, ss), 12 + 20 * r + |Payloads(ss)|, Format2, Some(12 + 20 * |ss|), None, None)
  }

  lemma {:induction false} EncodeEntriesSnoc(es: seq<Entry>, e: Entry)
    ensures EncodeEntries(es + [e]) == EncodeEntries(es) + EncodeEntry(e)
    decreases |es|
  {
    if es == [] {
      assert es + [e] == [e];
    } else {
      assert (es + [e])[1..] == es[1..] + [e];
      EncodeEntriesSnoc(es[1..], e);
    }
  }

  lemma {:induction false} Regroup4(a: seq<byte>, b: seq<byte>, c: seq<byte>, d: seq<byte>)
    ensures a + (b + c) + d == a + b + (c + d)
  {
  }

  lemma {:induction false} RegroupEntry(a: seq<byte>, x: seq<byte>, y: seq<byte>, z: seq<byte>, rest: seq<byte>, p: seq<byte>)
    ensures a + (x + y + z) + rest + p == (a + x) + y + (z + rest + p)
  {
  }

  lemma {:induction false} RegroupImage(a: seq<byte>, x: seq<byte>, y: seq<byte>, z: seq<byte>, zs: seq<byte>, q: seq<byte>, p: seq<byte>)
    ensures (a + x) + y + (z + (zs + q) + p) == a + (x + y + z) + zs + (q + p)
  {
  }

  lemma {:induction false} Head2Snoc(tag: string, version: nat, r: nat, ss: seq<Section>)
    requires 0 < |ss|
    ensures Head2(tag, version, r, ss) == Head2(tag, version, r, ss[..|ss| - 1]) +
      EncodeEntry(Entry(ss[|ss| - 1].id, |ss[|ss| - 1].payload|, 12 + 20 * r + |Payloads(ss[..|ss| - 1])|))
  {
    var init := ss[..|ss| - 1];
    var base := 12 + 20 * r;
    var e := Entry(ss[|ss| - 1].id, |ss[|ss| - 1].payload|, base + |Payloads(init)|);
    assert Directory(ss, base) == Directory(init, base) + [e];
    EncodeEntriesSnoc(Directory(init, base), e);
    AppendAssoc(HeaderBytes(tag, version) + U32(r), EncodeEntries(Directory(init, base)), EncodeEntry(e));
  }

  /**
   * The handle between startWriteSection and the payload write of the last
   * section of `ss`: its slot holds the id, a zero size and the payload start.
   */
  function Started2(tag: string, version: nat, r: nat, ss: seq<Section>): Handle
    requires 0 < |ss| <= r
  {
    var init := ss[..|ss| - 1];
    var p := 12 + 20 * r + |Payloads(init)|;
    var data := Head2(tag, version, r, init) + EncodeEntry(Entry(ss[|ss| - 1].id, 0, p)) + (Zeros(20 * (r - |ss|)) + Payloads(init));
    Handle(data, p, Format2, Some(12 + 20 * |init|), Some(p), None)
  }

  lemma {:induction false} Layout2Start(tag: string, version: nat, r: nat, ss: seq<Section>)
    requires 0 < |ss| <= r
    ensures StartWrite(Written2(tag, version, r, ss[..|ss| - 1]), ss[|ss| - 1].id) == Ok(Started2(tag, version, r, ss))
  {
    var init := ss[..|ss| - 1];
    var h := Written2(tag, version, r, init);
    var a := Head2(tag, version, r, init);
    var zs := Zeros(20 * (r - |ss|));
    ZerosAdd(20, 20 * (r - |ss|));
    Regroup4(a, Zeros(20), zs, Payloads(init));
    UZero();
    SpliceMiddle(a, Zeros(20), zs + Payloads(init), EncodeEntry(Entry(ss[|ss| - 1].id, 0, h.pos)));
  }

  lemma {:induction false} Layout2Finish(tag: string, version: nat, r: nat, ss: seq<Section>)
    requires 0 < |ss| <= r
    ensures EndWrite(Write(Started2(tag, version, r, ss), ss[|ss| - 1].payload)) == Ok(Written2(tag, version, r, ss))
  {
    var init := ss[..|ss| - 1];
    var s := ss[|ss| - 1];
    var h1 := Started2(tag, version, r, ss);
    var a := Head2(tag, version, r, init);
    var zs := Zeros(20 * (r - |ss|));
    var payloads := Payloads(init);
    var rest := zs + payloads;
    var h2 := Write(h1, s.payload);
    assert h2.data == (a + U32(s.id)) + U64(0) + (U64(h1.pos) + rest + s.payload) by {
      SpliceAppend(h1.data, s.payload);
      RegroupEntry(a, U32(s.id), U64(0), U64(h1.pos), rest, s.payload);
    }
    var h3 := EndWrite(h2).value;
    var e := Entry(s.id, |s.payload|, h1.pos);
    assert h3.data == a + EncodeEntry(e) + zs + (payloads + s.payload) by {
      SpliceMiddle(a + U32(s.id), U64(0), U64(h1.pos) + rest + s.payload, U64(|s.payload|));
      RegroupImage(a, U32(s.id), U64(|s.payload|), U64(h1.pos), zs, payloads, s.payload);
    }
    assert h3.data == Image2(tag, version, r, ss) by {
      Head2Snoc(tag, version, r, ss);
      assert Payloads(ss) == payloads + s.payload;
    }
  }

  /** One write session into a free slot: the slot gets the entry, the payload is appended. */
  lemma {:induction false} Layout2Step(tag: string, version: nat, r: nat, ss: seq<Section>)
    requires 0 < |ss| <= r
    ensures WriteSection(Written2(tag, version, r, ss[..|ss| - 1]), ss[|ss| - 1]) == Ok(Written2(tag, version, r, ss))
  {
    Layout2Start(tag, version, r, ss);
    Layout2Finish(tag, version, r, ss);
  }

  /** Writing `ss` into a new Layout 2 container with enough reserved slots yields exactly Image2. */
  lemma {:induction false} WriteAllLayout2(tag: string, version: nat, n: nat, ss: seq<Section>)
    requires FlagSet(version) && |ss| <= ReservedCount(n)
    ensures WriteAll(Created(tag, version, n), ss) == Ok(Written2(tag, version, ReservedCount(n), ss))
    decreases |ss|
  {
    if ss == [] {
      assert Image2(tag, version, ReservedCount(n), ss) == Created(tag, version, n).data;
    } else {
      WriteAllLayout2(tag, version, n, ss[..|ss| - 1]);
      Layout2Step(tag, version, ReservedCount(n), ss);
    }
  }

  // ----- reading a Layout 2 file back -----

  /** An entry whose fields fit their on-disk widths (u32 id, u64 size, u64 offset). */
  predicate Encodable(e: Entry)
  {
    e.id < TWO32 && e.size < TWO64 && e.offset < TWO64
  }

  lemma {:induction false} EntryFields(data: seq<byte>, pos: nat, e: Entry)
    requires pos + 20 <= |data| && data[pos..pos + 20] == EncodeEntry(e) && Encodable(e)
    ensures FromLE(data[pos..pos + 4]) == e.id
    ensures FromLE(data[pos + 4..pos + 12]) == e.size
    ensures FromLE(data[pos + 12..pos + 20]) == e.offset
  {
    var w := data[pos..pos + 20];
    var w12 := U32(e.id) + U64(e.size);
    assert w == w12 + U64(e.offset);
    assert data[pos..pos + 12] == w[..12] == w12;
    assert data[pos..pos + 4] == w12[..4] == U32(e.id);
    assert data[pos + 4..pos + 12] == w12[4..] == U64(e.size);
    assert data[pos + 12..pos + 20] == w[12..20] == U64(e.offset);
    U32RoundTrip(e.id);
    U64RoundTrip(e.size);
    U64RoundTrip(e.offset);
  }

  /** Scanning encoded entries recovers them: the map grows by exactly the kept entries. */
  lemma {:induction false} ScanEncoded(data: seq<byte>, pos: nat, es: seq<Entry>, count: nat, end: nat, left: nat, acc: SectionMap)
    requires end == pos + 20 * |es| && end <= |data| && count == |es| + left
    requires data[pos..end] == EncodeEntries(es)
    requires forall i | 0 <= i < |es| :: Encodable(es[i])
    ensures ScanTable(data, pos, count, acc) == ScanTable(data, end, left, Collect(acc, es, true))
    decreases |es|
  {
    if es != [] {
      var e := es[0];
      var next := pos + 20;
      assert data[next..end] == EncodeEntries(es[1..]) && data[pos..next] == EncodeEntry(e) by {
        var w := data[pos..end];
        assert data[next..end] == w[20..];
        assert data[pos..next] == w[..20];
      }
      EntryFields(data, pos, e);
      var acc' := if Kept(e, true) then AddDescriptor(acc, e.id, DescriptorOf(e)) else acc;
      assert Collect(acc, es, true) == Collect(acc', es[1..], true);
      ScanEncoded(data, next, es[1..], count - 1, end, left, acc');
      TableNext(data, pos, count, acc, next, count - 1, acc');
    }
  }

  /** The unused slots: entries of zeros. */
  function Pad(k: nat): (es: seq<Entry>)
    ensures |es| == k
  {
    seq(k, _ => Entry(0, 0, 0))
  }

  /** An unused slot is 20 zero bytes, and readBinFile skips it. */
  lemma {:induction false} PadEntries(k: nat, m: SectionMap)
    ensures EncodeEntries(Pad(k)) == Zeros(20 * k)
    ensures Collect(m, Pad(k), true) == m
    ensures forall i | 0 <= i < k :: Encodable(Pad(k)[i])
  {
    if k > 0 {
      assert Pad(k)[1..] == Pad(k - 1);
      PadEntries(k - 1, m);
      UZero();
      ZerosAdd(4, 8);
      ZerosAdd(12, 8);
      ZerosAdd(20, 20 * (k - 1));
    }
  }

  lemma {:induction false} EncodeEntriesAppend(a: seq<Entry>, b: seq<Entry>)
    ensures EncodeEntries(a + b) == EncodeEntries(a) + EncodeEntries(b)
    decreases |a|
  {
    if a == [] {
      assert a + b == b;
    } else {
      assert (a + b)[1..] == a[1..] + b;
      EncodeEntriesAppend(a[1..], b);
    }
  }

  /** The i-th table entry names the i-th section, its length and where its payload starts. */
  lemma {:induction false} DirectoryAt(ss: seq<Section>, base: nat, i: nat)
    requires i < |ss|
    ensures Directory(ss, base)[i] == Entry(ss[i].id, |ss[i].payload|, base + |Payloads(ss[..i])|)
    decreases |ss|
  {
    var init := ss[..|ss| - 1];
    if i < |ss| - 1 {
      assert init[i] == ss[i] && init[..i] == ss[..i];
      DirectoryAt(init, base, i);
    }
  }

  /** The i-th payload sits, unchanged, right after the payloads before it. */
  lemma {:induction false} PayloadsAt(ss: seq<Section>, i: nat)
    requires i < |ss|
    ensures |Payloads(ss[..i])| + |ss[i].payload| <= |Payloads(ss)|
    ensures Payloads(ss)[|Payloads(ss[..i])|..|Payloads(ss[..i])| + |ss[i].payload|] == ss[i].payload
    decreases |ss|
  {
    var init := ss[..|ss| - 1];
    if i == |ss| - 1 {
      assert init == ss[..i];
    } else {
      assert init[i] == ss[i] && init[..i] == ss[..i];
      PayloadsAt(init, i);
    }
  }

  /** Section ids fit their u32 field and the file stays below 2^64 bytes, so every entry reads back as written. */
  predicate Fits(ss: seq<Section>, base: nat)
  {
    (forall i | 0 <= i < |ss| :: ss[i].id < TWO32) && base + |Payloads(ss)| < TWO64
  }

  lemma {:induction false} DirectoryEncodable(ss: seq<Section>, base: nat)
    requires Fits(ss, base)
    ensures forall i | 0 <= i < |ss| :: Encodable(Directory(ss, base)[i])
  {
    forall i | 0 <= i < |ss|
      ensures Encodable(Directory(ss, base)[i])
    {
      DirectoryAt(ss, base, i);
      PayloadsAt(ss, i);
    }
  }

  /** The header fields of a written file decode to the tag, the version word and the count written. */
  lemma {:induction false} HeaderFields(tag: string, version: nat, count: nat, rest: seq<byte>, data: seq<byte>)
    requires data == HeaderBytes(tag, version) + U32(count) + rest
    requires ByteTag(tag) && version < TWO32 && count < TWO32
    ensures 12 <= |data| && TagOk(data, tag) && FromLE(data[4..8]) == version && FromLE(data[8..12]) == count
  {
    assert data[..4] == TagBytes(tag);
    assert data[4..8] == U32(version);
    assert data[8..12] == U32(count);
    TagRoundTrip(tag);
    U32RoundTrip(version);
    U32RoundTrip(count);
  }

  /** The section map readBinFile builds from a written Layout 2 file. */
  function Sections2(r: nat, ss: seq<Section>): SectionMap
  {
    Collect(map[], Directory(ss, 12 + 20 * r), true)
  }

  /** Where the k-th written section lies in a Layout 2 file with `r` reserved slots. */
  function Slot2(r: nat, ss: seq<Section>, k: nat): Descriptor
    requires k < |ss|
  {
    Descriptor(12 + 20 * r + |Payloads(ss[..k])|, |ss[k].payload|)
  }

  /** The table of a written Layout 2 file: the used slots, then the free ones. */
  function Table(r: nat, ss: seq<Section>): (es: seq<Entry>)
    requires |ss| <= r
    ensures |es| == r
  {
    Directory(ss, 12 + 20 * r) + Pad(r - |ss|)
  }

  lemma {:induction false} TableBytes(tag: string, version: nat, r: nat, ss: seq<Section>)
    requires |ss| <= r
    ensures Image2(tag, version, r, ss)[12..12 + 20 * r] == EncodeEntries(Table(r, ss))
  {
    EncodeEntriesAppend(Directory(ss, 12 + 20 * r), Pad(r - |ss|));
    PadEntries(r - |ss|, map[]);
  }

  lemma {:induction false} TableEncodable(r: nat, ss: seq<Section>)
    requires |ss| <= r && Fits(ss, 12 + 20 * r)
    ensures forall i | 0 <= i < r :: Encodable(Table(r, ss)[i])
  {
    DirectoryEncodable(ss, 12 + 20 * r);
    PadEntries(r - |ss|, map[]);
  }

  /** The reserved table of a written Layout 2 file scans to exactly the written entries. */
  lemma {:induction false} Table2(tag: string, version: nat, r: nat, ss: seq<Section>)
    requires |ss| <= r && Fits(ss, 12 + 20 * r)
    ensures ScanTable(Image2(tag, version, r, ss), 12, r, map[]) == Ok((Sections2(r, ss), 12 + 20 * r))
  {
    var dir := Directory(ss, 12 + 20 * r);
    TableBytes(tag, version, r, ss);
    TableEncodable(r, ss);
    ScanEncoded(Image2(tag, version, r, ss), 12, Table(r, ss), r, 12 + 20 * r, 0, map[]);
    CollectAppend(map[], dir, Pad(r - |ss|), true);
    PadEntries(r - |ss|, Collect(map[], dir, true));
  }

  /** readBinFile on a written Layout 2 file: the header checks pass and the map holds exactly the written entries. */
  lemma {:induction false} ParseLayout2(tag: string, version: nat, maxVersion: int, r: nat, ss: seq<Section>)
    requires ByteTag(tag) && version < TWO32 && FlagSet(version) && version - FORMAT_FLAG <= maxVersion
    requires |ss| <= r < TWO32 && Fits(ss, 12 + 20 * r)
    ensures ParseFile(Image2(tag, version, r, ss), tag, maxVersion) == Ok(Opened(Format2, 12 + 20 * r, Sections2(r, ss)))
  {
    var data := Image2(tag, version, r, ss);
    var rest := EncodeEntries(Directory(ss, 12 + 20 * r)) + Zeros(20 * (r - |ss|)) + Payloads(ss);
    assert data == HeaderBytes(tag, version) + U32(r) + rest;
    HeaderFields(tag, version, r, rest, data);
    Table2(tag, version, r, ss);
  }

  /** Section k is the only written section with its id. */
  predicate UniqueAt(ss: seq<Section>, k: nat)
  {
    k < |ss| && forall j | 0 <= j < |ss| && j != k :: ss[j].id != ss[k].id
  }

  /**
   * What a reader gets for section `id`: startReadUniqueSection, a read of the
   * declared size, and endReadSection with its size check.
   */
  function ReadBack(h: Handle, sections: SectionMap, id: nat): Result<seq<byte>>
  {
    var h1 :- StartRead(h, sections, id);
    var got :- Read(h1, h1.reading.value.size);
    var closed :- EndRead(got.1, false);
    Ok(got.0)
  }

  /** A section listed once and lying inside the file reads back as the bytes its descriptor covers. */
  lemma {:induction false} ReadBackUnique(h: Handle, sections: SectionMap, id: nat, d: Descriptor)
    requires h.reading.None? && Lookup(sections, id) == [d] && d.p + d.size <= |h.data|
    ensures ReadBack(h, sections, id) == Ok(h.data[d.p..d.p + d.size])
  {
    assert id in sections && sections[id] == [d];
  }

  /** A uniquely-named Layout 2 section is listed once, with its payload start and length. */
  lemma {:induction false} Layout2Lookup(r: nat, ss: seq<Section>, k: nat)
    requires UniqueAt(ss, k) && ss[k].id != 0
    ensures Lookup(Sections2(r, ss), ss[k].id) == [Slot2(r, ss, k)]
  {
    var base := 12 + 20 * r;
    var dir := Directory(ss, base);
    var id := ss[k].id;
    forall j | 0 <= j < |ss|
      ensures dir[j].id == ss[j].id
    {
      DirectoryAt(ss, base, j);
    }
    DirectoryAt(ss, base, k);
    MatchingUnique(dir, id, k, true);
    CollectLookup(map[], dir, true, id);
  }

  /** The payload of the k-th section lies in the file where its table entry says. */
  lemma {:induction false} Image2Payload(tag: string, version: nat, r: nat, ss: seq<Section>, k: nat)
    requires |ss| <= r && k < |ss|
    ensures
      var d := Slot2(r, ss, k);
      d.p + d.size <= |Image2(tag, version, r, ss)| && Image2(tag, version, r, ss)[d.p..d.p + d.size] == ss[k].payload
  {
    var base := 12 + 20 * r;
    PayloadsAt(ss, k);
    var front := Head2(tag, version, r, ss) + Zeros(20 * (r - |ss|));
    assert |front| == base;
    var x := |Payloads(ss[..k])|;
    var len := |ss[k].payload|;
    assert Image2(tag, version, r, ss)[base + x..base + x + len] == Payloads(ss)[x..x + len];
  }

  /** A reader of a whole file: readBinFile, then one whole-section read session for `id`. */
  function ReadFile(data: seq<byte>, tag: string, maxVersion: int, id: nat): Result<seq<byte>>
  {
    var o :- ParseFile(data, tag, maxVersion);
    ReadBack(Reopened(data, o), o.sections, id)
  }

  /** A file that parses, holding a section listed once inside the file: the reader returns its bytes. */
  lemma {:induction false} ReadFileUnique(data: seq<byte>, tag: string, maxVersion: int, o: Opened, id: nat, d: Descriptor, payload: seq<byte>)
    requires ParseFile(data, tag, maxVersion) == Ok(o)
    requires Lookup(o.sections, id) == [d] && d.p + d.size <= |data| && data[d.p..d.p + d.size] == payload
    ensures ReadFile(data, tag, maxVersion, id) == Ok(payload)
  {
    ReadBackUnique(Reopened(data, o), o.sections, id, d);
  }

  /** A written Layout 2 section with a nonzero, unique id reads back as its payload. */
  lemma {:induction false} Layout2Found(tag: string, version: nat, maxVersion: int, r: nat, ss: seq<Section>, k: nat)
    requires ByteTag(tag) && version < TWO32 && FlagSet(version) && version - FORMAT_FLAG <= maxVersion
    requires |ss| <= r < TWO32 && Fits(ss, 12 + 20 * r)
    requires UniqueAt(ss, k) && ss[k].id != 0
    ensures ReadFile(Image2(tag, version, r, ss), tag, maxVersion, ss[k].id) == Ok(ss[k].payload)
  {
    ParseLayout2(tag, version, maxVersion, r, ss);
    Layout2Lookup(r, ss, k);
    Image2Payload(tag, version, r, ss, k);
    ReadFileUnique(Image2(tag, version, r, ss), tag, maxVersion, Opened(Format2, 12 + 20 * r, Sections2(r, ss)),
      ss[k].id, Slot2(r, ss, k), ss[k].payload);
  }

  /** Id 0 marks a free slot in Layout 2: a section written with id 0 is never found. */
  lemma {:induction false} Layout2ZeroMissing(tag: string, version: nat, maxVersion: int, r: nat, ss: seq<Section>)
    requires ByteTag(tag) && version < TWO32 && FlagSet(version) && version - FORMAT_FLAG <= maxVersion
    requires |ss| <= r < TWO32 && Fits(ss, 12 + 20 * r)
    ensures ReadFile(Image2(tag, version, r, ss), tag, maxVersion, 0) == Err(MissingSection)
  {
    var dir := Directory(ss, 12 + 20 * r);
    ParseLayout2(tag, version, maxVersion, r, ss);
    CollectLookup(map[], dir, true, 0);
    ZeroSkipped(dir);
    assert 0 !in Sections2(r, ss);
  }

  /**
   * Layout 2 round trip: write the sections into a fresh container, reopen the
   * bytes with readBinFile, and every section whose id is nonzero and unique
   * reads back as its payload; id 0 is never found.
   */
  lemma {:induction false} Layout2RoundTrip(tag: string, version: nat, maxVersion: int, n: nat, ss: seq<Section>)
    requires ByteTag(tag) && version < TWO32 && FlagSet(version) && version - FORMAT_FLAG <= maxVersion
    requires |ss| <= ReservedCount(n) < TWO32 && Fits(ss, 12 + 20 * ReservedCount(n))
    ensures WriteAll(Created(tag, version, n), ss).Ok?
    ensures ReadFile(WriteAll(Created(tag, version, n), ss).value.data, tag, maxVersion, 0) == Err(MissingSection)
    ensures forall k: nat | UniqueAt(ss, k) && ss[k].id != 0 ::
      ReadFile(WriteAll(Created(tag, version, n), ss).value.data, tag, maxVersion, ss[k].id) == Ok(ss[k].payload)
  {
    var r := ReservedCount(n);
    WriteAllLayout2(tag, version, n, ss);
    assert WriteAll(Created(tag, version, n), ss).value.data == Image2(tag, version, r, ss);
    Layout2ZeroMissing(tag, version, maxVersion, r, ss);
    forall k: nat | UniqueAt(ss, k) && ss[k].id != 0
      ensures ReadFile(Image2(tag, version, r, ss), tag, maxVersion, ss[k].id) == Ok(ss[k].payload)
    {
      Layout2Found(tag, version, maxVersion, r, ss, k);
    }
  }

  /**
   * Layout 2 with nSections = 0 reserves no slot, and startWriteSection does not
   * check for a free one: the entry is written where the payload then goes, and
   * readBinFile finds no section at all.
   */
  lemma {:induction false} Layout2NoSlots(tag: string, version: nat, maxVersion: int, s: Section)
    requires ByteTag(tag) && version < TWO32 && FlagSet(version) && version - FORMAT_FLAG <= maxVersion
    ensures WriteAll(Created(tag, version, 0), [s]).Ok?
    ensures ParseFile(WriteAll(Created(tag, version, 0), [s]).value.data, tag, maxVersion) == Ok(Opened(Format2, 12, map[]))
  {
    var h0 := Created(tag, version, 0);
    assert ReservedCount(0) == 0;
    assert h0.data == HeaderBytes(tag, version) + U32(0);
    assert [s][..0] == [];
    var h1 := StartWrite(h0, s.id).value;
    var h2 := Write(h1, s.payload);
    var h3 := EndWrite(h2).value;
    assert WriteAll(h0, [s]) == Ok(h3);
    SplicePrefix(h0.data, 12, EncodeEntry(Entry(s.id, 0, 12)), 12);
    SplicePrefix(h1.data, 12, s.payload, 12);
    SplicePrefix(h2.data, 16, U64(|s.payload|), 12);
    assert h3.data[..12] == h0.data;
    assert h3.data == HeaderBytes(tag, version) + U32(0) + h3.data[12..];
    HeaderFields(tag, version, 0, h3.data[12..], h3.data);
  }

  // ----- Layout 1 -----

  /** A Layout 1 record: id, payload length, payload. */
  function Record(s: Section): (b: seq<byte>)
    ensures |b| == 12 + |s.payload|
  {
    U32(s.id) + U64(|s.payload|) + s.payload
  }

  /** The number of bytes the records of `ss` take. */
  function Extent(ss: seq<Section>): nat
  {
    if ss == [] then 0 else 12 + |ss[0].payload| + Extent(ss[1..])
  }

  function Records(ss: seq<Section>): (b: seq<byte>)
    ensures |b| == Extent(ss)
  {
    if ss == [] then [] else Record(ss[0]) + Records(ss[1..])
  }

  /** The record headers readBinFile meets when the first record starts at `pos`. */
  function Directory1(ss: seq<Section>, pos: nat): (es: seq<Entry>)
    ensures |es| == |ss|
  {
    if ss == [] then []
    else [Entry(ss[0].id, |ss[0].payload|, pos + 12)] + Directory1(ss[1..], pos + 12 + |ss[0].payload|)
  }

  /** The Layout 1 file after `ss` were written into a container created for `n` sections. */
  function Image1(tag: string, version: nat, n: nat, ss: seq<Section>): seq<byte>
  {
    HeaderBytes(tag, version) + U32(n) + Records(ss)
  }

  function Written1(tag: string, version: nat, n: nat, ss: seq<Section>): Handle
  {
    Handle(Image1(tag, version, n, ss), |Image1(tag, version, n, ss)|, Format1, None, None, None)
  }

  lemma {:induction false} RecordsSnoc(ss: seq<Section>, s: Section)
    ensures Records(ss + [s]) == Records(ss) + Record(s)
    decreases |ss|
  {
    if ss == [] {
      assert ss + [s] == [s];
    } else {
      assert (ss + [s])[1..] == ss[1..] + [s];
      RecordsSnoc(ss[1..], s);
      AppendAssoc(Record(ss[0]), Records(ss[1..]), Record(s));
    }
  }

  /** The handle between startWriteSection and the payload write of the last section of `ss`. */
  function Started1(tag: string, version: nat, n: nat, ss: seq<Section>): Handle
    requires 0 < |ss|
  {
    var a := Image1(tag, version, n, ss[..|ss| - 1]);
    Handle(a + U32(ss[|ss| - 1].id) + U64(0), |a| + 12, Format1, None, Some(|a| + 4), None)
  }

  lemma {:induction false} Layout1Start(tag: string, version: nat, n: nat, ss: seq<Section>)
    requires 0 < |ss|
    ensures StartWrite(Written1(tag, version, n, ss[..|ss| - 1]), ss[|ss| - 1].id) == Ok(Started1(tag, version, n, ss))
  {
    var a := Image1(tag, version, n, ss[..|ss| - 1]);
    var id := ss[|ss| - 1].id;
    SpliceAppend(a, U32(id) + U64(0));
    AppendAssoc(a, U32(id), U64(0));
  }

  lemma {:induction false} Layout1Finish(tag: string, version: nat, n: nat, ss: seq<Section>)
    requires 0 < |ss|
    ensures EndWrite(Write(Started1(tag, version, n, ss), ss[|ss| - 1].payload)) == Ok(Written1(tag, version, n, ss))
  {
    var init := ss[..|ss| - 1];
    var s := ss[|ss| - 1];
    var a := Image1(tag, version, n, init);
    var h1 := Started1(tag, version, n, ss);
    var h2 := Write(h1, s.payload);
    assert h2.data == (a + U32(s.id)) + U64(0) + s.payload by {
      SpliceAppend(h1.data, s.payload);
    }
    var h3 := EndWrite(h2).value;
    assert h3.data == (a + U32(s.id)) + U64(|s.payload|) + s.payload by {
      SpliceMiddle(a + U32(s.id), U64(0), s.payload, U64(|s.payload|));
    }
    assert h3.data == a + Record(s) by {
      AppendAssoc(a + U32(s.id), U64(|s.payload|), s.payload);
      AppendAssoc(a, U32(s.id), U64(|s.payload|) + s.payload);
      AppendAssoc(U32(s.id), U64(|s.payload|), s.payload);
    }
    assert Image1(tag, version, n, ss) == a + Record(s) by {
      assert init + [s] == ss;
      RecordsSnoc(init, s);
      AppendAssoc(HeaderBytes(tag, version) + U32(n), Records(init), Record(s));
    }
  }

  /** One Layout 1 write session appends the record: id, patched length, payload. */
  lemma {:induction false} Layout1Step(tag: string, version: nat, n: nat, ss: seq<Section>)
    requires 0 < |ss|
    ensures WriteSection(Written1(tag, version, n, ss[..|ss| - 1]), ss[|ss| - 1]) == Ok(Written1(tag, version, n, ss))
  {
    Layout1Start(tag, version, n, ss);
    Layout1Finish(tag, version, n, ss);
  }

  /** Writing `ss` into a new Layout 1 container appends one record per section after the header and count. */
  lemma {:induction false} WriteAllLayout1(tag: string, version: nat, n: nat, ss: seq<Section>)
    requires !FlagSet(version)
    ensures WriteAll(Created(tag, version, n), ss) == Ok(Written1(tag, version, n, ss))
    decreases |ss|
  {
    if ss == [] {
      assert Image1(tag, version, n, ss) == Created(tag, version, n).data;
    } else {
      WriteAllLayout1(tag, version, n, ss[..|ss| - 1]);
      Layout1Step(tag, version, n, ss);
    }
  }

  /** Section ids fit their u32 field and payload lengths their u64 field. */
  predicate Fits1(ss: seq<Section>)
  {
    forall i | 0 <= i < |ss| :: ss[i].id < TWO32 && |ss[i].payload| < TWO64
  }

  lemma {:induction false} RecordFields(data: seq<byte>, pos: nat, s: Section)
    requires pos + 12 <= |data| && data[pos..pos + 12] == U32(s.id) + U64(|s.payload|)
    requires s.id < TWO32 && |s.payload| < TWO64
    ensures FromLE(data[pos..pos + 4]) == s.id && FromLE(data[pos + 4..pos + 12]) == |s.payload|
  {
    var w := data[pos..pos + 12];
    assert data[pos..pos + 4] == w[..4] == U32(s.id);
    assert data[pos + 4..pos + 12] == w[4..] == U64(|s.payload|);
    U32RoundTrip(s.id);
    U64RoundTrip(|s.payload|);
  }

  /** The record headers of `ss` can be read back, one after the other, from `pos` on. */
  predicate Headers1(data: seq<byte>, pos: nat, ss: seq<Section>)
    decreases |ss|
  {
    ss == [] ||
    (pos + 12 <= |data| &&
     FromLE(data[pos..pos + 4]) == ss[0].id && FromLE(data[pos + 4..pos + 12]) == |ss[0].payload| &&
     Headers1(data, pos + 12 + |ss[0].payload|, ss[1..]))
  }

  /** The first of well-formed records: its header fields, and the records after it. */
  lemma {:induction false} RecordHead(data: seq<byte>, pos: nat, ss: seq<Section>, end: nat)
    requires ss != [] && end == pos + |Records(ss)| && end <= |data| && data[pos..end] == Records(ss)
    requires ss[0].id < TWO32 && |ss[0].payload| < TWO64
    ensures pos + 12 <= |data|
    ensures FromLE(data[pos..pos + 4]) == ss[0].id && FromLE(data[pos + 4..pos + 12]) == |ss[0].payload|
    ensures end == pos + 12 + |ss[0].payload| + |Records(ss[1..])|
    ensures data[pos + 12 + |ss[0].payload|..end] == Records(ss[1..])
  {
    var s := ss[0];
    var next := pos + 12 + |s.payload|;
    var w := data[pos..end];
    assert w == Record(s) + Records(ss[1..]);
    assert data[pos..pos + 12] == U32(s.id) + U64(|s.payload|) by {
      assert Record(s) == U32(s.id) + U64(|s.payload|) + s.payload;
      assert data[pos..pos + 12] == w[..12] == Record(s)[..12];
    }
    RecordFields(data, pos, s);
    assert data[next..end] == w[12 + |s.payload|..];
  }

  /** Well-formed records have readable headers. */
  lemma {:induction false} RecordsHeaders(data: seq<byte>, pos: nat, ss: seq<Section>, end: nat)
    requires end == pos + |Records(ss)| && end <= |data| && data[pos..end] == Records(ss) && Fits1(ss)
    ensures Headers1(data, pos, ss)
    decreases |ss|
  {
    if ss != [] {
      RecordHead(data, pos, ss, end);
      RecordsHeaders(data, pos + 12 + |ss[0].payload|, ss[1..], end);
    }
  }

  lemma {:induction false} Directory1Step(acc: SectionMap, ss: seq<Section>, pos: nat)
    requires ss != []
    ensures Collect(acc, Directory1(ss, pos), false) ==
      Collect(AddDescriptor(acc, ss[0].id, Descriptor(pos + 12, |ss[0].payload|)), Directory1(ss[1..], pos + 12 + |ss[0].payload|), false)
  {
    var es := Directory1(ss, pos);
    assert es[1..] == Directory1(ss[1..], pos + 12 + |ss[0].payload|);
  }

  /**
   * Scanning readable record headers recovers them; the cursor lands after the
   * last payload. `r` names the scan's result, so that the proof works with
   * the scan one record at a time.
   */
  lemma {:induction false} ScanRecords(data: seq<byte>, pos: nat, ss: seq<Section>, end: nat, acc: SectionMap, r: Result<(SectionMap, nat)>)
    requires Headers1(data, pos, ss) && end == pos + Extent(ss)
    requires r == ScanSequential(data, pos, |ss|, acc)
    ensures r == Ok((Collect(acc, Directory1(ss, pos), false), end))
    decreases |ss|
  {
    if ss != [] {
      var next := pos + 12 + |ss[0].payload|;
      var acc' := AddDescriptor(acc, ss[0].id, Descriptor(pos + 12, |ss[0].payload|));
      SequentialNext(data, pos, |ss|, acc, next, |ss[1..]|, acc');
      ScanRecords(data, next, ss[1..], end, acc', ScanSequential(data, next, |ss[1..]|, acc'));
      Directory1Step(acc, ss, pos);
    }
  }

  /** When more records are announced than the file holds, the scan runs past its end. */
  lemma {:induction false} ScanRecordsShort(data: seq<byte>, pos: nat, ss: seq<Section>, count: nat, acc: SectionMap, r: Result<(SectionMap, nat)>)
    requires Headers1(data, pos, ss) && pos + Extent(ss) == |data| && |ss| < count
    requires r == ScanSequential(data, pos, count, acc)
    ensures r == Err(OutOfBounds)
    decreases |ss|
  {
    if ss == [] {
      SequentialShort(data, pos, count, acc);
    } else {
      var next := pos + 12 + |ss[0].payload|;
      var acc' := AddDescriptor(acc, ss[0].id, Descriptor(pos + 12, |ss[0].payload|));
      SequentialNext(data, pos, count, acc, next, count - 1, acc');
      ScanRecordsShort(data, next, ss[1..], count - 1, acc', ScanSequential(data, next, count - 1, acc'));
    }
  }

  /** The section map readBinFile builds from a written Layout 1 file. */
  function Sections1(ss: seq<Section>): SectionMap
  {
    Collect(map[], Directory1(ss, 12), false)
  }

  /**
   * readBinFile on a written Layout 1 file whose count matches the sections
   * written: the scan ends exactly at the end of the file. Layout 1 carries no
   * logical version, so no maximum version rejects it.
   */
  lemma {:induction false} ParseLayout1(tag: string, version: nat, maxVersion: int, ss: seq<Section>)
    requires ByteTag(tag) && version < TWO32 && !FlagSet(version)
    requires |ss| < TWO32 && Fits1(ss)
    ensures ParseFile(Image1(tag, version, |ss|, ss), tag, maxVersion) ==
      Ok(Opened(Format1, |Image1(tag, version, |ss|, ss)|, Sections1(ss)))
  {
    var data := Image1(tag, version, |ss|, ss);
    HeaderFields(tag, version, |ss|, Records(ss), data);
    assert data[12..|data|] == Records(ss);
    RecordsHeaders(data, 12, ss, |data|);
    ScanRecords(data, 12, ss, |data|, map[], ScanSequential(data, 12, |ss|, map[]));
  }

  /** A Layout 1 count larger than the sections written sends readBinFile past the end of the file. */
  lemma {:induction false} Layout1CountTooLarge(tag: string, version: nat, maxVersion: int, n: nat, ss: seq<Section>)
    requires ByteTag(tag) && version < TWO32 && !FlagSet(version)
    requires |ss| < n < TWO32 && Fits1(ss)
    ensures ParseFile(Image1(tag, version, n, ss), tag, maxVersion) == Err(OutOfBounds)
  {
    var data := Image1(tag, version, n, ss);
    HeaderFields(tag, version, n, Records(ss), data);
    assert data[12..|data|] == Records(ss);
    RecordsHeaders(data, 12, ss, |data|);
    ScanRecordsShort(data, 12, ss, n, map[], ScanSequential(data, 12, n, map[]));
  }

  /** Where the k-th record's payload lies in a Layout 1 file: after the header, the earlier records and its own 12-byte header. */
  function Slot1(ss: seq<Section>, k: nat): Descriptor
    requires k < |ss|
  {
    Descriptor(12 + Extent(ss[..k]) + 12, |ss[k].payload|)
  }

  lemma {:induction false} Directory1At(ss: seq<Section>, pos: nat, k: nat)
    requires k < |ss|
    ensures Directory1(ss, pos)[k] == Entry(ss[k].id, |ss[k].payload|, pos + Extent(ss[..k]) + 12)
    decreases k
  {
    if k > 0 {
      var next := pos + 12 + |ss[0].payload|;
      assert Directory1(ss, pos)[k] == Directory1(ss[1..], next)[k - 1];
      Directory1At(ss[1..], next, k - 1);
      assert ss[..k][1..] == ss[1..][..k - 1];
    }
  }

  /** The k-th payload sits in the records right after its own 12-byte header. */
  lemma {:induction false} RecordsAt(ss: seq<Section>, k: nat)
    requires k < |ss|
    ensures Extent(ss[..k]) + 12 + |ss[k].payload| <= Extent(ss)
    ensures Records(ss)[Extent(ss[..k]) + 12..Extent(ss[..k]) + 12 + |ss[k].payload|] == ss[k].payload
    decreases k
  {
    var s := ss[0];
    var rest := Records(ss[1..]);
    assert Records(ss) == U32(s.id) + U64(|s.payload|) + s.payload + rest;
    if k == 0 {
      assert ss[..0] == [];
    } else {
      RecordsAt(ss[1..], k - 1);
      assert ss[..k][1..] == ss[1..][..k - 1];
      var x := Extent(ss[1..][..k - 1]) + 12;
      var len := |ss[k].payload|;
      assert Records(ss)[12 + |s.payload| + x..12 + |s.payload| + x + len] == rest[x..x + len];
    }
  }

  /** A uniquely-named Layout 1 section is listed once, with its payload start and length; id 0 is no exception. */
  lemma {:induction false} Layout1Lookup(ss: seq<Section>, k: nat)
    requires UniqueAt(ss, k)
    ensures Lookup(Sections1(ss), ss[k].id) == [Slot1(ss, k)]
  {
    var dir := Directory1(ss, 12);
    var id := ss[k].id;
    forall j | 0 <= j < |ss|
      ensures dir[j].id == ss[j].id
    {
      Directory1At(ss, 12, j);
    }
    Directory1At(ss, 12, k);
    MatchingUnique(dir, id, k, false);
    CollectLookup(map[], dir, false, id);
  }

  /** The payload of the k-th section lies in the file where its record header says. */
  lemma {:induction false} Image1Payload(tag: string, version: nat, n: nat, ss: seq<Section>, k: nat)
    requires k < |ss|
    ensures
      var d := Slot1(ss, k);
      d.p + d.size <= |Image1(tag, version, n, ss)| && Image1(tag, version, n, ss)[d.p..d.p + d.size] == ss[k].payload
  {
    RecordsAt(ss, k);
    var x := Extent(ss[..k]) + 12;
    var len := |ss[k].payload|;
    var front := HeaderBytes(tag, version) + U32(n);
    assert Image1(tag, version, n, ss) == front + Records(ss);
    assert Image1(tag, version, n, ss)[12 + x..12 + x + len] == Records(ss)[x..x + len];
  }

  /** A written Layout 1 section with a unique id reads back as its payload. */
  lemma {:induction false} Layout1Found(tag: string, version: nat, maxVersion: int, ss: seq<Section>, k: nat)
    requires ByteTag(tag) && version < TWO32 && !FlagSet(version)
    requires |ss| < TWO32 && Fits1(ss) && UniqueAt(ss, k)
    ensures ReadFile(Image1(tag, version, |ss|, ss), tag, maxVersion, ss[k].id) == Ok(ss[k].payload)
  {
    var data := Image1(tag, version, |ss|, ss);
    ParseLayout1(tag, version, maxVersion, ss);
    Layout1Lookup(ss, k);
    Image1Payload(tag, version, |ss|, ss, k);
    ReadFileUnique(data, tag, maxVersion, Opened(Format1, |data|, Sections1(ss)), ss[k].id, Slot1(ss, k), ss[k].payload);
  }

  /**
   * Layout 1 round trip: a container created for exactly the number of
   * sections then written reopens with readBinFile, whatever the maximum
   * version, and every section whose id is unique reads back as its payload.
   */
  lemma {:induction false} Layout1RoundTrip(tag: string, version: nat, maxVersion: int, ss: seq<Section>)
    requires ByteTag(tag) && version < TWO32 && !FlagSet(version)
    requires |ss| < TWO32 && Fits1(ss)
    ensures WriteAll(Created(tag, version, |ss|), ss).Ok?
    ensures forall k: nat | UniqueAt(ss, k) ::
      ReadFile(WriteAll(Created(tag, version, |ss|), ss).value.data, tag, maxVersion, ss[k].id) == Ok(ss[k].payload)
  {
    WriteAllLayout1(tag, version, |ss|, ss);
    assert WriteAll(Created(tag, version, |ss|), ss).value.data == Image1(tag, version, |ss|, ss);
    forall k: nat | UniqueAt(ss, k)
      ensures ReadFile(Image1(tag, version, |ss|, ss), tag, maxVersion, ss[k].id) == Ok(ss[k].payload)
    {
      Layout1Found(tag, version, maxVersion, ss, k);
    }
  }
}
