/** The container header: the 4-byte type tag and the version word with its layout flag. */
module Header {
  import opened Errors
  import opened Bytes

  /** The layout flag of the version word, bit 28 (BIN_FORMAT_2). */
  const FORMAT_FLAG: nat := 0x1000_0000

  /** Layout 1 (flag clear): sequential sections. Layout 2 (flag set): reserved offset table. */
  datatype Format = Format1 | Format2

  /** The value of the flag in the source's numeric encoding (BIN_FORMAT_1 = 0, BIN_FORMAT_2 = 0x10000000). */
  function FormatCode(f: Format): nat
  {
    if f == Format1 then 0 else FORMAT_FLAG
  }

  /** Whether bit 28 of a non-negative version word is set. */
  predicate FlagSet(v: nat)
  {
    (v / FORMAT_FLAG) % 2 == 1
  }

  /** The logical version (absent for Layout 1) and the layout of a version word. */
  datatype Decoded = Decoded(version: Option<int>, format: Format)

  function DecodeVersion(v: nat): (r: Decoded)
    ensures r.format == Format2 <==> FlagSet(v)
    ensures r.version.Some? <==> r.format == Format2
    ensures r.version.Some? ==> r.version.value + FormatCode(r.format) == v
  {
    if FlagSet(v) then Decoded(Some(v - FORMAT_FLAG), Format2) else Decoded(None, Format1)
  }

  /** A Layout 2 word is the logical version plus the flag; decoding recovers both. */
  lemma DecodeLayout2(version: nat)
    requires version < FORMAT_FLAG
    ensures DecodeVersion(version + FORMAT_FLAG) == Decoded(Some(version), Format2)
  {
    assert (version + FORMAT_FLAG) / FORMAT_FLAG == 1;
  }

  /** A word without the flag decodes to Layout 1 with no logical version, whatever its other bits. */
  lemma DecodeLayout1(v: nat)
    requires !FlagSet(v)
    ensures DecodeVersion(v) == Decoded(None, Format1)
  {
  }

  /** The version test of readBinFile: an absent version (Layout 1) compares as never too large. */
  predicate VersionTooNew(d: Decoded, maxVersion: int)
  {
    d.version.Some? && d.version.value > maxVersion
  }

  /** A version word is rejected exactly when it carries the flag and the rest of it exceeds `maxVersion`. */
  lemma VersionTooNewWord(v: nat, maxVersion: int)
    ensures VersionTooNew(DecodeVersion(v), maxVersion) <==> FlagSet(v) && v - FORMAT_FLAG > maxVersion
  {
  }

  /** Layout 2 tables reserve whole blocks of 256 entries: ceil(n / 256) * 256. */
  function ReservedCount(n: nat): (r: nat)
    ensures r % 256 == 0
    ensures n <= r < n + 256
  {
    ((n + 255) / 256) * 256
  }

  /** The tag bytes createBinFile writes: each character code truncated to a byte, 0 past the end of the string. */
  function TagBytes(tag: string): (b: seq<byte>)
    ensures |b| == 4
    ensures forall i | 0 <= i < 4 && i < |tag| :: b[i] == (tag[i] as int) % 256
    ensures forall i | |tag| <= i < 4 :: b[i] == 0
  {
    seq(4, i requires 0 <= i < 4 => if i < |tag| then (tag[i] as int) % 256 else 0)
  }

  /** The string readBinFile builds from bytes, one character per byte. */
  function Latin1(b: seq<byte>): (s: string)
    ensures |s| == |b| && forall i | 0 <= i < |b| :: s[i] as int == b[i]
  {
    seq(|b|, i requires 0 <= i < |b| => b[i] as char)
  }

  /** The tag written for `tag` reads back as `tag` exactly when it has four characters below 256. */
  lemma TagRoundTrip(tag: string)
    ensures Latin1(TagBytes(tag)) == tag <==> |tag| == 4 && forall i | 0 <= i < 4 :: tag[i] as int < 256
  {
    var s := Latin1(TagBytes(tag));
    if |tag| == 4 && forall i | 0 <= i < 4 :: tag[i] as int < 256 {
      forall i | 0 <= i < 4 ensures s[i] == tag[i] {
        assert s[i] as int == tag[i] as int;
      }
    }
    if s == tag {
      forall i | 0 <= i < 4 ensures tag[i] as int < 256 {
        assert tag[i] as int == TagBytes(tag)[i];
      }
    }
  }
}
