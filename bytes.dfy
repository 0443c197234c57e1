/** Bytes, the little-endian integer codec and positioned writes on a byte file. */
module Bytes {

  type byte = x: int | 0 <= x < 256

  const TWO32: nat := 0x1_0000_0000
  const TWO64: nat := 0x1_0000_0000_0000_0000

  function Pow256(width: nat): (p: nat)
    ensures p > 0
  {
    if width == 0 then 1 else 256 * Pow256(width - 1)
  }

  lemma Pow256Widths()
    ensures Pow256(4) == TWO32 && Pow256(8) == TWO64
  {
    assert Pow256(1) == 256;
    assert Pow256(2) == 0x1_0000;
    assert Pow256(3) == 0x100_0000;
    assert Pow256(4) == 0x1_0000_0000;
    assert Pow256(5) == 0x100_0000_0000;
    assert Pow256(6) == 0x1_0000_0000_0000;
    assert Pow256(7) == 0x100_0000_0000_0000;
  }

  function Zeros(n: nat): (z: seq<byte>)
    ensures |z| == n && forall i | 0 <= i < n :: z[i] == 0
  {
    seq(n, _ => 0)
  }

  lemma ZerosAdd(m: nat, n: nat)
    ensures Zeros(m) + Zeros(n) == Zeros(m + n)
  {
  }

  /** The `width` low-order bytes of `v`, least significant first. */
  function LE(v: nat, width: nat): (s: seq<byte>)
    ensures |s| == width
  {
    if width == 0 then [] else [v % 256] + LE(v / 256, width - 1)
  }

  /** The value of a little-endian byte string. */
  function FromLE(s: seq<byte>): (v: nat)
    ensures v < Pow256(|s|)
  {
    if s == [] then 0 else s[0] + 256 * FromLE(s[1..])
  }

  /** Decoding an encoding gives the value back, when it fits in the width. */
  lemma {:induction false} FromLEOfLE(v: nat, width: nat)
    requires v < Pow256(width)
    ensures FromLE(LE(v, width)) == v
  {
    if width > 0 {
      assert v / 256 < Pow256(width - 1);
      FromLEOfLE(v / 256, width - 1);
      assert LE(v, width)[1..] == LE(v / 256, width - 1);
    }
  }

  /** Encoding a decoded string gives the string back. */
  lemma {:induction false} LEOfFromLE(s: seq<byte>)
    ensures LE(FromLE(s), |s|) == s
  {
    if s != [] {
      LEOfFromLE(s[1..]);
      var v := FromLE(s);
      assert v % 256 == s[0] && v / 256 == FromLE(s[1..]);
    }
  }

  lemma {:induction false} LEZero(width: nat)
    ensures LE(0, width) == Zeros(width)
  {
    if width > 0 {
      LEZero(width - 1);
    }
  }

  /** What fastfile's writeULE32 stores: the value reduced modulo 2^32. */
  function U32(v: int): (s: seq<byte>)
    ensures |s| == 4
  {
    LE(v % TWO32, 4)
  }

  /** What fastfile's writeULE64 stores: the value reduced modulo 2^64. */
  function U64(v: int): (s: seq<byte>)
    ensures |s| == 8
  {
    LE(v % TWO64, 8)
  }

  lemma U32RoundTrip(v: int)
    ensures FromLE(U32(v)) == v % TWO32
    ensures 0 <= v < TWO32 ==> FromLE(U32(v)) == v
  {
    Pow256Widths();
    FromLEOfLE(v % TWO32, 4);
  }

  lemma U64RoundTrip(v: int)
    ensures FromLE(U64(v)) == v % TWO64
    ensures 0 <= v < TWO64 ==> FromLE(U64(v)) == v
  {
    Pow256Widths();
    FromLEOfLE(v % TWO64, 8);
  }

  lemma UZero()
    ensures U32(0) == Zeros(4) && U64(0) == Zeros(8)
  {
    LEZero(4);
    LEZero(8);
  }

  /**
   * The file after writing `b` at position `at`: the bytes under `b` are
   * replaced, the file grows when `b` reaches past its end, and a gap
   * between the old end and `at` reads as zeros.
   */
  function Splice(data: seq<byte>, at: nat, b: seq<byte>): (r: seq<byte>)
    ensures |r| == if at + |b| <= |data| then |data| else at + |b|
  {
    var d := if at <= |data| then data else data + Zeros(at - |data|);
    d[..at] + b + (if at + |b| <= |d| then d[at + |b|..] else [])
  }

  /** A write puts `b` at `at` and leaves every other byte as it was, zero in a gap. */
  lemma SpliceBytes(data: seq<byte>, at: nat, b: seq<byte>)
    ensures Splice(data, at, b)[at..at + |b|] == b
    ensures forall i | 0 <= i < |Splice(data, at, b)| && (i < at || at + |b| <= i) ::
      Splice(data, at, b)[i] == if i < |data| then data[i] else 0
  {
  }

  /** A write never touches the bytes before its position. */
  lemma SplicePrefix(data: seq<byte>, at: nat, b: seq<byte>, k: nat)
    requires k <= at && k <= |data|
    ensures k <= |Splice(data, at, b)| && Splice(data, at, b)[..k] == data[..k]
  {
    SpliceBytes(data, at, b);
  }

  lemma SpliceAppend(data: seq<byte>, b: seq<byte>)
    ensures Splice(data, |data|, b) == data + b
  {
    var r := Splice(data, |data|, b);
    SpliceBytes(data, |data|, b);
    assert forall i | 0 <= i < |r| :: r[i] == (data + b)[i];
  }

  lemma SpliceMiddle(a: seq<byte>, b: seq<byte>, c: seq<byte>, b': seq<byte>)
    requires |b| == |b'|
    ensures Splice(a + b + c, |a|, b') == a + b' + c
  {
    var r := Splice(a + b + c, |a|, b');
    SpliceBytes(a + b + c, |a|, b');
    assert forall i | 0 <= i < |r| :: r[i] == (a + b' + c)[i];
  }

  /** Two adjacent writes are one write of the concatenation. */
  lemma SpliceTwice(data: seq<byte>, at: nat, b1: seq<byte>, b2: seq<byte>)
    ensures Splice(Splice(data, at, b1), at + |b1|, b2) == Splice(data, at, b1 + b2)
  {
    var r := Splice(Splice(data, at, b1), at + |b1|, b2);
    var s := Splice(data, at, b1 + b2);
    SpliceBytes(data, at, b1);
    SpliceBytes(Splice(data, at, b1), at + |b1|, b2);
    SpliceBytes(data, at, b1 + b2);
    assert |r| == |s|;
    forall i | 0 <= i < |r|
      ensures r[i] == s[i]
    {
      if at <= i < at + |b1| {
        assert r[i] == Splice(data, at, b1)[at..at + |b1|][i - at];
        assert s[i] == s[at..at + |b1 + b2|][i - at];
      } else if at + |b1| <= i < at + |b1| + |b2| {
        assert r[i] == r[at + |b1|..at + |b1| + |b2|][i - at - |b1|];
        assert s[i] == s[at..at + |b1 + b2|][i - at];
      }
    }
  }
}
