/**
 * Bytes and the fixed-width integer encodings the mapped dictionary uses:
 * Ruby's `pack('l')` (a signed 32-bit integer) for the header and the key
 * lengths, and an 8-byte slot for each value.  Native byte order is taken to
 * be little-endian.
 */
module Bytes {

  type Byte = b: int | 0 <= b < 256

  const Nul: Byte := 0
  const Space: Byte := 32

  const Two31: nat := 2147483648
  const Two32: nat := 4294967296
  const Two63: nat := 9223372036854775808
  const Two64: nat := 18446744073709551616

  function Pow256(n: nat): (r: nat)
    ensures r > 0
  {
    if n == 0 then 1 else 256 * Pow256(n - 1)
  }

  lemma Pow256Widths()
    ensures Pow256(4) == Two32 && Pow256(8) == Two64
  {
  }

  /** The low `w` bytes of `n`, least significant first. */
  function PackLE(n: nat, w: nat): (r: seq<Byte>)
    ensures |r| == w
  {
    if w == 0 then [] else [n % 256] + PackLE(n / 256, w - 1)
  }

  /** The unsigned number whose little-endian bytes are `bs`. */
  function UnpackLE(bs: seq<Byte>): (r: nat)
    ensures r < Pow256(|bs|)
  {
    if bs == [] then 0 else bs[0] + 256 * UnpackLE(bs[1..])
  }

  lemma {:induction false} UnpackPackLE(n: nat, w: nat)
    requires n < Pow256(w)
    ensures UnpackLE(PackLE(n, w)) == n
  {
    if w > 0 {
      assert n / 256 < Pow256(w - 1);
      UnpackPackLE(n / 256, w - 1);
      assert PackLE(n, w)[1..] == PackLE(n / 256, w - 1);
    }
  }

  lemma {:induction false} PackUnpackLE(bs: seq<Byte>)
    ensures PackLE(UnpackLE(bs), |bs|) == bs
  {
    if bs != [] {
      var n := UnpackLE(bs);
      assert n % 256 == bs[0] && n / 256 == UnpackLE(bs[1..]);
      PackUnpackLE(bs[1..]);
    }
  }

  /** Ruby's `[n].pack('l')`: the low 32 bits of `n`. */
  function PackInt32(n: nat): (r: seq<Byte>)
    ensures |r| == 4
  {
    PackLE(n % Two32, 4)
  }

  /** Ruby's `s.unpack('l')[0]`: four bytes read as a signed 32-bit integer. */
  function UnpackInt32(bs: seq<Byte>): (r: int)
    requires |bs| == 4
    ensures -(Two31 as int) <= r < Two31
  {
    Pow256Widths();
    var u := UnpackLE(bs);
    if u >= Two31 then u - Two32 else u
  }

  /** A non-negative header read back is written back as the same four bytes. */
  lemma Int32Rewrite(bs: seq<Byte>)
    requires |bs| == 4 && UnpackInt32(bs) >= 0
    ensures PackInt32(UnpackInt32(bs)) == bs
  {
    Pow256Widths();
    var u := UnpackLE(bs);
    assert u < Two31;
    assert UnpackInt32(bs) == u;
    assert u % Two32 == u;
    PackUnpackLE(bs);
  }

  lemma Int32RoundTrip(n: nat)
    requires n < Two31
    ensures UnpackInt32(PackInt32(n)) == n
  {
    Pow256Widths();
    assert n % Two32 == n;
    UnpackPackLE(n, 4);
    assert UnpackLE(PackInt32(n)) == n;
  }

  /** Two's-complement wrap-around of `v` to 64 bits. */
  function Wrap64(v: int): (r: int)
    ensures -(Two63 as int) <= r < Two63
    ensures -(Two63 as int) <= v < Two63 ==> r == v
  {
    var u := v % Two64;
    if u >= Two63 then u - Two64 else u
  }

  /** The 8-byte value slot holding `v` (two's complement, little-endian). */
  function PackInt64(v: int): (r: seq<Byte>)
    ensures |r| == 8
  {
    PackLE(v % Two64, 8)
  }

  function UnpackInt64(bs: seq<Byte>): (r: int)
    requires |bs| == 8
    ensures -(Two63 as int) <= r < Two63
  {
    Pow256Widths();
    var u := UnpackLE(bs);
    if u >= Two63 then u - Two64 else u
  }

  lemma Int64RoundTrip(v: int)
    ensures UnpackInt64(PackInt64(v)) == Wrap64(v)
  {
    Pow256Widths();
    UnpackPackLE(v % Two64, 8);
  }

  /** The bytes of a string all of whose characters are ASCII. */
  function Ascii(s: string): (r: seq<Byte>)
    requires forall i :: 0 <= i < |s| ==> s[i] < 128 as char
    ensures |r| == |s|
    ensures forall i :: 0 <= i < |s| ==> r[i] == s[i] as int
  {
    if s == [] then [] else [s[0] as int] + Ascii(s[1..])
  }
}
