/**
 Go's `encoding/binary` little-endian `uint64` layout and the 64-bit integer conversions
 the compression footer relies on (`uint64(n)` on write, `int(u)` on read).
 */
module LittleEndian {

  /** A Go `byte`. */
  type byte = b: int | 0 <= b < 256

  const TWO_TO_THE_63: nat := 0x8000_0000_0000_0000
  const TWO_TO_THE_64: nat := 0x1_0000_0000_0000_0000

  /** Number of bytes of an encoded `uint64`. */
  const UINT64_SIZE: nat := 8

  function Pow256(width: nat): (r: nat)
    ensures r > 0
  {
    if width == 0 then 1 else 256 * Pow256(width - 1)
  }

  /** Go's `uint64(n)` for a 64-bit `int`: two's-complement wrap-around. */
  function ToUint64(n: int): (u: nat)
    ensures u < TWO_TO_THE_64
    ensures 0 <= n < TWO_TO_THE_64 ==> u == n
    ensures (u - n) % TWO_TO_THE_64 == 0
  {
    n % TWO_TO_THE_64
  }

  /** Go's `int(u)` for a `uint64` on a 64-bit platform: values from 2^63 up turn negative. */
  function ToInt64(u: nat): (n: int)
    requires u < TWO_TO_THE_64
    ensures -(TWO_TO_THE_63 as int) <= n < TWO_TO_THE_63
    ensures u < TWO_TO_THE_63 ==> n == u
    ensures ToUint64(n) == u
  {
    if u < TWO_TO_THE_63 then u else u - TWO_TO_THE_64
  }

  /** `int(uint64(n))` gives back every 64-bit `int`. */
  lemma Int64RoundTrip(n: int)
    requires -(TWO_TO_THE_63 as int) <= n < TWO_TO_THE_63
    ensures ToInt64(ToUint64(n)) == n
  {
    if n < 0 {
      assert ToUint64(n) == n + TWO_TO_THE_64;
    }
  }

  /** Least significant byte first. */
  function Encode(n: nat, width: nat): (r: seq<byte>)
    requires n < Pow256(width)
    ensures |r| == width
  {
    if width == 0 then [] else [n % 256] + Encode(n / 256, width - 1)
  }

  function Decode(bs: seq<byte>): (n: nat)
    ensures n < Pow256(|bs|)
  {
    if |bs| == 0 then 0 else bs[0] + 256 * Decode(bs[1..])
  }

  lemma {:induction false} DecodeEncode(n: nat, width: nat)
    requires n < Pow256(width)
    ensures Decode(Encode(n, width)) == n
  {
    if width > 0 {
      DecodeEncode(n / 256, width - 1);
      assert Encode(n, width)[1..] == Encode(n / 256, width - 1);
    }
  }

  lemma {:induction false} EncodeDecode(bs: seq<byte>)
    ensures Encode(Decode(bs), |bs|) == bs
  {
    if |bs| > 0 {
      EncodeDecode(bs[1..]);
      assert (bs[0] + 256 * Decode(bs[1..])) / 256 == Decode(bs[1..]);
      assert bs == [bs[0]] + bs[1..];
    }
  }

  lemma Pow256Of8()
    ensures Pow256(UINT64_SIZE) == TWO_TO_THE_64
  {
  }

  /** `binary.LittleEndian.PutUint64`. */
  function PutUint64(u: nat): (r: seq<byte>)
    requires u < TWO_TO_THE_64
    ensures |r| == UINT64_SIZE
    ensures Uint64(r) == u
  {
    Pow256Of8();
    DecodeEncode(u, UINT64_SIZE);
    Encode(u, UINT64_SIZE)
  }

  /** `binary.LittleEndian.Uint64`. */
  function Uint64(bs: seq<byte>): (u: nat)
    requires |bs| == UINT64_SIZE
    ensures u < TWO_TO_THE_64
  {
    Pow256Of8();
    Decode(bs)
  }

  lemma PutUint64OfUint64(bs: seq<byte>)
    requires |bs| == UINT64_SIZE
    ensures PutUint64(Uint64(bs)) == bs
  {
    Pow256Of8();
    EncodeDecode(bs);
  }
}
