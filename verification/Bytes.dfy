/** Bytes, and the 64-bit arithmetic of the machine the logger runs on. */
module Bytes {
  newtype byte = x: int | 0 <= x < 256

  const TWO_TO_64: nat := 0x1_0000_0000_0000_0000

  /** `a - b` on the unsigned 64-bit type the positions have: it wraps instead of going negative. */
  function SubU64(a: nat, b: nat): nat {
    if b <= a then a - b else (a - b) % TWO_TO_64
  }

  /** The `n` little-endian bytes of `v` (a store of an `n`-byte unsigned object). */
  function Encode(v: nat, n: nat): (bs: seq<byte>)
    ensures |bs| == n
    decreases n
  {
    if n == 0 then [] else [(v % 256) as byte] + Encode(v / 256, n - 1)
  }

  /** The unsigned value of little-endian bytes (a load of such an object). */
  function Decode(bs: seq<byte>): nat {
    if bs == [] then 0 else bs[0] as nat + 256 * Decode(bs[1..])
  }

  /** The least significant byte comes first. */
  lemma LittleEndian(bs: seq<byte>)
    ensures |bs| == 1 ==> Decode(bs) == bs[0] as nat
    ensures |bs| == 2 ==> Decode(bs) == bs[0] as nat + 0x100 * bs[1] as nat
    ensures |bs| == 4 ==>
      Decode(bs) == bs[0] as nat + 0x100 * bs[1] as nat + 0x1_0000 * bs[2] as nat + 0x100_0000 * bs[3] as nat
    ensures |bs| == 8 ==>
      Decode(bs) == Decode(bs[..4]) + 0x1_0000_0000 * Decode(bs[4..])
  {
    if |bs| == 1 {
      assert Decode(bs[1..]) == 0;
    } else if |bs| == 2 {
      LittleEndian(bs[1..]);
    } else if |bs| == 4 {
      LittleEndian(bs[2..]);
      assert Decode(bs[1..]) == bs[1] as nat + 256 * Decode(bs[1..][1..]) && bs[1..][1..] == bs[2..];
    } else if |bs| == 8 {
      SplitDecode(bs[..4], bs[4..]);
      assert bs == bs[..4] + bs[4..];
    }
  }

  lemma SplitDecode(a: seq<byte>, b: seq<byte>)
    requires |a| == 4
    ensures Decode(a + b) == Decode(a) + 0x1_0000_0000 * Decode(b)
  {
    OneFirst(a, b);
    OneFirst(a[1..], b);
    OneFirst(a[2..], b);
    OneFirst(a[3..], b);
    assert a[1..][1..] == a[2..] && a[2..][1..] == a[3..] && a[3..][1..] == [] && [] + b == b;
  }

  lemma OneFirst(a: seq<byte>, b: seq<byte>)
    requires a != []
    ensures Decode(a + b) == a[0] as nat + 256 * Decode(a[1..] + b)
    ensures Decode(a) == a[0] as nat + 256 * Decode(a[1..])
  {
    assert (a + b)[1..] == a[1..] + b;
  }

  function Pow256(n: nat): (r: nat)
    ensures r >= 1
  {
    if n == 0 then 1 else 256 * Pow256(n - 1)
  }

  /** A load gives back what was stored, for every value the object can hold. */
  lemma {:induction false} DecodeEncode(v: nat, n: nat)
    requires v < Pow256(n)
    ensures Decode(Encode(v, n)) == v
    decreases n
  {
    if n > 0 {
      assert v / 256 < Pow256(n - 1);
      DecodeEncode(v / 256, n - 1);
      assert Encode(v, n)[1..] == Encode(v / 256, n - 1);
    }
  }

  function Flatten(parts: seq<seq<byte>>): seq<byte> {
    if parts == [] then [] else parts[0] + Flatten(parts[1..])
  }
}
