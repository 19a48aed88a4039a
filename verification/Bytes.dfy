/** Bytes and fixed-width numbers. */
module Bytes {
  type byte = n: int | 0 <= n < 256

  function Power256(width: nat): nat {
    if width == 0 then 1 else 256 * Power256(width - 1)
  }

  // The lower `width` bytes of a number, most significant first.
  function BigEndian(n: nat, width: nat): (s: seq<byte>)
    ensures |s| == width
  {
    if width == 0 then [] else BigEndian(n / 256, width - 1) + [n % 256]
  }

  function BigNumber(s: seq<byte>): nat {
    if s == [] then 0 else 256 * BigNumber(s[..|s| - 1]) + s[|s| - 1]
  }

  function LittleEndian(n: nat, width: nat): (s: seq<byte>)
    ensures |s| == width
  {
    if width == 0 then [] else [n % 256] + LittleEndian(n / 256, width - 1)
  }

  function LittleNumber(s: seq<byte>): nat {
    if s == [] then 0 else s[0] + 256 * LittleNumber(s[1..])
  }

  lemma {:induction false} BigEndianRoundTrip(n: nat, width: nat)
    requires n < Power256(width)
    ensures BigNumber(BigEndian(n, width)) == n
  {
    if width > 0 {
      BigEndianRoundTrip(n / 256, width - 1);
      var s := BigEndian(n, width);
      assert s[..|s| - 1] == BigEndian(n / 256, width - 1);
    }
  }

  // The most significant byte comes first.
  lemma {:induction false} SmallBigEndian(n: nat, width: nat)
    requires 0 < width && n < 256
    ensures BigEndian(n, width) == seq(width - 1, _ => 0) + [n]
  {
    if width == 1 {
      assert BigEndian(0, 0) == [];
    } else {
      SmallBigEndian(0, width - 1);
    }
  }

  lemma {:induction false} LittleEndianRoundTrip(n: nat, width: nat)
    requires n < Power256(width)
    ensures LittleNumber(LittleEndian(n, width)) == n
  {
    if width > 0 {
      LittleEndianRoundTrip(n / 256, width - 1);
    }
  }
}
