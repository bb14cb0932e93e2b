/** Fixed-width little-endian numbers. */
module LittleEndian {
  import opened Common

  function Limit(width: nat): (n: nat)
    ensures n > 0
  {
    if width == 0 then 1 else 256 * Limit(width - 1)
  }

  /** The `i`-th base-256 digit. */
  function Digit(x: nat, i: nat): Byte
    decreases i
  {
    if i == 0 then (x % 256) as Byte else Digit(x / 256, i - 1)
  }

  function ToLE(x: nat, width: nat): (bs: Bytes)
    ensures |bs| == width
  {
    seq(width, i requires 0 <= i < width => Digit(x, i))
  }

  function FromLE(bs: Bytes): (x: nat)
    ensures x < Limit(|bs|)
  {
    if bs == [] then 0 else bs[0] as nat + 256 * FromLE(bs[1..])
  }

  /** A number that fits its width is read back unchanged. */
  lemma {:induction false} FromToLE(x: nat, width: nat)
    requires x < Limit(width)
    ensures FromLE(ToLE(x, width)) == x
  {
    if width > 0 {
      FromToLE(x / 256, width - 1);
      assert ToLE(x, width)[1..] == ToLE(x / 256, width - 1);
    }
  }

  lemma Widths()
    ensures Limit(4) == 0x1_0000_0000 && Limit(8) == 0x1_0000_0000_0000_0000
  {
    assert Limit(2) == 65536 && Limit(3) == 0x100_0000 && Limit(4) == 0x1_0000_0000;
    assert Limit(5) == 0x100_0000_0000 && Limit(6) == 0x1_0000_0000_0000 && Limit(7) == 0x100_0000_0000_0000;
  }
}
