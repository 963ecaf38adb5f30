/** Fixed-width integers of the C# code: the register values travel as 16-bit words. */
module Words {

  /** C# `short` (`Int16`). */
  type Int16 = x: int | -32768 <= x < 32768

  /** C# `ushort` (`UInt16`). */
  type UInt16 = x: int | 0 <= x < 65536

  /** The unchecked cast `(ushort)x`: the low 16 bits of `x`. */
  function Wrap16(x: int): (r: UInt16)
    ensures (r - x) % 65536 == 0
  {
    x % 65536
  }

  /** The unchecked cast `(short)x`; equally, the low 16 bits of `x` read back as a
      two's-complement word (`BitConverter.ToInt16(BitConverter.GetBytes((ushort)x), 0)`). */
  function AsInt16(x: int): (r: Int16)
    ensures (r - x) % 65536 == 0
  {
    var u := Wrap16(x);
    if u < 32768 then u else u - 65536
  }

  /** A raw unsigned word decodes to itself below 32768 and to itself minus 65536 above,
      so 65535 is -1; values already in range are unchanged, hence decoding is idempotent. */
  lemma DecodeWord(u: UInt16)
    ensures AsInt16(u) == if u < 32768 then u else u - 65536
    ensures AsInt16(65535) == -1 && AsInt16(32768) == -32768 && AsInt16(32767) == 32767
    ensures AsInt16(AsInt16(u)) == AsInt16(u)
  {
    InRangeUnchanged(AsInt16(u));
  }

  /** The cast changes nothing on a value that already fits in 16 signed bits. */
  lemma InRangeUnchanged(x: int)
    requires -32768 <= x < 32768
    ensures AsInt16(x) == x
  {
    if x < 0 {
      assert Wrap16(x) == x + 65536;
    }
  }

  /** Two integers with the same low 16 bits decode alike. */
  lemma DecodeCongruent(x: int, y: int)
    requires (x - y) % 65536 == 0
    ensures AsInt16(x) == AsInt16(y)
  {
    var k := (x - y) / 65536;
    assert x == y + 65536 * k;
    assert Wrap16(x) == Wrap16(y);
  }
}
