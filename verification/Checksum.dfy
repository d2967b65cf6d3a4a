/** A running checksum over a byte stream. The polynomial is abstract: a step
    function, and a fold of it. */
module Checksum {
  import opened Bytes

  type Crc = x: int | 0 <= x < 0x1_0000_0000
  type CrcStep = (Crc, byte) -> Crc

  function Update(step: CrcStep, crc: Crc, bytes: seq<byte>): Crc
  {
    if bytes == [] then crc
    else step(Update(step, crc, bytes[..|bytes| - 1]), bytes[|bytes| - 1])
  }

  /** Nothing changes nothing, and one byte is one step. */
  lemma UpdateByOne(step: CrcStep, crc: Crc, b: byte)
    ensures Update(step, crc, []) == crc && Update(step, crc, [b]) == step(crc, b)
  {
    assert [b][..0] == [];
  }

  /** Feeding two stretches one after the other is feeding their concatenation. */
  lemma {:induction false} UpdateAppend(step: CrcStep, crc: Crc, a: seq<byte>, b: seq<byte>)
    ensures Update(step, crc, a + b) == Update(step, Update(step, crc, a), b)
  {
    if b == [] {
      assert a + b == a;
    } else {
      var n := |b| - 1;
      assert (a + b)[..|a| + n] == a + b[..n];
      UpdateAppend(step, crc, a, b[..n]);
    }
  }
}
