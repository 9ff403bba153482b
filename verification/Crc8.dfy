/** The CRC-8 of FLAC frame headers (section 9.1.8 of RFC 9639), bit by bit and by table. */
module Crc8 {
  import opened Bits

  /** One bit of the shift register for x^8 + x^2 + x + 1. */
  function BitStep(c: Byte): Byte {
    (c << 1) ^ (if c & 0x80 == 0x80 then 0x07 else 0)
  }

  function Steps(c: Byte, n: nat): Byte {
    if n == 0 then c else BitStep(Steps(c, n - 1))
  }

  /** The CRC of a byte string that follows what gave c. */
  function Crc(c: Byte, data: seq<Byte>): Byte {
    if data == [] then c else Steps(Crc(c, data[..|data| - 1]) ^ data[|data| - 1], 8)
  }

  /** Entry i of the lookup table. */
  function Table(i: Byte): Byte {
    Steps(i, 8)
  }

  /** calculate_crc8 */
  method Calculate(data: seq<Byte>) returns (crc: Byte)
    ensures crc == Crc(0, data)
  {
    hide Steps;
    crc := 0;
    for i := 0 to |data|
      invariant crc == Crc(0, data[..i])
    {
      assert data[..i + 1][..i] == data[..i];
      crc := Table(crc ^ data[i]);
    }
    assert data[..|data|] == data;
  }
}
