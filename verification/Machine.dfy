/** Two's complement registers of 32 and 64 bits. */
module Machine {

  type Uint32 = x: int | 0 <= x < 0x1_0000_0000

  /** static_cast<int32_t>, also what an overflowing 32-bit operation leaves behind */
  function Wrap32(x: int): (r: int)
    ensures Fits32(r)
    ensures Fits32(x) ==> r == x
  {
    (x + 0x8000_0000) % 0x1_0000_0000 - 0x8000_0000
  }

  /** static_cast<int64_t> */
  function Wrap64(x: int): (r: int)
    ensures Fits64(r)
    ensures Fits64(x) ==> r == x
  {
    (x + 0x8000_0000_0000_0000) % 0x1_0000_0000_0000_0000 - 0x8000_0000_0000_0000
  }

  predicate Fits32(x: int) {
    -0x8000_0000 <= x < 0x8000_0000
  }

  predicate Fits64(x: int) {
    -0x8000_0000_0000_0000 <= x < 0x8000_0000_0000_0000
  }

  lemma Wrap32Shift(x: int, k: int)
    ensures Wrap32(x + k * 0x1_0000_0000) == Wrap32(x)
  {
  }

  lemma Wrap64Shift(x: int, k: int)
    ensures Wrap64(x + k * 0x1_0000_0000_0000_0000) == Wrap64(x)
  {
  }

  lemma Wrap32Multiple(x: int) returns (k: int)
    ensures Wrap32(x) == x + k * 0x1_0000_0000
  {
    k := -((x + 0x8000_0000) / 0x1_0000_0000);
  }

  lemma Wrap64Multiple(x: int) returns (k: int)
    ensures Wrap64(x) == x + k * 0x1_0000_0000_0000_0000
  {
    k := -((x + 0x8000_0000_0000_0000) / 0x1_0000_0000_0000_0000);
  }

  /** Wrapping an operand first makes no difference to a wrapping sum. */
  lemma Wrap32Sum(x: int, y: int)
    ensures Wrap32(Wrap32(x) + y) == Wrap32(x + y)
    ensures Wrap32(y + Wrap32(x)) == Wrap32(x + y)
  {
    var k := Wrap32Multiple(x);
    Wrap32Shift(x + y, k);
  }

  lemma Wrap64Sum(x: int, y: int)
    ensures Wrap64(Wrap64(x) + y) == Wrap64(x + y)
    ensures Wrap64(y + Wrap64(x)) == Wrap64(x + y)
  {
    var k := Wrap64Multiple(x);
    Wrap64Shift(x + y, k);
  }
}
