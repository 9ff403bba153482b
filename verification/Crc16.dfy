/** The CRC-16 of FLAC frames (section 9.3 of RFC 9639), bit by bit, by table and sliced by eight. */
module Crc16 {
  import opened Bits

  // The machine operators, named so that proofs can treat them as a whole.

  function Xor(a: bv16, b: bv16): bv16 { a ^ b }

  function Left8(c: bv16): bv16 { c << 8 }

  function TopByte(c: bv16): Byte { (c >> 8) as bv8 }

  function LowByte(c: bv16): Byte { (c & 0xFF) as bv8 }

  function AtTop(b: Byte): bv16 { (b as bv16) << 8 }

  function AtBottom(b: Byte): bv16 { b as bv16 }

  /** One bit of the shift register for x^16 + x^15 + x^2 + 1. */
  function BitStep(c: bv16): bv16 {
    (c << 1) ^ (if c & 0x8000 == 0x8000 then 0x8005 else 0)
  }

  /** n zero bits. */
  function Steps(c: bv16, n: nat): bv16 {
    if n == 0 then c else BitStep(Steps(c, n - 1))
  }

  /** One more byte, bit by bit. */
  function ByteStep(c: bv16, b: Byte): bv16 {
    Steps(Xor(c, AtTop(b)), 8)
  }

  /** The CRC of a byte string that follows what gave c. */
  function Crc(c: bv16, data: seq<Byte>): bv16 {
    if data == [] then c else ByteStep(Crc(c, data[..|data| - 1]), data[|data| - 1])
  }

  /** Entry i of lookup table k; each table is the one before it pushed through a zero byte. */
  function Table(k: nat, i: Byte): bv16 {
    if k == 0 then Steps(AtTop(i), 8)
    else
      var t := Table(k - 1, i);
      Xor(Left8(t), Table(0, TopByte(t)))
  }

  /** update_crc16: eight bytes at a time, then the rest one by one. */
  method Update(crc: bv16, data: seq<Byte>) returns (r: bv16)
    ensures r == Crc(crc, data)
  {
    hide Table, Xor, Left8, TopByte, LowByte, ByteStep, Crc;
    r := crc;
    CrcOfNone(crc, data);
    var i, end8 := 0, |data| - |data| % 8;
    while i < end8
      invariant i % 8 == 0 && i <= end8 && r == Crc(crc, data[..i])
    {
      SliceOfEight(crc, data, i);
      r := Xor(Xor(Xor(Xor(Xor(Xor(Xor(
        Table(7, TopByte(r) ^ data[i]), Table(6, LowByte(r) ^ data[i + 1])), Table(5, data[i + 2])), Table(4, data[i + 3])),
        Table(3, data[i + 4])), Table(2, data[i + 5])), Table(1, data[i + 6])), Table(0, data[i + 7]));
      i := i + 8;
    }
    r := UpdateBytes(crc, r, data, i);
  }

  lemma CrcOfNone(crc: bv16, data: seq<Byte>)
    ensures Crc(crc, data[..0]) == crc
  {
  }

  /** The rest, one by one */
  method UpdateBytes(ghost crc: bv16, sofar: bv16, data: seq<Byte>, from: nat) returns (r: bv16)
    requires from <= |data| && sofar == Crc(crc, data[..from])
    ensures r == Crc(crc, data)
  {
    hide Table, Xor, Left8, TopByte, LowByte, ByteStep, Crc;
    r := sofar;
    for i := from to |data|
      invariant r == Crc(crc, data[..i])
    {
      TableStep(r, data[i]);
      assert data[..i + 1] == data[..i] + [data[i]];
      CrcAppend(crc, data[..i], data[i]);
      r := Xor(Left8(r), Table(0, TopByte(r) ^ data[i]));
    }
    assert data[..|data|] == data;
  }

  lemma CrcAppend(c: bv16, data: seq<Byte>, b: Byte)
    ensures Crc(c, data + [b]) == ByteStep(Crc(c, data), b)
  {
    assert (data + [b])[..|data|] == data;
  }

  /** A running CRC may be fed a string in two pieces. */
  lemma {:induction false} CrcConcat(c: bv16, a: seq<Byte>, b: seq<Byte>)
    ensures Crc(c, a + b) == Crc(Crc(c, a), b)
  {
    if b == [] {
      assert a + b == a;
    } else {
      var front, last := b[..|b| - 1], b[|b| - 1];
      CrcConcat(c, a, front);
      CrcAppend(c, a + front, last);
      assert a + b == (a + front) + [last];
    }
  }

  // The register is linear.

  lemma XorLaws(a: bv16, b: bv16, c: bv16, d: bv16)
    ensures Xor(Xor(a, b), Xor(c, d)) == Xor(Xor(a, c), Xor(b, d))
    ensures Xor(a, Xor(b, c)) == Xor(Xor(a, b), c)
    ensures Xor(a, b) == Xor(b, a)
    ensures Xor(a, 0) == a
  {
  }

  lemma BitStepXor(a: bv16, b: bv16)
    ensures BitStep(a ^ b) == BitStep(a) ^ BitStep(b)
  {
    if a & 0x8000 == 0x8000 {
      if b & 0x8000 == 0x8000 {
      } else {
      }
    } else {
      if b & 0x8000 == 0x8000 {
      } else {
      }
    }
  }

  lemma BitStepLinear(a: bv16, b: bv16)
    ensures BitStep(Xor(a, b)) == Xor(BitStep(a), BitStep(b))
  {
    BitStepXor(a, b);
    hide BitStep;
  }

  lemma {:induction false} StepsLinear(a: bv16, b: bv16, n: nat)
    ensures Steps(Xor(a, b), n) == Xor(Steps(a, n), Steps(b, n))
  {
    hide BitStep, Xor;
    if n > 0 {
      StepsLinear(a, b, n - 1);
      BitStepLinear(Steps(a, n - 1), Steps(b, n - 1));
    }
  }

  lemma {:induction false} StepsAdd(c: bv16, m: nat, n: nat)
    ensures Steps(Steps(c, m), n) == Steps(c, m + n)
  {
    hide BitStep;
    if n > 0 {
      StepsAdd(c, m, n - 1);
    }
  }

  /** While the top bit stays clear the register only shifts. */
  lemma LowStep(c: bv16)
    requires c & 0x8000 == 0
    ensures BitStep(c) == c << 1
  {
  }

  lemma StepsOfBottom(b: Byte)
    ensures Steps(AtBottom(b), 8) == AtTop(b)
  {
    var c := AtBottom(b);
    var c1 := c << 1;
    var c2, c3 := c1 << 1, (c1 << 1) << 1;
    var c4, c5 := c3 << 1, (c3 << 1) << 1;
    var c6, c7 := c5 << 1, (c5 << 1) << 1;
    BottomBits(b);
    hide BitStep, AtBottom, AtTop;
    LowStep(c);
    LowStep(c1);
    LowStep(c2);
    LowStep(c3);
    LowStep(c4);
    LowStep(c5);
    LowStep(c6);
    LowStep(c7);
    assert Steps(c, 0) == c;
    assert Steps(c, 1) == c1;
    assert Steps(c, 2) == c2;
    assert Steps(c, 3) == c3;
    assert Steps(c, 4) == c4;
    assert Steps(c, 5) == c5;
    assert Steps(c, 6) == c6;
    assert Steps(c, 7) == c7;
  }

  lemma BottomBits(b: Byte)
    ensures var c := b as bv16;
      && c & 0x8000 == 0 && (c << 1) & 0x8000 == 0
      && ((c << 1) << 1) & 0x8000 == 0 && (((c << 1) << 1) << 1) & 0x8000 == 0
      && ((((c << 1) << 1) << 1) << 1) & 0x8000 == 0 && (((((c << 1) << 1) << 1) << 1) << 1) & 0x8000 == 0
      && ((((((c << 1) << 1) << 1) << 1) << 1) << 1) & 0x8000 == 0
      && (((((((c << 1) << 1) << 1) << 1) << 1) << 1) << 1) & 0x8000 == 0
      && ((((((((c << 1) << 1) << 1) << 1) << 1) << 1) << 1) << 1) == c << 8
  {
  }

  lemma Halves(c: bv16, b: Byte)
    ensures Xor(c, AtTop(b)) == Xor(AtTop(TopByte(c) ^ b), AtBottom(LowByte(c)))
    ensures AtTop(LowByte(c)) == Left8(c)
  {
  }

  /** The table form of one byte. */
  lemma TableStep(c: bv16, b: Byte)
    ensures Xor(Left8(c), Table(0, TopByte(c) ^ b)) == ByteStep(c, b)
  {
    Halves(c, b);
    hide Xor, AtTop, AtBottom, TopByte, LowByte, Left8, BitStep, Steps;
    var hi, lo := AtTop(TopByte(c) ^ b), AtBottom(LowByte(c));
    StepsLinear(hi, lo, 8);
    StepsOfBottom(LowByte(c));
    XorLaws(Steps(hi, 8), Left8(c), 0, 0);
  }

  lemma NoByte(c: bv16)
    ensures Xor(c, AtTop(0)) == c
    ensures TopByte(c) ^ 0 == TopByte(c)
  {
  }

  lemma {:induction false} TableIsSteps(k: nat, i: Byte)
    ensures Table(k, i) == Steps(AtTop(i), 8 * k + 8)
  {
    hide Xor, AtTop, TopByte, Left8, BitStep;
    if k > 0 {
      TableIsSteps(k - 1, i);
      var t := Table(k - 1, i);
      TableStep(t, 0);
      NoByte(t);
      StepsAdd(AtTop(i), 8 * k, 8);
    }
  }

  lemma {:induction false} CrcLinear(c: bv16, data: seq<Byte>)
    ensures Crc(c, data) == Xor(Steps(c, 8 * |data|), Crc(0, data))
  {
    hide Xor, AtTop, BitStep;
    if data == [] {
      XorLaws(c, 0, 0, 0);
    } else {
      var front, b := data[..|data| - 1], AtTop(data[|data| - 1]);
      CrcLinear(c, front);
      var s, z := Steps(c, 8 * |front|), Crc(0, front);
      XorLaws(s, z, b, 0);
      StepsLinear(s, Xor(z, b), 8);
      StepsAdd(c, 8 * |front|, 8);
    }
  }

  /** The tables of a string's bytes, the first byte in the highest table. */
  function Sliced(data: seq<Byte>): bv16 {
    if data == [] then 0 else Xor(Table(|data| - 1, data[0]), Sliced(data[1..]))
  }

  lemma {:induction false} CrcIsSliced(data: seq<Byte>)
    ensures Crc(0, data) == Sliced(data)
  {
    hide Xor, AtTop, BitStep;
    if data != [] {
      var b, rest := data[0], data[1..];
      CrcIsSliced(rest);
      assert data == [b] + rest;
      CrcConcat(0, [b], rest);
      CrcAppend(0, [], b);
      assert [] + [b] == [b];
      XorLaws(0, AtTop(b), 0, 0);
      XorLaws(AtTop(b), 0, 0, 0);
      CrcLinear(ByteStep(0, b), rest);
      StepsAdd(AtTop(b), 8, 8 * |rest|);
      TableIsSteps(|rest|, b);
    }
  }

  lemma TopSplit(s: bv16, lo: Byte, b: Byte)
    ensures Xor(Xor(s, AtTop(lo)), AtTop(b)) == Xor(s, AtTop(lo ^ b))
  {
  }

  /** The two register bytes act as if they were part of the first two input bytes. */
  lemma RegisterFolds(c: bv16, b0: Byte, b1: Byte)
    ensures ByteStep(ByteStep(c, b0), b1) == ByteStep(ByteStep(0, TopByte(c) ^ b0), LowByte(c) ^ b1)
  {
    hide Xor, AtTop, AtBottom, TopByte, LowByte, BitStep, Steps;
    var hi, lo := TopByte(c) ^ b0, LowByte(c);
    Halves(c, b0);
    StepsLinear(AtTop(hi), AtBottom(lo), 8);
    StepsOfBottom(lo);
    XorLaws(0, AtTop(hi), 0, 0);
    XorLaws(AtTop(hi), 0, 0, 0);
    TopSplit(Steps(AtTop(hi), 8), lo, b1);
  }

  lemma XorEight(a: bv16, b: bv16, c: bv16, d: bv16, e: bv16, f: bv16, g: bv16, h: bv16)
    ensures Xor(a, Xor(b, Xor(c, Xor(d, Xor(e, Xor(f, Xor(g, Xor(h, 0)))))))) == Xor(Xor(Xor(Xor(Xor(Xor(Xor(a, b), c), d), e), f), g), h)
  {
    var x2 := Xor(a, b);
    var x3 := Xor(x2, c);
    var x4 := Xor(x3, d);
    var x5 := Xor(x4, e);
    var x6 := Xor(x5, f);
    hide Xor;
    XorLaws(h, 0, 0, 0);
    XorLaws(a, b, Xor(c, Xor(d, Xor(e, Xor(f, Xor(g, h))))), 0);
    XorLaws(x2, c, Xor(d, Xor(e, Xor(f, Xor(g, h)))), 0);
    XorLaws(x3, d, Xor(e, Xor(f, Xor(g, h))), 0);
    XorLaws(x4, e, Xor(f, Xor(g, h)), 0);
    XorLaws(x5, f, Xor(g, h), 0);
    XorLaws(x6, g, h, 0);
  }

  lemma SlicedOfEight(d: seq<Byte>)
    requires |d| == 8
    ensures Sliced(d) == Xor(Xor(Xor(Xor(Xor(Xor(Xor(
        Table(7, d[0]), Table(6, d[1])), Table(5, d[2])), Table(4, d[3])),
        Table(3, d[4])), Table(2, d[5])), Table(1, d[6])), Table(0, d[7]))
  {
    hide Xor, Table;
    assert d[1..][1..] == d[2..] && d[2..][1..] == d[3..] && d[3..][1..] == d[4..] && d[4..][1..] == d[5..];
    assert d[5..][1..] == d[6..] && d[6..][1..] == d[7..] && d[7..][1..] == [];
    assert Sliced(d[7..]) == Xor(Table(0, d[7]), 0);
    assert Sliced(d[6..]) == Xor(Table(1, d[6]), Sliced(d[7..]));
    assert Sliced(d[5..]) == Xor(Table(2, d[5]), Sliced(d[6..]));
    assert Sliced(d[4..]) == Xor(Table(3, d[4]), Sliced(d[5..]));
    assert Sliced(d[3..]) == Xor(Table(4, d[3]), Sliced(d[4..]));
    assert Sliced(d[2..]) == Xor(Table(5, d[2]), Sliced(d[3..]));
    assert Sliced(d[1..]) == Xor(Table(6, d[1]), Sliced(d[2..]));
    XorEight(Table(7, d[0]), Table(6, d[1]), Table(5, d[2]), Table(4, d[3]), Table(3, d[4]), Table(2, d[5]), Table(1, d[6]), Table(0, d[7]));
  }

  /** One turn of the sliced loop takes the register over the next eight bytes. */
  lemma SliceOfEight(crc: bv16, data: seq<Byte>, i: nat)
    requires i + 8 <= |data|
    ensures var r := Crc(crc, data[..i]);
      Crc(crc, data[..i + 8]) == Xor(Xor(Xor(Xor(Xor(Xor(Xor(
        Table(7, TopByte(r) ^ data[i]), Table(6, LowByte(r) ^ data[i + 1])), Table(5, data[i + 2])), Table(4, data[i + 3])),
        Table(3, data[i + 4])), Table(2, data[i + 5])), Table(1, data[i + 6])), Table(0, data[i + 7]))
  {
    hide Xor, Table, TopByte, LowByte, ByteStep, Crc, Sliced;
    var next := data[i..i + 8];
    assert data[..i + 8] == data[..i] + next;
    CrcConcat(crc, data[..i], next);
    CrcFolded(Crc(crc, data[..i]), next);
  }

  lemma CrcFolded(r: bv16, d: seq<Byte>)
    requires |d| == 8
    ensures Crc(r, d) == Xor(Xor(Xor(Xor(Xor(Xor(Xor(
        Table(7, TopByte(r) ^ d[0]), Table(6, LowByte(r) ^ d[1])), Table(5, d[2])), Table(4, d[3])),
        Table(3, d[4])), Table(2, d[5])), Table(1, d[6])), Table(0, d[7]))
  {
    hide Xor, Table, TopByte, LowByte, ByteStep, Crc, Sliced;
    var x, y, rest := TopByte(r) ^ d[0], LowByte(r) ^ d[1], d[2..];
    CrcOfTwo(r, d[0], d[1], rest);
    CrcOfTwo(0, x, y, rest);
    assert d == [d[0], d[1]] + rest;
    RegisterFolds(r, d[0], d[1]);
    var folded := d[0 := x][1 := y];
    assert folded == [x, y] + rest;
    CrcIsSliced(folded);
    SlicedOfEight(folded);
  }

  lemma CrcOfTwo(c: bv16, x: Byte, y: Byte, rest: seq<Byte>)
    ensures Crc(c, [x, y] + rest) == Crc(ByteStep(ByteStep(c, x), y), rest)
  {
    hide ByteStep;
    CrcConcat(c, [x, y], rest);
    CrcAppend(c, [x], y);
    CrcAppend(c, [], x);
    assert [] + [x] == [x] && [x] + [y] == [x, y];
  }
}
