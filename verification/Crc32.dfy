/** The CRC-32 of Ogg pages (RFC 3533): bit by bit, byte by byte from a table, and a word at a time. */
module Crc32 {
  import opened Bits

  // The machine operators, named so that proofs can treat them as a whole.

  function Xor(a: bv32, b: bv32): bv32 { a ^ b }

  function Left8(c: bv32): bv32 { c << 8 }

  function TopByte(c: bv32): Byte { (c >> 24) as bv8 }

  /** A byte in lane 0, the top one, to 3. */
  function Lane(b: Byte, k: nat): bv32
    requires k < 4
  {
    match k
    case 0 => (b as bv32) << 24
    case 1 => (b as bv32) << 16
    case 2 => (b as bv32) << 8
    case _ => b as bv32
  }

  /** One byte of zeros through a table. */
  function Fold(table: Byte -> bv32, c: bv32): bv32 {
    Xor(table(TopByte(c)), Left8(c))
  }

  /** The byte loop, for any table. */
  function ByTable(table: Byte -> bv32, c: bv32, data: seq<Byte>): bv32 {
    if data == [] then c
    else
      var r := ByTable(table, c, data[..|data| - 1]);
      Xor(Left8(r), table(TopByte(r) ^ data[|data| - 1]))
  }

  lemma {:induction false} ByTableConcat(table: Byte -> bv32, c: bv32, a: seq<Byte>, b: seq<Byte>)
    ensures ByTable(table, c, a + b) == ByTable(table, ByTable(table, c, a), b)
  {
    hide Xor, Left8, TopByte;
    if b == [] {
      assert a + b == a;
    } else {
      ByTableConcat(table, c, a, b[..|b| - 1]);
      assert (a + b)[..|a + b| - 1] == a + b[..|b| - 1];
    }
  }

  lemma XorLaws(a: bv32, b: bv32, c: bv32)
    ensures Xor(a, b) == Xor(b, a)
    ensures Xor(Xor(a, b), c) == Xor(a, Xor(b, c))
  {
  }

  /** A byte below the top one only moves up. */
  lemma LaneMoves(c: bv32, b: Byte, k: nat)
    requires 0 < k < 4
    ensures TopByte(Xor(c, Lane(b, k))) == TopByte(c)
    ensures Left8(Xor(c, Lane(b, k))) == Xor(Left8(c), Lane(b, k - 1))
  {
    hide Xor, Left8, TopByte;
    LowLane(b, k);
    TopXors(c, Lane(b, k));
    LeftXors(c, Lane(b, k));
  }

  lemma LowLane(b: Byte, k: nat)
    requires 0 < k < 4
    ensures TopByte(Lane(b, k)) == 0 && Left8(Lane(b, k)) == Lane(b, k - 1)
  {
  }

  lemma TopXors(c: bv32, d: bv32)
    ensures TopByte(d) == 0 ==> TopByte(Xor(c, d)) == TopByte(c)
  {
  }

  lemma LeftXors(c: bv32, d: bv32)
    ensures Left8(Xor(c, d)) == Xor(Left8(c), Left8(d))
  {
  }

  lemma FoldLane(table: Byte -> bv32, c: bv32, b: Byte, k: nat)
    requires 0 < k < 4
    ensures Fold(table, Xor(c, Lane(b, k))) == Xor(Fold(table, c), Lane(b, k - 1))
  {
    hide Xor, Left8, TopByte, Lane;
    LaneMoves(c, b, k);
    XorLaws(table(TopByte(c)), Left8(c), Lane(b, k - 1));
  }

  lemma TopLane(c: bv32, b: Byte)
    ensures TopByte(Xor(c, Lane(b, 0))) == TopByte(c) ^ b
    ensures Left8(Xor(c, Lane(b, 0))) == Left8(c)
  {
  }

  /** The byte step is a fold of the register with the byte in its top lane. */
  lemma ByteFold(table: Byte -> bv32, c: bv32, data: seq<Byte>, b: Byte)
    ensures ByTable(table, c, data + [b]) == Fold(table, Xor(ByTable(table, c, data), Lane(b, 0)))
  {
    hide Xor, Left8, TopByte, Lane;
    var r := ByTable(table, c, data);
    assert (data + [b])[..|data|] == data;
    TopLane(r, b);
    XorLaws(Left8(r), table(TopByte(r) ^ b), 0);
  }

  /** Four bytes, put into the register as one word and folded four times. */
  function WordStep(table: Byte -> bv32, c: bv32, b0: Byte, b1: Byte, b2: Byte, b3: Byte): bv32 {
    var x := Xor(Xor(Xor(Xor(c, Lane(b0, 0)), Lane(b1, 1)), Lane(b2, 2)), Lane(b3, 3));
    Fold(table, Fold(table, Fold(table, Fold(table, x))))
  }

  /** The first fold of a word leaves the word of its other three bytes, one lane up. */
  lemma FoldWord(table: Byte -> bv32, x: bv32, b1: Byte, b2: Byte, b3: Byte)
    ensures Fold(table, Xor(Xor(Xor(x, Lane(b1, 1)), Lane(b2, 2)), Lane(b3, 3)))
            == Xor(Xor(Xor(Fold(table, x), Lane(b1, 0)), Lane(b2, 1)), Lane(b3, 2))
  {
    hide Xor, Lane, Fold;
    FoldLane(table, Xor(Xor(x, Lane(b1, 1)), Lane(b2, 2)), b3, 3);
    FoldLane(table, Xor(x, Lane(b1, 1)), b2, 2);
    FoldLane(table, x, b1, 1);
  }

  lemma FoldHalf(table: Byte -> bv32, x: bv32, b2: Byte, b3: Byte)
    ensures Fold(table, Xor(Xor(x, Lane(b2, 1)), Lane(b3, 2))) == Xor(Xor(Fold(table, x), Lane(b2, 0)), Lane(b3, 1))
  {
    hide Xor, Lane, Fold;
    FoldLane(table, Xor(x, Lane(b2, 1)), b3, 2);
    FoldLane(table, x, b2, 1);
  }

  lemma FourBytes(table: Byte -> bv32, c: bv32, b0: Byte, b1: Byte, b2: Byte, b3: Byte)
    ensures var y0 := Fold(table, Xor(c, Lane(b0, 0)));
      var y1 := Fold(table, Xor(y0, Lane(b1, 0)));
      var y2 := Fold(table, Xor(y1, Lane(b2, 0)));
      ByTable(table, c, [b0, b1, b2, b3]) == Fold(table, Xor(y2, Lane(b3, 0)))
  {
    hide Xor, Lane, Fold, ByTable;
    NoBytes(table, c);
    ByteFold(table, c, [], b0);
    ByteFold(table, c, [b0], b1);
    ByteFold(table, c, [b0, b1], b2);
    ByteFold(table, c, [b0, b1, b2], b3);
    assert [] + [b0] == [b0] && [b0] + [b1] == [b0, b1] && [b0, b1] + [b2] == [b0, b1, b2] && [b0, b1, b2] + [b3] == [b0, b1, b2, b3];
  }

  lemma WordIsBytes(table: Byte -> bv32, c: bv32, b0: Byte, b1: Byte, b2: Byte, b3: Byte)
    ensures WordStep(table, c, b0, b1, b2, b3) == ByTable(table, c, [b0, b1, b2, b3])
  {
    hide Xor, Lane, Fold, ByTable;
    var y0 := Fold(table, Xor(c, Lane(b0, 0)));
    var y1 := Fold(table, Xor(y0, Lane(b1, 0)));
    FoldWord(table, Xor(c, Lane(b0, 0)), b1, b2, b3);
    FoldHalf(table, Xor(y0, Lane(b1, 0)), b2, b3);
    FoldLane(table, Xor(y1, Lane(b2, 0)), b3, 1);
    FourBytes(table, c, b0, b1, b2, b3);
  }

  /** calculate_crc32: two words at a time, then the rest byte by byte, for any table. */
  method Calculate(table: Byte -> bv32, data: seq<Byte>, seed: bv32) returns (crc: bv32)
    ensures crc == ByTable(table, seed, data)
  {
    hide Xor, Left8, TopByte, Lane, Fold, WordStep, ByTable;
    crc := seed;
    var i := 0;
    NoBytes(table, seed);
    while |data| - i >= 8
      invariant i <= |data| && crc == ByTable(table, seed, data[..i])
    {
      crc := WordStep(table, crc, data[i], data[i + 1], data[i + 2], data[i + 3]);
      crc := WordStep(table, crc, data[i + 4], data[i + 5], data[i + 6], data[i + 7]);
      TwoWords(table, seed, data, i);
      i := i + 8;
    }
    while i < |data|
      invariant i <= |data| && crc == ByTable(table, seed, data[..i])
    {
      OneMore(table, seed, data, i);
      crc := Xor(Left8(crc), table(TopByte(crc) ^ data[i]));
      i := i + 1;
    }
    assert data[..i] == data;
  }

  lemma NoBytes(table: Byte -> bv32, seed: bv32)
    ensures ByTable(table, seed, []) == seed
  {
  }

  lemma OneMore(table: Byte -> bv32, seed: bv32, data: seq<Byte>, i: nat)
    requires i < |data|
    ensures var r := ByTable(table, seed, data[..i]);
      ByTable(table, seed, data[..i + 1]) == Xor(Left8(r), table(TopByte(r) ^ data[i]))
  {
    assert data[..i + 1][..i] == data[..i];
  }

  lemma TwoWords(table: Byte -> bv32, seed: bv32, data: seq<Byte>, i: nat)
    requires i + 8 <= |data|
    ensures var r := WordStep(table, ByTable(table, seed, data[..i]), data[i], data[i + 1], data[i + 2], data[i + 3]);
      WordStep(table, r, data[i + 4], data[i + 5], data[i + 6], data[i + 7]) == ByTable(table, seed, data[..i + 8])
  {
    hide Xor, Left8, TopByte, Lane, Fold, WordStep, ByTable;
    var first, second := [data[i], data[i + 1], data[i + 2], data[i + 3]], [data[i + 4], data[i + 5], data[i + 6], data[i + 7]];
    WordIsBytes(table, ByTable(table, seed, data[..i]), data[i], data[i + 1], data[i + 2], data[i + 3]);
    ByTableConcat(table, seed, data[..i], first);
    WordIsBytes(table, ByTable(table, seed, data[..i] + first), data[i + 4], data[i + 5], data[i + 6], data[i + 7]);
    ByTableConcat(table, seed, data[..i] + first, second);
    assert data[..i] + first + second == data[..i + 8];
  }

  // The polynomial.

  predicate Top(c: bv32) { c & 0x8000_0000 == 0x8000_0000 }

  function Up(c: bv32): bv32 { c << 1 }

  function Poly(top: bool): bv32 { if top then 0x04C1_1DB7 else 0 }

  /** One bit of the shift register for x^32 + x^26 + x^23 + ... + x + 1. */
  function BitStep(c: bv32): bv32 {
    Xor(Up(c), Poly(Top(c)))
  }

  /** n zero bits. */
  function Steps(c: bv32, n: nat): bv32 {
    if n == 0 then c else BitStep(Steps(c, n - 1))
  }

  /** The CRC of a byte string that follows what gave c, bit by bit. */
  function Crc(c: bv32, data: seq<Byte>): bv32 {
    if data == [] then c else Steps(Xor(Crc(c, data[..|data| - 1]), Lane(data[|data| - 1], 0)), 8)
  }

  /** Entry i of the lookup table. */
  function Table(i: Byte): bv32 {
    Steps(Lane(i, 0), 8)
  }

  lemma TopXor(a: bv32, b: bv32)
    ensures Top(Xor(a, b)) == (Top(a) != Top(b))
  {
  }

  lemma UpXor(a: bv32, b: bv32)
    ensures Up(Xor(a, b)) == Xor(Up(a), Up(b))
  {
  }

  lemma PolyXor(p: bool, q: bool)
    ensures Poly(p != q) == Xor(Poly(p), Poly(q))
  {
  }

  lemma XorPairs(a: bv32, b: bv32, c: bv32, d: bv32)
    ensures Xor(Xor(a, b), Xor(c, d)) == Xor(Xor(a, c), Xor(b, d))
  {
    hide Xor;
    XorLaws(a, b, Xor(c, d));
    XorLaws(b, c, d);
    XorLaws(c, b, d);
    XorLaws(a, c, Xor(b, d));
  }

  lemma BitStepLinear(a: bv32, b: bv32)
    ensures BitStep(Xor(a, b)) == Xor(BitStep(a), BitStep(b))
  {
    hide Xor, Up, Top, Poly;
    TopXor(a, b);
    UpXor(a, b);
    PolyXor(Top(a), Top(b));
    XorPairs(Up(a), Poly(Top(a)), Up(b), Poly(Top(b)));
  }

  lemma {:induction false} StepsLinear(a: bv32, b: bv32, n: nat)
    ensures Steps(Xor(a, b), n) == Xor(Steps(a, n), Steps(b, n))
  {
    hide Xor, BitStep;
    if n > 0 {
      StepsLinear(a, b, n - 1);
      BitStepLinear(Steps(a, n - 1), Steps(b, n - 1));
    }
  }

  lemma LowStep(c: bv32)
    requires c & 0x8000_0000 == 0
    ensures BitStep(c) == c << 1
  {
  }

  lemma LowTops(c: bv32)
    requires TopByte(c) == 0
    ensures c & 0x8000_0000 == 0 && (c << 1) & 0x8000_0000 == 0 && (c << 1 << 1) & 0x8000_0000 == 0
    ensures (c << 1 << 1 << 1) & 0x8000_0000 == 0 && (c << 1 << 1 << 1 << 1) & 0x8000_0000 == 0
    ensures (c << 1 << 1 << 1 << 1 << 1) & 0x8000_0000 == 0 && (c << 1 << 1 << 1 << 1 << 1 << 1) & 0x8000_0000 == 0
    ensures (c << 1 << 1 << 1 << 1 << 1 << 1 << 1) & 0x8000_0000 == 0
    ensures c << 1 << 1 << 1 << 1 << 1 << 1 << 1 << 1 == Left8(c)
  {
  }

  /** Eight zero bits only shift a register whose top byte is zero. */
  lemma LowSteps(c: bv32)
    requires TopByte(c) == 0
    ensures Steps(c, 8) == Left8(c)
  {
    hide BitStep, Left8, TopByte;
    LowTops(c);
    var c1 := c << 1;
    var c2 := c1 << 1;
    var c3 := c2 << 1;
    var c4 := c3 << 1;
    var c5 := c4 << 1;
    var c6 := c5 << 1;
    var c7 := c6 << 1;
    LowStep(c);
    LowStep(c1);
    LowStep(c2);
    LowStep(c3);
    LowStep(c4);
    LowStep(c5);
    LowStep(c6);
    LowStep(c7);
    assert Steps(c, 1) == c1;
    assert Steps(c, 2) == c2;
    assert Steps(c, 3) == c3;
    assert Steps(c, 4) == c4;
    assert Steps(c, 5) == c5;
    assert Steps(c, 6) == c6;
    assert Steps(c, 7) == c7;
  }

  lemma Parts(c: bv32, b: Byte)
    ensures Xor(c, Lane(b, 0)) == Xor(Lane(TopByte(c) ^ b, 0), c & 0x00FF_FFFF)
    ensures TopByte(c & 0x00FF_FFFF) == 0 && Left8(c & 0x00FF_FFFF) == Left8(c)
  {
  }

  /** The table step is eight steps of the shift register. */
  lemma TableStep(c: bv32, b: Byte)
    ensures Steps(Xor(c, Lane(b, 0)), 8) == Xor(Left8(c), Table(TopByte(c) ^ b))
  {
    hide Xor, Left8, TopByte, Lane, Steps;
    Parts(c, b);
    StepsLinear(Lane(TopByte(c) ^ b, 0), c & 0x00FF_FFFF, 8);
    LowSteps(c & 0x00FF_FFFF);
    XorLaws(Table(TopByte(c) ^ b), Left8(c), 0);
  }

  /** With the lookup table of the polynomial, the byte loop is the bit-serial CRC. */
  lemma {:induction false} TableIsCrc(c: bv32, data: seq<Byte>)
    ensures ByTable(Table, c, data) == Crc(c, data)
  {
    hide Xor, Left8, TopByte, Lane, Steps, Table;
    if data != [] {
      TableIsCrc(c, data[..|data| - 1]);
      TableStep(Crc(c, data[..|data| - 1]), data[|data| - 1]);
    }
  }
}
