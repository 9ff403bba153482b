/** Bytes, bits and the numbers they spell, most significant bit first. */
module Bits {

  type Byte = bv8
  type Bit = b: int | 0 <= b < 2

  function Pow2(n: nat): (p: nat)
    ensures p > 0
  {
    if n == 0 then 1 else 2 * Pow2(n - 1)
  }

  /** The number of a byte. */
  function Num(b: Byte): (n: nat)
    ensures n < 256
  {
    b as nat
  }

  /** The byte of a number. */
  function Octet(n: nat): Byte
    requires n < 256
  {
    ByteOf(n)
  }

  lemma NumOf(n: nat)
    requires n < 256
    ensures Num(Octet(n)) == n
  {
  }

  lemma NaturalProduct(a: nat, b: nat)
    ensures a * b >= 0
  {
  }

  /** Pieces, one after the other */
  function Flat(pieces: seq<seq<Byte>>): seq<Byte> {
    if pieces == [] then [] else pieces[0] + Flat(pieces[1..])
  }

  lemma {:induction false} FlatConcat(a: seq<seq<Byte>>, b: seq<seq<Byte>>)
    ensures Flat(a + b) == Flat(a) + Flat(b)
    decreases |a|
  {
    if a == [] {
      assert a + b == b;
    } else {
      assert (a + b)[1..] == a[1..] + b;
      FlatConcat(a[1..], b);
    }
  }

  lemma FlatOne(p: seq<Byte>, rest: seq<seq<Byte>>)
    ensures Flat([p] + rest) == p + Flat(rest) && Flat([]) == []
  {
    assert ([p] + rest)[1..] == rest;
  }

  lemma FlatEnd(pieces: seq<seq<Byte>>, p: seq<Byte>)
    ensures Flat(pieces + [p]) == Flat(pieces) + p
  {
    FlatConcat(pieces, [p]);
    FlatOne(p, []);
    assert [p] + [] == [p] && p + [] == p;
  }

  // The machine's unsigned shifts, mask and bitwise operators, on unbounded numbers.

  /** x << k */
  function Shl(x: nat, k: nat): nat {
    if k == 0 then x else 2 * Shl(x, k - 1)
  }

  /** x >> k */
  function Shr(x: nat, k: nat): nat {
    if k == 0 then x else Shr(x / 2, k - 1)
  }

  /** x & ((1 << n) - 1), what is left of x in an n-bit register */
  function Low(x: nat, n: nat): (v: nat)
    ensures v < Pow2(n)
  {
    if n == 0 then 0 else 2 * Low(x / 2, n - 1) + x % 2
  }

  /** a | b */
  function BitOr(a: nat, b: nat): nat
    decreases a + b
  {
    if a == 0 then b
    else if b == 0 then a
    else 2 * BitOr(a / 2, b / 2) + (if a % 2 == 1 || b % 2 == 1 then 1 else 0)
  }

  /** a ^ b */
  function BitXor(a: nat, b: nat): nat
    decreases a + b
  {
    if a == 0 then b
    else if b == 0 then a
    else 2 * BitXor(a / 2, b / 2) + (if a % 2 != b % 2 then 1 else 0)
  }

  /** a + b in a 32-bit counter */
  function Count32(a: nat, b: nat): (r: nat)
    ensures r < 0x1_0000_0000
  {
    (a + b) % 0x1_0000_0000
  }

  // Bit lists.

  /** The low n bits of x. */
  function ToBits(x: nat, n: nat): (s: seq<Bit>)
    ensures |s| == n
  {
    if n == 0 then [] else ToBits(x / 2, n - 1) + [x % 2]
  }

  /** The number that a bit list spells. */
  function ToNat(s: seq<Bit>): (v: nat)
    ensures v < Pow2(|s|)
  {
    if s == [] then 0 else 2 * ToNat(s[..|s| - 1]) + s[|s| - 1]
  }

  function Zeros(n: nat): (s: seq<Bit>)
    ensures |s| == n
  {
    seq(n, i => 0)
  }

  function ByteBits(b: Byte): (s: seq<Bit>)
    ensures |s| == 8
  {
    ToBits(b as nat, 8)
  }

  function BytesToBits(bs: seq<Byte>): (s: seq<Bit>)
    ensures |s| == 8 * |bs|
  {
    if bs == [] then [] else BytesToBits(bs[..|bs| - 1]) + ByteBits(bs[|bs| - 1])
  }

  /** The big-endian number that a byte list spells. */
  function BigEndian(bs: seq<Byte>): nat {
    if bs == [] then 0 else BitOr(Shl(BigEndian(bs[..|bs| - 1]), 8), bs[|bs| - 1] as nat)
  }

  lemma {:induction false} ToBitsLow(x: nat, n: nat, m: nat)
    requires n <= m
    ensures ToBits(Low(x, m), n) == ToBits(x, n)
    decreases n
  {
    if n > 0 {
      ToBitsLow(x / 2, n - 1, m - 1);
      assert Low(x, m) / 2 == Low(x / 2, m - 1);
    }
  }

  lemma ToBitsStep(x: nat, n: nat)
    ensures ToBits(x, n + 1) == ToBits(x / 2, n) + [x % 2]
  {
  }

  /** A wide number is its high part followed by its low part. */
  lemma {:induction false} ToBitsSplit(x: nat, a: nat, b: nat)
    ensures ToBits(x, a + b) == ToBits(Shr(x, b), a) + ToBits(x, b)
    decreases b
  {
    if b == 0 {
      assert ToBits(x, 0) == [];
    } else {
      assert Shr(x, b) == Shr(x / 2, b - 1);
      ToBitsStep(x, a + b - 1);
      ToBitsStep(x, b - 1);
      hide ToBits, Shr;
      ToBitsSplit(x / 2, a, b - 1);
    }
  }

  lemma {:induction false} ToNatToBits(x: nat, n: nat)
    ensures ToNat(ToBits(x, n)) == Low(x, n)
  {
    if n > 0 {
      ToNatToBits(x / 2, n - 1);
      var s := ToBits(x, n);
      assert s[..|s| - 1] == ToBits(x / 2, n - 1);
    }
  }

  lemma {:induction false} ToBitsToNat(s: seq<Bit>)
    ensures ToBits(ToNat(s), |s|) == s
  {
    if s != [] {
      ToBitsToNat(s[..|s| - 1]);
      assert ToNat(s) / 2 == ToNat(s[..|s| - 1]);
      assert s == s[..|s| - 1] + [s[|s| - 1]];
    }
  }

  lemma {:induction false} LowOfSmall(x: nat, n: nat)
    requires x < Pow2(n)
    ensures Low(x, n) == x
  {
    if n > 0 {
      LowOfSmall(x / 2, n - 1);
    }
  }

  lemma {:induction false} ShrBound(x: nat, a: nat, b: nat)
    requires x < Pow2(a + b)
    ensures Shr(x, b) < Pow2(a)
    decreases b
  {
    if b > 0 {
      var n := a + b - 1;
      assert Pow2(n + 1) == 2 * Pow2(n);
      ShrBound(x / 2, a, b - 1);
    }
  }

  lemma {:induction false} BytesToBitsConcat(a: seq<Byte>, b: seq<Byte>)
    ensures BytesToBits(a + b) == BytesToBits(a) + BytesToBits(b)
  {
    hide ByteBits;
    if b == [] {
      assert a + b == a;
    } else {
      var front, last := b[..|b| - 1], b[|b| - 1];
      BytesToBitsConcat(a, front);
      var c := a + b;
      assert c[..|c| - 1] == a + front && c[|c| - 1] == last;
      assert BytesToBits(c) == BytesToBits(a + front) + ByteBits(last);
      assert BytesToBits(b) == BytesToBits(front) + ByteBits(last);
    }
  }

  /** Or-ing a k-bit number under a number shifted left by k puts their bits side by side. */
  lemma {:induction false} ToBitsGlue(hi: nat, lo: nat, a: nat, k: nat)
    requires lo < Pow2(k)
    ensures ToBits(BitOr(Shl(hi, k), lo), a + k) == ToBits(hi, a) + ToBits(lo, k)
    decreases k
  {
    if k > 0 {
      var n := a + k - 1;
      ToBitsGlue(hi, lo / 2, a, k - 1);
      var x := BitOr(Shl(hi, k), lo);
      BitOrHalves(Shl(hi, k - 1), lo);
      assert ToBits(x, n + 1) == ToBits(x / 2, n) + [x % 2];
    } else {
      assert lo == 0;
    }
  }

  lemma BitOrHalves(h: nat, lo: nat)
    ensures BitOr(2 * h, lo) / 2 == BitOr(h, lo / 2)
    ensures BitOr(2 * h, lo) % 2 == lo % 2
  {
  }

  lemma {:induction false} BigEndianBits(bs: seq<Byte>)
    ensures ToBits(BigEndian(bs), 8 * |bs|) == BytesToBits(bs)
  {
    hide ToBits, Pow2;
    if bs == [] {
      NoBits(0);
    } else {
      var front, last := bs[..|bs| - 1], bs[|bs| - 1];
      BigEndianBits(front);
      ByteBound(last);
      ToBitsGlue(BigEndian(front), last as nat, 8 * |front|, 8);
    }
  }

  lemma NoBits(x: nat)
    ensures ToBits(x, 0) == []
  {
  }

  lemma ByteBound(b: Byte)
    ensures b as nat < Pow2(8) == 256
  {
  }

  lemma {:induction false} ToBitsZero(n: nat)
    ensures ToBits(0, n) == Zeros(n)
  {
    if n > 0 {
      ToBitsZero(n - 1);
    }
  }

  lemma {:induction false} Pow2Mono(a: nat, b: nat)
    requires a <= b
    ensures Pow2(a) <= Pow2(b)
  {
    if a < b {
      Pow2Mono(a, b - 1);
    }
  }

  lemma {:induction false} ShlZero(k: nat)
    ensures Shl(0, k) == 0
  {
    if k > 0 {
      ShlZero(k - 1);
    }
  }

  /** Shifting left inside an m-bit register only loses the bits that leave it. */
  lemma {:induction false} LowOfShl(x: nat, k: nat, m: nat)
    requires k <= m
    ensures Low(Shl(x, k), m) == Shl(Low(x, m - k), k)
  {
    if k > 0 {
      LowOfShl(x, k - 1, m - 1);
      assert Shl(x, k) / 2 == Shl(x, k - 1);
    }
  }

  lemma BytesToBitsSplit(bs: seq<Byte>, k: nat)
    requires k <= |bs|
    ensures BytesToBits(bs) == BytesToBits(bs[..k]) + BytesToBits(bs[k..])
  {
    assert bs == bs[..k] + bs[k..];
    BytesToBitsConcat(bs[..k], bs[k..]);
  }

  lemma {:induction false} OrBound(hi: nat, lo: nat, a: nat, k: nat)
    requires hi < Pow2(a) && lo < Pow2(k)
    ensures BitOr(Shl(hi, k), lo) < Pow2(a + k)
    decreases k
  {
    if k > 0 {
      var n := a + k - 1;
      OrBound(hi, lo / 2, a, k - 1);
      BitOrHalves(Shl(hi, k - 1), lo);
      assert Pow2(n + 1) == 2 * Pow2(n);
    }
  }

  lemma ToNatConcat(a: seq<Bit>, b: seq<Bit>)
    ensures ToNat(a + b) == BitOr(Shl(ToNat(a), |b|), ToNat(b))
  {
    hide ToNat, BitOr, Shl, ToBits, Pow2, Low;
    var x := BitOr(Shl(ToNat(a), |b|), ToNat(b));
    ToBitsGlue(ToNat(a), ToNat(b), |a|, |b|);
    ToBitsToNat(a);
    ToBitsToNat(b);
    ToNatToBits(x, |a| + |b|);
    OrBound(ToNat(a), ToNat(b), |a|, |b|);
    LowOfSmall(x, |a| + |b|);
  }

  /** The number of zero bits above the highest one bit of a w-bit register. */
  function Clz(x: nat, w: nat): nat {
    if w == 0 || x >= Pow2(w - 1) then 0 else 1 + Clz(x, w - 1)
  }

  lemma {:induction false} ShrTop(x: nat, k: nat)
    requires x < Pow2(k + 1)
    ensures Shr(x, k) == if x >= Pow2(k) then 1 else 0
  {
    if k > 0 {
      ShrTop(x / 2, k - 1);
    }
  }

  lemma {:induction false} ClzBits(x: nat, h: nat)
    requires 0 < x < Pow2(h)
    ensures Clz(x, h) < h
    ensures ToBits(x, h) == Zeros(Clz(x, h)) + [1] + ToBits(x, h - Clz(x, h) - 1)
  {
    ToBitsSplit(x, 1, h - 1);
    ShrTop(x, h - 1);
    var top := Shr(x, h - 1);
    ToBitsStep(top, 0);
    assert ToBits(top / 2, 0) == [];
    hide ToBits, Shr, Pow2;
    if x >= Pow2(h - 1) {
      assert Zeros(0) == [];
    } else {
      ClzBits(x, h - 1);
      var z := Clz(x, h - 1);
      assert Zeros(z + 1) == [0] + Zeros(z);
    }
  }

  lemma {:induction false} ClzOfShl(x: nat, h: nat, k: nat)
    requires 0 < x < Pow2(h)
    ensures Clz(Shl(x, k), h + k) == Clz(x, h)
    ensures 0 < Shl(x, k)
    decreases k
  {
    if k > 0 {
      ClzOfShl(x, h, k - 1);
      ClzDouble(Shl(x, k - 1), h + k - 1);
    }
  }

  lemma {:induction false} ClzDouble(x: nat, w: nat)
    requires x > 0
    ensures Clz(2 * x, w + 1) == Clz(x, w)
  {
    if w > 0 {
      ClzDouble(x, w - 1);
    }
  }

  lemma {:induction false} XorTopBit(v: nat, n: nat)
    requires v < Pow2(n + 1)
    ensures BitXor(v, Pow2(n)) == if v >= Pow2(n) then v - Pow2(n) else v + Pow2(n)
  {
    if n > 0 {
      XorTopBit(v / 2, n - 1);
    }
  }

  lemma {:induction false} XorAllOnes(v: nat, n: nat)
    requires v < Pow2(n)
    ensures BitXor(v, Pow2(n) - 1) == Pow2(n) - 1 - v
  {
    if n > 0 {
      XorAllOnes(v / 2, n - 1);
    }
  }

  lemma {:induction false} ShiftedOut(x: nat, k: nat)
    ensures x == Shr(x, k) * Pow2(k) + Low(x, k)
  {
    if k > 0 {
      ShiftedOut(x / 2, k - 1);
      assert Shr(x, k) * Pow2(k) == 2 * (Shr(x / 2, k - 1) * Pow2(k - 1));
    }
  }

  lemma ModUnique(x: nat, q: nat, d: nat, r: nat)
    requires x == q * d + r && r < d
    ensures x % d == r
  {
    var q', r' := x / d, x % d;
    assert x == q' * d + r';
    assert (q - q' + 1) * d == q * d - q' * d + d;
    assert (q' - q + 1) * d == q' * d - q * d + d;
    PositiveFactor(q - q' + 1, d);
    PositiveFactor(q' - q + 1, d);
  }

  lemma PositiveFactor(t: int, d: int)
    requires d > 0 && t * d > 0
    ensures t > 0
  {
  }

  /** A multiple of 2^k shifts right without loss. */
  lemma ShrExact(x: nat, k: nat)
    requires x % Pow2(k) == 0
    ensures x == Shr(x, k) * Pow2(k)
  {
    ShiftedOut(x, k);
    hide Pow2, Shr, Low;
    ModUnique(x, Shr(x, k), Pow2(k), Low(x, k));
  }

  /** The byte of this number, bit by bit. */
  function ByteOf(n: nat): (b: Byte)
    requires n < 256
    ensures b as nat == n
  {
    if n == 0 then 0
    else
      var half := ByteOf(n / 2);
      half + half + if n % 2 == 1 then 1 else 0
  }

  lemma LowIsMod(x: nat, n: nat)
    ensures Low(x, n) == x % Pow2(n)
  {
    hide Low, Shr, Pow2;
    ShiftedOut(x, n);
    ModUnique(x, Shr(x, n), Pow2(n), Low(x, n));
  }

  lemma {:induction false} OrSum(hi: nat, lo: nat, k: nat)
    requires lo < Pow2(k)
    ensures BitOr(lo, Shl(hi, k)) == hi * Pow2(k) + lo
  {
    hide BitOr;
    if k > 0 {
      OrSum(hi, lo / 2, k - 1);
      OrDouble(lo, Shl(hi, k - 1));
      TimesDouble(hi, Pow2(k - 1));
    } else {
      OrDouble(0, hi);
      OrNone(hi);
    }
  }

  lemma OrDouble(lo: nat, h: nat)
    ensures BitOr(lo, 2 * h) == 2 * BitOr(lo / 2, h) + lo % 2
  {
  }

  lemma OrNone(h: nat)
    ensures BitOr(0, h) == h
  {
  }

  lemma TimesDouble(a: nat, p: nat)
    ensures a * (2 * p) == 2 * (a * p)
  {
  }

  lemma Powers()
    ensures Pow2(2) == 4 && Pow2(3) == 8 && Pow2(4) == 16 && Pow2(5) == 32 && Pow2(6) == 64 && Pow2(8) == 256 && Pow2(0) == 1
    ensures Pow2(21) == 0x20_0000 && Pow2(27) == 0x800_0000 && Pow2(32) == 0x1_0000_0000
  {
    assert Pow2(10) == 1024;
    assert Pow2(16) == 65536;
    assert Pow2(21) == 32 * Pow2(16);
    assert Pow2(27) == 64 * Pow2(21);
  }

  lemma {:induction false} ShlIsTimes(x: nat, k: nat)
    ensures Shl(x, k) == x * Pow2(k)
  {
    if k > 0 {
      ShlIsTimes(x, k - 1);
    }
  }

  lemma {:induction false} BitOrSwap(a: nat, b: nat)
    ensures BitOr(a, b) == BitOr(b, a)
    decreases a + b
  {
    if a > 0 && b > 0 {
      BitOrSwap(a / 2, b / 2);
    }
  }

  lemma ShrIsDiv(x: nat, k: nat)
    ensures Shr(x, k) == x / Pow2(k)
  {
    hide Low, Shr, Pow2;
    ShiftedOut(x, k);
    DivUnique(x, Shr(x, k), Pow2(k), Low(x, k));
  }

  lemma DivUnique(x: nat, q: nat, d: nat, r: nat)
    requires x == q * d + r && r < d
    ensures x / d == q
  {
    ModUnique(x, q, d, r);
    assert x / d * d == q * d;
  }

  lemma {:induction false} ShlShr(x: nat, k: nat)
    ensures Shr(Shl(x, k), k) == x
  {
    if k > 0 {
      ShlShr(x, k - 1);
    }
  }
}
