/** The partitioned Rice coding of section 9.2.7 of RFC 9639, written as an encoder, and the proof that the
    parser undoes it for every list of residuals and every choice of partitions. */
module FlacResidualCoding {
  import opened Bits
  import opened Machine
  import opened FlacSpec
  import opened FlacBitReader
  import opened FlacResidual

  // One number.

  /** Zero, minus one, one, minus two, ... counted off. */
  function Folded(v: int): nat {
    if v >= 0 then 2 * v else -2 * v - 1
  }

  function RiceCode(param: nat, v: int): seq<Bit> {
    Zeros(Shr(Folded(v), param)) + [1] + ToBits(Folded(v), param)
  }

  predicate FitsIn(v: int, n: nat) {
    if n == 0 then v == 0 else -(Pow2(n - 1) as int) <= v < Pow2(n - 1)
  }

  /** v in n bits, two's complement */
  function SignedBits(v: int, n: nat): (s: seq<Bit>)
    requires FitsIn(v, n)
    ensures |s| == n
  {
    assert n > 0 ==> Pow2(n) == 2 * Pow2(n - 1);
    ToBits(if v < 0 then v + Pow2(n) else v, n)
  }

  lemma SignedInverts(v: int, n: nat)
    requires 0 < n && FitsIn(v, n)
    ensures SignExtend(ToNat(SignedBits(v, n)), n) == v
  {
    assert Pow2(n) == 2 * Pow2(n - 1);
    var x := if v < 0 then v + Pow2(n) else v;
    hide ToBits, ToNat, Pow2;
    ToNatToBits(x, n);
    LowOfSmall(x, n);
  }

  /** A number is its high part over its low part. */
  lemma {:induction false} PartsOf(x: nat, k: nat)
    ensures BitOr(Shl(Shr(x, k), k), Low(x, k)) == x
    ensures Shl(Shr(x, k), k) <= x
    decreases k
  {
    if k > 0 {
      PartsOf(x / 2, k - 1);
      BitOrHalves(Shl(Shr(x / 2, k - 1), k - 1), Low(x, k));
      assert Low(x, k) / 2 == Low(x / 2, k - 1);
    }
  }

  lemma {:induction false} ShrBelow(x: nat, k: nat)
    ensures Shr(x, k) <= x
  {
    if k > 0 {
      ShrBelow(x / 2, k - 1);
    }
  }

  /** Every 32-bit number comes back from its Rice code, whatever the parameter. */
  lemma RiceInverts(param: nat, v: int, t: seq<Bit>)
    requires Fits32(v)
    ensures RiceUnary(0, param, RiceCode(param, v) + t) == Done(v, t)
  {
    hide ToBits, ToNat, Shr, Shl, Low, BitOr, RiceUnary, Pow2;
    var u := Folded(v);
    var q := Shr(u, param);
    RiceStop(0, param, q, ToBits(u, param) + t);
    assert RiceCode(param, v) + t == Zeros(q) + [1] + (ToBits(u, param) + t);
    ShrBelow(u, param);
    PartsOf(u, param);
    Pow2Of31();
    LowOfSmall(Shl(q, param), 32);
    ToNatToBits(u, param);
    TakeOfConcat(ToBits(u, param), t, param);
  }

  // One partition.

  /** How an encoder codes a partition. */
  datatype Choice = Rice(param: nat) | Raw(width: nat) {
    predicate Codes(v: int) {
      if Rice? then Fits32(v) else FitsIn(v, width)
    }

    predicate CodesAll(vs: seq<int>) {
      forall k | 0 <= k < |vs| :: Codes(vs[k])
    }

    predicate Ok(c: Coding) {
      if Rice? then param < c.Escape() else width < 32
    }

    function Sample(v: int): seq<Bit>
      requires Codes(v)
    {
      if Rice? then RiceCode(param, v) else SignedBits(v, width)
    }

    function Samples(vs: seq<int>): seq<Bit>
      requires CodesAll(vs)
    {
      if vs == [] then [] else Sample(vs[0]) + Samples(vs[1..])
    }

    /** What announces the samples. */
    function Announced(c: Coding): seq<Bit> {
      if Rice? then ToBits(param, c.paramBits) else ToBits(c.Escape(), c.paramBits) + ToBits(width, 5)
    }
  }

  lemma {:induction false} RiceSamplesInvert(c: Coding, i: nat, param: nat, vs: seq<int>, acc: seq<int>, t: seq<Bit>)
    requires Rice(param).CodesAll(vs)
    ensures RiceRun(c, i, param, |vs|, acc, Rice(param).Samples(vs) + t) == NextPartition(c, i, acc + vs, t)
    decreases |vs|
  {
    hide RiceUnary, NextPartition, RiceCode, Fits32, Pow2, Shr;
    if vs == [] {
      assert acc + vs == acc && Rice(param).Samples(vs) + t == t;
    } else {
      var rest := Rice(param).Samples(vs[1..]) + t;
      RiceInverts(param, vs[0], rest);
      assert Rice(param).Samples(vs) + t == RiceCode(param, vs[0]) + rest;
      RiceSamplesInvert(c, i, param, vs[1..], acc + [vs[0]], t);
      assert acc + vs == acc + [vs[0]] + vs[1..];
    }
  }

  lemma {:induction false} RawSamplesInvert(c: Coding, i: nat, width: nat, vs: seq<int>, acc: seq<int>, t: seq<Bit>)
    requires Raw(width).CodesAll(vs)
    ensures RawRun(c, i, width, |vs|, acc, Raw(width).Samples(vs) + t) == NextPartition(c, i, acc + vs, t)
    decreases |vs|
  {
    hide NextPartition, SignExtend, ToNat, ToBits, Pow2, Shr;
    if vs == [] {
      assert acc + vs == acc && Raw(width).Samples(vs) + t == t;
    } else {
      assert Raw(width).Codes(vs[0]);
      var code, rest := SignedBits(vs[0], width), Raw(width).Samples(vs[1..]) + t;
      assert Raw(width).Samples(vs) + t == code + rest;
      if width > 0 {
        SignedInverts(vs[0], width);
      }
      assert (code + rest)[..width] == code && (code + rest)[width..] == rest;
      RawSamplesInvert(c, i, width, vs[1..], acc + [vs[0]], t);
      assert acc + vs == acc + [vs[0]] + vs[1..];
    }
  }

  lemma FieldInverts(x: nat, n: nat, rest: seq<Bit>)
    requires x < Pow2(n)
    ensures var s := ToBits(x, n) + rest;
      n <= |s| && ToNat(s[..n]) == x && s[n..] == rest
  {
    hide ToBits, ToNat, Pow2;
    ToNatToBits(x, n);
    LowOfSmall(x, n);
    TakeOfConcat(ToBits(x, n), rest, n);
  }

  lemma PartitionInverts(c: Coding, i: nat, choice: Choice, vs: seq<int>, acc: seq<int>, t: seq<Bit>)
    requires (c.paramBits == 4 || c.paramBits == 5) && choice.Ok(c) && choice.CodesAll(vs) && c.Count(i) == |vs|
    ensures Partition(c, i, acc, choice.Announced(c) + choice.Samples(vs) + t) == NextPartition(c, i, acc + vs, t)
  {
    hide RiceRun, RawRun, NextPartition, ToBits, ToNat, Pow2, Shr, Choice.Samples, Choice.CodesAll;
    var rest := choice.Samples(vs) + t;
    assert choice.Announced(c) + choice.Samples(vs) + t == choice.Announced(c) + rest;
    if choice.Rice? {
      FieldInverts(choice.param, c.paramBits, rest);
      RiceSamplesInvert(c, i, choice.param, vs, acc, t);
    } else {
      assert choice.Announced(c) + rest == ToBits(c.Escape(), c.paramBits) + (ToBits(choice.width, 5) + rest);
      FieldInverts(c.Escape(), c.paramBits, ToBits(choice.width, 5) + rest);
      WidthFits(choice.width);
      FieldInverts(choice.width, 5, rest);
      RawSamplesInvert(c, i, choice.width, vs, acc, t);
    }
  }

  lemma WidthFits(width: nat)
    requires width < 32
    ensures width < Pow2(5)
  {
    assert Pow2(5) == 32;
  }

  // A block.

  /** A way to code a block: the partitions, each with its choice. */
  predicate Plan(c: Coding, choices: seq<Choice>) {
    && (c.paramBits == 4 || c.paramBits == 5) && Divides(c) && c.warmup <= c.Size()
    && |choices| == c.Partitions() && forall i | 0 <= i < |choices| :: choices[i].Ok(c)
  }

  /** The residuals of partition i and of the ones after it can be coded as planned. */
  predicate Suits(c: Coding, choices: seq<Choice>, i: nat, vs: seq<int>)
    requires Plan(c, choices)
    decreases c.Partitions() - i
  {
    if i >= c.Partitions() then vs == []
    else c.Count(i) <= |vs| && choices[i].CodesAll(vs[..c.Count(i)]) && Suits(c, choices, i + 1, vs[c.Count(i)..])
  }

  /** Partition i and the ones after it. */
  function Coded(c: Coding, choices: seq<Choice>, i: nat, vs: seq<int>): seq<Bit>
    requires Plan(c, choices) && Suits(c, choices, i, vs)
    decreases c.Partitions() - i
  {
    if i >= c.Partitions() then []
    else
      choices[i].Announced(c) + choices[i].Samples(vs[..c.Count(i)]) + Coded(c, choices, i + 1, vs[c.Count(i)..])
  }

  lemma {:induction false} CodedInverts(c: Coding, choices: seq<Choice>, i: nat, vs: seq<int>, acc: seq<int>, t: seq<Bit>)
    requires Plan(c, choices) && i < c.Partitions() && Suits(c, choices, i, vs)
    ensures Partition(c, i, acc, Coded(c, choices, i, vs) + t) == Done(acc + vs, t)
    decreases c.Partitions() - i
  {
    hide Partition, Pow2, Shr, Divides, Choice.Samples, Choice.Announced;
    var n := c.Count(i);
    var rest := Coded(c, choices, i + 1, vs[n..]) + t;
    assert Coded(c, choices, i, vs) + t == choices[i].Announced(c) + choices[i].Samples(vs[..n]) + rest;
    PartitionInverts(c, i, choices[i], vs[..n], acc, rest);
    assert acc + vs == acc + vs[..n] + vs[n..];
    if i + 1 < c.Partitions() {
      CodedInverts(c, choices, i + 1, vs[n..], acc + vs[..n], t);
    } else {
      assert vs[n..] == [] && rest == t && acc + vs[..n] == acc + vs;
    }
  }

  /** The residual part of a subframe, with the coding method 0 or 1. */
  function ResidualBits(c: Coding, choices: seq<Choice>, vs: seq<int>): seq<Bit>
    requires Plan(c, choices) && Suits(c, choices, 0, vs)
  {
    ToBits((if c.paramBits == 5 then 16 else 0) + c.order, 6) + Coded(c, choices, 0, vs)
  }

  /** The parser undoes the coding: every residual comes back, after the warm-up and in order, and nothing else is read. */
  lemma ResidualInverts(c: Coding, choices: seq<Choice>, warm: seq<int>, vs: seq<int>, t: seq<Bit>)
    requires Plan(c, choices) && Suits(c, choices, 0, vs) && |warm| == c.warmup && c.order < 16
    ensures Residual(c.blockSize, warm, ResidualBits(c, choices, vs) + t) == Done(warm + vs, t)
  {
    hide Partition, Pow2, Shr, ToBits, ToNat, Coded, Suits;
    var h := (if c.paramBits == 5 then 16 else 0) + c.order;
    var rest := Coded(c, choices, 0, vs) + t;
    HeaderFits(h);
    FieldInverts(h, 6, rest);
    assert ResidualBits(c, choices, vs) + t == ToBits(h, 6) + rest;
    Multiple(c.Size(), c.Partitions(), c.blockSize);
    assert Coding(c.blockSize, |warm|, if h / 16 == 1 then 5 else 4, h % 16) == c;
    NotEmpty(c.order);
    CodedInverts(c, choices, 0, vs, warm, t);
  }

  lemma NotEmpty(order: nat)
    ensures 0 < Pow2(order)
  {
  }

  lemma HeaderFits(h: nat)
    requires h < 32
    ensures h < Pow2(6)
  {
    assert Pow2(6) == 64;
  }

  lemma Multiple(q: nat, d: nat, x: nat)
    requires d > 0 && x == q * d
    ensures x % d == 0
  {
    ModUnique(x, q, d, 0);
  }
}
