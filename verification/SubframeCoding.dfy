/** Subframes (section 9.2 of RFC 9639), written as an encoder for every kind of prediction, and the proof
    that the parser gives the samples back. */
module FlacSubframeCoding {
  import opened Bits
  import opened Machine
  import opened FlacSpec
  import opened FlacBitReader
  import opened FlacResidual
  import opened FlacResidualCoding
  import Lpc

  // Fixed prediction, by differences.

  /** From each number to the next */
  function Steps(y: seq<int>): (d: seq<int>)
    requires y != []
    ensures |d| == |y| - 1
  {
    seq(|y| - 1, i requires 0 <= i < |y| - 1 => y[i + 1] - y[i])
  }

  /** The differences of the differences, n times */
  function Differenced(n: nat, y: seq<int>): (d: seq<int>)
    requires n <= |y|
    ensures |d| == |y| - n
  {
    if n == 0 then y else Steps(Differenced(n - 1, y))
  }

  /** As they lie in registers: a difference of samples that is wider is cut off. */
  function Registers(wide: bool, d: seq<int>): (r: seq<int>)
    ensures |r| == |d| && forall k | 0 <= k < |d| && Fits32(d[k]) :: r[k] == d[k]
  {
    seq(|d|, k requires 0 <= k < |d| => if wide then Wrap64(d[k]) else Wrap32(d[k]))
  }

  lemma DotEnd(w: seq<int>, c: seq<int>)
    requires |w| == |c| > 0
    ensures var n := |c| - 1; Lpc.Dot(w, c) == Lpc.Dot(w[..n], c[..n]) + w[n] * c[n]
  {
  }

  /** What the fixed coefficients sum up to */
  lemma FixedSum(order: nat, w: seq<int>)
    requires order <= 4 && |w| == order
    ensures Lpc.Dot(w, FixedCoefs(order)) ==
      match order
      case 0 => 0
      case 1 => w[0]
      case 2 => 2 * w[1] - w[0]
      case 3 => 3 * w[2] - 3 * w[1] + w[0]
      case _ => 4 * w[3] - 6 * w[2] + 4 * w[1] - w[0]
  {
    hide Lpc.Dot;
    var c := FixedCoefs(order);
    assert Lpc.Dot([], []) == 0 by { DotNone(); }
    if order >= 1 {
      DotEnd(w, c);
    }
    if order >= 2 {
      DotEnd(w[..order - 1], c[..order - 1]);
      assert w[..order - 1][..order - 2] == w[..order - 2] && c[..order - 1][..order - 2] == c[..order - 2];
    }
    if order >= 3 {
      DotEnd(w[..order - 2], c[..order - 2]);
      assert w[..order - 2][..order - 3] == w[..order - 3] && c[..order - 2][..order - 3] == c[..order - 3];
    }
    if order >= 4 {
      DotEnd(w[..1], c[..1]);
      assert w[..1][..0] == [] && c[..1][..0] == [];
    }
  }

  lemma DotNone()
    ensures Lpc.Dot([], []) == 0
  {
  }

  /** A repeated difference, written out */
  lemma DifferenceIs(order: nat, y: seq<int>, i: nat)
    requires order <= 4 && i + order < |y|
    ensures Differenced(order, y)[i] ==
      match order
      case 0 => y[i]
      case 1 => y[i + 1] - y[i]
      case 2 => y[i + 2] - 2 * y[i + 1] + y[i]
      case 3 => y[i + 3] - 3 * y[i + 2] + 3 * y[i + 1] - y[i]
      case _ => y[i + 4] - 4 * y[i + 3] + 6 * y[i + 2] - 4 * y[i + 1] + y[i]
  {
    if order > 0 {
      DifferenceIs(order - 1, y, i);
      DifferenceIs(order - 1, y, i + 1);
      assert Differenced(order, y)[i] == Differenced(order - 1, y)[i + 1] - Differenced(order - 1, y)[i];
    }
  }

  /** The fixed predictor of each order leaves of every sample its difference of that order. */
  lemma FixedDiffers(order: nat, y: seq<int>, k: nat)
    requires order <= 4 && order <= k < |y|
    ensures y[k] - Lpc.Exact(y, k, Lpc.Predictor(FixedCoefs(order), 0)) == Differenced(order, y)[k - order]
  {
    hide FixedCoefs, Lpc.Dot, Differenced;
    var w := y[k - order..k];
    FixedSum(order, w);
    DifferenceIs(order, y, k - order);
    assert forall j | 0 <= j < order :: w[j] == y[k - order + j];
    assert Pow2(0) == 1;
  }

  /** So what a fixed subframe codes are the differences. */
  lemma FixedResiduals(path: Lpc.Path, order: nat, y: seq<int>)
    requires order <= 4 && order <= |y|
    ensures var p := Lpc.Predictor(FixedCoefs(order), 0);
      Lpc.Residuals(path, y, p) == y[..order] + Registers(path == Lpc.Wide, Differenced(order, y))
  {
    hide FixedCoefs, Lpc.Exact, Differenced, Registers, Lpc.Residuals;
    var p := Lpc.Predictor(FixedCoefs(order), 0);
    FixedOrder(order);
    var left, right := Lpc.Residuals(path, y, p), y[..order] + Registers(path == Lpc.Wide, Differenced(order, y));
    forall k | 0 <= k < |y|
      ensures left[k] == right[k]
    {
      ResidualAt(path, y, p, k);
      if order <= k {
        FixedDiffers(order, y, k);
        RegisterAt(path == Lpc.Wide, Differenced(order, y), k - order);
      }
    }
    assert |left| == |right|;
  }

  lemma ResidualAt(path: Lpc.Path, y: seq<int>, p: Lpc.Predictor, k: nat)
    requires k < |y|
    ensures Lpc.Residuals(path, y, p)[k] == if k < p.Order() then y[k] else Lpc.Store(path, y[k] - Lpc.Exact(y, k, p))
  {
    hide Lpc.Exact;
  }

  lemma RegisterAt(wide: bool, d: seq<int>, k: nat)
    requires k < |d|
    ensures Registers(wide, d)[k] == if wide then Wrap64(d[k]) else Wrap32(d[k])
  {
  }

  lemma FixedOrder(order: nat)
    requires order <= 4
    ensures |FixedCoefs(order)| == order
  {
  }

  // Linear prediction, from the coefficients as they are coded.

  /** The sum of the samples before sample k, the last one first, with these weights */
  function Weighted(q: seq<int>, y: seq<int>, k: nat): int
    requires |q| <= k <= |y|
    decreases |q|
  {
    if q == [] then 0 else q[0] * y[k - 1] + Weighted(q[1..], y, k - 1)
  }

  lemma {:induction false} WeightedIs(coefs: seq<int>, y: seq<int>, k: nat)
    requires |coefs| <= k <= |y|
    ensures Lpc.Dot(y[k - |coefs|..k], coefs) == Weighted(Backwards(coefs), y, k)
    decreases |coefs|
  {
    if coefs == [] {
      DotNone();
      assert y[k..k] == [];
    } else {
      var n := |coefs| - 1;
      var w := y[k - |coefs|..k];
      assert w[..n] == y[k - 1 - n..k - 1] && Backwards(coefs)[1..] == Backwards(coefs[..n]);
      WeightedIs(coefs[..n], y, k - 1);
    }
  }

  /** What a linear predictor leaves of a sample (section 9.2.6): the first coefficient that is coded belongs to the sample
      before it, the next one to the sample before that; and their sum is divided by a power of two and rounded down. */
  lemma LinearLeaves(coefs: seq<int>, shift: nat, y: seq<int>, k: nat) returns (e: int)
    requires |coefs| <= k < |y|
    ensures Lpc.Exact(y, k, Lpc.Predictor(coefs, shift)) == e
    ensures e * Pow2(shift) <= Weighted(Backwards(coefs), y, k) < (e + 1) * Pow2(shift)
  {
    hide Lpc.Dot, Weighted, Pow2;
    WeightedIs(coefs, y, k);
    e := Lpc.Exact(y, k, Lpc.Predictor(coefs, shift));
    Floored(Weighted(Backwards(coefs), y, k), Pow2(shift));
  }

  lemma Floored(x: int, m: nat)
    requires m > 0
    ensures (x / m) * m <= x < (x / m + 1) * m
  {
    assert x == (x / m) * m + x % m;
  }

  /** How to code the residuals. */
  datatype ResidualPlan = ResidualPlan(paramBits: nat, order: nat, choices: seq<Choice>)

  /** How to code a subframe. */
  datatype Recipe =
    | AsConstant
    | AsVerbatim
    | AsFixed(order: nat, plan: ResidualPlan)
    | AsLinear(coefs: seq<int>, precision: nat, shift: nat, plan: ResidualPlan)
  {
    function Kind(): nat {
      match this
      case AsConstant => 0
      case AsVerbatim => 1
      case AsFixed(order, _) => 8 + order
      case AsLinear(coefs, _, _, _) => 31 + |coefs|
    }

    predicate Predicts() {
      AsFixed? || AsLinear?
    }

    function Predictor(): Lpc.Predictor
      requires Predicts()
    {
      if AsFixed? then Lpc.Predictor(FixedCoefs(order), 0) else Lpc.Predictor(coefs, shift)
    }

    /** The recipe is one that the format can express. */
    predicate Expressible() {
      match this
      case AsConstant => true
      case AsVerbatim => true
      case AsFixed(order, plan) => order <= 4 && plan.order < 16
      case AsLinear(coefs, precision, shift, plan) =>
        && 1 <= |coefs| <= 32 && 1 <= precision <= 15 && shift <= 15 && plan.order < 16
        && AllFit(coefs, precision)
    }

    /** What a predicting recipe codes: for a fixed predictor the repeated differences of the samples (section 9.2.5), for
        a linear one what its prediction leaves. */
    function Differences(f: Subframe, y: seq<int>): seq<int>
      requires Predicts() && f.Ok() && Expressible() && Predictor().Order() <= |y|
    {
      if AsFixed? then Registers(f.block.wide, Differenced(order, y))
      else Lpc.Residuals(Lpc.PathFor(f.block.wide, f.Depth(), Predictor()), y, Predictor())[Predictor().Order()..]
    }

    /** The partitions of the residuals, for blocks of this size. */
    function Partitioning(size: nat): Coding
      requires Predicts()
    {
      Coding(size, Predictor().Order(), plan.paramBits, plan.order)
    }

    /** The recipe can code these samples. */
    predicate Suits(f: Subframe, y: seq<int>) {
      && Expressible() && f.Ok() && |y| == f.block.size && AllFit(y, f.Depth())
      && (AsConstant? ==> 0 < |y| && forall k | 0 <= k < |y| :: y[k] == y[0])
      && (Predicts() ==> Predictor().Order() < |y| && Plan(Partitioning(|y|), plan.choices)
                         && FlacResidualCoding.Suits(Partitioning(|y|), plan.choices, 0, Differences(f, y)))
    }
  }

  predicate AllFit(y: seq<int>, n: nat) {
    forall k | 0 <= k < |y| :: FitsIn(y[k], n)
  }

  function AllSigned(y: seq<int>, n: nat): seq<Bit>
    requires AllFit(y, n)
  {
    if y == [] then [] else SignedBits(y[0], n) + AllSigned(y[1..], n)
  }

  /** The coefficients, last one first. */
  function Backwards(coefs: seq<int>): (r: seq<int>)
    ensures |r| == |coefs| && forall k | 0 <= k < |r| :: r[k] == coefs[|coefs| - 1 - k]
  {
    seq(|coefs|, k requires 0 <= k < |coefs| => coefs[|coefs| - 1 - k])
  }

  /** The parameters of a linear predictor. */
  function LinearBits(coefs: seq<int>, precision: nat, shift: nat): seq<Bit>
    requires 0 < precision && AllFit(coefs, precision)
  {
    ToBits(32 * (precision - 1) + shift, 9) + AllSigned(Backwards(coefs), precision)
  }

  /** Everything after the subframe header. */
  function BodyBits(f: Subframe, recipe: Recipe, y: seq<int>): seq<Bit>
    requires recipe.Suits(f, y)
  {
    if recipe.AsConstant? then SignedBits(y[0], f.Depth())
    else if recipe.AsVerbatim? then AllSigned(y, f.Depth())
    else
      AllSigned(y[..recipe.Predictor().Order()], f.Depth())
      + (if recipe.AsLinear? then LinearBits(recipe.coefs, recipe.precision, recipe.shift) else [])
      + ResidualBits(recipe.Partitioning(|y|), recipe.plan.choices, recipe.Differences(f, y))
  }

  // The header and the constant samples.

  lemma {:induction false} WastedInverts(b: Block, cuts: set<nat>, kind: nat, from: nat, n: nat, t: seq<Bit>)
    requires 1 <= from && from + n < 0x1_0000_0000
    ensures Wasted(b, cuts, kind, from, Zeros(n) + [1] + t) == AfterHeader(Subframe(b, kind, from + n), t)
    decreases n
  {
    hide AfterHeader;
    var s := Zeros(n) + [1] + t;
    if n == 0 {
      assert s[0] == 1 && s[1..] == t;
    } else {
      assert s[0] == 0 && s[1..] == Zeros(n - 1) + [1] + t;
      WastedInverts(b, cuts, kind, from + 1, n - 1, t);
    }
  }

  function HeaderBits(kind: nat, wasted: nat): seq<Bit> {
    if wasted == 0 then ToBits(2 * kind, 8) else ToBits(2 * kind + 1, 8) + Zeros(wasted - 1) + [1]
  }

  lemma HeaderInverts(b: Block, cuts: set<nat>, kind: nat, wasted: nat, t: seq<Bit>)
    requires kind < 64 && wasted < 0x1_0000_0000
    ensures ReadSubframe(b, cuts, HeaderBits(kind, wasted) + t) == AfterHeader(Subframe(b, kind, wasted), t)
  {
    hide AfterHeader, Wasted, ToBits, ToNat, Pow2;
    ByteFits(2 * kind);
    ByteFits(2 * kind + 1);
    if wasted == 0 {
      FieldInverts(2 * kind, 8, t);
    } else {
      var rest := Zeros(wasted - 1) + [1] + t;
      FieldInverts(2 * kind + 1, 8, rest);
      assert HeaderBits(kind, wasted) + t == ToBits(2 * kind + 1, 8) + rest;
      WastedInverts(b, cuts, kind, 1, wasted - 1, t);
    }
  }

  lemma ByteFits(x: nat)
    requires x < 256
    ensures x < Pow2(8)
  {
    assert Pow2(8) == 256;
  }

  lemma SignedFieldInverts(v: int, n: nat, rest: seq<Bit>)
    requires 0 < n && FitsIn(v, n)
    ensures var s := SignedBits(v, n) + rest;
      n <= |s| && SignExtend(ToNat(s[..n]), n) == v && s[n..] == rest
  {
    hide ToNat, SignedBits, SignExtend, FitsIn;
    SignedInverts(v, n);
    TakeOfConcat(SignedBits(v, n), rest, n);
  }

  lemma ConstantInverts(f: Subframe, v: int, t: seq<Bit>)
    requires f.Ok() && FitsIn(v, f.Depth())
    ensures Constant(f, SignedBits(v, f.Depth()) + t) == Done(seq(f.block.size, k => f.Scaled(v)), t)
  {
    hide ToNat, SignedBits, SignExtend, FitsIn, Subframe.Scaled;
    SignedFieldInverts(v, f.Depth(), t);
  }

  lemma {:induction false} VerbatimInverts(f: Subframe, y: seq<int>, acc: seq<int>, t: seq<Bit>)
    requires f.Ok() && AllFit(y, f.Depth()) && |acc| + |y| == f.block.size
    ensures Verbatim(f, acc, AllSigned(y, f.Depth()) + t) == Done(acc + f.ScaledAll(y), t)
    decreases |y|
  {
    hide ToNat, SignedBits, SignExtend, FitsIn, Subframe.Scaled;
    if y == [] {
      assert AllSigned(y, f.Depth()) + t == t && acc + f.ScaledAll(y) == acc;
    } else {
      var rest := AllSigned(y[1..], f.Depth()) + t;
      SignedFieldInverts(y[0], f.Depth(), rest);
      assert AllSigned(y, f.Depth()) + t == SignedBits(y[0], f.Depth()) + rest;
      VerbatimInverts(f, y[1..], acc + [f.Scaled(y[0])], t);
      assert acc + f.ScaledAll(y) == acc + [f.Scaled(y[0])] + f.ScaledAll(y[1..]);
    }
  }

  // Prediction.

  lemma {:induction false} WarmupInverts(f: Subframe, y: seq<int>, acc: seq<int>, t: seq<Bit>)
    requires f.Ok() && AllFit(y, f.Depth()) && |acc| + |y| == f.Order()
    ensures Warmup(f, acc, AllSigned(y, f.Depth()) + t) == Warmup(f, acc + y, t)
    decreases |y|
  {
    hide ToNat, SignedBits, SignExtend, FitsIn, LpcParams, Predicted;
    if y == [] {
      assert AllSigned(y, f.Depth()) + t == t && acc + y == acc;
    } else {
      var rest := AllSigned(y[1..], f.Depth()) + t;
      SignedFieldInverts(y[0], f.Depth(), rest);
      assert AllSigned(y, f.Depth()) + t == SignedBits(y[0], f.Depth()) + rest;
      WarmupInverts(f, y[1..], acc + [y[0]], t);
      assert acc + y == acc + [y[0]] + y[1..];
    }
  }

  /** Reading `todo` coefficients, given the ones after them. */
  lemma {:induction false} CoefsInvert(f: Subframe, warm: seq<int>, precision: nat, shift: nat, todo: seq<int>, have: seq<int>, t: seq<Bit>)
    requires f.Ok() && 0 < precision && AllFit(todo, precision) && |todo| + |have| == f.Order()
    ensures LpcCoefs(f, warm, precision, shift, have, AllSigned(Backwards(todo), precision) + t)
            == Predicted(f, Lpc.Predictor(todo + have, shift), warm, t)
    decreases |todo|
  {
    hide ToNat, SignedBits, SignExtend, FitsIn, Predicted;
    if todo == [] {
      assert AllSigned(Backwards(todo), precision) + t == t && todo + have == have;
    } else {
      var n := |todo| - 1;
      var rest := AllSigned(Backwards(todo[..n]), precision) + t;
      assert Backwards(todo)[0] == todo[n] && Backwards(todo)[1..] == Backwards(todo[..n]);
      SignedFieldInverts(todo[n], precision, rest);
      assert AllSigned(Backwards(todo), precision) + t == SignedBits(todo[n], precision) + rest;
      CoefsInvert(f, warm, precision, shift, todo[..n], [todo[n]] + have, t);
      assert todo + have == todo[..n] + ([todo[n]] + have);
    }
  }

  lemma LinearInverts(f: Subframe, warm: seq<int>, coefs: seq<int>, precision: nat, shift: nat, t: seq<Bit>)
    requires f.Ok() && 1 <= precision <= 15 && shift <= 15 && AllFit(coefs, precision) && |coefs| == f.Order()
    ensures LpcParams(f, warm, LinearBits(coefs, precision, shift) + t) == Predicted(f, Lpc.Predictor(coefs, shift), warm, t)
  {
    hide ToBits, ToNat, SignExtend, LpcCoefs, AllSigned, Predicted, Pow2;
    var h := 32 * (precision - 1) + shift;
    var rest := AllSigned(Backwards(coefs), precision) + t;
    NineBits(h, shift);
    FieldInverts(h, 9, rest);
    assert LinearBits(coefs, precision, shift) + t == ToBits(h, 9) + rest;
    CoefsInvert(f, warm, precision, shift, coefs, [], t);
    assert coefs + [] == coefs;
  }

  lemma NineBits(h: nat, shift: nat)
    requires h < 512 && shift <= 15
    ensures h < Pow2(9) && SignExtend(shift, 5) == shift
  {
    assert Pow2(9) == 512 && Pow2(4) == 16;
  }

  /** What follows the warm-up gives the samples back. */
  lemma PredictedInverts(f: Subframe, recipe: Recipe, y: seq<int>, t: seq<Bit>)
    requires recipe.Predicts() && recipe.Suits(f, y) && f.Depth() <= (if f.block.wide then 33 else 32)
    ensures var n := recipe.Predictor().Order();
      Predicted(f, recipe.Predictor(), y[..n], ResidualBits(recipe.Partitioning(|y|), recipe.plan.choices, recipe.Differences(f, y)) + t)
      == Done(if f.wasted > 0 then f.ScaledAll(y) else y, t)
  {
    hide ResidualBits, Residual, FlacResidualCoding.Suits, Plan, Lpc.Restore, Lpc.CanUse32, FitsIn, Fits32, Lpc.Residuals;
    hide Recipe.Differences, FixedCoefs;
    var p := recipe.Predictor();
    var path := Lpc.PathFor(f.block.wide, f.Depth(), p);
    var r := Lpc.Residuals(path, y, p);
    ResidualInverts(recipe.Partitioning(|y|), recipe.plan.choices, y[..p.Order()], recipe.Differences(f, y), t);
    CodedDifferences(f, recipe, y);
    Allowed(f, recipe, y);
    Lpc.RestoreInverts(path, y, f.Depth(), p);
  }

  /** The warm-up and what is coded are the residuals of the predictor. */
  lemma CodedDifferences(f: Subframe, recipe: Recipe, y: seq<int>)
    requires recipe.Predicts() && f.Ok() && recipe.Expressible() && recipe.Predictor().Order() <= |y|
    ensures var p := recipe.Predictor();
      y[..p.Order()] + recipe.Differences(f, y) == Lpc.Residuals(Lpc.PathFor(f.block.wide, f.Depth(), p), y, p)
  {
    hide FixedCoefs, Lpc.CanUse32, Lpc.Exact, Differenced, Registers;
    var p := recipe.Predictor();
    var path := Lpc.PathFor(f.block.wide, f.Depth(), p);
    if recipe.AsFixed? {
      FixedOrder(recipe.order);
      FixedResiduals(path, recipe.order, y);
    } else {
      assert y[..p.Order()] == Lpc.Residuals(path, y, p)[..p.Order()];
    }
  }

  lemma Allowed(f: Subframe, recipe: Recipe, y: seq<int>)
    requires recipe.Predicts() && recipe.Suits(f, y)
    ensures Lpc.InDepth(y, f.Depth()) && Lpc.Coded(recipe.Predictor())
  {
    hide Plan, FlacResidualCoding.Suits, Recipe.Differences;
    if recipe.AsLinear? {
      Pow2Mono(recipe.precision - 1, 15);
      assert Pow2(15) == 0x8000 by {
        assert Pow2(8) == 0x100;
      }
    }
  }

  // Subframes.

  /** A subframe of the samples y, each with `wasted` zero bits below it. */
  function SubframeBits(f: Subframe, recipe: Recipe, y: seq<int>): seq<Bit>
    requires recipe.Suits(f, y)
  {
    HeaderBits(recipe.Kind(), f.wasted) + BodyBits(f, recipe, y)
  }

  /** The samples that y stands for. */
  function Shifted(y: seq<int>, wasted: nat): seq<int> {
    seq(|y|, k requires 0 <= k < |y| => y[k] * Pow2(wasted))
  }

  lemma {:induction false} Pow2Add(a: nat, b: nat)
    ensures Pow2(a + b) == Pow2(a) * Pow2(b)
    decreases b
  {
    if b > 0 {
      Pow2Add(a, b - 1);
      assert Pow2(a) * Pow2(b) == 2 * (Pow2(a) * Pow2(b - 1));
    }
  }

  lemma Product(a: int, m: int)
    requires 0 <= a && 0 < m
    ensures 0 <= a * m && (0 < a ==> 0 < a * m)
  {
  }

  /** A factor keeps a number in the range that is as much wider. */
  lemma Times(x: int, h: int, m: int)
    requires -h <= x < h && 0 < m
    ensures -(h * m) <= x * m < h * m
  {
    Product(x + h, m);
    Product(h - x, m);
    assert (x + h) * m == x * m + h * m && (h - x) * m == h * m - x * m;
  }

  /** Putting the wasted bits back never leaves the declared depth, so nothing wraps. */
  lemma ScaledExact(f: Subframe, v: int)
    requires f.Ok() && f.block.Ok() && FitsIn(v, f.Depth())
    ensures f.Scaled(v) == v * Pow2(f.wasted)
  {
    hide Pow2;
    Pow2Add(f.Depth() - 1, f.wasted);
    Times(v, Pow2(f.Depth() - 1), Pow2(f.wasted));
    Pow2Mono(f.block.depth - 1, if f.block.wide then 32 else 31);
    Pow2Of31();
  }

  lemma ScaledAllExact(f: Subframe, y: seq<int>)
    requires f.Ok() && f.block.Ok() && AllFit(y, f.Depth())
    ensures f.ScaledAll(y) == Shifted(y, f.wasted)
    ensures f.wasted == 0 ==> Shifted(y, f.wasted) == y
  {
    hide Subframe.Scaled, FitsIn;
    forall k | 0 <= k < |y| ensures f.Scaled(y[k]) == Shifted(y, f.wasted)[k] {
      ScaledExact(f, y[k]);
    }
    if f.wasted == 0 {
      assert Pow2(f.wasted) == 1;
    }
  }

  lemma ConstantBody(f: Subframe, y: seq<int>, t: seq<Bit>)
    requires AsConstant.Suits(f, y) && f.block.Ok() && f.kind == 0
    ensures AfterHeader(f, BodyBits(f, AsConstant, y) + t) == Done(Shifted(y, f.wasted), t)
  {
    hide Constant, SignedBits, Subframe.Scaled, FitsIn;
    ConstantInverts(f, y[0], t);
    ScaledExact(f, y[0]);
    assert seq(f.block.size, k => f.Scaled(y[0])) == Shifted(y, f.wasted);
  }

  lemma VerbatimBody(f: Subframe, y: seq<int>, t: seq<Bit>)
    requires AsVerbatim.Suits(f, y) && f.block.Ok() && f.kind == 1
    ensures AfterHeader(f, BodyBits(f, AsVerbatim, y) + t) == Done(Shifted(y, f.wasted), t)
  {
    hide Verbatim, AllSigned, Subframe.ScaledAll, FitsIn, Shifted;
    VerbatimInverts(f, y, [], t);
    ScaledAllExact(f, y);
    assert [] + f.ScaledAll(y) == f.ScaledAll(y);
  }

  lemma PredictedBody(f: Subframe, recipe: Recipe, y: seq<int>, t: seq<Bit>)
    requires recipe.Predicts() && recipe.Suits(f, y) && f.block.Ok() && f.kind == recipe.Kind()
    ensures AfterHeader(f, BodyBits(f, recipe, y) + t) == Done(Shifted(y, f.wasted), t)
  {
    hide Verbatim, AllSigned, Subframe.ScaledAll, FitsIn, Shifted, ResidualBits, LinearBits, Predicted, LpcParams, Recipe.Differences, Plan;
    hide FlacResidualCoding.Suits, FixedCoefs;
    var n := recipe.Predictor().Order();
    var bits := ResidualBits(recipe.Partitioning(|y|), recipe.plan.choices, recipe.Differences(f, y)) + t;
    Ordered(f, recipe);
    PredictedInverts(f, recipe, y, t);
    ScaledAllExact(f, y);
    if recipe.AsLinear? {
      var rest := LinearBits(recipe.coefs, recipe.precision, recipe.shift) + bits;
      assert BodyBits(f, recipe, y) + t == AllSigned(y[..n], f.Depth()) + rest;
      WarmupInverts(f, y[..n], [], rest);
      LinearInverts(f, y[..n], recipe.coefs, recipe.precision, recipe.shift, bits);
    } else {
      assert BodyBits(f, recipe, y) + t == AllSigned(y[..n], f.Depth()) + bits;
      WarmupInverts(f, y[..n], [], bits);
    }
    assert [] + y[..n] == y[..n];
  }

  lemma Ordered(f: Subframe, recipe: Recipe)
    requires recipe.Predicts() && recipe.Expressible() && f.kind == recipe.Kind()
    ensures f.Order() == recipe.Predictor().Order() && f.IsLpc() == recipe.AsLinear? && f.IsFixed() == recipe.AsFixed?
    ensures recipe.AsFixed? ==> recipe.Predictor() == Lpc.Predictor(FixedCoefs(f.Order()), 0)
    ensures f.kind < 64
  {
  }

  /** Whatever the recipe, and wherever the calls are cut, the parser gives exactly the samples back. */
  lemma SubframeInverts(f: Subframe, cuts: set<nat>, recipe: Recipe, y: seq<int>, t: seq<Bit>)
    requires recipe.Suits(f, y) && f.block.Ok() && f.kind == recipe.Kind()
    ensures ReadSubframe(f.block, cuts, SubframeBits(f, recipe, y) + t) == Done(Shifted(y, f.wasted), t)
  {
    hide ReadSubframe, AfterHeader, BodyBits, HeaderBits, Shifted, Recipe.Suits, FitsIn;
    SuitsExpressible(f, recipe, y);
    var rest := BodyBits(f, recipe, y) + t;
    assert SubframeBits(f, recipe, y) + t == HeaderBits(recipe.Kind(), f.wasted) + rest;
    HeaderInverts(f.block, cuts, recipe.Kind(), f.wasted, rest);
    if recipe.AsConstant? {
      ConstantBody(f, y, t);
    } else if recipe.AsVerbatim? {
      VerbatimBody(f, y, t);
    } else {
      PredictedBody(f, recipe, y, t);
    }
  }

  lemma SuitsExpressible(f: Subframe, recipe: Recipe, y: seq<int>)
    requires recipe.Suits(f, y) && f.block.Ok()
    ensures recipe.Expressible() && f.wasted <= 33
  {
  }
}
