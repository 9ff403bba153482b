/** Linear prediction: the restore loops of the FLAC decoder and the prediction they undo. */
module Lpc {
  import opened Bits
  import opened Machine
  import opened Samples

  /** Which loop runs: int32 samples with a 32-bit or a 64-bit sum, or int64 samples. */
  datatype Path = Sum32 | Sum64 | Wide

  datatype Predictor = Predictor(coefs: seq<int>, shift: nat) {
    function Order(): nat { |coefs| }
  }

  function Abs(x: int): nat {
    if x < 0 then -x else x
  }

  function AbsSum(coefs: seq<int>): nat {
    if coefs == [] then 0 else AbsSum(coefs[..|coefs| - 1]) + Abs(coefs[|coefs| - 1])
  }

  /** The exact sum of products. */
  function Dot(w: seq<int>, c: seq<int>): int
    requires |w| == |c|
  {
    if c == [] then 0
    else Dot(w[..|w| - 1], c[..|c| - 1]) + w[|w| - 1] * c[|c| - 1]
  }

  /** Arithmetic shift right. */
  function Asr(x: int, k: nat): int {
    x / Pow2(k)
  }

  /** What a loop adds to a residual, given the samples before it. */
  function Prediction(path: Path, w: seq<int>, p: Predictor): int
    requires |w| == p.Order()
  {
    match path
    case Sum32 => Asr(Wrap32(Dot(w, p.coefs)), p.shift)
    case Sum64 => Wrap32(Asr(Wrap64(Dot(w, p.coefs)), p.shift))
    case Wide => Asr(Wrap64(Dot(w, p.coefs)), p.shift)
  }

  function Store(path: Path, x: int): int {
    if path == Wide then Wrap64(x) else Wrap32(x)
  }

  /** Restores s from sample i + order on. */
  function RestoreFrom(path: Path, s: seq<int>, i: nat, p: Predictor): (r: seq<int>)
    ensures |r| == |s|
    decreases |s| - i
  {
    if i + p.Order() >= |s| then s
    else
      var k := i + p.Order();
      RestoreFrom(path, s[k := Store(path, s[k] + Prediction(path, s[i..k], p))], i + 1, p)
  }

  function Restore(path: Path, s: seq<int>, p: Predictor): (r: seq<int>)
    ensures |r| == |s|
  {
    RestoreFrom(path, s, 0, p)
  }

  /** can_use_lpc_32bit */
  predicate CanUse32(depth: nat, p: Predictor)
    requires depth > 0
  {
    var maxSample := Pow2(depth - 1);
    var beforeShift := maxSample * AbsSum(p.coefs);
    && beforeShift <= 0x7FFF_FFFF
    && maxSample - Asr(-beforeShift, p.shift) <= 0x7FFF_FFFF
  }

  function PathFor(wide: bool, depth: nat, p: Predictor): Path
    requires depth > 0
  {
    if wide then Wide else if CanUse32(depth, p) then Sum32 else Sum64
  }

  method AbsSumOf(coefs: seq<int>) returns (sum: nat)
    ensures sum == AbsSum(coefs)
  {
    sum := 0;
    for i := 0 to |coefs|
      invariant sum == AbsSum(coefs[..i])
    {
      sum := sum + Abs(coefs[i]);
      assert coefs[..i + 1][..i] == coefs[..i];
    }
    assert coefs[..|coefs|] == coefs;
  }

  /** The restore loops, on the n samples of `a` that start at `off`. */
  method RestoreInPlace(path: Path, a: array<int>, off: nat, n: nat, p: Predictor)
    requires off + n <= a.Length && p.Order() <= n
    modifies a
    ensures a[off..off + n] == Restore(path, old(a[off..off + n]), p)
    ensures forall k | 0 <= k < a.Length && !(off <= k < off + n) :: a[k] == old(a[k])
  {
    hide Dot, Asr, RestoreFrom, Store, Wrap32, Wrap64;
    var order := p.Order();
    for i := 0 to n - order
      invariant RestoreFrom(path, a[off..off + n], i, p) == Restore(path, old(a[off..off + n]), p)
      invariant forall k | 0 <= k < a.Length && !(off <= k < off + n) :: a[k] == old(a[k])
    {
      ghost var whole, s := a[..], a[off..off + n];
      var sum := 0;
      SumStart();
      assert s[i..i] == [] == p.coefs[..0];
      for j := 0 to order
        invariant a[..] == whole && sum == PartialSum(path, s[i..i + j], p.coefs[..j])
      {
        assert a[off + i + j] == whole[off + i + j] == s[i + j];
        SumStep(path, s, i, j, p.coefs);
        if path == Sum32 {
          sum := Wrap32(sum + Wrap32(a[off + i + j] * p.coefs[j]));
        } else {
          sum := Wrap64(sum + a[off + i + j] * p.coefs[j]);
        }
      }
      assert p.coefs[..order] == p.coefs;
      var add := match path
        case Sum32 => Asr(sum, p.shift)
        case Sum64 => Wrap32(Asr(sum, p.shift))
        case Wide => Asr(sum, p.shift);
      assert forall k | 0 <= k < a.Length :: a[k] == whole[k];
      a[off + i + order] := Store(path, a[off + i + order] + add);
      RestoreStep(path, s, i, p);
      assert a[off..off + n] == s[i + order := Store(path, s[i + order] + Prediction(path, s[i..i + order], p))];
    }
    RestoreEnd(path, a[off..off + n], n - order, p);
  }

  /** The sum so far, in the register that the loop keeps it in. */
  function PartialSum(path: Path, w: seq<int>, c: seq<int>): int
    requires |w| == |c|
  {
    if path == Sum32 then Wrap32(Dot(w, c)) else Wrap64(Dot(w, c))
  }

  lemma SumStart()
    ensures forall path :: PartialSum(path, [], []) == 0
  {
  }

  lemma RestoreStep(path: Path, s: seq<int>, i: nat, p: Predictor)
    requires i + p.Order() < |s|
    ensures var k := i + p.Order();
      RestoreFrom(path, s, i, p) == RestoreFrom(path, s[k := Store(path, s[k] + Prediction(path, s[i..k], p))], i + 1, p)
  {
  }

  lemma RestoreEnd(path: Path, s: seq<int>, i: nat, p: Predictor)
    requires i + p.Order() >= |s|
    ensures RestoreFrom(path, s, i, p) == s
  {
  }

  lemma SumStep(path: Path, s: seq<int>, i: nat, j: nat, c: seq<int>)
    requires i + j < |s| && j < |c|
    ensures var d, x := PartialSum(path, s[i..i + j], c[..j]), s[i + j] * c[j];
      PartialSum(path, s[i..i + j + 1], c[..j + 1]) == if path == Sum32 then Wrap32(d + Wrap32(x)) else Wrap64(d + x)
  {
    var w, v := s[i..i + j + 1], c[..j + 1];
    assert w[..j] == s[i..i + j] && v[..j] == c[..j] && w[j] == s[i + j] && v[j] == c[j];
    var d, x := Dot(s[i..i + j], c[..j]), s[i + j] * c[j];
    assert Dot(w, v) == d + x;
    hide Dot, Wrap32, Wrap64;
    Wrap32Sum(d, Wrap32(x));
    Wrap32Sum(x, d);
    Wrap64Sum(d, x);
  }

  /** can_use_lpc_32bit, with the loop that adds up the coefficients. */
  method CanUseLpc32Bit(depth: nat, p: Predictor) returns (ok: bool)
    requires depth > 0
    ensures ok == CanUse32(depth, p)
  {
    var sum := AbsSumOf(p.coefs);
    var maxSample := Pow2(depth - 1);
    var beforeShift := maxSample * sum;
    if beforeShift > 0x7FFF_FFFF {
      return false;
    }
    ok := maxSample - Asr(-beforeShift, p.shift) <= 0x7FFF_FFFF;
  }

  /** restore_lpc: picks the loop and runs it. */
  method RestoreLpc(wide: bool, a: array<int>, off: nat, n: nat, depth: nat, p: Predictor)
    requires depth > 0 && off + n <= a.Length && p.Order() <= n
    modifies a
    ensures Taken(a, off, n) == Restore(PathFor(wide, depth, p), old(Taken(a, off, n)), p)
    ensures Others(a, off, n) == old(Others(a, off, n))
  {
    hide Restore, CanUse32;
    if wide {
      RestoreInPlace(Wide, a, off, n, p);
    } else {
      var narrow := CanUseLpc32Bit(depth, p);
      RestoreInPlace(if narrow then Sum32 else Sum64, a, off, n, p);
    }
    assert a[..off] == old(a[..off]) && a[off + n..] == old(a[off + n..]);
  }

  // Restoring undoes prediction.

  predicate InDepth(x: seq<int>, depth: nat)
    requires depth > 0
  {
    forall k | 0 <= k < |x| :: -(Pow2(depth - 1) as int) <= x[k] < Pow2(depth - 1)
  }

  /** What the subframe format allows: at most 32 coefficients of at most 16 bits. */
  predicate Coded(p: Predictor) {
    |p.coefs| <= 32 && forall k | 0 <= k < |p.coefs| :: -0x8000 <= p.coefs[k] <= 0x8000
  }

  /** The exact prediction of sample k. */
  function Exact(x: seq<int>, k: nat, p: Predictor): int
    requires p.Order() <= k < |x|
  {
    Asr(Dot(x[k - p.Order()..k], p.coefs), p.shift)
  }

  /** What an encoder leaves in place of x: the warm-up samples, then the stored differences. */
  function Residuals(path: Path, x: seq<int>, p: Predictor): (r: seq<int>)
    ensures |r| == |x|
  {
    seq(|x|, k requires 0 <= k < |x| => if k < p.Order() then x[k] else Store(path, x[k] - Exact(x, k, p)))
  }

  lemma MulBound(x: int, c: int, m: int)
    requires -m <= x <= m
    ensures -(m * Abs(c)) <= x * c <= m * Abs(c)
  {
    if c >= 0 {
      assert (m - x) * c >= 0 && (m + x) * c >= 0;
    } else {
      assert (m - x) * -c >= 0 && (m + x) * -c >= 0;
    }
  }

  lemma {:induction false} DotBound(w: seq<int>, c: seq<int>, m: int)
    requires |w| == |c| && m >= 0
    requires forall k | 0 <= k < |w| :: -m <= w[k] <= m
    ensures -(m * AbsSum(c)) <= Dot(w, c) <= m * AbsSum(c)
  {
    if c != [] {
      var n := |c| - 1;
      DotBound(w[..n], c[..n], m);
      MulBound(w[n], c[n], m);
      assert m * AbsSum(c) == m * AbsSum(c[..n]) + m * Abs(c[n]);
    }
  }

  lemma {:induction false} AbsSumPrefix(c: seq<int>, j: nat)
    requires j <= |c|
    ensures AbsSum(c[..j]) <= AbsSum(c)
    ensures j < |c| ==> Abs(c[j]) <= AbsSum(c)
    decreases |c|
  {
    if j < |c| {
      var n := |c| - 1;
      AbsSumPrefix(c[..n], j);
      assert c[..n][..j] == c[..j];
    } else {
      assert c[..j] == c;
    }
  }

  lemma {:induction false} AbsSumCoded(c: seq<int>)
    requires forall k | 0 <= k < |c| :: -0x8000 <= c[k] <= 0x8000
    ensures AbsSum(c) <= 0x8000 * |c|
  {
    if c != [] {
      AbsSumCoded(c[..|c| - 1]);
    }
  }

  lemma MulMono(a: nat, b: nat, m: nat)
    requires a <= b
    ensures m * a <= m * b
  {
    assert m * (b - a) >= 0;
  }

  lemma AsrBound(x: int, y: int, k: nat)
    requires -y <= x <= y
    ensures Asr(-y, k) <= Asr(x, k) <= -Asr(-y, k)
  {
    hide Pow2;
    var d := Pow2(k);
    DivMono(-y, x, d);
    DivMono(x, y, d);
    DivNeg(y, d);
  }

  lemma DivMono(x: int, y: int, d: nat)
    requires x <= y && d > 0
    ensures x / d <= y / d
  {
    var a, b := x / d, y / d;
    assert x == a * d + x % d && y == b * d + y % d;
    assert (b + 1 - a) * d == b * d + d - a * d;
    PositiveFactor(b + 1 - a, d);
  }

  lemma DivNeg(y: int, d: nat)
    requires d > 0
    ensures y / d <= -((-y) / d)
  {
    var a, b := y / d, (-y) / d;
    assert y == a * d + y % d && -y == b * d + (-y) % d;
    assert (1 - a - b) * d == d - a * d - b * d;
    PositiveFactor(1 - a - b, d);
  }

  /** Every sum of the 32-bit loop stays in an int32, and the prediction leaves room for the residual. */
  lemma NarrowFits(x: seq<int>, k: nat, depth: nat, p: Predictor)
    requires depth > 0 && InDepth(x, depth) && CanUse32(depth, p)
    requires p.Order() <= k < |x|
    ensures forall j | 0 <= j < p.Order() :: Fits32(x[k - p.Order() + j] * p.coefs[j])
    ensures forall j | 0 <= j <= p.Order() :: Fits32(Dot(x[k - p.Order()..k - p.Order() + j], p.coefs[..j]))
    ensures Fits32(x[k]) && Fits32(Exact(x, k, p)) && Fits32(x[k] - Exact(x, k, p))
  {
    hide Pow2, Dot, Asr, AbsSum;
    var m := Pow2(depth - 1);
    var total, o := AbsSum(p.coefs), k - p.Order();
    forall j | 0 <= j < p.Order() ensures Fits32(x[o + j] * p.coefs[j]) {
      MulBound(x[o + j], p.coefs[j], m);
      AbsSumPrefix(p.coefs, j);
      MulMono(Abs(p.coefs[j]), total, m);
    }
    forall j | 0 <= j <= p.Order() ensures Fits32(Dot(x[o..o + j], p.coefs[..j])) {
      DotBound(x[o..o + j], p.coefs[..j], m);
      AbsSumPrefix(p.coefs, j);
      MulMono(AbsSum(p.coefs[..j]), total, m);
    }
    assert p.coefs[..p.Order()] == p.coefs;
    DotBound(x[o..k], p.coefs, m);
    AsrBound(Dot(x[o..k], p.coefs), m * total, p.shift);
  }

  lemma Pow2Of32()
    ensures Pow2(31) == 0x8000_0000 && Pow2(32) == 0x1_0000_0000
  {
    assert Pow2(8) == 0x100;
    assert Pow2(16) == 0x1_0000;
    assert Pow2(24) == 0x100_0000;
  }

  lemma WideRoom(depth: nat, p: Predictor)
    requires 0 < depth <= 33 && Coded(p)
    ensures Pow2(depth - 1) * AbsSum(p.coefs) <= 0x10_0000_0000_0000 && Pow2(depth - 1) <= 0x1_0000_0000
    ensures depth <= 32 ==> Pow2(depth - 1) <= 0x8000_0000
  {
    Pow2Mono(depth - 1, 32);
    if depth <= 32 {
      Pow2Mono(depth - 1, 31);
    }
    Pow2Of32();
    hide Pow2, AbsSum;
    AbsSumCoded(p.coefs);
    MulMono(AbsSum(p.coefs), 0x10_0000, Pow2(depth - 1));
  }

  /** No product and no sum of the 64-bit loops overflows on samples of at most 33 bits. */
  lemma WideFits(x: seq<int>, k: nat, depth: nat, p: Predictor)
    requires 0 < depth <= 33 && InDepth(x, depth) && Coded(p)
    requires p.Order() <= k < |x|
    ensures forall j | 0 <= j < p.Order() :: Fits64(x[k - p.Order() + j] * p.coefs[j])
    ensures forall j | 0 <= j <= p.Order() :: Fits64(Dot(x[k - p.Order()..k - p.Order() + j], p.coefs[..j]))
    ensures Fits64(Dot(x[k - p.Order()..k], p.coefs))
    ensures Fits64(x[k]) && (depth <= 32 ==> Fits32(x[k]))
  {
    hide Pow2, Dot, AbsSum, Coded;
    var m := Pow2(depth - 1);
    var total, o := AbsSum(p.coefs), k - p.Order();
    WideRoom(depth, p);
    forall j | 0 <= j < p.Order() ensures Fits64(x[o + j] * p.coefs[j]) {
      MulBound(x[o + j], p.coefs[j], m);
      AbsSumPrefix(p.coefs, j);
      MulMono(Abs(p.coefs[j]), total, m);
    }
    forall j | 0 <= j <= p.Order() ensures Fits64(Dot(x[o..o + j], p.coefs[..j])) {
      DotBound(x[o..o + j], p.coefs[..j], m);
      AbsSumPrefix(p.coefs, j);
      MulMono(AbsSum(p.coefs[..j]), total, m);
    }
    assert p.coefs[..p.Order()] == p.coefs;
  }

  /** One step of any admissible loop gives the sample back. */
  lemma SampleBack(path: Path, x: seq<int>, k: nat, depth: nat, p: Predictor)
    requires 0 < depth <= (if path == Wide then 33 else 32) && InDepth(x, depth) && Coded(p)
    requires path == Sum32 ==> CanUse32(depth, p)
    requires p.Order() <= k < |x|
    ensures Store(path, Store(path, x[k] - Exact(x, k, p)) + Prediction(path, x[k - p.Order()..k], p)) == x[k]
  {
    hide Store, Prediction, Exact, InDepth, Coded, CanUse32;
    match path {
      case Sum32 => SampleBack32(x, k, depth, p);
      case Sum64 => SampleBack64(x, k, depth, p);
      case Wide => SampleBackWide(x, k, depth, p);
    }
  }

  lemma SampleBack32(x: seq<int>, k: nat, depth: nat, p: Predictor)
    requires 0 < depth <= 32 && InDepth(x, depth) && Coded(p) && CanUse32(depth, p) && p.Order() <= k < |x|
    ensures Store(Sum32, Store(Sum32, x[k] - Exact(x, k, p)) + Prediction(Sum32, x[k - p.Order()..k], p)) == x[k]
  {
    hide Pow2, Dot, Asr, CanUse32, InDepth, Coded;
    WideFits(x, k, depth, p);
    NarrowFits(x, k, depth, p);
    var w, e := x[k - p.Order()..k], Exact(x, k, p);
    assert x[k - p.Order()..k - p.Order() + p.Order()] == w && p.coefs[..p.Order()] == p.coefs;
    assert Prediction(Sum32, w, p) == e;
    Wrap32Sum(x[k] - e, e);
  }

  lemma SampleBack64(x: seq<int>, k: nat, depth: nat, p: Predictor)
    requires 0 < depth <= 32 && InDepth(x, depth) && Coded(p) && p.Order() <= k < |x|
    ensures Store(Sum64, Store(Sum64, x[k] - Exact(x, k, p)) + Prediction(Sum64, x[k - p.Order()..k], p)) == x[k]
  {
    hide Pow2, Dot, Asr, Wrap32, Wrap64, InDepth, Coded;
    WideFits(x, k, depth, p);
    var e := Exact(x, k, p);
    Wrap32Sum(x[k] - e, Wrap32(e));
    Wrap32Sum(e, x[k] - e);
  }

  lemma SampleBackWide(x: seq<int>, k: nat, depth: nat, p: Predictor)
    requires 0 < depth <= 33 && InDepth(x, depth) && Coded(p) && p.Order() <= k < |x|
    ensures Store(Wide, Store(Wide, x[k] - Exact(x, k, p)) + Prediction(Wide, x[k - p.Order()..k], p)) == x[k]
  {
    hide Pow2, Dot, Asr, Wrap32, Wrap64, InDepth, Coded;
    WideFits(x, k, depth, p);
    var e := Exact(x, k, p);
    Wrap64Sum(x[k] - e, e);
  }

  lemma {:induction false} RestoreFromResiduals(path: Path, x: seq<int>, s: seq<int>, i: nat, depth: nat, p: Predictor)
    requires 0 < depth <= (if path == Wide then 33 else 32) && InDepth(x, depth) && Coded(p)
    requires path == Sum32 ==> CanUse32(depth, p)
    requires |s| == |x| && i + p.Order() <= |x|
    requires s[..i + p.Order()] == x[..i + p.Order()]
    requires forall k | i + p.Order() <= k < |x| :: s[k] == Residuals(path, x, p)[k]
    ensures RestoreFrom(path, s, i, p) == x
    decreases |x| - i
  {
    hide Prediction, Store, CanUse32, Exact, Pow2;
    var k := i + p.Order();
    if k < |x| {
      SampleBack(path, x, k, depth, p);
      assert s[i..k] == s[..k][i..] == x[..k][i..] == x[i..k];
      var t := s[k := Store(path, s[k] + Prediction(path, s[i..k], p))];
      assert t[..k + 1] == x[..k + 1];
      RestoreFromResiduals(path, x, t, i + 1, depth, p);
    }
  }

  /** Restoring the residuals of any block in its declared depth gives the block back, on every path. */
  lemma RestoreInverts(path: Path, x: seq<int>, depth: nat, p: Predictor)
    requires 0 < depth <= (if path == Wide then 33 else 32) && InDepth(x, depth) && Coded(p)
    requires path == Sum32 ==> CanUse32(depth, p)
    requires p.Order() <= |x|
    ensures Restore(path, Residuals(path, x, p), p) == x
  {
    RestoreFromResiduals(path, x, Residuals(path, x, p), 0, depth, p);
  }

  /** Where the 32-bit loop is chosen the two encodings are one and both loops restore it alike. */
  lemma PathsAgree(x: seq<int>, depth: nat, p: Predictor)
    requires 0 < depth <= 32 && InDepth(x, depth) && Coded(p) && CanUse32(depth, p)
    requires p.Order() <= |x|
    ensures Residuals(Sum32, x, p) == Residuals(Sum64, x, p)
    ensures Restore(Sum32, Residuals(Sum32, x, p), p) == Restore(Sum64, Residuals(Sum32, x, p), p) == x
  {
    RestoreInverts(Sum32, x, depth, p);
    RestoreInverts(Sum64, x, depth, p);
    assert Residuals(Sum32, x, p) == Residuals(Sum64, x, p);
  }
}
