/** What a FLAC frame means: a parser from whole bit lists, following sections 9.1 to 9.3 of RFC 9639.
    Each function is the rest of the work at one point of the format, so that a decoder that stops
    at that point can say what it still owes. */
module FlacSpec {
  import opened Bits
  import opened Machine
  import Lpc

  datatype Error =
    | BadHeader | SyncNotFound | CrcMismatch | BadSampleDepth | ReservedChannelAssignment | ReservedSubframeType
    | ReservedResidualMethod | BadBlockSize | NotDivisible | BadSampleRate | BadLpcParams | FrameMismatch | BadRicePartition

  /** Short: the bits end too early. */
  datatype Parse<+T> = Short | Bad(error: Error) | Done(value: T, rest: seq<Bit>)

  /** What n bits mean as a two's complement number. */
  function SignExtend(v: nat, n: nat): int
    requires n > 0
  {
    if v >= Pow2(n - 1) then v - Pow2(n) else v
  }

  /** Zero, minus one, one, minus two, ... */
  function ZigZag(v: nat): int {
    if v % 2 == 0 then v / 2 else -(v / 2) - 1
  }

  // Residuals (section 9.2.7).

  function RiceBinary(quotient: nat, param: nat, s: seq<Bit>): (r: Parse<int>)
    ensures r.Done? ==> |r.rest| <= |s|
  {
    if |s| < param then Short
    else Done(ZigZag(BitOr(Low(Shl(quotient, param), 32), ToNat(s[..param]))), s[param..])
  }

  /** A Rice code of whose quotient some zeros have been counted already, in a 32-bit counter. */
  function RiceUnary(quotient: nat, param: nat, s: seq<Bit>): (r: Parse<int>)
    ensures r.Done? ==> |r.rest| <= |s|
    decreases |s|
  {
    if s == [] then Short
    else if s[0] == 1 then RiceBinary(quotient, param, s[1..])
    else RiceUnary(Count32(quotient, 1), param, s[1..])
  }

  datatype Coding = Coding(blockSize: nat, warmup: nat, paramBits: nat, order: nat) {
    function Partitions(): nat { Pow2(order) }

    /** The parameter that announces unencoded samples. */
    function Escape(): nat { Pow2(paramBits) - 1 }

    function Size(): nat { Shr(blockSize, order) }

    /** The samples of partition i; the first one leaves out the warm-up. */
    function Count(i: nat): int { if i == 0 then Size() - warmup else Size() }
  }

  /** The block, given its warm-up samples. */
  function Residual(blockSize: nat, warm: seq<int>, s: seq<Bit>): (r: Parse<seq<int>>)
    ensures r.Done? ==> |r.rest| <= |s|
  {
    if |s| < 6 then Short
    else
      var h := ToNat(s[..6]);
      if h / 16 >= 2 then Bad(ReservedResidualMethod)
      else if blockSize % Pow2(h % 16) != 0 then Bad(NotDivisible)
      else Partition(Coding(blockSize, |warm|, if h / 16 == 1 then 5 else 4, h % 16), 0, warm, s[6..])
  }

  /** Partitions i and later, given the samples before them. */
  function Partition(c: Coding, i: nat, acc: seq<int>, s: seq<Bit>): (r: Parse<seq<int>>)
    ensures r.Done? ==> |r.rest| <= |s|
    decreases c.Partitions() - i, 3, 0
  {
    if |s| < c.paramBits then Short
    else if c.Count(i) < 0 then Bad(BadRicePartition)
    else
      var param := ToNat(s[..c.paramBits]);
      if param < c.Escape() then RiceRun(c, i, param, c.Count(i), acc, s[c.paramBits..])
      else EscapeWidth(c, i, acc, s[c.paramBits..])
  }

  function EscapeWidth(c: Coding, i: nat, acc: seq<int>, s: seq<Bit>): (r: Parse<seq<int>>)
    requires c.Count(i) >= 0
    ensures r.Done? ==> |r.rest| <= |s|
    decreases c.Partitions() - i, 2, 0
  {
    if |s| < 5 then Short
    else RawRun(c, i, ToNat(s[..5]), c.Count(i), acc, s[5..])
  }

  /** The last `left` samples of partition i, and the partitions after it. */
  function RiceRun(c: Coding, i: nat, param: nat, left: nat, acc: seq<int>, s: seq<Bit>): (r: Parse<seq<int>>)
    ensures r.Done? ==> |r.rest| <= |s|
    decreases c.Partitions() - i, 1, left
  {
    if left == 0 then NextPartition(c, i, acc, s)
    else
      match RiceUnary(0, param, s)
      case Short => Short
      case Bad(e) => Bad(e)
      case Done(v, rest) => RiceRun(c, i, param, left - 1, acc + [v], rest)
  }

  function RawRun(c: Coding, i: nat, width: nat, left: nat, acc: seq<int>, s: seq<Bit>): (r: Parse<seq<int>>)
    ensures r.Done? ==> |r.rest| <= |s|
    decreases c.Partitions() - i, 1, left
  {
    if left == 0 then NextPartition(c, i, acc, s)
    else if |s| < width then Short
    else
      var v := if width == 0 then 0 else SignExtend(ToNat(s[..width]), width);
      RawRun(c, i, width, left - 1, acc + [v], s[width..])
  }

  function NextPartition(c: Coding, i: nat, acc: seq<int>, s: seq<Bit>): (r: Parse<seq<int>>)
    ensures r.Done? ==> |r.rest| <= |s|
    decreases c.Partitions() - i, 0, 0
  {
    if i + 1 >= c.Partitions() then Done(acc, s) else Partition(c, i + 1, acc, s)
  }

  /** RiceRun from inside its first sample, of which r is what the bits still give. */
  function RiceRunFrom(c: Coding, i: nat, param: nat, left: nat, acc: seq<int>, p: Parse<int>): (r: Parse<seq<int>>)
    requires left > 0
    ensures r.Done? ==> p.Done? && |r.rest| <= |p.rest|
  {
    match p
    case Short => Short
    case Bad(e) => Bad(e)
    case Done(v, rest) => RiceRun(c, i, param, left - 1, acc + [v], rest)
  }

  // Subframes (section 9.2).

  /** A subframe to be read: its length, its depth, and whether its samples are kept in 64 bits. */
  datatype Block = Block(size: nat, depth: nat, wide: bool) {
    /** Only a wide block may have a 33rd bit. */
    predicate Ok() {
      0 < depth <= if wide then 33 else 32
    }
  }

  const FIXED_MAX := 12
  const LPC_MIN := 32
  const LPC_MAX := 63

  /** A block with the type and the wasted bits its header gave. */
  datatype Subframe = Subframe(block: Block, kind: nat, wasted: nat) {
    function Depth(): int { block.depth - wasted }

    predicate IsFixed() { 8 <= kind <= FIXED_MAX }

    predicate IsLpc() { LPC_MIN <= kind <= LPC_MAX }

    function Order(): nat {
      if IsFixed() then kind - 8 else if IsLpc() then kind - (LPC_MIN - 1) else 0
    }

    predicate Ok() {
      Depth() > 0
    }

    function Scaled(x: int): int {
      if block.wide then Wrap64(x * Pow2(wasted)) else Wrap32(x * Pow2(wasted))
    }

    function ScaledAll(s: seq<int>): (r: seq<int>)
      ensures |r| == |s|
    {
      seq(|s|, k requires 0 <= k < |s| => Scaled(s[k]))
    }
  }

  function FixedCoefs(order: nat): (c: seq<int>)
    ensures order <= 4 ==> |c| == order
  {
    match order
    case 1 => [1]
    case 2 => [-1, 2]
    case 3 => [1, -3, 3]
    case 4 => [-1, 4, -6, 4]
    case _ => []
  }

  /** The calls that bring the bits are told by their cuts: a cut is the number of bits that come after it. */
  function ReadSubframe(b: Block, cuts: set<nat>, s: seq<Bit>): (r: Parse<seq<int>>)
    ensures r.Done? ==> |r.rest| <= |s|
  {
    if |s| < 8 then Short
    else
      var h := ToNat(s[..8]);
      if h % 2 == 1 then Wasted(b, cuts, h / 2 % 64, 1, s[8..])
      else AfterHeader(Subframe(b, h / 2 % 64, 0), s[8..])
  }

  /** The unary count of wasted bits, in a 32-bit counter. Where a call ends while the counter is zero, the next one goes
      on as if there were no count. */
  function Wasted(b: Block, cuts: set<nat>, kind: nat, wasted: nat, s: seq<Bit>): (r: Parse<seq<int>>)
    ensures r.Done? ==> |r.rest| <= |s|
    decreases |s|
  {
    if wasted == 0 && |s| in cuts then AfterHeader(Subframe(b, kind, 0), s)
    else if s == [] then Short
    else if s[0] == 1 then AfterHeader(Subframe(b, kind, wasted), s[1..])
    else Wasted(b, cuts, kind, Count32(wasted, 1), s[1..])
  }

  function AfterHeader(f: Subframe, s: seq<Bit>): (r: Parse<seq<int>>)
    ensures r.Done? ==> |r.rest| <= |s|
  {
    if f.Depth() <= 0 then Bad(BadSampleDepth)
    else if f.kind == 0 then Constant(f, s)
    else if f.kind == 1 then Verbatim(f, [], s)
    else if f.IsFixed() || f.IsLpc() then
      if f.Order() >= f.block.size then Bad(BadLpcParams) else Warmup(f, [], s)
    else Bad(ReservedSubframeType)
  }

  function Constant(f: Subframe, s: seq<Bit>): (r: Parse<seq<int>>)
    requires f.Ok()
    ensures r.Done? ==> |r.rest| <= |s|
  {
    if |s| < f.Depth() then Short
    else
      var v := f.Scaled(SignExtend(ToNat(s[..f.Depth()]), f.Depth()));
      Done(seq(f.block.size, k => v), s[f.Depth()..])
  }

  function Verbatim(f: Subframe, acc: seq<int>, s: seq<Bit>): (r: Parse<seq<int>>)
    requires f.Ok()
    ensures r.Done? ==> |r.rest| <= |s|
    decreases f.block.size - |acc|
  {
    if |acc| >= f.block.size then Done(acc, s)
    else if |s| < f.Depth() then Short
    else Verbatim(f, acc + [f.Scaled(SignExtend(ToNat(s[..f.Depth()]), f.Depth()))], s[f.Depth()..])
  }

  function Warmup(f: Subframe, acc: seq<int>, s: seq<Bit>): (r: Parse<seq<int>>)
    requires f.Ok()
    ensures r.Done? ==> |r.rest| <= |s|
    decreases f.Order() - |acc|
  {
    if |acc| >= f.Order() then
      if f.IsLpc() then LpcParams(f, acc, s)
      else Predicted(f, Lpc.Predictor(FixedCoefs(f.Order()), 0), acc, s)
    else if |s| < f.Depth() then Short
    else Warmup(f, acc + [SignExtend(ToNat(s[..f.Depth()]), f.Depth())], s[f.Depth()..])
  }

  function LpcParams(f: Subframe, warm: seq<int>, s: seq<Bit>): (r: Parse<seq<int>>)
    requires f.Ok()
    ensures r.Done? ==> |r.rest| <= |s|
  {
    if |s| < 9 then Short
    else
      var h := ToNat(s[..9]);
      var precision, shift := h / 32 + 1, SignExtend(h % 32, 5);
      if precision == 16 || shift < 0 then Bad(BadLpcParams)
      else LpcCoefs(f, warm, precision, shift, [], s[9..])
  }

  /** The coefficients come last one first. */
  function LpcCoefs(f: Subframe, warm: seq<int>, precision: nat, shift: nat, coefs: seq<int>, s: seq<Bit>): (r: Parse<seq<int>>)
    requires f.Ok() && precision > 0
    ensures r.Done? ==> |r.rest| <= |s|
    decreases f.Order() - |coefs|
  {
    if |coefs| >= f.Order() then Predicted(f, Lpc.Predictor(coefs, shift), warm, s)
    else if |s| < precision then Short
    else LpcCoefs(f, warm, precision, shift, [SignExtend(ToNat(s[..precision]), precision)] + coefs, s[precision..])
  }

  function Predicted(f: Subframe, p: Lpc.Predictor, warm: seq<int>, s: seq<Bit>): (r: Parse<seq<int>>)
    requires f.Ok()
    ensures r.Done? ==> |r.rest| <= |s|
  {
    Finish(f, p, Residual(f.block.size, warm, s))
  }

  /** From warm-up and residuals to samples. */
  function Finish(f: Subframe, p: Lpc.Predictor, residual: Parse<seq<int>>): (r: Parse<seq<int>>)
    requires f.Ok()
    ensures r.Done? ==> residual.Done? && r.rest == residual.rest
  {
    match residual
    case Short => Short
    case Bad(e) => Bad(e)
    case Done(v, rest) => Done(Finished(f, p, v), rest)
  }

  function Finished(f: Subframe, p: Lpc.Predictor, v: seq<int>): seq<int>
    requires f.Ok()
  {
    var restored := Lpc.Restore(Lpc.PathFor(f.block.wide, f.Depth(), p), v, p);
    if f.wasted > 0 then f.ScaledAll(restored) else restored
  }
}
