/** Where the residual decoder can stop: its saved state, what that state still owes, and how each
    read moves it on. */
module FlacResidual {
  import opened Bits
  import opened FlacSpec
  import opened FlacBitReader

  datatype Stage =
    | SubframeHeader | ConstantValue | VerbatimSamples | WarmupSamples | LpcParameters
    | ResidualHeader | PartitionParam | EscapeBits | ResidualSamples
  {
    predicate InResidual() {
      ResidualHeader? || PartitionParam? || EscapeBits? || ResidualSamples?
    }
  }

  datatype Result = Success | NeedMoreData | Failed(error: Error)

  datatype ResidualState = ResidualState(
    outOffset: nat, order: nat, partitions: nat, index: nat, count: nat, sample: nat,
    param: nat, escapeBits: nat, paramBits: nat, escapeParam: nat, isEscape: bool)

  /** Where the residual decoder stands: everything it saves between two calls. */
  datatype Point = Point(stage: Stage, res: ResidualState, ricePending: bool, rice: RiceState) {
    function Coded(warm: nat, size: nat): Coding {
      Coding(size, warm, res.paramBits, res.order)
    }

    /** A point that the decoder can stop at. */
    predicate Ok(warm: nat, size: nat) {
      var c := Coded(warm, size);
      && stage.InResidual() && warm <= size
      && (ricePending ==> stage == ResidualSamples && !res.isEscape && res.sample < res.count)
      && (!stage.ResidualHeader? ==>
            && (res.paramBits == 4 || res.paramBits == 5) && res.escapeParam == (if res.paramBits == 4 then 15 else 31)
            && res.partitions == c.Partitions() && res.index < c.Partitions() && Divides(c)
            && res.outOffset == Start(c, res.index))
      && (stage.EscapeBits? || stage.ResidualSamples? ==> res.count == c.Count(res.index))
      && (stage.EscapeBits? ==> res.isEscape && res.sample == 0)
      && (stage.ResidualSamples? ==>
            && res.sample <= res.count
            && if res.isEscape then res.escapeBits < 32 else res.param < res.escapeParam)
    }

    /** How many samples of the block are in place. */
    function Written(warm: nat, size: nat): (w: nat)
      requires Ok(warm, size)
      ensures w <= size
      ensures stage.ResidualSamples? ==> res.outOffset + res.count <= size
    {
      assert stage.ResidualHeader? || Start(Coded(warm, size), res.index) + Coded(warm, size).Count(res.index) <= size by {
        if !stage.ResidualHeader? {
          PartitionBounds(Coded(warm, size), res.index);
        }
      }
      match stage
      case PartitionParam => res.outOffset
      case EscapeBits => res.outOffset
      case ResidualSamples => res.outOffset + res.sample
      case _ => warm
    }

    /** What bits s make of the block, acc being the samples in place. */
    function Rest(warm: nat, size: nat, acc: seq<int>, s: seq<Bit>): (r: Parse<seq<int>>)
      requires Ok(warm, size)
      ensures r.Done? ==> |r.rest| <= |s|
    {
      var c := Coded(warm, size);
      match stage
      case PartitionParam => Partition(c, res.index, acc, s)
      case EscapeBits => EscapeWidth(c, res.index, acc, s)
      case ResidualSamples =>
        var left := res.count - res.sample;
        if res.isEscape then RawRun(c, res.index, res.escapeBits, left, acc, s)
        else if ricePending then RiceRunFrom(c, res.index, res.param, left, acc, RiceRest(rice, res.param, s))
        else RiceRun(c, res.index, res.param, left, acc, s)
      case _ => Residual(size, acc, s)
    }

    /** How many bits the read needs that it stopped at; 0 where it would not read first. */
    function NextRead(): nat {
      match stage
      case ResidualHeader => 6
      case PartitionParam => res.paramBits
      case EscapeBits => 5
      case _ =>
        if res.sample >= res.count then 0
        else if res.isEscape then res.escapeBits
        else if !ricePending then 0
        else if rice.binaryPending then res.param
        else 1
    }
  }

  /** Where partition i starts in the block. */
  function Start(c: Coding, i: nat): int {
    if i == 0 then c.warmup else i * c.Size()
  }

  predicate Divides(c: Coding) {
    c.Size() * c.Partitions() == c.blockSize
  }

  lemma Multiples(n: nat, p: nat, i: nat)
    requires i < p
    ensures (i + 1) * n == i * n + n <= n * p
  {
    NaturalProduct(p - (i + 1), n);
    assert (p - (i + 1)) * n == n * p - (i + 1) * n;
  }

  lemma PartitionBounds(c: Coding, i: nat)
    requires Divides(c) && i < c.Partitions()
    ensures Start(c, i) + c.Count(i) == Start(c, i + 1) <= c.blockSize
    ensures i + 1 == c.Partitions() ==> Start(c, i + 1) == c.blockSize
  {
    Multiples(c.Size(), c.Partitions(), i);
    hide Shr, Pow2;
  }

  lemma EscapeIs(c: Coding)
    requires c.paramBits == 4 || c.paramBits == 5
    ensures c.Escape() == if c.paramBits == 4 then 15 else 31
  {
    assert Pow2(4) == 16 && Pow2(5) == 32;
  }

  // One read further, at every point of the residual decoder.

  /** With fewer bits than the next read needs, the block cannot be completed. */
  lemma Starved(k: Point, warm: nat, size: nat, acc: seq<int>, s: seq<Bit>)
    requires k.Ok(warm, size) && |s| < k.NextRead()
    ensures k.Rest(warm, size, acc, s) == Short
  {
    hide Pow2, Shr, ToNat, NextPartition, RiceRun;
  }

  /** A partition parameter leads to its samples, or to the width of unencoded ones. */
  lemma AfterParam(k: Point, next: Point, param: nat, warm: nat, size: nat, acc: seq<int>, s: seq<Bit>)
    requires k.Ok(warm, size) && k.stage.PartitionParam?
    requires k.res.paramBits <= |s| && param == ToNat(s[..k.res.paramBits])
    requires k.Coded(warm, size).Count(k.res.index) >= 0
    requires next.rice == k.rice && !next.ricePending && !k.ricePending
    requires next.res == k.res.(param := param, count := k.Coded(warm, size).Count(k.res.index), sample := 0,
                                isEscape := param >= k.res.escapeParam)
    requires next.stage == if param >= k.res.escapeParam then EscapeBits else ResidualSamples
    ensures next.Ok(warm, size) && next.Written(warm, size) == k.Written(warm, size)
    ensures next.Rest(warm, size, acc, s[k.res.paramBits..]) == k.Rest(warm, size, acc, s)
  {
    EscapeIs(k.Coded(warm, size));
    hide Pow2, Shr, ToNat, NextPartition, RiceRun, RawRun, EscapeWidth;
  }

  lemma BadParam(k: Point, warm: nat, size: nat, acc: seq<int>, s: seq<Bit>)
    requires k.Ok(warm, size) && k.stage.PartitionParam?
    requires k.res.paramBits <= |s| && k.Coded(warm, size).Count(k.res.index) < 0
    ensures k.Rest(warm, size, acc, s) == Bad(BadRicePartition)
  {
    hide Pow2, Shr, ToNat, NextPartition, RiceRun, RawRun, EscapeWidth;
  }

  lemma AfterEscapeBits(k: Point, next: Point, width: nat, warm: nat, size: nat, acc: seq<int>, s: seq<Bit>)
    requires k.Ok(warm, size) && k.stage.EscapeBits?
    requires 5 <= |s| && width == ToNat(s[..5])
    requires next == k.(stage := ResidualSamples, res := k.res.(escapeBits := width))
    ensures next.Ok(warm, size) && next.Written(warm, size) == k.Written(warm, size)
    ensures next.Rest(warm, size, acc, s[5..]) == k.Rest(warm, size, acc, s)
  {
    assert Pow2(5) == 32;
    hide Pow2, Shr, ToNat, NextPartition, RiceRun, RawRun;
  }

  lemma ParamWidth(k: Point, warm: nat, size: nat)
    requires k.Ok(warm, size) && k.stage.PartitionParam?
    ensures k.NextRead() == k.res.paramBits <= 5 && !k.ricePending
  {
  }

  lemma ParamUnread(k: Point, next: Point, warm: nat, size: nat, acc: seq<int>, s: seq<Bit>)
    requires k.Ok(warm, size) && k.stage.PartitionParam?
    requires next == k.(res := k.res.(param := next.res.param))
    ensures next.Ok(warm, size) && next.NextRead() == k.NextRead() && next.Written(warm, size) == k.Written(warm, size)
    ensures next.Rest(warm, size, acc, s) == k.Rest(warm, size, acc, s)
  {
    hide Pow2, Shr, Partition;
  }

  lemma WidthPoint(k: Point, warm: nat, size: nat)
    requires k.Ok(warm, size) && k.stage.EscapeBits?
    ensures k.NextRead() == 5 && !k.ricePending && k.res.sample == 0
  {
  }

  lemma WidthUnread(k: Point, next: Point, warm: nat, size: nat, acc: seq<int>, s: seq<Bit>)
    requires k.Ok(warm, size) && k.stage.EscapeBits?
    requires next == k.(res := k.res.(escapeBits := next.res.escapeBits))
    ensures next.Ok(warm, size) && next.NextRead() == k.NextRead() && next.Written(warm, size) == k.Written(warm, size)
    ensures next.Rest(warm, size, acc, s) == k.Rest(warm, size, acc, s)
  {
    hide Pow2, Shr, EscapeWidth;
  }

  /** The point after a residual header. */
  function HeaderRead(k: Point, codingMethod: nat, order: nat, warm: nat): Point {
    k.(stage := PartitionParam, ricePending := false,
       res := k.res.(outOffset := warm, order := order, partitions := Shl(1, order), index := 0,
                     paramBits := if codingMethod == 1 then 5 else 4,
                     escapeParam := if codingMethod == 1 then 0x1F else 0xF, isEscape := false))
  }

  /** A residual header leads to its first partition, or is refused. */
  lemma AfterResidualHeader(k: Point, codingMethod: nat, order: nat, warm: nat, size: nat, acc: seq<int>, s: seq<Bit>)
    requires k.Ok(warm, size) && k.stage.ResidualHeader? && |acc| == warm
    requires 6 <= |s| && codingMethod == ToNat(s[..6]) / 16 && order == ToNat(s[..6]) % 16
    ensures codingMethod >= 2 ==> k.Rest(warm, size, acc, s) == Bad(ReservedResidualMethod)
    ensures Shl(1, order) != 0
    ensures codingMethod < 2 && size % Shl(1, order) != 0 ==> k.Rest(warm, size, acc, s) == Bad(NotDivisible)
    ensures codingMethod < 2 && size % Shl(1, order) == 0 ==>
      var next := HeaderRead(k, codingMethod, order, warm);
      && next.Ok(warm, size) && next.Written(warm, size) == warm
      && next.Rest(warm, size, acc, s[6..]) == k.Rest(warm, size, acc, s)
  {
    hide Partition, ToNat;
    ShlOne(order);
    if size % Pow2(order) == 0 {
      ShrExact(size, order);
    }
    hide Pow2, Shr, Shl;
  }

  lemma {:induction false} ShlOne(k: nat)
    ensures Shl(1, k) == Pow2(k)
  {
    if k > 0 {
      ShlOne(k - 1);
    }
  }

  lemma ResidualStage(k: Point, warm: nat, size: nat)
    requires k.Ok(warm, size)
    ensures k.stage.InResidual()
  {
  }

  lemma HeaderPoint(k: Point, warm: nat, size: nat)
    requires k.Ok(warm, size) && k.stage.ResidualHeader?
    ensures k.NextRead() == 6 && k.Written(warm, size) == warm <= size && !k.ricePending
  {
  }

  lemma SamplesPoint(k: Point, warm: nat, size: nat)
    requires k.Ok(warm, size) && k.stage.ResidualSamples?
    ensures k.res.sample <= k.res.count
    ensures k.Written(warm, size) == k.res.outOffset + k.res.sample
    ensures k.res.isEscape ==> !k.ricePending && k.res.escapeBits < 32
    ensures k.res.isEscape ==> k.NextRead() == if k.res.sample < k.res.count then k.res.escapeBits else 0
    ensures !k.res.isEscape ==> k.res.param < 31
    ensures k.ricePending ==> k.res.sample < k.res.count
    ensures k.ricePending ==> k.NextRead() == if k.rice.binaryPending then k.res.param else 1
    ensures !k.res.isEscape && !k.ricePending ==> k.NextRead() == 0
  {
  }

  /** One unencoded sample. */
  lemma AfterRaw(k: Point, next: Point, v: int, warm: nat, size: nat, acc: seq<int>, s: seq<Bit>)
    requires k.Ok(warm, size) && k.stage.ResidualSamples? && k.res.isEscape && 0 < k.res.escapeBits
    requires k.res.sample < k.res.count && k.res.escapeBits <= |s|
    requires v == SignExtend(ToNat(s[..k.res.escapeBits]), k.res.escapeBits)
    requires next == k.(res := k.res.(sample := k.res.sample + 1))
    ensures next.Ok(warm, size) && next.Written(warm, size) == k.Written(warm, size) + 1
    ensures next.Rest(warm, size, acc + [v], s[k.res.escapeBits..]) == k.Rest(warm, size, acc, s)
  {
    hide Pow2, Shr, ToNat, NextPartition, SignExtend;
  }

  /** Unencoded samples of no bits are all zero. */
  lemma {:induction false} AfterZeros(k: Point, next: Point, warm: nat, size: nat, acc: seq<int>, zeros: seq<int>, s: seq<Bit>)
    requires k.Ok(warm, size) && k.stage.ResidualSamples? && k.res.isEscape && k.res.escapeBits == 0
    requires |zeros| == k.res.count - k.res.sample && forall j :: 0 <= j < |zeros| ==> zeros[j] == 0
    requires next == k.(res := k.res.(sample := k.res.count))
    ensures next.Ok(warm, size)
    ensures next.Rest(warm, size, acc + zeros, s) == k.Rest(warm, size, acc, s)
    decreases |zeros|
  {
    hide Pow2, Shr, ToNat, NextPartition, SignExtend;
    if zeros == [] {
      assert acc + zeros == acc;
    } else {
      var k' := k.(res := k.res.(sample := k.res.sample + 1));
      AfterZeros(k', next, warm, size, acc + [0], zeros[1..], s);
      assert acc + zeros == acc + [0] + zeros[1..];
      assert s[0..] == s;
    }
  }

  /** The state that read_rice_sint starts from. */
  function Begun(k: Point): RiceState {
    if k.ricePending then k.rice else RiceState(0, false)
  }

  /** One Rice code, begun now or before. */
  lemma AfterRice(k: Point, next: Point, v: int, warm: nat, size: nat, acc: seq<int>, s: seq<Bit>, rest: seq<Bit>)
    requires k.Ok(warm, size) && k.stage.ResidualSamples? && !k.res.isEscape && k.res.sample < k.res.count
    requires RiceRest(Begun(k), k.res.param, s) == Done(v, rest)
    requires next.stage == k.stage && next.res == k.res.(sample := k.res.sample + 1)
    requires !next.ricePending
    ensures next.Ok(warm, size) && next.Written(warm, size) == k.Written(warm, size) + 1
    ensures next.Rest(warm, size, acc + [v], rest) == k.Rest(warm, size, acc, s)
  {
    hide Pow2, Shr, ToNat, NextPartition, RiceUnary, RiceBinary;
  }

  /** A Rice code that the input ends in. */
  lemma InsideRice(k: Point, next: Point, warm: nat, size: nat, acc: seq<int>, s: seq<Bit>, rest: seq<Bit>)
    requires k.Ok(warm, size) && k.stage.ResidualSamples? && !k.res.isEscape && k.res.sample < k.res.count
    requires next == k.(ricePending := true, rice := next.rice)
    requires RiceRest(next.rice, k.res.param, rest) == RiceRest(Begun(k), k.res.param, s)
    ensures next.Ok(warm, size)
    ensures next.Rest(warm, size, acc, rest) == k.Rest(warm, size, acc, s)
  {
    hide Pow2, Shr, ToNat, NextPartition, RiceUnary, RiceBinary;
  }

  /** A finished partition leads to the next one, or completes the block. */
  lemma AfterPartition(k: Point, next: Point, warm: nat, size: nat, acc: seq<int>, s: seq<Bit>)
    requires k.Ok(warm, size) && k.stage.ResidualSamples? && k.res.sample == k.res.count
    requires next == k.(stage := PartitionParam, res := k.res.(outOffset := k.res.outOffset + k.res.count, index := k.res.index + 1))
    ensures k.res.index + 1 >= k.res.partitions ==> k.Rest(warm, size, acc, s) == Done(acc, s)
    ensures k.res.index + 1 >= k.res.partitions ==> k.Written(warm, size) == size
    ensures k.res.index + 1 < k.res.partitions ==> next.Ok(warm, size) && next.Written(warm, size) == k.Written(warm, size)
    ensures k.res.index + 1 < k.res.partitions ==> next.Rest(warm, size, acc, s) == k.Rest(warm, size, acc, s)
  {
    var c, i := k.Coded(warm, size), k.res.index;
    PartitionBounds(c, i);
    hide Pow2, Shr, ToNat, Partition, Divides;
    assert RiceRun(c, i, k.res.param, 0, acc, s) == NextPartition(c, i, acc, s);
    assert RawRun(c, i, k.res.escapeBits, 0, acc, s) == NextPartition(c, i, acc, s);
  }
}
