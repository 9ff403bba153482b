/** Where the subframe decoder can stop: its saved state, what that state still owes, and how each
    read moves it on. */
module FlacSubframe {
  import opened Bits
  import opened FlacSpec
  import opened FlacResidual
  import opened Samples
  import Lpc

  datatype SubframeState = SubframeState(kind: nat, wasted: nat, depth: nat, sampleIdx: nat, wastedPending: bool)

  /** lpc_.coefs */
  type Coefs = c: seq<int> | |c| == MAX_ORDER witness seq(MAX_ORDER, k => 0)

  datatype LpcState = LpcState(coefs: Coefs, order: nat, precision: nat, shift: int, coefIdx: nat)

  const MAX_ORDER := 32

  /** Everything the subframe decoder saves between two calls, the residual decoder's part included, and where the calls
      are cut. */
  datatype Spot = Spot(sub: SubframeState, lpc: LpcState, at: Point, cuts: set<nat>) {
    function Frame(b: Block): Subframe {
      Subframe(b, sub.kind, sub.wasted)
    }

    predicate HasPredictor(b: Block) {
      && (Frame(b).IsFixed() || Frame(b).IsLpc())
      && lpc.order == Frame(b).Order() <= MAX_ORDER && lpc.order < b.size
    }

    /** A spot that the decoder can stop at. */
    predicate Ok(b: Block) {
      && b.Ok()
      && (at.ricePending ==> at.stage.ResidualSamples?)
      && (at.stage.SubframeHeader? || (!sub.wastedPending && Frame(b).Ok() && sub.depth == Frame(b).Depth()))
      && match at.stage
         case SubframeHeader => sub.wastedPending ==> sub.sampleIdx == 0 && sub.wasted < 0x1_0000_0000
         case ConstantValue => sub.kind == 0
         case VerbatimSamples => sub.kind == 1 && sub.sampleIdx <= b.size
         case WarmupSamples => HasPredictor(b) && sub.sampleIdx <= lpc.order
         case LpcParameters => HasPredictor(b) && Frame(b).IsLpc() && (lpc.precision != 0 ==> CoefsBegun())
         case _ => Guided(b) && at.Ok(lpc.order, b.size)
    }

    /** The predictor is complete. */
    predicate Guided(b: Block) {
      HasPredictor(b) && (Frame(b).IsLpc() ==> lpc.shift >= 0)
    }

    predicate CoefsBegun() {
      lpc.precision < 16 && 0 <= lpc.shift && lpc.coefIdx <= lpc.order
    }

    /** How many samples of the block are in place. */
    function Written(b: Block): (w: nat)
      requires Ok(b)
      ensures w <= b.size
    {
      match at.stage
      case SubframeHeader => 0
      case ConstantValue => 0
      case VerbatimSamples => sub.sampleIdx
      case WarmupSamples => sub.sampleIdx
      case LpcParameters => lpc.order
      case _ => at.Written(lpc.order, b.size)
    }

    function Taps(b: Block): seq<int>
      requires HasPredictor(b)
    {
      if Frame(b).IsFixed() then FixedCoefs(lpc.order) else lpc.coefs[..lpc.order]
    }

    function Predictor(b: Block): Lpc.Predictor
      requires Guided(b)
    {
      Lpc.Predictor(Taps(b), if Frame(b).IsFixed() then 0 else lpc.shift)
    }

    /** What bits s make of the block, acc being the samples in place. */
    function Rest(b: Block, acc: seq<int>, s: seq<Bit>): (r: Parse<seq<int>>)
      requires Ok(b)
      ensures r.Done? ==> |r.rest| <= |s|
    {
      var f := Frame(b);
      match at.stage
      case SubframeHeader => if sub.wastedPending then Wasted(b, cuts, sub.kind, sub.wasted, s) else ReadSubframe(b, cuts, s)
      case ConstantValue => Constant(f, s)
      case VerbatimSamples => Verbatim(f, acc, s)
      case WarmupSamples => Warmup(f, acc, s)
      case LpcParameters =>
        if lpc.precision == 0 then LpcParams(f, acc, s)
        else LpcCoefs(f, acc, lpc.precision, lpc.shift, lpc.coefs[lpc.order - lpc.coefIdx..lpc.order], s)
      case _ => Finish(f, Predictor(b), at.Rest(lpc.order, b.size, acc, s))
    }

    /** Stopped in the count of wasted bits, with a counter that is zero. */
    predicate Zeroed() {
      at.stage.SubframeHeader? && sub.wastedPending && sub.wasted == 0
    }

    /** How many bits the read needs that it stopped at; 0 where it would not read first. */
    function NextRead(b: Block): nat {
      match at.stage
      case SubframeHeader => if sub.wastedPending then 1 else 8
      case ConstantValue => sub.depth
      case VerbatimSamples => if sub.sampleIdx < b.size then sub.depth else 0
      case WarmupSamples => if sub.sampleIdx < lpc.order then sub.depth else 0
      case LpcParameters => if lpc.precision == 0 then 9 else if lpc.coefIdx < lpc.order then lpc.precision else 0
      case _ => at.NextRead()
    }
  }

  /** With fewer bits than the next read needs, the subframe cannot be completed. */
  lemma Starved(k: Spot, b: Block, acc: seq<int>, s: seq<Bit>)
    requires k.Ok(b) && |s| < k.NextRead(b) && |acc| == k.Written(b)
    requires !(k.Zeroed() && |s| in k.cuts)
    ensures k.Rest(b, acc, s) == Short
  {
    hide ToNat, Pow2, SignExtend, FixedCoefs, Point.Rest, Point.Ok, Point.NextRead;
    if k.at.stage.InResidual() {
      FlacResidual.Starved(k.at, k.lpc.order, b.size, acc, s);
    }
  }

  /** Nor can it be without any bits where the count is taken for over. */
  lemma NothingToRead(k: Spot, b: Block, acc: seq<int>)
    requires k.Ok(b) && k.Zeroed() && b.size > 0
    ensures !k.Rest(b, acc, []).Done?
  {
    hide ToNat, Pow2, SignExtend, FixedCoefs;
  }

  lemma Stable(k: Spot, b: Block)
    requires k.Ok(b)
    ensures b.Ok() && (k.at.ricePending ==> k.at.stage.ResidualSamples?)
    ensures if k.at.stage.SubframeHeader? then k.Written(b) == 0 else !k.sub.wastedPending && k.Frame(b).Ok()
    ensures k.at.stage.SubframeHeader? && k.sub.wastedPending ==> k.sub.sampleIdx == 0 && k.sub.wasted < 0x1_0000_0000
    ensures k.at.stage.InResidual() ==> k.Guided(b)
  {
  }

  lemma NextReadBound(k: Spot, b: Block)
    requires k.Ok(b)
    ensures k.NextRead(b) <= 33
  {
  }

  // Subframe header.

  /** The rest after the header byte, as the decoder finds it: it looks at the count of wasted bits. */
  function CountRest(b: Block, cuts: set<nat>, kind: nat, wasted: nat, s: seq<Bit>): Parse<seq<int>> {
    if wasted >= 1 then Wasted(b, cuts, kind, wasted, s) else AfterHeader(Subframe(b, kind, 0), s)
  }

  /** A decoder that was stopped in the count goes on as the meaning of the cuts has it. */
  lemma CountGoesOn(b: Block, cuts: set<nat>, kind: nat, wasted: nat, s: seq<Bit>)
    requires wasted == 0 ==> |s| in cuts
    ensures CountRest(b, cuts, kind, wasted, s) == Wasted(b, cuts, kind, wasted, s)
  {
    hide FlacSpec.AfterHeader;
  }

  /** A spot in the subframe header. */
  lemma HeaderSpot(k: Spot, b: Block, s: seq<Bit>)
    requires b.Ok() && k.at.stage.SubframeHeader?
    requires !k.at.ricePending
    requires k.sub.wastedPending ==> k.sub.sampleIdx == 0 && k.sub.wasted < 0x1_0000_0000
    ensures k.Ok(b) && k.Written(b) == 0 && k.NextRead(b) == (if k.sub.wastedPending then 1 else 8)
    ensures k.Rest(b, [], s) == if k.sub.wastedPending then Wasted(b, k.cuts, k.sub.kind, k.sub.wasted, s) else ReadSubframe(b, k.cuts, s)
  {
    hide Wasted, ReadSubframe;
  }

  lemma AfterHeaderByte(k: Spot, b: Block, h: nat, acc: seq<int>, s: seq<Bit>)
    requires k.Ok(b) && k.at.stage.SubframeHeader? && !k.sub.wastedPending
    requires 8 <= |s| && h == ToNat(s[..8])
    ensures k.Rest(b, acc, s) == CountRest(b, k.cuts, h / 2 % 64, h % 2, s[8..])
  {
    hide ToNat, FlacSpec.AfterHeader, Wasted;
  }

  /** One bit of the count of wasted bits. */
  lemma AfterWastedBit(b: Block, cuts: set<nat>, kind: nat, wasted: nat, s: seq<Bit>)
    requires 1 <= |s| && (wasted == 0 ==> |s| !in cuts)
    ensures ToNat(s[..1]) == 1 ==> Wasted(b, cuts, kind, wasted, s) == AfterHeader(Subframe(b, kind, wasted), s[1..])
    ensures ToNat(s[..1]) != 1 ==> Wasted(b, cuts, kind, wasted, s) == Wasted(b, cuts, kind, Count32(wasted, 1), s[1..])
  {
    assert ToNat(s[..1]) == s[0] by {
      assert s[..1][..0] == [];
    }
    hide ToNat, FlacSpec.AfterHeader;
  }

  /** A header that leads on to the contents of the subframe. */
  lemma AfterDispatch(next: Spot, b: Block, s: seq<Bit>)
    requires b.Ok() && !next.at.ricePending
    requires !next.sub.wastedPending && next.sub.sampleIdx == 0
    requires next.Frame(b).Ok() && next.sub.depth == next.Frame(b).Depth()
    requires match next.at.stage
      case ConstantValue => next.sub.kind == 0
      case VerbatimSamples => next.sub.kind == 1
      case WarmupSamples => (next.Frame(b).IsFixed() || next.Frame(b).IsLpc()) && next.lpc.order == next.Frame(b).Order() < b.size
      case _ => false
    ensures next.Ok(b) && next.Written(b) == 0
    ensures next.Rest(b, [], s) == AfterHeader(next.Frame(b), s)
  {
    hide ToNat, Pow2, Constant, Verbatim, Warmup;
  }

  lemma Refused(f: Subframe, s: seq<Bit>)
    ensures f.Depth() <= 0 ==> AfterHeader(f, s) == Bad(BadSampleDepth)
    ensures f.Ok() && (f.IsFixed() || f.IsLpc()) && f.Order() >= f.block.size ==> AfterHeader(f, s) == Bad(BadLpcParams)
    ensures f.Ok() && f.kind > 1 && !f.IsFixed() && !f.IsLpc() ==> AfterHeader(f, s) == Bad(ReservedSubframeType)
  {
    hide ToNat, Pow2, Constant, Verbatim, Warmup;
  }

  // The samples before the residuals.

  lemma SampleSpot(k: Spot, b: Block)
    requires k.Ok(b) && (k.at.stage.ConstantValue? || k.at.stage.VerbatimSamples? || k.at.stage.WarmupSamples?)
    ensures 0 < k.sub.depth <= 33
    ensures k.Written(b) == if k.at.stage.ConstantValue? then 0 else k.sub.sampleIdx
    ensures k.at.stage.ConstantValue? ==> k.NextRead(b) == k.sub.depth
    ensures k.at.stage.VerbatimSamples? ==> k.sub.sampleIdx <= b.size
    ensures k.at.stage.VerbatimSamples? ==> k.NextRead(b) == if k.sub.sampleIdx < b.size then k.sub.depth else 0
    ensures k.at.stage.WarmupSamples? ==> k.sub.sampleIdx <= k.lpc.order < b.size
    ensures k.at.stage.WarmupSamples? ==> k.NextRead(b) == if k.sub.sampleIdx < k.lpc.order then k.sub.depth else 0
  {
  }

  lemma AfterConstant(k: Spot, b: Block, acc: seq<int>, v: int, s: seq<Bit>)
    requires k.Ok(b) && k.at.stage.ConstantValue?
    requires k.sub.depth <= |s| && v == SignExtend(ToNat(s[..k.sub.depth]), k.sub.depth)
    ensures k.Rest(b, acc, s) == Done(Repeat(k.Frame(b).Scaled(v), b.size), s[k.sub.depth..])
  {
    hide ToNat, Pow2, SignExtend;
    assert seq(b.size, j => k.Frame(b).Scaled(v)) == Repeat(k.Frame(b).Scaled(v), b.size);
  }

  lemma AfterVerbatim(k: Spot, next: Spot, b: Block, acc: seq<int>, v: int, s: seq<Bit>)
    requires k.Ok(b) && k.at.stage.VerbatimSamples? && k.sub.sampleIdx < b.size && |acc| == k.sub.sampleIdx
    requires k.sub.depth <= |s| && v == SignExtend(ToNat(s[..k.sub.depth]), k.sub.depth)
    requires next == k.(sub := k.sub.(sampleIdx := k.sub.sampleIdx + 1))
    ensures next.Ok(b) && next.Written(b) == k.Written(b) + 1
    ensures next.Rest(b, acc + [k.Frame(b).Scaled(v)], s[k.sub.depth..]) == k.Rest(b, acc, s)
  {
    hide ToNat, Pow2, SignExtend;
  }

  lemma VerbatimDone(k: Spot, b: Block, acc: seq<int>, s: seq<Bit>)
    requires k.Ok(b) && k.at.stage.VerbatimSamples? && |acc| == k.sub.sampleIdx == b.size
    ensures k.Rest(b, acc, s) == Done(acc, s)
  {
    hide ToNat, Pow2, SignExtend;
  }

  lemma AfterWarmup(k: Spot, next: Spot, b: Block, acc: seq<int>, v: int, s: seq<Bit>)
    requires k.Ok(b) && k.at.stage.WarmupSamples? && k.sub.sampleIdx < k.lpc.order && |acc| == k.sub.sampleIdx
    requires k.sub.depth <= |s| && v == SignExtend(ToNat(s[..k.sub.depth]), k.sub.depth)
    requires next == k.(sub := k.sub.(sampleIdx := k.sub.sampleIdx + 1))
    ensures next.Ok(b) && next.Written(b) == k.Written(b) + 1
    ensures next.Rest(b, acc + [v], s[k.sub.depth..]) == k.Rest(b, acc, s)
  {
    hide ToNat, Pow2, SignExtend, Predicted, LpcParams;
  }

  /** After the warm-up come the LPC parameters, or the residuals of a fixed predictor. */
  lemma WarmupDone(k: Spot, next: Spot, b: Block, acc: seq<int>, s: seq<Bit>)
    requires k.Ok(b) && k.at.stage.WarmupSamples? && k.sub.sampleIdx == k.lpc.order && |acc| == k.sub.sampleIdx
    requires next.sub == k.sub.(sampleIdx := 0) && next.at.rice == k.at.rice && !next.at.ricePending
    requires if k.Frame(b).IsLpc()
             then next.lpc == k.lpc.(precision := 0) && next.at.stage.LpcParameters?
             else next.lpc == k.lpc && next.at.stage.ResidualHeader?
    ensures next.Ok(b) && next.Written(b) == k.Written(b)
    ensures next.Rest(b, acc, s) == k.Rest(b, acc, s)
  {
    hide ToNat, Pow2, SignExtend, LpcParams, Residual;
  }

  // LPC parameters.

  lemma PrecisionSpot(k: Spot, next: Spot, b: Block, acc: seq<int>, s: seq<Bit>)
    requires k.Ok(b) && k.at.stage.LpcParameters? && k.lpc.precision == 0
    requires next == k.(lpc := k.lpc.(coefIdx := 0))
    ensures next.Ok(b) && next.NextRead(b) == k.NextRead(b) == 9 && next.Written(b) == k.Written(b)
    ensures next.Rest(b, acc, s) == k.Rest(b, acc, s)
  {
    hide LpcParams;
  }

  lemma AfterPrecision(k: Spot, next: Spot, b: Block, h: nat, acc: seq<int>, s: seq<Bit>)
    requires k.Ok(b) && k.at.stage.LpcParameters? && k.lpc.precision == 0
    requires 9 <= |s| && h == ToNat(s[..9])
    requires next == k.(lpc := k.lpc.(precision := h / 32 + 1, shift := if h % 32 >= 16 then h % 32 - 32 else h % 32, coefIdx := 0))
    ensures h / 32 + 1 <= 16
    ensures next.lpc.precision == 16 || next.lpc.shift < 0 ==> k.Rest(b, acc, s) == Bad(BadLpcParams)
    ensures next.lpc.precision < 16 && next.lpc.shift >= 0 ==> next.Ok(b) && next.Written(b) == k.Written(b)
    ensures next.lpc.precision < 16 && next.lpc.shift >= 0 ==> next.Rest(b, acc, s[9..]) == k.Rest(b, acc, s)
  {
    assert Pow2(5) == 32 && Pow2(4) == 16 && Pow2(9) == 512;
    assert k.lpc.coefs[k.lpc.order..k.lpc.order] == [];
    hide ToNat, Pow2, LpcCoefs;
  }

  lemma CoefSpot(k: Spot, b: Block)
    requires k.Ok(b) && k.at.stage.LpcParameters? && 0 < k.lpc.precision
    ensures k.lpc.precision < 16 && k.lpc.coefIdx <= k.lpc.order <= |k.lpc.coefs| && k.Written(b) == k.lpc.order
    ensures k.NextRead(b) == if k.lpc.coefIdx < k.lpc.order then k.lpc.precision else 0
  {
  }

  lemma AfterCoef(k: Spot, next: Spot, b: Block, coef: int, acc: seq<int>, s: seq<Bit>)
    requires k.Ok(b) && k.at.stage.LpcParameters? && 0 < k.lpc.precision && k.lpc.coefIdx < k.lpc.order
    requires k.lpc.precision <= |s| && coef == SignExtend(ToNat(s[..k.lpc.precision]), k.lpc.precision)
    requires next == k.(lpc := k.lpc.(coefs := k.lpc.coefs[k.lpc.order - k.lpc.coefIdx - 1 := coef], coefIdx := k.lpc.coefIdx + 1))
    ensures next.Ok(b) && next.Written(b) == k.Written(b)
    ensures next.Rest(b, acc, s[k.lpc.precision..]) == k.Rest(b, acc, s)
  {
    hide ToNat, Pow2, SignExtend, Predicted;
    var o, i := k.lpc.order, k.lpc.coefIdx;
    assert next.lpc.coefs[o - i - 1..o] == [coef] + k.lpc.coefs[o - i..o];
  }

  lemma CoefsDone(k: Spot, next: Spot, b: Block, acc: seq<int>, s: seq<Bit>)
    requires k.Ok(b) && k.at.stage.LpcParameters? && 0 < k.lpc.precision && k.lpc.coefIdx == k.lpc.order && |acc| == k.lpc.order
    requires next == k.(at := k.at.(stage := ResidualHeader, res := next.at.res))
    ensures next.Ok(b) && next.Written(b) == k.Written(b)
    ensures next.Rest(b, acc, s) == k.Rest(b, acc, s)
  {
    hide ToNat, Pow2, SignExtend, Residual;
    assert k.lpc.coefs[k.lpc.order - k.lpc.coefIdx..k.lpc.order] == k.lpc.coefs[..k.lpc.order];
  }

  // Residuals.

  /** In the residual stages the subframe owes what its residuals owe, restored. */
  lemma InResidual(k: Spot, b: Block, acc: seq<int>, s: seq<Bit>)
    requires k.Ok(b) && k.at.stage.InResidual()
    ensures k.Guided(b) && k.lpc.order <= b.size && k.at.Ok(k.lpc.order, b.size)
    ensures k.Frame(b).Ok() && k.sub.depth == k.Frame(b).Depth()
    ensures k.Written(b) == k.at.Written(k.lpc.order, b.size)
    ensures k.Rest(b, acc, s) == Finish(k.Frame(b), k.Predictor(b), k.at.Rest(k.lpc.order, b.size, acc, s))
    ensures k.NextRead(b) == k.at.NextRead()
  {
    hide Finish, Point.Rest;
  }

  lemma StillInResidual(k: Spot, next: Spot, b: Block)
    requires k.Ok(b) && k.at.stage.InResidual()
    requires next == k.(at := next.at) && next.at.Ok(k.lpc.order, b.size)
    ensures next.Ok(b) && next.at.stage.InResidual()
    ensures k.Guided(b) && next.Guided(b) && next.Predictor(b) == k.Predictor(b)
  {
  }

  lemma StillGuided(k: Spot, next: Spot, b: Block)
    requires k.Guided(b) && next.sub == k.sub && next.lpc == k.lpc
    ensures next.Guided(b) && next.Predictor(b) == k.Predictor(b) && next.Frame(b) == k.Frame(b)
  {
  }
}
