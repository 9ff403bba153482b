/** The resumable subframe decoder: a state machine over the bit reader that can run out of input
    inside any read and goes on where it stopped. */
module FlacSubframeDecoder {
  import opened Bits
  import opened FlacSpec
  import opened FlacBitReader
  import opened FlacResidual
  import opened FlacSubframe
  import opened Samples
  import Lpc

  class SubframeDecoder {
    const reader: BitReader
    // subframe_
    var stage: Stage
    var sub: SubframeState
    var lpc: LpcState
    // residual_, and rice_.pending
    var res: ResidualState
    var ricePending: bool

    constructor (reader: BitReader)
      ensures this.reader == reader && Fresh()
    {
      this.reader := reader;
      stage := SubframeHeader;
      sub := SubframeState(0, 0, 0, 0, false);
      lpc := LpcState(Repeat(0, MAX_ORDER), 0, 0, 0, 0);
      res := ResidualState(0, 0, 0, 0, 0, 0, 0, 0, 0, 0, false);
      ricePending := false;
    }

    /** Between two subframes. */
    ghost predicate Fresh()
      reads this
    {
      stage.SubframeHeader? && !sub.wastedPending && !ricePending
    }

    /** The subframe decoder's part of reset_frame_state. */
    method Clear()
      modifies this`stage, this`sub, this`res, this`ricePending
      ensures Fresh()
    {
      stage := SubframeHeader;
      sub := SubframeState(0, 0, 0, 0, false);
      res := ResidualState(0, 0, 0, 0, 0, 0, 0, 0, 0, 0, false);
      ricePending := false;
    }

    // Residuals.

    ghost function Here(): Point
      reads this, reader
    {
      Point(stage, res, ricePending, reader.rice)
    }

    /** The coding method and the partition order. */
    method ReadResidualHeader(warm: nat, size: nat, ghost acc: seq<int>) returns (r: Result)
      requires reader.Valid() && !reader.outOfData && Here().Ok(warm, size) && stage.ResidualHeader? && |acc| == warm
      requires reader.Local() || reader.held < Here().NextRead()
      modifies this`stage, this`res, this`ricePending, reader`bits, reader`held, reader`index, reader`left, reader`outOfData
      ensures reader.Valid()
      ensures r.Success? ==> stage.PartitionParam? && reader.Local() && !reader.outOfData
      ensures r.NeedMoreData? ==> stage.ResidualHeader? && reader.outOfData && |reader.InHand()| < Here().NextRead()
      ensures !r.Failed? ==> Here().Ok(warm, size) && Here().Written(warm, size) == warm
      ensures !r.Failed? ==> Here().Rest(warm, size, acc, reader.Stream()) == old(Here().Rest(warm, size, acc, reader.Stream()))
      ensures r.Failed? ==> old(Here().Rest(warm, size, acc, reader.Stream())) == Bad(r.error)
    {
      hide Point.Ok, Point.Rest, Point.NextRead, Point.Written, ToNat, Pow2, Shl;
      hide BitReader.Valid, BitReader.Stream, BitReader.InHand, BitReader.Local;
      ghost var k, s := Here(), reader.Stream();
      HeaderPoint(k, warm, size);
      var h := reader.ReadUint(6);
      if reader.outOfData {
        return NeedMoreData;
      }
      var codingMethod, order := h / 16, h % 16;
      AfterResidualHeader(k, codingMethod, order, warm, size, acc, s);
      if codingMethod >= 2 {
        return Failed(ReservedResidualMethod);
      }
      var partitions := Shl(1, order);
      if size % partitions != 0 {
        return Failed(NotDivisible);
      }
      res := res.(paramBits := if codingMethod == 1 then 5 else 4, escapeParam := if codingMethod == 1 then 0x1F else 0xF,
                  order := order, partitions := partitions, index := 0, outOffset := warm, isEscape := false);
      ricePending := false;
      stage := PartitionParam;
      return Success;
    }

    /** read_partition_param; acc stands for the samples in place. */
    method ReadPartitionParam(warm: nat, size: nat, ghost acc: seq<int>) returns (r: Result)
      requires reader.Valid() && !reader.outOfData && Here().Ok(warm, size)
      requires stage.PartitionParam? || stage.EscapeBits?
      requires reader.Local() || reader.held < Here().NextRead()
      modifies this`stage, this`res, reader`bits, reader`held, reader`index, reader`left, reader`outOfData
      ensures reader.Valid()
      ensures r.Success? ==> stage.ResidualSamples? && reader.Local() && !reader.outOfData
      ensures r.Success? ==> res.index == old(res).index && res.partitions == old(res).partitions
      ensures r.NeedMoreData? ==> !stage.ResidualHeader? && reader.outOfData && |reader.InHand()| < Here().NextRead()
      ensures !r.Failed? ==> Here().Ok(warm, size) && Here().Written(warm, size) == old(Here().Written(warm, size))
      ensures !r.Failed? ==> Here().Rest(warm, size, acc, reader.Stream()) == old(Here().Rest(warm, size, acc, reader.Stream()))
      ensures r.Failed? ==> old(Here().Rest(warm, size, acc, reader.Stream())) == Bad(r.error)
    {
      hide *;
      if stage == PartitionParam {
        r := ReadParam(warm, size, acc);
        if !r.Success? || stage == ResidualSamples {
          return;
        }
      }
      r := ReadEscapeBits(warm, size, acc);
    }

    /** The Rice parameter of a partition; acc stands for the samples in place. */
    method ReadParam(warm: nat, size: nat, ghost acc: seq<int>) returns (r: Result)
      requires reader.Valid() && !reader.outOfData && Here().Ok(warm, size) && stage.PartitionParam?
      requires reader.Local() || reader.held < Here().NextRead()
      modifies this`stage, this`res, reader`bits, reader`held, reader`index, reader`left, reader`outOfData
      ensures reader.Valid()
      ensures r.Success? ==> (stage.ResidualSamples? || stage.EscapeBits?) && reader.Local() && !reader.outOfData
      ensures r.Success? ==> res.index == old(res).index && res.partitions == old(res).partitions
      ensures !r.Failed? ==> Here().Ok(warm, size) && Here().Written(warm, size) == old(Here().Written(warm, size))
      ensures !r.Failed? ==> Here().Rest(warm, size, acc, reader.Stream()) == old(Here().Rest(warm, size, acc, reader.Stream()))
      ensures r.NeedMoreData? ==> stage.PartitionParam? && reader.outOfData && |reader.InHand()| < Here().NextRead()
      ensures r.Failed? ==> old(Here().Rest(warm, size, acc, reader.Stream())) == Bad(r.error)
    {
      hide Point.Ok, Point.Rest, Point.NextRead, Point.Written, Shr, ToNat;
      hide BitReader.Valid, BitReader.Stream, BitReader.InHand, BitReader.Local;
      ghost var k, s := Here(), reader.Stream();
      ParamWidth(k, warm, size);
      var param := reader.ReadUint(res.paramBits);
      res := res.(param := param);
      if reader.outOfData {
        ParamUnread(k, Here(), warm, size, acc, s);
        return NeedMoreData;
      }
      var count := Shr(size, res.order);
      if res.index == 0 {
        if count < warm {
          BadParam(k, warm, size, acc, s);
          return Failed(BadRicePartition);
        }
        count := count - warm;
      }
      res := res.(count := count, sample := 0, isEscape := param >= res.escapeParam);
      stage := if res.isEscape then EscapeBits else ResidualSamples;
      AfterParam(k, Here(), param, warm, size, acc, s);
      return Success;
    }

    /** The width of the samples of a partition that is not Rice coded. */
    method ReadEscapeBits(warm: nat, size: nat, ghost acc: seq<int>) returns (r: Result)
      requires reader.Valid() && !reader.outOfData && Here().Ok(warm, size) && stage.EscapeBits?
      requires reader.Local() || reader.held < Here().NextRead()
      modifies this`stage, this`res, reader`bits, reader`held, reader`index, reader`left, reader`outOfData
      ensures reader.Valid() && Here().Ok(warm, size)
      ensures r == if reader.outOfData then NeedMoreData else Success
      ensures r.Success? ==> stage.ResidualSamples? && reader.Local()
      ensures r.NeedMoreData? ==> stage.EscapeBits? && |reader.InHand()| < Here().NextRead()
      ensures res == old(res).(escapeBits := res.escapeBits) && Here().Written(warm, size) == old(Here().Written(warm, size))
      ensures Here().Rest(warm, size, acc, reader.Stream()) == old(Here().Rest(warm, size, acc, reader.Stream()))
    {
      hide Point.Ok, Point.Rest, Point.NextRead, Point.Written, Shr, ToNat;
      hide BitReader.Valid, BitReader.Stream, BitReader.InHand, BitReader.Local;
      ghost var k, s := Here(), reader.Stream();
      WidthPoint(k, warm, size);
      var width := reader.ReadUint(5);
      res := res.(escapeBits := width);
      if reader.outOfData {
        WidthUnread(k, Here(), warm, size, acc, s);
        return NeedMoreData;
      }
      stage := ResidualSamples;
      AfterEscapeBits(k, Here(), width, warm, size, acc, s);
      return Success;
    }

    /** What all the bits still to come make of the block in dest[off..off + size]. */
    ghost function Owed(dest: array<int>, off: nat, warm: nat, size: nat): Parse<seq<int>>
      requires reader.Valid() && Here().Ok(warm, size) && off + size <= dest.Length
      reads this, reader, dest
    {
      Here().Rest(warm, size, Taken(dest, off, Here().Written(warm, size)), reader.Stream())
    }

    /** The reads before the samples of a partition. */
    method ReadHeads(ghost dest: array<int>, ghost off: nat, warm: nat, size: nat) returns (r: Result)
      requires reader.Valid() && !reader.outOfData && Here().Ok(warm, size) && off + size <= dest.Length
      requires !stage.ResidualSamples?
      requires reader.Local() || reader.held < Here().NextRead()
      modifies this`stage, this`res, this`ricePending, reader`bits, reader`held, reader`index, reader`left, reader`outOfData
      ensures reader.Valid()
      ensures r.Success? ==> Here().Ok(warm, size) && reader.Local() && !reader.outOfData
      ensures r.Success? && old(stage).ResidualHeader? ==> stage.PartitionParam?
      ensures r.Success? && !old(stage).ResidualHeader? ==>
        (stage.ResidualSamples? && res.index == old(res).index && res.partitions == old(res).partitions)
      ensures r.NeedMoreData? ==> Here().Ok(warm, size) && reader.outOfData && |reader.InHand()| < Here().NextRead()
      ensures !r.Failed? ==> Owed(dest, off, warm, size) == old(Owed(dest, off, warm, size))
      ensures r.Failed? ==> old(Owed(dest, off, warm, size)) == Bad(r.error)
    {
      hide Point.Ok, Point.Rest, Point.NextRead, Point.Written, Taken;
      hide BitReader.Valid, BitReader.Stream, BitReader.InHand, BitReader.Local;
      ResidualStage(Here(), warm, size);
      ghost var acc := Taken(dest, off, Here().Written(warm, size));
      if stage.ResidualHeader? {
        HeaderPoint(Here(), warm, size);
        r := ReadResidualHeader(warm, size, acc);
      } else {
        r := ReadPartitionParam(warm, size, acc);
      }
    }

    /** The samples of a partition whose samples have no bits. */
    method ZeroSamples(dest: array<int>, off: nat, warm: nat, size: nat)
      requires reader.Valid() && Here().Ok(warm, size) && off + size <= dest.Length
      requires stage.ResidualSamples? && res.isEscape && res.escapeBits == 0
      modifies this`res, dest
      ensures Here().Ok(warm, size) && res == old(res).(sample := res.count)
      ensures Owed(dest, off, warm, size) == old(Owed(dest, off, warm, size))
      ensures Others(dest, off, size) == old(Others(dest, off, size))
    {
      hide Point.Ok, Point.Rest, Taken, Others, BitReader.Valid, BitReader.Stream, BitReader.InHand;
      ghost var k, s := Here(), reader.Stream();
      SamplesPoint(k, warm, size);
      var n := res.outOffset + res.sample;
      ghost var acc := Taken(dest, off, n);
      Fill(dest, off, n, res.count - res.sample, size, 0);
      res := res.(sample := res.count);
      AfterZeros(k, Here(), warm, size, acc, Repeat(0, res.count - k.res.sample), s);
    }

    /** One unencoded sample. */
    method RawSample(dest: array<int>, off: nat, warm: nat, size: nat)
      requires reader.Valid() && !reader.outOfData && Here().Ok(warm, size) && off + size <= dest.Length
      requires stage.ResidualSamples? && res.isEscape && 0 < res.escapeBits && res.sample < res.count
      requires reader.Local() || reader.held < Here().NextRead()
      modifies this`res, reader`bits, reader`held, reader`index, reader`left, reader`outOfData, dest
      ensures reader.Valid() && Here().Ok(warm, size)
      ensures reader.outOfData ==> res == old(res) && |reader.InHand()| < Here().NextRead()
      ensures !reader.outOfData ==> reader.Local() && res == old(res).(sample := old(res).sample + 1)
      ensures Owed(dest, off, warm, size) == old(Owed(dest, off, warm, size))
      ensures Others(dest, off, size) == old(Others(dest, off, size))
    {
      hide Taken, Others, Point.Ok, Point.Rest, Point.NextRead, ToNat, BitReader.Valid, BitReader.Stream, BitReader.InHand, BitReader.Local, SignExtend;
      ghost var k, s := Here(), reader.Stream();
      ghost var acc := Taken(dest, off, k.Written(warm, size));
      SamplesPoint(k, warm, size);
      var v := reader.ReadSint(res.escapeBits);
      if !reader.outOfData {
        Put(dest, off, res.outOffset + res.sample, size, v);
        res := res.(sample := res.sample + 1);
        AfterRaw(k, Here(), v, warm, size, acc, s);
      }
    }

    /** The unencoded samples of a partition, as far as the input goes. */
    method RawSamples(dest: array<int>, off: nat, warm: nat, size: nat) returns (r: Result)
      requires reader.Valid() && !reader.outOfData && Here().Ok(warm, size) && off + size <= dest.Length
      requires stage.ResidualSamples? && res.isEscape && 0 < res.escapeBits
      requires reader.Local() || reader.held < Here().NextRead()
      modifies this`res, reader`bits, reader`held, reader`index, reader`left, reader`outOfData, dest
      ensures reader.Valid() && Here().Ok(warm, size)
      ensures res == old(res).(sample := res.sample)
      ensures r == if reader.outOfData then NeedMoreData else Success
      ensures r.Success? ==> reader.Local() && res.sample == res.count
      ensures r.NeedMoreData? ==> |reader.InHand()| < Here().NextRead()
      ensures Owed(dest, off, warm, size) == old(Owed(dest, off, warm, size))
      ensures Others(dest, off, size) == old(Others(dest, off, size))
    {
      hide Point.Ok, Owed, Point.NextRead, BitReader.Valid, BitReader.InHand, BitReader.Local, Others;
      ghost var k := Here();
      SamplesPoint(k, warm, size);
      while res.sample < res.count
        invariant reader.Valid() && !reader.outOfData && Here().Ok(warm, size)
        invariant res == old(res).(sample := res.sample) && res.sample <= res.count
        invariant reader.Local() || (res.sample < res.count && reader.held < Here().NextRead())
        invariant Owed(dest, off, warm, size) == old(Owed(dest, off, warm, size))
        invariant Others(dest, off, size) == old(Others(dest, off, size))
      {
        RawSample(dest, off, warm, size);
        if reader.outOfData {
          return NeedMoreData;
        }
      }
      return Success;
    }

    /** One Rice coded sample, begun now or in an earlier call. */
    method RiceSample(resuming: bool, dest: array<int>, off: nat, warm: nat, size: nat)
      requires reader.Valid() && !reader.outOfData && Here().Ok(warm, size) && off + size <= dest.Length
      requires stage.ResidualSamples? && !res.isEscape && res.sample < res.count && resuming == ricePending
      requires reader.Local() || reader.held < Here().NextRead()
      modifies this`res, this`ricePending, reader`bits, reader`held, reader`index, reader`left, reader`outOfData, reader`rice, dest
      ensures reader.Valid() && Here().Ok(warm, size)
      ensures ricePending == reader.outOfData
      ensures reader.outOfData ==> res == old(res) && |reader.InHand()| < Here().NextRead()
      ensures !reader.outOfData ==> reader.Local() && res == old(res).(sample := old(res).sample + 1)
      ensures Owed(dest, off, warm, size) == old(Owed(dest, off, warm, size))
      ensures Others(dest, off, size) == old(Others(dest, off, size))
    {
      hide Taken, Others, Point.Ok, Point.Rest, Point.NextRead, RiceRest, BitReader.Valid, BitReader.Stream, BitReader.InHand;
      ghost var k, s := Here(), reader.Stream();
      ghost var acc := Taken(dest, off, k.Written(warm, size));
      SamplesPoint(k, warm, size);
      var v := reader.ReadRice(resuming, res.param);
      if reader.outOfData {
        ricePending := true;
        InsideRice(k, Here(), warm, size, acc, s, reader.Stream());
        SamplesPoint(Here(), warm, size);
      } else {
        Put(dest, off, res.outOffset + res.sample, size, v);
        res := res.(sample := res.sample + 1);
        ricePending := false;
        AfterRice(k, Here(), v, warm, size, acc, s, reader.Stream());
      }
    }

    /** The Rice coded samples of a partition, as far as the input goes. */
    method RiceSamples(dest: array<int>, off: nat, warm: nat, size: nat) returns (r: Result)
      requires reader.Valid() && !reader.outOfData && Here().Ok(warm, size) && off + size <= dest.Length
      requires stage.ResidualSamples? && !res.isEscape
      requires reader.Local() || reader.held < Here().NextRead()
      modifies this`res, this`ricePending, reader`bits, reader`held, reader`index, reader`left, reader`outOfData, reader`rice, dest
      ensures reader.Valid() && Here().Ok(warm, size)
      ensures res == old(res).(sample := res.sample)
      ensures r == if reader.outOfData then NeedMoreData else Success
      ensures r.Success? ==> reader.Local() && res.sample == res.count
      ensures r.NeedMoreData? ==> |reader.InHand()| < Here().NextRead()
      ensures Owed(dest, off, warm, size) == old(Owed(dest, off, warm, size))
      ensures Others(dest, off, size) == old(Others(dest, off, size))
    {
      hide Point.Ok, Owed, Point.NextRead, BitReader.Valid, BitReader.InHand, BitReader.Local, Others;
      SamplesPoint(Here(), warm, size);
      if ricePending {
        RiceSample(true, dest, off, warm, size);
        if reader.outOfData {
          return NeedMoreData;
        }
        SamplesPoint(Here(), warm, size);
      }
      while res.sample < res.count
        invariant reader.Valid() && !reader.outOfData && Here().Ok(warm, size) && !ricePending && reader.Local()
        invariant res == old(res).(sample := res.sample) && res.sample <= res.count
        invariant Owed(dest, off, warm, size) == old(Owed(dest, off, warm, size))
        invariant Others(dest, off, size) == old(Others(dest, off, size))
      {
        RiceSample(false, dest, off, warm, size);
        if reader.outOfData {
          return NeedMoreData;
        }
      }
      return Success;
    }

    /** The samples of a partition. */
    method PartitionSamples(dest: array<int>, off: nat, warm: nat, size: nat) returns (r: Result)
      requires reader.Valid() && !reader.outOfData && Here().Ok(warm, size) && off + size <= dest.Length
      requires stage.ResidualSamples?
      requires reader.Local() || reader.held < Here().NextRead()
      modifies this`res, this`ricePending, reader`bits, reader`held, reader`index, reader`left, reader`outOfData, reader`rice, dest
      ensures reader.Valid() && Here().Ok(warm, size)
      ensures res == old(res).(sample := res.sample)
      ensures r == if reader.outOfData then NeedMoreData else Success
      ensures r.Success? ==> reader.Local() && res.sample == res.count
      ensures r.NeedMoreData? ==> |reader.InHand()| < Here().NextRead()
      ensures Owed(dest, off, warm, size) == old(Owed(dest, off, warm, size))
      ensures Others(dest, off, size) == old(Others(dest, off, size))
    {
      hide Point.Ok, Owed, Point.NextRead, BitReader.Valid, BitReader.InHand, Others;
      SamplesPoint(Here(), warm, size);
      if res.isEscape {
        if res.escapeBits == 0 {
          ZeroSamples(dest, off, warm, size);
          r := Success;
        } else {
          r := RawSamples(dest, off, warm, size);
        }
      } else {
        r := RiceSamples(dest, off, warm, size);
      }
    }

    /** Moves on from a finished partition; true when it was the last one. */
    method FinishPartition(dest: array<int>, off: nat, warm: nat, size: nat) returns (last: bool)
      requires reader.Valid() && Here().Ok(warm, size) && off + size <= dest.Length
      requires stage.ResidualSamples? && res.sample == res.count
      modifies this`stage, this`res
      ensures !ricePending
      ensures last ==> old(Owed(dest, off, warm, size)) == Done(Taken(dest, off, size), reader.Stream())
      ensures !last ==> stage.PartitionParam? && Here().Ok(warm, size)
      ensures !last ==> Owed(dest, off, warm, size) == old(Owed(dest, off, warm, size))
      ensures !last ==> res.partitions == old(res).partitions && res.index == old(res).index + 1 < res.partitions
    {
      hide Point.Ok, Point.Rest, Taken, BitReader.Valid, BitReader.Stream, BitReader.InHand;
      ghost var k := Here();
      ghost var acc := Taken(dest, off, k.Written(warm, size));
      SamplesPoint(k, warm, size);
      res := res.(outOffset := res.outOffset + res.count, index := res.index + 1);
      stage := PartitionParam;
      AfterPartition(k, Here(), warm, size, acc, reader.Stream());
      last := res.index >= res.partitions;
    }

    /** decode_residuals */
    method DecodeResiduals(dest: array<int>, off: nat, warm: nat, size: nat) returns (r: Result)
      requires reader.Valid() && !reader.outOfData && Here().Ok(warm, size) && off + size <= dest.Length
      requires reader.Local() || reader.held < Here().NextRead()
      modifies this`stage, this`res, this`ricePending, reader`bits, reader`held, reader`index, reader`left, reader`outOfData, reader`rice, dest
      ensures reader.Valid()
      ensures r.Success? ==> reader.Local() && !reader.outOfData && !ricePending
      ensures r.Success? ==> old(Owed(dest, off, warm, size)) == Done(Taken(dest, off, size), reader.Stream())
      ensures r.NeedMoreData? ==> reader.outOfData && Here().Ok(warm, size) && |reader.InHand()| < Here().NextRead()
      ensures r.NeedMoreData? ==> Owed(dest, off, warm, size) == old(Owed(dest, off, warm, size))
      ensures r.Failed? ==> old(Owed(dest, off, warm, size)) == Bad(r.error)
      ensures Others(dest, off, size) == old(Others(dest, off, size))
    {
      hide Owed, Point.NextRead, BitReader.Valid, BitReader.InHand, BitReader.Local, BitReader.Stream, Others;
      while true
        invariant reader.Valid() && !reader.outOfData && Here().Ok(warm, size)
        invariant reader.Local() || reader.held < Here().NextRead()
        invariant Owed(dest, off, warm, size) == old(Owed(dest, off, warm, size))
        invariant Others(dest, off, size) == old(Others(dest, off, size))
        decreases stage.ResidualHeader?, res.partitions - res.index, !stage.ResidualSamples?
      {
        if !stage.ResidualSamples? {
          r := ReadHeads(dest, off, warm, size);
        } else {
          r := PartitionSamples(dest, off, warm, size);
          if r.Success? {
            var last := FinishPartition(dest, off, warm, size);
            if last {
              return;
            }
          }
        }
        if !r.Success? {
          return;
        }
      }
    }

    // Subframes.

    ghost function Standing(): Spot
      reads this, reader
    {
      Spot(sub, lpc, Here(), reader.cuts)
    }

    /** A spot that a call goes on from. If the count of wasted bits was left with a counter that is zero, it was at a cut. */
    ghost predicate Ready(b: Block)
      requires reader.Valid()
      reads this, reader
    {
      && Standing().Ok(b) && reader.Uncut()
      && (Standing().Zeroed() ==> |reader.Stream()| in reader.cuts)
    }

    /** What all the bits still to come make of the subframe in dest[off..off + b.size]. */
    ghost function Due(dest: array<int>, off: nat, b: Block): (r: Parse<seq<int>>)
      requires reader.Valid() && Standing().Ok(b) && off + b.size <= dest.Length
      reads this, reader, dest
      ensures r.Done? ==> |r.rest| <= |reader.Stream()|
    {
      Standing().Rest(b, Taken(dest, off, Standing().Written(b)), reader.Stream())
    }

    /** The count of wasted bits. */
    method CountWasted(b: Block) returns (done: bool)
      requires reader.Valid() && !reader.outOfData && b.Ok() && stage.SubframeHeader? && sub.sampleIdx == 0
      requires !ricePending
      requires reader.Uncut() && sub.wasted < 0x1_0000_0000
      requires reader.Local() || reader.held < 1
      modifies this`sub, reader`bits, reader`held, reader`index, reader`left, reader`outOfData
      ensures reader.Valid() && done == !reader.outOfData
      ensures done ==> sub.sampleIdx == 0 && !sub.wastedPending && reader.Local()
      ensures done ==> AfterHeader(Subframe(b, sub.kind, sub.wasted), reader.Stream()) == old(CountRest(b, reader.cuts, sub.kind, sub.wasted, reader.Stream()))
      ensures !done ==> Standing().Ok(b) && |reader.InHand()| < Standing().NextRead(b) && Standing().Written(b) == 0
      ensures !done ==> Standing().Rest(b, [], reader.Stream()) == old(CountRest(b, reader.cuts, sub.kind, sub.wasted, reader.Stream()))
      ensures !done && sub.wasted == 0 ==> 1 <= |old(reader.InHand())|
    {
      hide AfterHeader, Wasted, ToNat, Spot.Ok, Spot.Rest, Spot.NextRead, Spot.Written;
      hide BitReader.Valid, BitReader.Stream, BitReader.InHand, BitReader.Local;
      ghost var goal := CountRest(b, reader.cuts, sub.kind, sub.wasted, reader.Stream());
      InsideCall();
      if sub.wasted >= 1 {
        hide CountRest;
        while true
          invariant reader.Valid() && !reader.outOfData && sub.wasted < 0x1_0000_0000
          invariant reader.Local() || reader.held < 1
          invariant sub == old(sub).(wasted := sub.wasted)
          invariant |reader.InHand()| <= |old(reader.InHand())|
          invariant sub.wasted == 0 ==> 1 <= |old(reader.InHand())| && |reader.Stream()| < 8 * (|reader.buffer| + |reader.later|)
          invariant Wasted(b, reader.cuts, sub.kind, sub.wasted, reader.Stream()) == goal
          decreases |reader.Stream()|
        {
          ghost var s := reader.Stream();
          InsideCall();
          var bit := reader.ReadUint(1);
          if reader.outOfData {
            sub := sub.(wastedPending := true);
            HeaderSpot(Standing(), b, reader.Stream());
            return false;
          }
          AfterWastedBit(b, reader.cuts, sub.kind, sub.wasted, s);
          if bit == 1 {
            break;
          }
          sub := sub.(wasted := Count32(sub.wasted, 1));
          InsideCall();
        }
      }
      sub := sub.(wastedPending := false);
      return true;
    }

    /** How far the bits of this call reach. */
    lemma InsideCall()
      requires reader.Valid() && (reader.Local() || reader.held < 1)
      ensures reader.Local() && |reader.Stream()| == |reader.InHand()| + 8 * |reader.later| <= 8 * (|reader.buffer| + |reader.later|)
    {
    }

    /** The subframe header: padding, type, flag and count of wasted bits. */
    method ReadSubframeHeader(b: Block) returns (r: Result)
      requires reader.Valid() && !reader.outOfData && Ready(b) && stage.SubframeHeader?
      requires reader.Local() || reader.held < Standing().NextRead(b)
      modifies this`stage, this`sub, this`lpc, reader`bits, reader`held, reader`index, reader`left, reader`outOfData
      ensures reader.Valid()
      ensures r.Success? ==> Standing().Ok(b) && !stage.SubframeHeader? && reader.Local() && !reader.outOfData
      ensures r.Success? ==> !stage.InResidual() && !stage.LpcParameters?
      ensures r.NeedMoreData? ==> stage.SubframeHeader? && reader.outOfData && |reader.InHand()| < Standing().NextRead(b)
      ensures r.NeedMoreData? && Standing().Zeroed() ==> old(|reader.InHand()| >= Standing().NextRead(b))
      ensures !r.Failed? ==> Standing().Ok(b) && Standing().Written(b) == 0
      ensures !r.Failed? ==> Standing().Rest(b, [], reader.Stream()) == old(Standing().Rest(b, [], reader.Stream()))
      ensures r.Failed? ==> old(Standing().Rest(b, [], reader.Stream())) == Bad(r.error)
    {
      hide AfterHeader, Spot.Ok, Spot.Rest, Spot.Written, Spot.NextRead, BitReader.Valid, BitReader.Stream, BitReader.InHand, BitReader.Local;
      Stable(Standing(), b);
      r := ReadTypeAndWasted(b);
      if r.Success? {
        r := Dispatch(b);
      }
    }

    /** The type and the wasted bits. */
    method ReadTypeAndWasted(b: Block) returns (r: Result)
      requires reader.Valid() && !reader.outOfData && Ready(b) && stage.SubframeHeader?
      requires reader.Local() || reader.held < Standing().NextRead(b)
      modifies this`sub, reader`bits, reader`held, reader`index, reader`left, reader`outOfData
      ensures reader.Valid() && !r.Failed? && !ricePending
      ensures r.Success? ==> sub.sampleIdx == 0 && !sub.wastedPending && reader.Local() && !reader.outOfData
      ensures r.Success? ==> AfterHeader(Subframe(b, sub.kind, sub.wasted), reader.Stream()) == old(Standing().Rest(b, [], reader.Stream()))
      ensures r.NeedMoreData? ==> Standing().Ok(b) && reader.outOfData && |reader.InHand()| < Standing().NextRead(b)
      ensures r.NeedMoreData? && Standing().Zeroed() ==> old(|reader.InHand()| >= Standing().NextRead(b))
      ensures r.NeedMoreData? ==> Standing().Written(b) == 0
      ensures r.NeedMoreData? ==> Standing().Rest(b, [], reader.Stream()) == old(Standing().Rest(b, [], reader.Stream()))
    {
      hide Wasted, ReadSubframe, AfterHeader, Spot.Ok, Spot.Rest, Spot.Written, Spot.NextRead;
      hide BitReader.Valid, BitReader.Stream, BitReader.InHand, BitReader.Local;
      Stable(Standing(), b);
      HeaderSpot(Standing(), b, reader.Stream());
      if !sub.wastedPending {
        var known := ReadType(b);
        if !known {
          return NeedMoreData;
        }
      } else {
        CountGoesOn(b, reader.cuts, sub.kind, sub.wasted, reader.Stream());
      }
      var done := CountWasted(b);
      return if done then Success else NeedMoreData;
    }

    /** The header byte. */
    method ReadType(b: Block) returns (known: bool)
      requires reader.Valid() && !reader.outOfData && Standing().Ok(b) && stage.SubframeHeader? && !sub.wastedPending
      requires reader.Local() || reader.held < Standing().NextRead(b)
      modifies this`sub, reader`bits, reader`held, reader`index, reader`left, reader`outOfData
      ensures reader.Valid() && known == !reader.outOfData
      ensures known ==> sub.sampleIdx == 0 && sub.wasted <= 1 && !sub.wastedPending && reader.Local()
      ensures known <==> 8 <= |old(reader.InHand())|
      ensures known ==> CountRest(b, reader.cuts, sub.kind, sub.wasted, reader.Stream()) == old(Standing().Rest(b, [], reader.Stream()))
      ensures !known ==> sub == old(sub) && reader.Stream() == old(reader.Stream()) && |reader.InHand()| < Standing().NextRead(b)
      ensures !known ==> Standing() == old(Standing()) && Standing().Written(b) == 0
    {
      hide CountRest, ToNat, Spot.Ok, Spot.Rest, Spot.Written, Spot.NextRead;
      hide BitReader.Valid, BitReader.Stream, BitReader.InHand, BitReader.Local;
      ghost var k, s := Standing(), reader.Stream();
      Stable(k, b);
      HeaderSpot(k, b, s);
      var h := reader.ReadUint(8);
      if reader.outOfData {
        return false;
      }
      AfterHeaderByte(k, b, h, [], s);
      sub := sub.(kind := h / 2 % 64, wasted := h % 2, sampleIdx := 0);
      return true;
    }

    /** Where the header leads. */
    method Dispatch(b: Block) returns (r: Result)
      requires reader.Valid() && b.Ok() && Fresh() && sub.sampleIdx == 0
      modifies this`stage, this`sub, this`lpc
      ensures !r.NeedMoreData?
      ensures r.Success? ==> stage.ConstantValue? || stage.VerbatimSamples? || stage.WarmupSamples?
      ensures r.Success? ==> Standing().Ok(b) && Standing().Written(b) == 0
      ensures r.Success? ==> Standing().Rest(b, [], reader.Stream()) == old(AfterHeader(Subframe(b, sub.kind, sub.wasted), reader.Stream()))
      ensures r.Failed? ==> old(AfterHeader(Subframe(b, sub.kind, sub.wasted), reader.Stream())) == Bad(r.error)
    {
      hide AfterHeader, Spot.Ok, Spot.Rest, BitReader.Valid, BitReader.Stream, BitReader.InHand;
      ghost var f, s := Subframe(b, sub.kind, sub.wasted), reader.Stream();
      Refused(f, s);
      if sub.wasted >= b.depth {
        return Failed(BadSampleDepth);
      }
      sub := sub.(depth := b.depth - sub.wasted);
      if sub.kind == 0 {
        stage := ConstantValue;
      } else if sub.kind == 1 {
        stage := VerbatimSamples;
      } else if 8 <= sub.kind <= FIXED_MAX {
        lpc := lpc.(order := sub.kind - 8);
        if lpc.order >= b.size {
          return Failed(BadLpcParams);
        }
        stage := WarmupSamples;
      } else if LPC_MIN <= sub.kind <= LPC_MAX {
        lpc := lpc.(order := sub.kind - (LPC_MIN - 1));
        if lpc.order >= b.size {
          return Failed(BadLpcParams);
        }
        stage := WarmupSamples;
      } else {
        return Failed(ReservedSubframeType);
      }
      AfterDispatch(Standing(), b, s);
      return Success;
    }

    /** A subframe of one value. */
    method ReadConstant(dest: array<int>, off: nat, b: Block) returns (r: Result)
      requires reader.Valid() && !reader.outOfData && Standing().Ok(b) && off + b.size <= dest.Length
      requires stage.ConstantValue?
      requires reader.Local() || reader.held < Standing().NextRead(b)
      modifies reader`bits, reader`held, reader`index, reader`left, reader`outOfData, dest
      ensures reader.Valid() && r == if reader.outOfData then NeedMoreData else Success
      ensures r.Success? ==> reader.Local() && old(Due(dest, off, b)) == Done(Taken(dest, off, b.size), reader.Stream())
      ensures r.NeedMoreData? ==> |reader.InHand()| < Standing().NextRead(b) && Due(dest, off, b) == old(Due(dest, off, b))
      ensures Others(dest, off, b.size) == old(Others(dest, off, b.size))
    {
      hide Spot.Ok, Spot.Rest, Spot.NextRead, ToNat, SignExtend, Subframe.Scaled, Taken, Others;
      hide BitReader.Valid, BitReader.Stream, BitReader.InHand, BitReader.Local;
      ghost var k, s := Standing(), reader.Stream();
      SampleSpot(k, b);
      var value := reader.ReadSint(sub.depth);
      if reader.outOfData {
        return NeedMoreData;
      }
      ghost var none := Taken(dest, off, 0);
      AfterConstant(k, b, none, value, s);
      var scaled := Subframe(b, sub.kind, sub.wasted).Scaled(value);
      Fill(dest, off, 0, b.size, b.size, scaled);
      assert none + Repeat(scaled, b.size) == Repeat(scaled, b.size);
      return Success;
    }

    /** One sample of a subframe without prediction. */
    method VerbatimSample(dest: array<int>, off: nat, b: Block)
      requires reader.Valid() && !reader.outOfData && Standing().Ok(b) && off + b.size <= dest.Length
      requires stage.VerbatimSamples? && sub.sampleIdx < b.size
      requires reader.Local() || reader.held < Standing().NextRead(b)
      modifies this`sub, reader`bits, reader`held, reader`index, reader`left, reader`outOfData, dest
      ensures reader.Valid() && Standing().Ok(b)
      ensures reader.outOfData ==> sub == old(sub) && |reader.InHand()| < Standing().NextRead(b)
      ensures !reader.outOfData ==> reader.Local() && sub == old(sub).(sampleIdx := old(sub).sampleIdx + 1)
      ensures Due(dest, off, b) == old(Due(dest, off, b))
      ensures Others(dest, off, b.size) == old(Others(dest, off, b.size))
    {
      hide Spot.Ok, Spot.Rest, Spot.NextRead, ToNat, SignExtend, Subframe.Scaled, Taken, Others;
      hide BitReader.Valid, BitReader.Stream, BitReader.InHand, BitReader.Local;
      ghost var k, s := Standing(), reader.Stream();
      ghost var acc := Taken(dest, off, k.Written(b));
      SampleSpot(k, b);
      var v := reader.ReadSint(sub.depth);
      if !reader.outOfData {
        AfterVerbatim(k, k.(sub := k.sub.(sampleIdx := k.sub.sampleIdx + 1)), b, acc, v, s);
        Put(dest, off, sub.sampleIdx, b.size, Subframe(b, sub.kind, sub.wasted).Scaled(v));
        sub := sub.(sampleIdx := sub.sampleIdx + 1);
      }
    }

    /** One warm-up sample. */
    method WarmupSample(dest: array<int>, off: nat, b: Block)
      requires reader.Valid() && !reader.outOfData && Standing().Ok(b) && off + b.size <= dest.Length
      requires stage.WarmupSamples? && sub.sampleIdx < lpc.order
      requires reader.Local() || reader.held < Standing().NextRead(b)
      modifies this`sub, reader`bits, reader`held, reader`index, reader`left, reader`outOfData, dest
      ensures reader.Valid() && Standing().Ok(b)
      ensures reader.outOfData ==> sub == old(sub) && |reader.InHand()| < Standing().NextRead(b)
      ensures !reader.outOfData ==> reader.Local() && sub == old(sub).(sampleIdx := old(sub).sampleIdx + 1)
      ensures Due(dest, off, b) == old(Due(dest, off, b))
      ensures Others(dest, off, b.size) == old(Others(dest, off, b.size))
    {
      hide Spot.Ok, Spot.Rest, Spot.NextRead, ToNat, SignExtend, Taken, Others;
      hide BitReader.Valid, BitReader.Stream, BitReader.InHand, BitReader.Local;
      ghost var k, s := Standing(), reader.Stream();
      ghost var acc := Taken(dest, off, k.Written(b));
      SampleSpot(k, b);
      var v := reader.ReadSint(sub.depth);
      if !reader.outOfData {
        AfterWarmup(k, k.(sub := k.sub.(sampleIdx := k.sub.sampleIdx + 1)), b, acc, v, s);
        Put(dest, off, sub.sampleIdx, b.size, v);
        sub := sub.(sampleIdx := sub.sampleIdx + 1);
      }
    }

    /** A subframe without prediction, as far as the input goes. */
    method ReadVerbatim(dest: array<int>, off: nat, b: Block) returns (r: Result)
      requires reader.Valid() && !reader.outOfData && Standing().Ok(b) && off + b.size <= dest.Length
      requires stage.VerbatimSamples?
      requires reader.Local() || reader.held < Standing().NextRead(b)
      modifies this`sub, reader`bits, reader`held, reader`index, reader`left, reader`outOfData, dest
      ensures reader.Valid() && r == if reader.outOfData then NeedMoreData else Success
      ensures r.Success? ==> reader.Local() && old(Due(dest, off, b)) == Done(Taken(dest, off, b.size), reader.Stream())
      ensures r.NeedMoreData? ==> Standing().Ok(b) && |reader.InHand()| < Standing().NextRead(b)
      ensures r.NeedMoreData? ==> Due(dest, off, b) == old(Due(dest, off, b))
      ensures sub.wastedPending == old(sub).wastedPending
      ensures Others(dest, off, b.size) == old(Others(dest, off, b.size))
    {
      hide Spot.Ok, Spot.Rest, Spot.NextRead, Taken, Others, BitReader.Valid, BitReader.Stream, BitReader.InHand;
      ghost var goal := Due(dest, off, b);
      SampleSpot(Standing(), b);
      while sub.sampleIdx < b.size
        invariant reader.Valid() && !reader.outOfData && Standing().Ok(b)
        invariant sub == old(sub).(sampleIdx := sub.sampleIdx) && sub.sampleIdx <= b.size
        invariant reader.Local() || (sub.sampleIdx < b.size && reader.held < Standing().NextRead(b))
        invariant Due(dest, off, b) == goal
        invariant Others(dest, off, b.size) == old(Others(dest, off, b.size))
      {
        VerbatimSample(dest, off, b);
        if reader.outOfData {
          return NeedMoreData;
        }
      }
      SampleSpot(Standing(), b);
      VerbatimDone(Standing(), b, Taken(dest, off, b.size), reader.Stream());
      return Success;
    }

    /** The warm-up, as far as the input goes, and the step to what follows it. */
    method ReadWarmup(dest: array<int>, off: nat, b: Block) returns (r: Result)
      requires reader.Valid() && !reader.outOfData && Standing().Ok(b) && off + b.size <= dest.Length
      requires stage.WarmupSamples?
      requires reader.Local() || reader.held < Standing().NextRead(b)
      modifies this`stage, this`sub, this`lpc, this`res, reader`bits, reader`held, reader`index, reader`left, reader`outOfData, dest
      ensures reader.Valid() && Standing().Ok(b) && r == if reader.outOfData then NeedMoreData else Success
      ensures r.Success? ==> reader.Local() && (stage.LpcParameters? || stage.ResidualHeader?)
      ensures r.NeedMoreData? ==> stage.WarmupSamples? && |reader.InHand()| < Standing().NextRead(b)
      ensures Due(dest, off, b) == old(Due(dest, off, b))
      ensures Others(dest, off, b.size) == old(Others(dest, off, b.size))
    {
      hide Spot.Ok, Spot.Rest, Spot.NextRead, Due, Taken, Others, BitReader.Valid, BitReader.InHand;
      ghost var goal := Due(dest, off, b);
      SampleSpot(Standing(), b);
      while sub.sampleIdx < lpc.order
        invariant reader.Valid() && !reader.outOfData && Standing().Ok(b) && stage.WarmupSamples?
        invariant sub == old(sub).(sampleIdx := sub.sampleIdx) && lpc == old(lpc) && sub.sampleIdx <= lpc.order
        invariant reader.Local() || (sub.sampleIdx < lpc.order && reader.held < Standing().NextRead(b))
        invariant Due(dest, off, b) == goal
        invariant Others(dest, off, b.size) == old(Others(dest, off, b.size))
      {
        WarmupSample(dest, off, b);
        if reader.outOfData {
          return NeedMoreData;
        }
      }
      LeaveWarmup(dest, off, b);
      return Success;
    }

    /** The step from the warm-up to what follows it. */
    method LeaveWarmup(ghost dest: array<int>, ghost off: nat, b: Block)
      requires reader.Valid() && Standing().Ok(b) && off + b.size <= dest.Length
      requires stage.WarmupSamples? && sub.sampleIdx == lpc.order
      modifies this`stage, this`sub, this`lpc, this`res
      ensures Standing().Ok(b) && (stage.LpcParameters? || stage.ResidualHeader?)
      ensures Due(dest, off, b) == old(Due(dest, off, b))
    {
      hide Spot.Ok, Spot.Rest, Taken, BitReader.Valid, BitReader.Stream;
      ghost var k := Standing();
      ghost var acc := Taken(dest, off, k.Written(b));
      SampleSpot(k, b);
      Stable(k, b);
      sub := sub.(sampleIdx := 0);
      if LPC_MIN <= sub.kind <= LPC_MAX {
        lpc := lpc.(precision := 0);
        stage := LpcParameters;
      } else {
        res := res.(outOffset := lpc.order);
        stage := ResidualHeader;
      }
      WarmupDone(k, Standing(), b, acc, reader.Stream());
    }

    /** The precision and the shift of the coefficients; acc stands for the samples in place. */
    method ReadPrecision(b: Block, ghost acc: seq<int>) returns (r: Result)
      requires reader.Valid() && !reader.outOfData && Standing().Ok(b) && stage.LpcParameters? && lpc.precision == 0
      requires reader.Local() || reader.held < Standing().NextRead(b)
      modifies this`lpc, reader`bits, reader`held, reader`index, reader`left, reader`outOfData
      ensures reader.Valid()
      ensures r.Success? ==> lpc.precision > 0 && reader.Local() && !reader.outOfData
      ensures r.NeedMoreData? ==> reader.outOfData && |reader.InHand()| < Standing().NextRead(b)
      ensures !r.Failed? ==> Standing().Ok(b) && Standing().Written(b) == old(Standing().Written(b))
      ensures !r.Failed? ==> Standing().Rest(b, acc, reader.Stream()) == old(Standing().Rest(b, acc, reader.Stream()))
      ensures r.Failed? ==> old(Standing().Rest(b, acc, reader.Stream())) == Bad(r.error)
    {
      hide Spot.Ok, Spot.Rest, Spot.NextRead, Spot.Written, ToNat, BitReader.Valid, BitReader.Stream, BitReader.InHand, BitReader.Local;
      ghost var k, s := Standing(), reader.Stream();
      PrecisionSpot(k, k.(lpc := k.lpc.(precision := 0, coefIdx := 0)), b, acc, s);
      var h := reader.ReadUint(9);
      if reader.outOfData {
        lpc := lpc.(precision := 0, coefIdx := 0);
        return NeedMoreData;
      }
      var rawShift: int := h % 32;
      var shift := if rawShift >= 16 then rawShift - 32 else rawShift;
      AfterPrecision(k, k.(lpc := k.lpc.(precision := h / 32 + 1, shift := shift, coefIdx := 0)), b, h, acc, s);
      lpc := lpc.(precision := h / 32 + 1);
      if lpc.precision == 16 {
        return Failed(BadLpcParams);
      }
      lpc := lpc.(shift := shift);
      if lpc.shift < 0 {
        return Failed(BadLpcParams);
      }
      lpc := lpc.(coefIdx := 0);
      return Success;
    }

    /** One coefficient. */
    method ReadCoef(b: Block, ghost acc: seq<int>)
      requires reader.Valid() && !reader.outOfData && Standing().Ok(b) && stage.LpcParameters?
      requires 0 < lpc.precision && lpc.coefIdx < lpc.order
      requires reader.Local() || reader.held < Standing().NextRead(b)
      modifies this`lpc, reader`bits, reader`held, reader`index, reader`left, reader`outOfData
      ensures reader.Valid() && Standing().Ok(b) && Standing().Written(b) == old(Standing().Written(b))
      ensures reader.outOfData ==> lpc == old(lpc) && |reader.InHand()| < Standing().NextRead(b)
      ensures !reader.outOfData ==> reader.Local() && lpc == old(lpc).(coefs := lpc.coefs, coefIdx := old(lpc).coefIdx + 1)
      ensures Standing().Rest(b, acc, reader.Stream()) == old(Standing().Rest(b, acc, reader.Stream()))
    {
      hide Spot.Ok, Spot.Rest, Spot.NextRead, Spot.Written, ToNat, SignExtend, BitReader.Valid, BitReader.Stream, BitReader.InHand, BitReader.Local;
      ghost var k, s := Standing(), reader.Stream();
      CoefSpot(k, b);
      var coef := reader.ReadSint(lpc.precision);
      if !reader.outOfData {
        lpc := lpc.(coefs := lpc.coefs[lpc.order - lpc.coefIdx - 1 := coef], coefIdx := lpc.coefIdx + 1);
        AfterCoef(k, Standing(), b, coef, acc, s);
      }
    }

    /** The LPC parameters, as far as the input goes, and the step to the residuals. */
    method ReadLpcParams(b: Block, ghost acc: seq<int>) returns (r: Result)
      requires reader.Valid() && !reader.outOfData && Standing().Ok(b) && stage.LpcParameters?
      requires |acc| == Standing().Written(b)
      requires reader.Local() || reader.held < Standing().NextRead(b)
      modifies this`stage, this`lpc, this`res, reader`bits, reader`held, reader`index, reader`left, reader`outOfData
      ensures reader.Valid()
      ensures r.Success? ==> stage.ResidualHeader? && reader.Local() && !reader.outOfData
      ensures r.NeedMoreData? ==> stage.LpcParameters? && reader.outOfData && |reader.InHand()| < Standing().NextRead(b)
      ensures !r.Failed? ==> Standing().Ok(b) && Standing().Written(b) == old(Standing().Written(b))
      ensures !r.Failed? ==> Standing().Rest(b, acc, reader.Stream()) == old(Standing().Rest(b, acc, reader.Stream()))
      ensures r.Failed? ==> old(Standing().Rest(b, acc, reader.Stream())) == Bad(r.error)
    {
      hide Spot.Ok, Spot.Rest, Spot.NextRead, Spot.Written, BitReader.Valid, BitReader.Stream, BitReader.InHand, BitReader.Local;
      ghost var goal := Standing().Rest(b, acc, reader.Stream());
      if lpc.precision == 0 {
        r := ReadPrecision(b, acc);
        if !r.Success? {
          return;
        }
      }
      CoefSpot(Standing(), b);
      while lpc.coefIdx < lpc.order
        invariant reader.Valid() && !reader.outOfData && Standing().Ok(b) && stage.LpcParameters?
        invariant 0 < lpc.precision && lpc.coefIdx <= lpc.order
        invariant reader.Local() || (lpc.coefIdx < lpc.order && reader.held < Standing().NextRead(b))
        invariant Standing().Written(b) == old(Standing().Written(b))
        invariant Standing().Rest(b, acc, reader.Stream()) == goal
      {
        ReadCoef(b, acc);
        if reader.outOfData {
          return NeedMoreData;
        }
      }
      ghost var k := Standing();
      CoefSpot(k, b);
      res := res.(outOffset := lpc.order);
      stage := ResidualHeader;
      CoefsDone(k, Standing(), b, acc, reader.Stream());
      return Success;
    }

    /** The residuals, and with the last of them the restored and scaled samples. */
    method ReadPredicted(dest: array<int>, off: nat, b: Block) returns (r: Result)
      requires reader.Valid() && !reader.outOfData && Standing().Ok(b) && off + b.size <= dest.Length
      requires stage.InResidual()
      requires reader.Local() || reader.held < Standing().NextRead(b)
      modifies this`stage, this`res, this`ricePending, reader`bits, reader`held, reader`index, reader`left, reader`outOfData, reader`rice, dest
      ensures reader.Valid()
      ensures r.Success? ==> reader.Local() && !reader.outOfData && !ricePending
      ensures r.Success? ==> old(Due(dest, off, b)) == Done(Taken(dest, off, b.size), reader.Stream())
      ensures r.NeedMoreData? ==> reader.outOfData && Standing().Ok(b) && |reader.InHand()| < Standing().NextRead(b)
      ensures r.NeedMoreData? ==> stage.InResidual() && Due(dest, off, b) == old(Due(dest, off, b))
      ensures r.Failed? ==> old(Due(dest, off, b)) == Bad(r.error)
      ensures Others(dest, off, b.size) == old(Others(dest, off, b.size))
    {
      hide Spot.Ok, Spot.Rest, Spot.NextRead, Spot.Written, Spot.Guided, Spot.Predictor, Finished, Taken, Others;
      hide Point.Ok, Due, BitReader.Valid, BitReader.Stream, BitReader.InHand, BitReader.Local;
      ghost var k := Standing();
      InResidual(k, b, Taken(dest, off, k.Written(b)), reader.Stream());
      r := ReadResiduals(dest, off, b);
      if r.Success? {
        Restore(dest, off, b);
      }
    }

    /** The residuals, as far as the input goes. */
    method ReadResiduals(dest: array<int>, off: nat, b: Block) returns (r: Result)
      requires reader.Valid() && !reader.outOfData && Standing().Ok(b) && off + b.size <= dest.Length
      requires stage.InResidual() && Standing().Guided(b)
      requires reader.Local() || reader.held < Standing().NextRead(b)
      modifies this`stage, this`res, this`ricePending, reader`bits, reader`held, reader`index, reader`left, reader`outOfData, reader`rice, dest
      ensures reader.Valid()
      ensures r.Success? ==> reader.Local() && !reader.outOfData && !ricePending
      ensures r.Success? ==> (Standing().Guided(b) && old(Due(dest, off, b)) ==
        Finish(Standing().Frame(b), Standing().Predictor(b), Done(Taken(dest, off, b.size), reader.Stream())))
      ensures r.NeedMoreData? ==> reader.outOfData && Standing().Ok(b) && |reader.InHand()| < Standing().NextRead(b)
      ensures r.NeedMoreData? ==> stage.InResidual() && Due(dest, off, b) == old(Due(dest, off, b))
      ensures r.Failed? ==> old(Due(dest, off, b)) == Bad(r.error)
      ensures Others(dest, off, b.size) == old(Others(dest, off, b.size))
    {
      hide Spot.Ok, Spot.Rest, Spot.NextRead, Spot.Written, Spot.Guided, Spot.Predictor;
      hide Point.Ok, Point.Rest, Point.NextRead, Point.Written;
      hide BitReader.Valid, BitReader.Stream, BitReader.InHand, BitReader.Local, Taken, Others;
      ghost var k := Standing();
      InResidual(k, b, Taken(dest, off, k.Written(b)), reader.Stream());
      r := DecodeResiduals(dest, off, lpc.order, b.size);
      StillGuided(k, Standing(), b);
      if r.NeedMoreData? {
        StillInResidual(k, Standing(), b);
        InResidual(Standing(), b, Taken(dest, off, Standing().Written(b)), reader.Stream());
      }
    }

    /** From residuals to samples. */
    method Restore(dest: array<int>, off: nat, b: Block)
      requires Standing().Guided(b) && Standing().Frame(b).Ok() && sub.depth == Standing().Frame(b).Depth()
      requires off + b.size <= dest.Length
      modifies dest
      ensures Taken(dest, off, b.size) == Finished(Standing().Frame(b), Standing().Predictor(b), old(Taken(dest, off, b.size)))
      ensures Others(dest, off, b.size) == old(Others(dest, off, b.size))
    {
      hide Lpc.Restore, Lpc.PathFor, Taken, Others, FixedCoefs, Subframe.ScaledAll;
      var isFixed := 8 <= sub.kind <= FIXED_MAX;
      var coefs := if isFixed then FixedCoefs(lpc.order) else lpc.coefs[..lpc.order];
      var shift := if isFixed then 0 else lpc.shift;
      var p := Lpc.Predictor(coefs, shift);
      assert p == Standing().Predictor(b);
      Lpc.RestoreLpc(b.wide, dest, off, b.size, sub.depth, p);
      if sub.wasted > 0 {
        ScaleBlock(dest, off, Subframe(b, sub.kind, sub.wasted));
      }
    }

    /** The stages that lead up to the samples or the residuals. */
    method LeadUp(dest: array<int>, off: nat, b: Block) returns (r: Result)
      requires reader.Valid() && !reader.outOfData && Ready(b) && off + b.size <= dest.Length
      requires stage.SubframeHeader? || stage.WarmupSamples? || stage.LpcParameters?
      requires reader.Local() || reader.held < Standing().NextRead(b)
      modifies this`stage, this`sub, this`lpc, this`res, dest
      modifies reader`bits, reader`held, reader`index, reader`left, reader`outOfData
      ensures reader.Valid()
      ensures r.Success? ==> reader.Local() && !reader.outOfData && Rank(stage) < Rank(old(stage))
      ensures r.NeedMoreData? ==> reader.outOfData && |reader.InHand()| < Standing().NextRead(b)
      ensures r.NeedMoreData? && stage.SubframeHeader? ==> old(stage).SubframeHeader?
      ensures r.NeedMoreData? && Standing().Zeroed() ==> old(|reader.InHand()| >= Standing().NextRead(b))
      ensures !r.Failed? ==> Standing().Ok(b) && Due(dest, off, b) == old(Due(dest, off, b))
      ensures r.Failed? ==> old(Due(dest, off, b)) == Bad(r.error)
      ensures Others(dest, off, b.size) == old(Others(dest, off, b.size))
    {
      hide Spot.Ok, Spot.Rest, Spot.NextRead, Spot.Written, Taken, Others;
      hide BitReader.Valid, BitReader.Stream, BitReader.InHand, BitReader.Local;
      ghost var acc := Taken(dest, off, Standing().Written(b));
      Stable(Standing(), b);
      if stage.SubframeHeader? {
        r := ReadSubframeHeader(b);
        assert !r.Failed? ==> Taken(dest, off, Standing().Written(b)) == [];
      } else if stage.WarmupSamples? {
        r := ReadWarmup(dest, off, b);
      } else {
        r := ReadLpcParams(b, acc);
      }
    }

    /** The samples, of any kind. */
    method ReadBlock(dest: array<int>, off: nat, b: Block) returns (r: Result)
      requires reader.Valid() && !reader.outOfData && Standing().Ok(b) && off + b.size <= dest.Length
      requires stage.ConstantValue? || stage.VerbatimSamples? || stage.InResidual()
      requires reader.Local() || reader.held < Standing().NextRead(b)
      modifies this`stage, this`sub, this`res, this`ricePending, dest
      modifies reader`bits, reader`held, reader`index, reader`left, reader`outOfData, reader`rice
      ensures reader.Valid()
      ensures r.Success? ==> !ricePending && reader.Local() && !reader.outOfData
      ensures r.Success? ==> old(Due(dest, off, b)) == Done(Taken(dest, off, b.size), reader.Stream())
      ensures r.NeedMoreData? ==> reader.outOfData && Standing().Ok(b) && |reader.InHand()| < Standing().NextRead(b)
      ensures r.NeedMoreData? ==> !stage.SubframeHeader? && Due(dest, off, b) == old(Due(dest, off, b))
      ensures r.Failed? ==> old(Due(dest, off, b)) == Bad(r.error)
      ensures Others(dest, off, b.size) == old(Others(dest, off, b.size))
    {
      hide Due, Taken, Others, Spot.Ok, Spot.Rest, Spot.NextRead, Spot.Written, Spot.Guided;
      hide BitReader.Valid, BitReader.Stream, BitReader.InHand, BitReader.Local;
      Stable(Standing(), b);
      if stage.ConstantValue? {
        r := ReadConstant(dest, off, b);
      } else if stage.VerbatimSamples? {
        r := ReadVerbatim(dest, off, b);
      } else {
        r := ReadPredicted(dest, off, b);
      }
    }

    /** The stages that complete a subframe. */
    method Complete(dest: array<int>, off: nat, b: Block) returns (r: Result)
      requires reader.Valid() && !reader.outOfData && Standing().Ok(b) && off + b.size <= dest.Length
      requires stage.ConstantValue? || stage.VerbatimSamples? || stage.InResidual()
      requires reader.Local() || reader.held < Standing().NextRead(b)
      modifies this`stage, this`sub, this`res, this`ricePending, dest
      modifies reader`bits, reader`held, reader`index, reader`left, reader`outOfData, reader`rice
      ensures reader.Valid()
      ensures r.Success? ==> Fresh() && reader.Local() && !reader.outOfData
      ensures r.Success? ==> old(Due(dest, off, b)) == Done(Taken(dest, off, b.size), reader.Stream())
      ensures r.NeedMoreData? ==> reader.outOfData && Standing().Ok(b) && |reader.InHand()| < Standing().NextRead(b)
      ensures r.NeedMoreData? ==> !stage.SubframeHeader? && Due(dest, off, b) == old(Due(dest, off, b))
      ensures r.Failed? ==> old(Due(dest, off, b)) == Bad(r.error)
      ensures Others(dest, off, b.size) == old(Others(dest, off, b.size))
    {
      hide Due, Taken, Others, Standing, Here, Spot.Ok, Spot.Rest, Spot.NextRead, Spot.Written;
      hide BitReader.Valid, BitReader.Stream, BitReader.InHand, BitReader.Local;
      Stable(Standing(), b);
      r := ReadBlock(dest, off, b);
      if r.Success? {
        stage := SubframeHeader;
        sub := sub.(wastedPending := false);
      }
    }

    /** Where a call may begin. */
    ghost predicate Startable(b: Block)
      requires reader.Valid()
      reads this, reader
    {
      !reader.outOfData && Ready(b) && (reader.Local() || reader.held < Standing().NextRead(b))
    }

    /** Out of input, in the middle of a subframe. */
    ghost predicate Stopped(b: Block)
      requires reader.Valid()
      reads this, reader
    {
      reader.outOfData && Standing().Ok(b) && |reader.InHand()| < Standing().NextRead(b)
    }

    /** Done with a subframe. */
    ghost predicate Settled()
      reads this, reader
    {
      Fresh() && reader.Local() && !reader.outOfData
    }

    /** decode_subframe_impl */
    method DecodeSubframe(dest: array<int>, off: nat, b: Block) returns (r: Result)
      requires reader.Valid() && Startable(b) && off + b.size <= dest.Length
      modifies this`stage, this`sub, this`lpc, this`res, this`ricePending, dest
      modifies reader`bits, reader`held, reader`index, reader`left, reader`outOfData, reader`rice
      ensures reader.Valid()
      ensures r.Success? ==> Settled() && old(Due(dest, off, b)) == Done(Taken(dest, off, b.size), reader.Stream())
      ensures r.NeedMoreData? ==> Stopped(b) && Due(dest, off, b) == old(Due(dest, off, b))
      ensures r.NeedMoreData? && Standing().Zeroed() ==> old(|reader.InHand()| >= Standing().NextRead(b))
      ensures r.Failed? ==> old(Due(dest, off, b)) == Bad(r.error)
      ensures Others(dest, off, b.size) == old(Others(dest, off, b.size))
    {
      hide Spot.Ok, Spot.Rest, Spot.NextRead, Spot.Written, Due, Taken, Others;
      hide BitReader.Valid, BitReader.Stream, BitReader.InHand, BitReader.Local;
      while true
        invariant reader.Valid() && Startable(b)
        invariant stage.SubframeHeader? ==> Standing() == old(Standing()) && reader.InHand() == old(reader.InHand())
        invariant Due(dest, off, b) == old(Due(dest, off, b))
        invariant Others(dest, off, b.size) == old(Others(dest, off, b.size))
        decreases Rank(stage)
      {
        if stage.SubframeHeader? || stage.WarmupSamples? || stage.LpcParameters? {
          r := LeadUp(dest, off, b);
          if !r.Success? {
            return;
          }
        } else {
          r := Complete(dest, off, b);
          return;
        }
      }
    }
  }

  /** Stages only go forward. */
  function Rank(stage: Stage): nat {
    match stage
    case SubframeHeader => 4
    case WarmupSamples => 3
    case LpcParameters => 2
    case _ => 1
  }

  /** Puts the wasted bits back under every sample of a block. */
  method ScaleBlock(dest: array<int>, off: nat, f: Subframe)
    requires off + f.block.size <= dest.Length
    modifies dest
    ensures Taken(dest, off, f.block.size) == f.ScaledAll(old(Taken(dest, off, f.block.size)))
    ensures Others(dest, off, f.block.size) == old(Others(dest, off, f.block.size))
  {
    hide Subframe.Scaled;
    ghost var w := dest[..];
    for i := 0 to f.block.size
      invariant forall j | off <= j < off + i :: dest[j] == f.Scaled(w[j])
      invariant forall j | 0 <= j < dest.Length && !(off <= j < off + i) :: dest[j] == w[j]
    {
      dest[off + i] := f.Scaled(dest[off + i]);
    }
    assert dest[..off] == w[..off] && dest[off + f.block.size..] == w[off + f.block.size..];
    assert dest[off..off + f.block.size] == f.ScaledAll(w[off..off + f.block.size]);
  }
}
