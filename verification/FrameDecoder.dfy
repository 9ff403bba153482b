/** The resumable frame decoder: header, subframes and footer, over any cutting of the input. */
module FlacFrameDecoder {
  import opened Bits
  import opened FlacSpec
  import opened FlacFrameSpec
  import opened FlacFrameHeader
  import opened FlacBitReader
  import opened FlacResidual
  import opened FlacSubframe
  import opened FlacSubframeDecoder
  import opened Samples
  import Crc16
  import Decorrelation

  datatype FrameStage = Idle | FrameHeader | Subframes | FrameFooter

  lemma ChannelFits(c: nat, channels: nat, size: nat, max: nat)
    requires c < channels && size <= max
    ensures c * size + size <= channels * max
  {
    NaturalProduct(channels - c - 1, max);
    NaturalProduct(c + 1, max - size);
    assert (channels - c - 1) * max + (c + 1) * (max - size) == channels * max - (c * size + size);
  }

  /** The next channel's place in a block for `channels` channels of up to `max` samples. */
  lemma NextOffset(i: nat, channels: nat, size: nat, max: nat, length: nat)
    requires i < channels && size <= max && length == channels * max
    ensures (i + 1) * size == i * size + size
    ensures i + 1 < channels ==> (i + 1) * size + size <= length
  {
    if i + 1 < channels {
      ChannelFits(i + 1, channels, size, max);
    }
  }

  lemma ChannelBefore(c: nat, i: nat, size: nat)
    requires c < i
    ensures c * size + size <= i * size
  {
    NaturalProduct(i - c - 1, size);
    assert (i - c - 1) * size == i * size - (c * size + size);
  }

  /** Stored channel c of a frame, in the side buffer or at its place in the block. */
  ghost function ChannelIn(block: seq<int>, side: seq<int>, h: Header, c: nat): (s: seq<int>)
    requires c * h.blockSize + h.blockSize <= |block| && h.blockSize <= |side|
    ensures |s| == h.blockSize
  {
    if h.BlockOf(c).wide then side[..h.blockSize] else block[c * h.blockSize..c * h.blockSize + h.blockSize]
  }

  /** The channels decoded so far are in place. */
  ghost predicate InPlace(block: seq<int>, side: seq<int>, h: Header, done: seq<seq<int>>) {
    && |done| * h.blockSize <= |block| && h.blockSize <= |side|
    && forall c | 0 <= c < |done| ::
         ChannelBefore(c, |done|, h.blockSize);
         done[c] == ChannelIn(block, side, h, c)
  }

  lemma InSideBuffer(block: seq<int>, side: seq<int>, side': seq<int>, h: Header, done: seq<seq<int>>)
    requires InPlace(block, side, h, done) && |side'| == |side|
    requires h.BlockOf(|done|).wide && |done| * h.blockSize + h.blockSize <= |block|
    ensures InPlace(block, side', h, done)
    ensures InPlace(block, side', h, done + [side'[..h.blockSize]])
  {
    var n := |done|;
    forall c | 0 <= c < n ensures c * h.blockSize + h.blockSize <= n * h.blockSize && !h.BlockOf(c).wide {
      ChannelBefore(c, n, h.blockSize);
    }
    assert (n + 1) * h.blockSize == n * h.blockSize + h.blockSize;
  }

  lemma InBlock(block: seq<int>, block': seq<int>, side: seq<int>, h: Header, done: seq<seq<int>>, off: nat)
    requires InPlace(block, side, h, done) && |block'| == |block|
    requires !h.BlockOf(|done|).wide && off == |done| * h.blockSize && off + h.blockSize <= |block|
    requires block'[..off] == block[..off]
    ensures InPlace(block', side, h, done)
    ensures InPlace(block', side, h, done + [block'[off..off + h.blockSize]])
  {
    var n := |done|;
    forall c | 0 <= c < n
      ensures c * h.blockSize + h.blockSize <= off && ChannelIn(block', side, h, c) == ChannelIn(block, side, h, c)
    {
      SameChannel(block, block', side, h, c, off, n);
    }
    assert (n + 1) * h.blockSize == n * h.blockSize + h.blockSize;
  }

  lemma SameChannel(block: seq<int>, block': seq<int>, side: seq<int>, h: Header, c: nat, off: nat, n: nat)
    requires c < n && off == n * h.blockSize <= |block| == |block'| && h.blockSize <= |side|
    requires block'[..off] == block[..off]
    ensures c * h.blockSize + h.blockSize <= off
    ensures ChannelIn(block', side, h, c) == ChannelIn(block, side, h, c)
  {
    ChannelBefore(c, n, h.blockSize);
    var k := c * h.blockSize;
    SameSlice(block, block', off, k, h.blockSize);
  }

  lemma SameSlice(a: seq<int>, b: seq<int>, off: nat, k: nat, n: nat)
    requires k + n <= off <= |a| == |b| && a[..off] == b[..off]
    ensures a[k..k + n] == b[k..k + n]
  {
    assert a[k..k + n] == a[..off][k..k + n];
    assert b[k..k + n] == b[..off][k..k + n];
  }

  /** The channels lie one after the other in a block. */
  ghost predicate Shown(block: seq<int>, n: nat, chs: seq<seq<int>>) {
    && |chs| * n <= |block|
    && forall c | 0 <= c < |chs| ::
         ChannelBefore(c, |chs|, n);
         block[c * n..c * n + n] == chs[c]
  }

  lemma Separate(block: seq<int>, side: seq<int>, h: Header, done: seq<seq<int>>)
    requires InPlace(block, side, h, done) && !h.IsStereo()
    ensures Shown(block, h.blockSize, Recombined(h, done))
  {
    forall c | 0 <= c < |done|
      ensures c * h.blockSize + h.blockSize <= |done| * h.blockSize
      ensures done[c] == ChannelIn(block, side, h, c)
    {
      ChannelBefore(c, |done|, h.blockSize);
    }
  }

  /** What decorrelation finds in the block and in the side channel. */
  lemma StereoParts(block: seq<int>, side: seq<int>, h: Header, done: seq<seq<int>>)
    requires InPlace(block, side, h, done) && h.IsStereo() && h.channelAssignment <= MID_SIDE && |done| == 2
    ensures var n := h.blockSize;
      && 2 * n <= |block| && n <= |side|
      && done[1 - h.SideChannel()] == block[Decorrelation.StoredAt(h.Mode(), n)..Decorrelation.StoredAt(h.Mode(), n) + n]
      && done[h.SideChannel()] == if h.WideSide() then side[..n]
                                  else block[Decorrelation.SideAt(h.Mode(), n)..Decorrelation.SideAt(h.Mode(), n) + n]
  {
    var n := h.blockSize;
    assert done[0] == ChannelIn(block, side, h, 0) && 0 * n == 0;
    assert done[1] == ChannelIn(block, side, h, 1) && 1 * n == n;
  }

  lemma Stereo(block: seq<int>, side: seq<int>, now: seq<int>, h: Header, done: seq<seq<int>>)
    requires h.IsStereo() && h.channelAssignment <= MID_SIDE && |done| == 2 && 2 * h.blockSize <= |block|
    requires done[1 - h.SideChannel()] == block[Decorrelation.StoredAt(h.Mode(), h.blockSize)..Decorrelation.StoredAt(h.Mode(), h.blockSize) + h.blockSize]
    requires done[h.SideChannel()] == side && |side| == h.blockSize
    requires Decorrelation.Progress(h.Mode(), block, side, now, h.blockSize, h.blockSize)
    ensures Shown(now, h.blockSize, Recombined(h, done))
  {
    hide Decorrelation.Decode;
    var n := h.blockSize;
    var out, stored, at := Recombined(h, done), done[1 - h.SideChannel()], Decorrelation.StoredAt(h.Mode(), n);
    forall k | 0 <= k < n ensures now[k] == out[0][k] && now[n + k] == out[1][k] {
      assert Decorrelation.Pair(now[k], now[n + k]) == Decorrelation.Decode(h.Mode(), block[at + k], side[k]);
      assert At(stored, k) == block[at..at + n][k] && At(side, k) == side[k];
    }
    assert now[0 * n..0 * n + n] == out[0];
    assert now[1 * n..1 * n + n] == out[1];
  }

  lemma WholeBytes(held: nat, left: nat, held': nat, left': nat, bytes: nat)
    requires held % 8 == 0 && held' + 8 * left' + 8 * bytes == held + 8 * left
    ensures held' % 8 == 0
  {
    assert held' == 8 * (held / 8 + left - left' - bytes);
  }

  class FrameDecoder {
    const info: StreamInfo
    const crcOn: bool
    const sub: SubframeDecoder
    // block_samples_ and side_subframe_
    const block: array<int>
    const side: array<int>
    // frame_
    var stage: FrameStage
    var headerBuffer: seq<Byte>
    var runningCrc: bv16
    var channelIdx: nat
    var offset: nat
    var resuming: bool
    var footerPending: bool
    var wideSide: bool
    // curr_frame_
    var hdr: Header
    // Every byte from the start of the frame on, how many of them earlier calls took, and the channels decoded.
    ghost var frame: seq<Byte>
    ghost var taken: nat
    ghost var done: seq<seq<int>>
    // In the footer, how many bytes of the frame the CRC does not cover.
    ghost var tail: nat

    constructor (info: StreamInfo, crcOn: bool, width: nat)
      requires info.Ok() && (width == 32 || width == 64)
      ensures this.info == info && this.crcOn == crcOn && fresh(sub) && fresh(sub.reader) && fresh(block) && fresh(side)
      ensures Base() && stage == Idle && sub.Fresh()
    {
      hide BitReader.Valid, SubframeDecoder.Fresh;
      this.info := info;
      this.crcOn := crcOn;
      var reader := new BitReader(width, []);
      sub := new SubframeDecoder(reader);
      block := new int[info.channels * info.maxBlockSize];
      side := new int[info.maxBlockSize];
      stage := Idle;
      headerBuffer, runningCrc := [], 0;
      channelIdx, offset := 0, 0;
      resuming, footerPending, wideSide := false, false, false;
      hdr := Header(0, 0, 0);
      frame, taken, done, tail := [], 0, [], 0;
    }

    ghost predicate Base()
      reads this, sub, sub.reader
    {
      && info.Ok() && block != side
      && block.Length == info.channels * info.maxBlockSize && side.Length == info.maxBlockSize
      && sub.reader.Valid()
    }

    // Channels.

    function Current(): Block
      reads this
    {
      hdr.BlockOf(channelIdx)
    }

    /** Where the current channel goes. */
    function Dest(): array<int>
      reads this
    {
      if Current().wide then side else block
    }

    function DestOffset(): nat
      reads this
    {
      if Current().wide then 0 else offset
    }

    /** Every channel before channelIdx is decoded and in place. */
    ghost predicate Coding()
      reads this, block, side
    {
      && hdr.Ok(info) && hdr.blockSize <= side.Length && wideSide == hdr.WideSide()
      && channelIdx == |done| <= info.channels && offset == |done| * hdr.blockSize
      && (channelIdx < info.channels ==> offset + hdr.blockSize <= block.Length)
      && InPlace(All(block), All(side), hdr, done)
    }

    /** What all the bits still to come make of the channels. */
    ghost function Owed(): Parse<seq<seq<int>>>
      requires Base() && Coding() && channelIdx < info.channels && sub.Standing().Ok(Current())
      reads this, sub, sub.reader, block, side
    {
      InChannel(hdr, sub.reader.cuts, done, sub.Due(Dest(), DestOffset(), Current()))
    }

    /** One round of the loop over the channels. */
    method DecodeChannel() returns (r: Result)
      requires Base() && Coding() && channelIdx < info.channels && sub.Startable(Current())
      modifies this`channelIdx, this`offset, this`done, block, side
      modifies sub, sub.reader`bits, sub.reader`held, sub.reader`index, sub.reader`left, sub.reader`outOfData, sub.reader`rice
      ensures Base()
      ensures !r.Failed? ==> Coding()
      ensures r.Success? ==> channelIdx == old(channelIdx) + 1 && sub.Settled()
      ensures r.Success? && sub.reader.later == [] ==> old(|sub.reader.InHand()| >= sub.Standing().NextRead(Current()))
      ensures r.Success? ==> |sub.reader.Stream()| <= |old(sub.reader.Stream())|
      ensures r.Success? ==> ChannelsFrom(hdr, sub.reader.cuts, done, sub.reader.Stream()) == old(Owed())
      ensures r.NeedMoreData? ==> channelIdx == old(channelIdx) && sub.Stopped(Current())
      ensures r.NeedMoreData? && sub.Standing().Zeroed() ==> old(|sub.reader.InHand()| >= sub.Standing().NextRead(Current()))
      ensures r.NeedMoreData? ==> Owed() == old(Owed())
      ensures r.Failed? ==> old(Owed()) == Bad(r.error)
    {
      hide SubframeDecoder.Due, SubframeDecoder.Ready, SubframeDecoder.Startable, SubframeDecoder.Standing, SubframeDecoder.Settled, ChannelsFrom, InPlace;
      hide BitReader.Valid, BitReader.Stream, BitReader.InHand, Spot.Ok;
      hide Dest, DestOffset, Current;
      CurrentPlace();
      EnoughForOne();
      var inSide := wideSide && channelIdx == hdr.SideChannel();
      var dest, off := if inSide then side else block, if inSide then 0 else offset;
      ghost var channel;
      r, channel := RunChannel(dest, off);
      if r.Success? {
        Advance(channel);
      }
    }

    /** Where the current channel goes, as decode_subframes works it out. */
    lemma CurrentPlace()
      requires Base() && Coding() && channelIdx < info.channels && sub.Startable(Current())
      ensures sub.Standing().Ok(Current()) && Current().size == hdr.blockSize
      ensures var inSide := wideSide && channelIdx == hdr.SideChannel();
        Dest() == (if inSide then side else block) && DestOffset() == (if inSide then 0 else offset)
    {
    }

    lemma OtherParts()
      requires offset + hdr.blockSize <= block.Length
      ensures Current().size == hdr.blockSize
      ensures Others(block, offset, hdr.blockSize) == (All(block)[..offset], All(block)[offset + hdr.blockSize..])
      ensures Dest() == (if Current().wide then side else block) && DestOffset() == (if Current().wide then 0 else offset)
    {
    }

    /** i++, offset += block_size */
    method Advance(ghost channel: seq<int>)
      requires Base() && Coding() && channelIdx < info.channels
      requires InPlace(All(block), All(side), hdr, done + [channel])
      modifies this`channelIdx, this`offset, this`done
      ensures Coding() && channelIdx == old(channelIdx) + 1 && done == old(done) + [channel]
    {
      hide InPlace, BitReader.Valid;
      NextOffset(channelIdx, info.channels, hdr.blockSize, info.maxBlockSize, block.Length);
      done := done + [channel];
      channelIdx := channelIdx + 1;
      offset := offset + hdr.blockSize;
    }

    /** The subframe of the current channel. */
    method RunChannel(dest: array<int>, off: nat) returns (r: Result, ghost channel: seq<int>)
      requires dest == Dest() && off == DestOffset()
      requires sub.reader.Valid() && sub.Startable(Current()) && sub.Standing().Ok(Current())
      requires block != side && offset + hdr.blockSize <= block.Length && hdr.blockSize <= side.Length
      requires InPlace(All(block), All(side), hdr, done) && |done| == channelIdx && offset == |done| * hdr.blockSize
      requires wideSide == hdr.WideSide()
      modifies dest
      modifies sub, sub.reader`bits, sub.reader`held, sub.reader`index, sub.reader`left, sub.reader`outOfData, sub.reader`rice
      ensures sub.reader.Valid() && Current().size == hdr.blockSize
      ensures InPlace(All(block), All(side), hdr, done)
      ensures r.Success? ==> InPlace(All(block), All(side), hdr, done + [channel]) && sub.Settled()
      ensures r.Success? ==> old(sub.Due(dest, off, Current())) == Done(channel, sub.reader.Stream())
      ensures r.NeedMoreData? ==> sub.Stopped(Current())
      ensures r.NeedMoreData? ==> sub.Due(dest, off, Current()) == old(sub.Due(dest, off, Current()))
      ensures r.NeedMoreData? && sub.Standing().Zeroed() ==> old(|sub.reader.InHand()| >= sub.Standing().NextRead(Current()))
      ensures r.Failed? ==> old(sub.Due(dest, off, Current())) == Bad(r.error)
    {
      hide *;
      ghost var w, v, rest := All(block), All(side), Others(block, offset, hdr.blockSize);
      OtherParts();
      var b := Current();
      r := sub.DecodeSubframe(dest, off, b);
      assert if b.wide then All(block) == w else All(side) == v && Others(block, offset, b.size) == rest;
      ChannelWritten(w, v, rest, dest, off);
      channel := Taken(dest, off, b.size);
    }

    /** Decoding a channel leaves the channels before it in place, and adds the channel itself. */
    lemma ChannelWritten(w: seq<int>, v: seq<int>, rest: (seq<int>, seq<int>), dest: array<int>, off: nat)
      requires |w| == block.Length && |v| == side.Length && block != side
      requires InPlace(w, v, hdr, done) && |done| == channelIdx
      requires offset == |done| * hdr.blockSize && offset + hdr.blockSize <= block.Length && hdr.blockSize <= side.Length
      requires dest == Dest() && off == DestOffset()
      requires rest == (w[..offset], w[offset + hdr.blockSize..])
      requires if Current().wide then All(block) == w else All(side) == v && Others(block, offset, hdr.blockSize) == rest
      ensures off + hdr.blockSize <= dest.Length
      ensures InPlace(All(block), All(side), hdr, done)
      ensures InPlace(All(block), All(side), hdr, done + [Taken(dest, off, hdr.blockSize)])
    {
      if Current().wide {
        InSideBuffer(w, v, All(side), hdr, done);
      } else {
        InBlock(w, All(block), v, hdr, done, offset);
      }
    }

    /** A new channel starts where the one before it ended. */
    lemma StartChannel()
      requires Base() && Coding() && channelIdx < info.channels && sub.Settled() && sub.reader.Uncut()
      ensures sub.Startable(Current()) && Owed() == ChannelsFrom(hdr, sub.reader.cuts, done, sub.reader.Stream())
      ensures sub.Standing().NextRead(Current()) == 8
    {
      hide BitReader.Stream, BitReader.InHand, BitReader.Local, InPlace, ReadSubframe;
      HeaderSpot(sub.Standing(), Current(), sub.reader.Stream());
      assert Taken(Dest(), DestOffset(), 0) == [];
    }

    /** apply_channel_decorrelation, where the channel assignment asks for it. */
    method Recombine()
      requires Base() && Coding() && channelIdx == info.channels
      modifies block
      ensures Shown(All(block), hdr.blockSize, Recombined(hdr, done))
    {
      hide BitReader.Valid, InPlace, Shown, Recombined, Decorrelation.Progress;
      ghost var w := All(block);
      if hdr.channelAssignment >= 8 {
        StereoParts(w, All(side), hdr, done);
        var n := hdr.blockSize;
        if wideSide {
          Decorrelation.Apply(hdr.Mode(), block, side, 0, n);
        } else {
          Decorrelation.Apply(hdr.Mode(), block, block, if hdr.channelAssignment == RIGHT_SIDE then 0 else n, n);
        }
        Stereo(w, done[hdr.SideChannel()], All(block), hdr, done);
      } else {
        Separate(w, All(side), hdr, done);
      }
    }

    /** decode_subframes */
    method DecodeSubframes() returns (r: Result)
      requires Base() && Coding() && channelIdx < info.channels && sub.Startable(Current())
      requires sub.reader.Uncut()
      modifies this`channelIdx, this`offset, this`done, block, side
      modifies sub, sub.reader`bits, sub.reader`held, sub.reader`index, sub.reader`left, sub.reader`outOfData, sub.reader`rice
      ensures Base()
      ensures r.Success? ==> sub.Settled() && old(Owed()) == Done(done, sub.reader.Stream())
      ensures r.Success? ==> |done| == info.channels && Shown(All(block), hdr.blockSize, Recombined(hdr, done))
      ensures r.NeedMoreData? ==> Coding() && channelIdx < info.channels && sub.Stopped(Current())
      ensures r.NeedMoreData? ==> Owed() == old(Owed())
      ensures r.NeedMoreData? && sub.Standing().Zeroed() && sub.reader.later == [] ==>
        old(|sub.reader.InHand()| >= sub.Standing().NextRead(Current()))
      ensures r.Failed? ==> old(Owed()) == Bad(r.error)
    {
      hide Current, Dest, DestOffset, SubframeDecoder.Due, Spot.NextRead, Owed, Shown, Recombined, InPlace, BitReader.Stream, BitReader.InHand, BitReader.Valid;
      hide SubframeDecoder.Stopped, SubframeDecoder.Settled, SubframeDecoder.Standing, Spot.Ok;
      ghost var goal := Owed();
      ghost var enough := |sub.reader.InHand()| >= sub.Standing().NextRead(Current());
      while channelIdx < info.channels
        invariant Base() && Coding() && channelIdx <= info.channels && sub.reader.Uncut()
        invariant channelIdx >= old(channelIdx)
        invariant channelIdx == old(channelIdx) ==> enough == (|sub.reader.InHand()| >= sub.Standing().NextRead(Current()))
        invariant channelIdx > old(channelIdx) && sub.reader.later == [] ==> enough
        invariant channelIdx < info.channels ==> sub.Startable(Current()) && Owed() == goal
        invariant channelIdx == info.channels ==> sub.Settled() && ChannelsFrom(hdr, sub.reader.cuts, done, sub.reader.Stream()) == goal
      {
        r := DecodeChannel();
        if !r.Success? {
          return;
        }
        if channelIdx < info.channels {
          StartChannel();
        }
      }
      AllDone();
      Recombine();
      return Success;
    }

    /** A channel that this call completes has the bits that its next read needs. */
    lemma EnoughForOne()
      requires Base() && Coding() && channelIdx < info.channels && sub.Startable(Current())
      ensures sub.reader.later == [] && sub.Due(Dest(), DestOffset(), Current()).Done? ==>
        |sub.reader.InHand()| >= sub.Standing().NextRead(Current())
    {
      hide InPlace, Spot.Rest, Spot.NextRead, Spot.Ok;
      var k, b, s := sub.Standing(), Current(), sub.reader.Stream();
      var acc := Taken(Dest(), DestOffset(), k.Written(b));
      if sub.reader.later == [] && |sub.reader.InHand()| < k.NextRead(b) {
        assert s == sub.reader.InHand() + [];
        NextReadBound(k, b);
        if k.Zeroed() && |s| in k.cuts {
          OneBit(k, b);
          NothingToRead(k, b, acc);
        } else {
          FlacSubframe.Starved(k, b, acc, s);
        }
      }
    }

    lemma OneBit(k: Spot, b: Block)
      requires k.Zeroed()
      ensures k.NextRead(b) == 1
    {
    }

    lemma AllDone()
      requires Base() && Coding() && channelIdx == info.channels
      ensures |done| == info.channels && ChannelsFrom(hdr, sub.reader.cuts, done, sub.reader.Stream()) == Done(done, sub.reader.Stream())
    {
    }

    // Header.

    /** Takes input bytes from this position on, until the header buffer holds `limit` bytes. */
    method Accumulate(input: seq<Byte>, from: nat, limit: nat) returns (next: nat)
      requires from <= |input|
      modifies this`headerBuffer
      ensures from <= next <= |input| && headerBuffer == old(headerBuffer) + input[from..next]
      ensures next == |input| || |headerBuffer| >= limit
      ensures |headerBuffer| <= if |old(headerBuffer)| > limit then |old(headerBuffer)| else limit
    {
      next := from;
      while next < |input| && |headerBuffer| < limit
        invariant from <= next <= |input| && headerBuffer == old(headerBuffer) + input[from..next]
        invariant |headerBuffer| <= if |old(headerBuffer)| > limit then |old(headerBuffer)| else limit
      {
        headerBuffer := headerBuffer + [input[next]];
        next := next + 1;
      }
    }

    /** The first n bytes of the frame were its header. */
    ghost predicate Entered(n: nat)
      reads this, sub, sub.reader
    {
      && hdr.Ok(info) && hdr.blockSize <= info.maxBlockSize && 6 <= n <= |frame|
      && FrameOf(info, crcOn, frame, sub.reader.cuts) == AfterChannels(crcOn, frame, hdr, ChannelsFrom(hdr, sub.reader.cuts, [], BytesToBits(frame[n..])))
      && (crcOn ==> runningCrc == Crc16.Crc(0, frame[..n]))
    }

    /** decode_frame_header_phase; used counts the bytes it takes. The buffer never holds more than HEADER_MAX. */
    method HeaderPhase(input: seq<Byte>) returns (r: Result, used: nat)
      requires stage == FrameHeader && runningCrc == 0 && PartialHeader(headerBuffer) && headerBuffer + input <= frame
      modifies this`headerBuffer, this`hdr, this`runningCrc, this`stage, this`resuming, this`channelIdx, this`offset
      ensures used <= |input| && |headerBuffer| <= HEADER_MAX
      ensures r.Success? ==> stage == Subframes && !resuming && channelIdx == offset == 0
      ensures r.Success? ==> Entered(|old(headerBuffer)| + used)
      ensures r.NeedMoreData? ==> stage == FrameHeader && used == |input| && runningCrc == 0
      ensures r.NeedMoreData? ==> PartialHeader(headerBuffer) && headerBuffer == old(headerBuffer) + input
      ensures r.Failed? ==> FrameOf(info, crcOn, frame, sub.reader.cuts) == Refused(r.error)
    {
      hide FrameOf, HeaderLength, InSync, Entered;
      used := Accumulate(input, 0, 5);
      if |headerBuffer| < 5 {
        return NeedMoreData, |input|;
      }
      Begun(old(headerBuffer), input, used);
      FirstFive(info, crcOn, headerBuffer, frame, sub.reader.cuts);
      if !InSync(headerBuffer) {
        return Failed(SyncNotFound), used;
      }
      var target := ComputeHeaderLength(headerBuffer);
      if target < 6 {
        return Failed(BadHeader), used;
      }
      used := Accumulate(input, used, target);
      Begun(old(headerBuffer), input, used);
      if |headerBuffer| < target {
        return NeedMoreData, |input|;
      }
      r := AcceptHeader();
    }

    /** What the header buffer holds is the start of the frame, and it never runs over its own length. */
    lemma Begun(before: seq<Byte>, input: seq<Byte>, used: nat)
      requires PartialHeader(before) && before + input <= frame
      requires used <= |input| && headerBuffer == before + input[..used] && 5 <= |headerBuffer|
      ensures headerBuffer <= frame && HeaderLength(headerBuffer) == HeaderLength(frame) && InSync(headerBuffer) == InSync(frame)
      ensures 5 <= |before| ==> InSync(frame) && |before| < HeaderLength(frame)
    {
      assert headerBuffer == frame[..|headerBuffer|];
      if 5 <= |before| {
        assert before == frame[..|before|];
        HeaderLengthPrefix(frame, |before|);
      }
      HeaderLengthPrefix(frame, |headerBuffer|);
    }

    /** The part of the header phase that has the whole header. */
    method AcceptHeader() returns (r: Result)
      requires 6 <= |headerBuffer| && headerBuffer <= frame && runningCrc == 0
      requires InSync(headerBuffer) && |headerBuffer| == HeaderLength(headerBuffer)
      modifies this`headerBuffer, this`hdr, this`runningCrc, this`stage, this`resuming, this`channelIdx, this`offset
      ensures !r.NeedMoreData? && |headerBuffer| <= HEADER_MAX
      ensures r.Success? ==> stage == Subframes && !resuming && channelIdx == offset == 0
      ensures r.Success? ==> Entered(|old(headerBuffer)|)
      ensures r.Failed? ==> FrameOf(info, crcOn, frame, sub.reader.cuts) == Refused(r.error)
    {
      hide FrameOf, ParseHeader, AfterChannels, ChannelsFrom, HeaderLength, InSync, Crc16.Crc, BytesToBits;
      WholeHeader(info, crcOn, headerBuffer, frame, sub.reader.cuts);
      ghost var n := |headerBuffer|;
      var parsed := ParseFrameHeader(info, crcOn, headerBuffer);
      if parsed.Err? {
        return Failed(parsed.error);
      }
      hdr := parsed.value;
      if hdr.blockSize > info.maxBlockSize {
        return Failed(BadBlockSize);
      }
      if crcOn {
        runningCrc := Crc16.Update(runningCrc, headerBuffer);
      }
      assert headerBuffer == frame[..n];
      headerBuffer := [];
      stage := Subframes;
      resuming := false;
      channelIdx := 0;
      offset := 0;
      return Success;
    }

    // Subframes.

    /** No call ends inside the n bytes of the frame at this place. */
    ghost predicate Within(at: nat, n: nat)
      reads this, sub, sub.reader
    {
      at + n <= |frame| && forall c | c in sub.reader.cuts :: c <= 8 * (|frame| - at - n) || c >= 8 * (|frame| - at)
    }

    /** A call ended at this place in the frame. */
    ghost predicate CutAt(at: nat)
      reads this, sub, sub.reader
    {
      at <= |frame| && 8 * (|frame| - at) in sub.reader.cuts
    }

    /** The reader is at a place in the frame: its unread bytes are the last of the frame. */
    ghost predicate ReadingTo(at: nat)
      reads this, sub, sub.reader
    {
      at <= |frame| && sub.reader.later == frame[at..]
    }

    /** Out of input inside the subframes, after `at` bytes of the frame. */
    ghost predicate Paused(at: nat)
      requires Base()
      reads this, sub, sub.reader, block, side
    {
      && resuming && ReadingTo(at) && 6 <= at && sub.reader.left == 0
      && Coding() && channelIdx < info.channels
      && sub.Standing().Ok(Current()) && sub.reader.held < sub.Standing().NextRead(Current())
      && FrameOf(info, crcOn, frame, sub.reader.cuts) == AfterChannels(crcOn, frame, hdr, Owed())
      && (crcOn ==> runningCrc == Crc16.Crc(0, frame[..at]))
    }

    /** Gives the subframe decoder the bytes of the frame that this call has. */
    method FeedSubframes(data: seq<Byte>, ghost at: nat)
      requires Base() && at + |data| <= |frame| && data == frame[at..at + |data|] && Within(at, |data|)
      requires if resuming then Paused(at) && CutAt(at) else Entered(at) && channelIdx == offset == 0 && sub.Fresh()
      modifies this`done, this`wideSide
      modifies sub.reader`buffer, sub.reader`index, sub.reader`left, sub.reader`bits, sub.reader`held, sub.reader`outOfData, sub.reader`later
      ensures Base() && Coding() && channelIdx < info.channels && sub.Startable(Current())
      ensures ReadingTo(at + |data|) && sub.reader.buffer == data && sub.reader.Uncut()
      ensures data == [] ==> |sub.reader.InHand()| < sub.Standing().NextRead(Current())
      ensures FrameOf(info, crcOn, frame, sub.reader.cuts) == AfterChannels(crcOn, frame, hdr, Owed())
      ensures crcOn ==> runningCrc == Crc16.Crc(0, frame[..at])
    {
      hide FrameOf, AfterChannels, ChannelsFrom, Crc16.Crc, BytesToBits, InPlace;
      if resuming {
        ResumeSubframes(data, at);
      } else {
        EnterSubframes(data, at);
      }
    }

    method EnterSubframes(data: seq<Byte>, ghost at: nat)
      requires Base() && at + |data| <= |frame| && data == frame[at..at + |data|] && Within(at, |data|)
      requires Entered(at) && channelIdx == offset == 0 && sub.Fresh()
      modifies this`done, this`wideSide
      modifies sub.reader`buffer, sub.reader`index, sub.reader`left, sub.reader`bits, sub.reader`held, sub.reader`outOfData, sub.reader`later
      ensures Base() && Coding() && channelIdx < info.channels && sub.Startable(Current())
      ensures ReadingTo(at + |data|) && sub.reader.buffer == data && sub.reader.Uncut()
      ensures data == [] ==> |sub.reader.InHand()| < sub.Standing().NextRead(Current())
      ensures FrameOf(info, crcOn, frame, sub.reader.cuts) == AfterChannels(crcOn, frame, hdr, Owed())
    {
      hide FrameOf, AfterChannels, ChannelsFrom, Crc16.Crc, BytesToBits, Coding, Owed, Current;
      hide SubframeDecoder.Startable, SubframeDecoder.Standing, SubframeDecoder.Fresh, Spot.Ok;
      hide BitReader.Stream, BitReader.InHand, BitReader.Valid;
      wideSide := hdr.channelAssignment >= 8 && hdr.bitsPerSample == 32;
      done := [];
      sub.reader.Foretell(frame[at..]);
      sub.reader.SetBuffer(data, true);
      NoChannelsYet();
      StartChannel();
    }

    lemma NoChannelsYet()
      requires Base() && hdr.Ok(info) && hdr.blockSize <= info.maxBlockSize && wideSide == hdr.WideSide()
      requires channelIdx == offset == 0 && done == []
      ensures Coding()
    {
      hide BitReader.Valid;
      ChannelFits(0, info.channels, hdr.blockSize, info.maxBlockSize);
      assert 0 * hdr.blockSize == 0;
    }

    method ResumeSubframes(data: seq<Byte>, ghost at: nat)
      requires Base() && at + |data| <= |frame| && data == frame[at..at + |data|] && Paused(at) && CutAt(at) && Within(at, |data|)
      modifies sub.reader`buffer, sub.reader`index, sub.reader`left, sub.reader`bits, sub.reader`held, sub.reader`outOfData, sub.reader`later
      ensures Base() && Coding() && channelIdx < info.channels && sub.Startable(Current())
      ensures ReadingTo(at + |data|) && sub.reader.buffer == data && sub.reader.Uncut()
      ensures data == [] ==> |sub.reader.InHand()| < sub.Standing().NextRead(Current())
      ensures FrameOf(info, crcOn, frame, sub.reader.cuts) == AfterChannels(crcOn, frame, hdr, Owed())
      ensures crcOn ==> runningCrc == Crc16.Crc(0, frame[..at])
    {
      hide FrameOf, AfterChannels, ChannelsFrom, Crc16.Crc, BytesToBits, InPlace, Spot.Ok, Spot.Rest, Spot.NextRead, Spot.Written, BitReader.Stream, BitReader.InHand;
      HandSize();
      sub.reader.SetBuffer(data, false);
      HandSize();
      PausedPlace(at, |data|);
    }

    /** A call that goes on from a counter that is zero starts where the call before it ended. */
    lemma PausedPlace(at: nat, n: nat)
      requires sub.reader.Valid() && at + n <= |frame| && sub.reader.left == n && sub.reader.later == frame[at + n..] && CutAt(at)
      requires sub.reader.held < sub.Standing().NextRead(Current())
      ensures sub.Standing().Zeroed() ==> |sub.reader.Stream()| in sub.reader.cuts
    {
      if sub.Standing().Zeroed() {
        OneBit(sub.Standing(), Current());
      }
    }

    /** decode_frame_subframe_phase; taken counts the bytes of the frame before this data. */
    method SubframePhase(data: seq<Byte>, ghost at: nat) returns (r: Result)
      requires Base() && at + |data| <= |frame| && data == frame[at..at + |data|] && Within(at, |data|)
      requires if resuming then Paused(at) && CutAt(at) else Entered(at) && channelIdx == offset == 0 && sub.Fresh()
      modifies this`done, this`wideSide, this`channelIdx, this`offset, this`resuming, this`runningCrc, block, side
      modifies sub, sub.reader`bits, sub.reader`held, sub.reader`index, sub.reader`left, sub.reader`outOfData, sub.reader`rice, sub.reader`buffer, sub.reader`later
      ensures Base()
      ensures r.Success? ==> sub.Settled() && ReadingTo(at + |data|) && sub.reader.buffer == data
      ensures r.Success? ==> |done| == info.channels && Shown(All(block), hdr.blockSize, Recombined(hdr, done))
      ensures r.Success? ==> FrameOf(info, crcOn, frame, sub.reader.cuts) == AfterChannels(crcOn, frame, hdr, Done(done, sub.reader.Stream()))
      ensures r.Success? && crcOn ==> runningCrc == Crc16.Crc(0, frame[..at])
      ensures r.NeedMoreData? ==> resuming && Paused(at + |data|)
      ensures r.NeedMoreData? && at + |data| == |frame| && (data == [] || !CutAt(|frame|)) ==> FrameOf(info, crcOn, frame, sub.reader.cuts) == Incomplete
      ensures r.Failed? ==> FrameOf(info, crcOn, frame, sub.reader.cuts) == Refused(r.error)
    {
      hide FrameOf, Shown, Recombined, Crc16.Crc, Coding, InPlace, Current, Owed, Entered, Paused;
      hide SubframeDecoder.Settled, SubframeDecoder.Stopped, SubframeDecoder.Startable, Spot.Ok;
      hide BitReader.Stream, BitReader.InHand, BitReader.Valid;
      AfterHeaderBytes(at);
      FeedSubframes(data, at);
      r := DecodeSubframes();
      if r.NeedMoreData? {
        Pause(data, at);
      }
    }

    lemma AfterHeaderBytes(at: nat)
      requires Base() && if resuming then Paused(at) else Entered(at)
      ensures 6 <= at
    {
    }

    /** What is left of the input goes into the bit buffer. */
    method Pause(data: seq<Byte>, ghost at: nat)
      requires Base() && at + |data| <= |frame| && data == frame[at..at + |data|] && ReadingTo(at + |data|) && 6 <= at
      requires Coding() && channelIdx < info.channels && sub.Stopped(Current())
      requires FrameOf(info, crcOn, frame, sub.reader.cuts) == AfterChannels(crcOn, frame, hdr, Owed())
      requires crcOn ==> runningCrc == Crc16.Crc(0, frame[..at])
      modifies this`resuming, this`runningCrc
      modifies sub.reader`bits, sub.reader`held, sub.reader`index, sub.reader`left
      ensures Base() && resuming && Paused(at + |data|)
      ensures at + |data| == |frame| && !(old(sub.Standing().Zeroed()) && CutAt(|frame|)) ==>
        FrameOf(info, crcOn, frame, sub.reader.cuts) == Incomplete
    {
      hide FrameOf, AfterChannels, ChannelsFrom, Crc16.Crc, InPlace, Spot.Ok, Spot.Rest, Spot.Written, Spot.NextRead;
      hide BitReader.Stream, BitReader.InHand, BitReader.Valid, Header.BlockOf;
      NextReadBound(sub.Standing(), Current());
      AtTheEnd(at + |data|);
      HandSize();
      sub.reader.DrainRemaining();
      HandSize();
      resuming := true;
      CountInCrc(data, at);
    }

    /** Adds data, the next bytes of the frame, to the running CRC. */
    method CountInCrc(data: seq<Byte>, ghost at: nat)
      requires at + |data| <= |frame| && data == frame[at..at + |data|]
      requires crcOn ==> runningCrc == Crc16.Crc(0, frame[..at])
      modifies this`runningCrc
      ensures crcOn ==> runningCrc == Crc16.Crc(0, frame[..at + |data|])
    {
      hide Crc16.Crc;
      if crcOn {
        assert frame[..at + |data|] == frame[..at] + data;
        Crc16.CrcConcat(0, frame[..at], data);
        runningCrc := Crc16.Update(runningCrc, data);
      }
    }

    lemma HandSize()
      requires sub.reader.Valid()
      ensures |sub.reader.InHand()| == sub.reader.held + 8 * sub.reader.left && 32 <= sub.reader.width
    {
    }

    /** When no more bytes are to come, the frame is incomplete. */
    lemma AtTheEnd(at: nat)
      requires Base() && Coding() && channelIdx < info.channels && ReadingTo(at) && sub.Stopped(Current())
      requires FrameOf(info, crcOn, frame, sub.reader.cuts) == AfterChannels(crcOn, frame, hdr, Owed())
      ensures at == |frame| && !(sub.Standing().Zeroed() && CutAt(at)) ==> FrameOf(info, crcOn, frame, sub.reader.cuts) == Incomplete
    {
      hide FrameOf, ChannelsFrom, InPlace, Spot.Rest, Spot.NextRead, Spot.Ok;
      if at == |frame| && !(sub.Standing().Zeroed() && CutAt(at)) {
        var b := Current();
        assert sub.reader.Stream() == sub.reader.InHand() + [];
        if sub.Standing().Zeroed() {
          OneBit(sub.Standing(), b);
        }
        FlacSubframe.Starved(sub.Standing(), b, Taken(Dest(), DestOffset(), sub.Standing().Written(b)), sub.reader.Stream());
      }
    }

    // Footer.

    /** What the bits still to come make of the frame, once its channels are decoded and its padding is gone. */
    ghost predicate AtFooter()
      requires Base()
      reads this, sub, sub.reader, block
    {
      && sub.Fresh() && sub.reader.held % 8 == 0 && |done| == info.channels
      && Shown(All(block), hdr.blockSize, Recombined(hdr, done))
      && FrameOf(info, crcOn, frame, sub.reader.cuts) == Footer(crcOn, frame, Recombined(hdr, done), sub.reader.Stream())
      && |sub.reader.Stream()| == 8 * tail <= 8 * |frame|
      && (crcOn ==> runningCrc == Crc16.Crc(0, frame[..|frame| - tail]))
    }

    /** From the last subframe to the footer: drops the padding, and counts the frame's bytes of this call in the CRC. */
    method EnterFooter(data: seq<Byte>, ghost at: nat)
      requires Base() && at + |data| <= |frame| && data == frame[at..at + |data|]
      requires sub.Settled() && ReadingTo(at + |data|) && sub.reader.buffer == data
      requires |done| == info.channels && Shown(All(block), hdr.blockSize, Recombined(hdr, done))
      requires FrameOf(info, crcOn, frame, sub.reader.cuts) == AfterChannels(crcOn, frame, hdr, Done(done, sub.reader.Stream()))
      requires crcOn ==> runningCrc == Crc16.Crc(0, frame[..at])
      modifies this`runningCrc, this`tail, sub.reader`held
      ensures Base() && AtFooter() && sub.reader.Local() && !sub.reader.outOfData
    {
      hide FrameOf, Shown, Recombined, Footer, Crc16.Crc, SubframeDecoder.Fresh;
      hide BitReader.Stream, BitReader.InHand, BitReader.Valid, BitReader.Local;
      sub.reader.SkipPadding();
      StreamSize(data, at);
      var remaining := sub.reader.held / 8;
      var end := if sub.reader.index > remaining then sub.reader.index - remaining else 0;
      CountInCrc(sub.reader.buffer[..end], at);
      tail := |frame| - at - end;
    }

    /** How many bytes of the frame come before the bits that are left. */
    lemma StreamSize(data: seq<Byte>, at: nat)
      requires Base() && sub.reader.buffer == data && ReadingTo(at + |data|) && sub.reader.held % 8 == 0 && sub.reader.Local()
      ensures |sub.reader.Stream()| == 8 * (|frame| - at - sub.reader.index + sub.reader.held / 8)
      ensures sub.reader.held / 8 <= sub.reader.index <= |data|
    {
    }

    /** Out of input inside the footer, after `at` bytes of the frame. */
    ghost predicate Waiting(at: nat)
      requires Base()
      reads this, sub, sub.reader, block
    {
      AtFooter() && ReadingTo(at) && sub.reader.left == 0 && sub.reader.held < 16
    }

    /** decode_frame_footer_phase; at is where the data starts in the frame. */
    method FooterPhase(data: seq<Byte>, ghost at: nat) returns (r: Result)
      requires Base() && at + |data| <= |frame| && data == frame[at..at + |data|] && Within(at, |data|)
      requires footerPending ==> Waiting(at)
      requires !footerPending ==> sub.Settled() && ReadingTo(at + |data|) && sub.reader.buffer == data
      requires !footerPending ==> |done| == info.channels && Shown(All(block), hdr.blockSize, Recombined(hdr, done))
      requires !footerPending ==> FrameOf(info, crcOn, frame, sub.reader.cuts) == AfterChannels(crcOn, frame, hdr, Done(done, sub.reader.Stream()))
      requires !footerPending && crcOn ==> runningCrc == Crc16.Crc(0, frame[..at])
      modifies this`runningCrc, this`footerPending, this`tail
      modifies sub.reader`bits, sub.reader`held, sub.reader`index, sub.reader`left, sub.reader`outOfData, sub.reader`rice, sub.reader`buffer, sub.reader`later
      ensures Base()
      ensures r.Success? ==> sub.Fresh() && Shown(All(block), hdr.blockSize, Recombined(hdr, done)) && sub.reader.index <= |data|
      ensures r.Success? ==> FrameOf(info, crcOn, frame, sub.reader.cuts) == Frame(Recombined(hdr, done), at + sub.reader.index)
      ensures r.NeedMoreData? ==> footerPending && Waiting(at + |data|)
      ensures r.NeedMoreData? && at + |data| == |frame| ==> FrameOf(info, crcOn, frame, sub.reader.cuts) == Incomplete
      ensures r.Failed? ==> FrameOf(info, crcOn, frame, sub.reader.cuts) == Refused(r.error)
    {
      hide FrameOf, Shown, Recombined, Footer, AfterChannels, Crc16.Crc, BitReader.Stream, BitReader.InHand;
      if !footerPending {
        EnterFooter(data, at);
      } else {
        sub.reader.SetBuffer(data, false);
      }
      r := ReadFooter(data, at);
    }

    /** The 16 bits of the CRC, and the return of the bytes after them. */
    method ReadFooter(data: seq<Byte>, ghost at: nat) returns (r: Result)
      requires Base() && AtFooter() && ReadingTo(at + |data|) && sub.reader.buffer == data && !sub.reader.outOfData
      requires sub.reader.Local() || sub.reader.held < 16
      modifies this`footerPending, sub.reader`bits, sub.reader`held, sub.reader`index, sub.reader`left, sub.reader`outOfData
      ensures Base()
      ensures r.Success? ==> sub.Fresh() && Shown(All(block), hdr.blockSize, Recombined(hdr, done)) && sub.reader.index <= |data|
      ensures r.Success? ==> FrameOf(info, crcOn, frame, sub.reader.cuts) == Frame(Recombined(hdr, done), at + sub.reader.index)
      ensures r.NeedMoreData? ==> footerPending && Waiting(at + |data|)
      ensures r.NeedMoreData? && at + |data| == |frame| ==> FrameOf(info, crcOn, frame, sub.reader.cuts) == Incomplete
      ensures r.Failed? ==> FrameOf(info, crcOn, frame, sub.reader.cuts) == Refused(r.error)
    {
      hide FrameOf, Footer, Shown, Recombined, Crc16.Crc, ToNat, SubframeDecoder.Fresh;
      hide BitReader.Stream, BitReader.InHand, BitReader.Valid, BitReader.Local;
      FooterDecides(crcOn, frame, Recombined(hdr, done), sub.reader.Stream(), tail, runningCrc);
      FooterSizes(at + |data|);
      var crc := ReadCrc();
      if sub.reader.outOfData {
        HoldFooter();
        return NeedMoreData;
      }
      r := CloseFrame(data, at, crc);
    }

    /** The 16 bits of the CRC, which start at a byte */
    method ReadCrc() returns (crc: nat)
      requires sub.reader.Valid() && !sub.reader.outOfData && sub.reader.held % 8 == 0
      requires sub.reader.Local() || sub.reader.held < 16
      modifies sub.reader`bits, sub.reader`held, sub.reader`index, sub.reader`left, sub.reader`outOfData
      ensures sub.reader.Valid() && sub.reader.held % 8 == 0
      ensures sub.reader.outOfData <==> |old(sub.reader.InHand())| < 16
      ensures sub.reader.outOfData ==> sub.reader.Stream() == old(sub.reader.Stream()) && sub.reader.InHand() == old(sub.reader.InHand())
      ensures !sub.reader.outOfData ==> sub.reader.Local() && 16 <= |old(sub.reader.Stream())|
      ensures !sub.reader.outOfData ==> crc == ToNat(old(sub.reader.Stream())[..16]) && |sub.reader.Stream()| + 16 == |old(sub.reader.Stream())|
    {
      hide ToNat, BitReader.Stream, BitReader.Valid, BitReader.Local;
      ghost var held, left := sub.reader.held, sub.reader.left;
      HandSize();
      crc := sub.reader.ReadUint(16);
      HandSize();
      if !sub.reader.outOfData {
        WholeBytes(held, left, sub.reader.held, sub.reader.left, 2);
      }
    }

    /** Checks the CRC, and gives the bytes after it back. */
    method CloseFrame(data: seq<Byte>, ghost at: nat, crc: nat) returns (r: Result)
      requires Base() && ReadingTo(at + |data|) && sub.reader.buffer == data
      requires sub.reader.Local() && sub.reader.held % 8 == 0 && |sub.reader.Stream()| + 16 == 8 * tail <= 8 * |frame|
      requires FrameOf(info, crcOn, frame, sub.reader.cuts) ==
               if crcOn && crc != runningCrc as nat then Refused(CrcMismatch)
               else Frame(Recombined(hdr, done), |frame| - tail + 2)
      modifies sub.reader`bits, sub.reader`held, sub.reader`index, sub.reader`left
      ensures Base() && !r.NeedMoreData? && sub.reader.index <= |data|
      ensures r.Success? ==> FrameOf(info, crcOn, frame, sub.reader.cuts) == Frame(Recombined(hdr, done), at + sub.reader.index)
      ensures r.Failed? ==> FrameOf(info, crcOn, frame, sub.reader.cuts) == Refused(r.error)
    {
      hide FrameOf, Recombined, BitReader.Stream, BitReader.InHand;
      if crcOn && crc != runningCrc as nat {
        return Failed(CrcMismatch);
      }
      StreamSize(data, at);
      sub.reader.ResetBitBuffer();
      return Success;
    }

    /** Keeps what there is of the footer. */
    method HoldFooter()
      requires Base() && AtFooter() && |sub.reader.InHand()| < 16
      modifies this`footerPending, sub.reader`bits, sub.reader`held, sub.reader`index, sub.reader`left
      ensures Base() && AtFooter() && footerPending && sub.reader.left == 0 && sub.reader.held < 16
    {
      hide FrameOf, Footer, Shown, Recombined, Crc16.Crc, BitReader.Stream, BitReader.InHand;
      HandSize();
      ghost var held, left := sub.reader.held, sub.reader.left;
      sub.reader.DrainRemaining();
      HandSize();
      WholeBytes(held, left, sub.reader.held, sub.reader.left, 0);
      footerPending := true;
    }

    lemma FooterSizes(at: nat)
      requires Base() && ReadingTo(at)
      ensures |sub.reader.Stream()| == |sub.reader.InHand()| + 8 * (|frame| - at)
    {
    }

    // Frames.

    /** Between two calls. */
    ghost predicate Valid()
      reads this, sub, sub.reader, block, side
    {
      && Base() && taken <= |frame|
      && match stage
         case Idle => sub.Fresh()
         case FrameHeader =>
           && sub.Fresh() && runningCrc == 0 && PartialHeader(headerBuffer)
           && taken == |headerBuffer| && headerBuffer <= frame
         case Subframes => resuming && Paused(taken)
         case FrameFooter => footerPending && Waiting(taken)
    }

    /** reset_frame_state */
    method ResetFrameState()
      requires Base()
      modifies this`stage, this`headerBuffer, this`runningCrc, this`channelIdx, this`offset
      modifies this`resuming, this`footerPending, this`wideSide, this`taken
      modifies sub, sub.reader`bits, sub.reader`held, sub.reader`index, sub.reader`left, sub.reader`outOfData, sub.reader`rice, sub.reader`buffer, sub.reader`later
      ensures Valid() && stage.Idle?
    {
      hide BitReader.Valid, SubframeDecoder.Fresh, Paused, Waiting, PartialHeader;
      stage := Idle;
      headerBuffer, runningCrc := [], 0;
      channelIdx, offset := 0, 0;
      resuming, footerPending, wideSide := false, false, false;
      taken := 0;
      sub.Clear();
      sub.reader.Clear();
    }

    /** The start of decode_frame, for a decoder between two frames; all stands for the bytes from here on. */
    method StartFrame(ghost all: seq<Byte>, ghost cuts: set<nat>)
      requires Valid() && stage.Idle?
      modifies this`stage, this`headerBuffer, this`footerPending, this`runningCrc, this`frame, this`taken, sub.reader`cuts
      ensures stage == FrameHeader && frame == all && taken == 0 && sub.reader.cuts == cuts && Valid()
    {
      sub.reader.Divide(cuts);
      stage := FrameHeader;
      headerBuffer := [];
      footerPending := false;
      runningCrc := 0;
      frame, taken := all, 0;
    }

    /** The subframes and the footer; at is where the data starts in the frame. */
    method DecodeBody(data: seq<Byte>, ghost at: nat) returns (r: Result)
      requires Base() && at + |data| <= |frame| && data == frame[at..at + |data|] && Within(at, |data|)
      requires match stage
        case Subframes => if resuming then Paused(at) && CutAt(at) else Entered(at) && channelIdx == offset == 0 && sub.Fresh()
        case FrameFooter => footerPending && Waiting(at)
        case _ => false
      modifies this`stage, this`headerBuffer, this`taken, this`done, this`wideSide, this`channelIdx, this`offset
      modifies this`resuming, this`runningCrc, this`footerPending, this`tail, block, side, sub
      modifies sub.reader`bits, sub.reader`held, sub.reader`index, sub.reader`left, sub.reader`outOfData, sub.reader`rice, sub.reader`buffer, sub.reader`later
      ensures Valid()
      ensures r.Success? ==> stage.Idle? && Shown(All(block), hdr.blockSize, Recombined(hdr, done)) && sub.reader.index <= |data|
      ensures r.Success? ==> FrameOf(info, crcOn, frame, sub.reader.cuts) == Frame(Recombined(hdr, done), at + sub.reader.index)
      ensures r.NeedMoreData? ==> !stage.Idle? && taken == at + |data|
      ensures r.NeedMoreData? && at + |data| == |frame| && (data == [] || !CutAt(|frame|)) ==>
        FrameOf(info, crcOn, frame, sub.reader.cuts) == Incomplete
      ensures r.Failed? ==> stage.Idle? && FrameOf(info, crcOn, frame, sub.reader.cuts) == Refused(r.error)
    {
      hide FrameOf, AfterChannels, Shown, Recombined, Entered, Paused, Waiting, PartialHeader, Crc16.Crc;
      hide SubframeDecoder.Settled, SubframeDecoder.Fresh, BitReader.Valid, BitReader.Stream;
      r := Success;
      if stage == Subframes {
        r := SubframePhase(data, at);
        if r.Success? {
          stage := FrameFooter;
          footerPending := false;
        }
      }
      if stage == FrameFooter {
        r := FooterPhase(data, at);
      }
      if r.Failed? {
        ResetFrameState();
      } else if r.NeedMoreData? {
        TakeNote(at + |data|);
      } else {
        stage := Idle;
        taken := 0;
      }
    }

    ghost method TakeNote(n: nat)
      requires Base() && n <= |frame|
      requires match stage
        case Subframes => resuming && Paused(n)
        case FrameFooter => footerPending && Waiting(n)
        case _ => false
      modifies this`taken
      ensures Valid() && taken == n
    {
      hide FrameOf, AfterChannels, Footer, Crc16.Crc, InPlace, Shown, Recombined, Spot.NextRead, SubframeDecoder.Due;
      hide SubframeDecoder.Ready, SubframeDecoder.Standing, SubframeDecoder.Fresh, BitReader.Stream, BitReader.Valid;
      taken := n;
    }

    /** decode_frame within a frame; used is buffer_index_ after the call. */
    method ContinueFrame(input: seq<Byte>, ghost ahead: seq<Byte>) returns (r: Result, used: nat)
      requires Valid() && !stage.Idle? && frame[taken..] == input + ahead && Within(taken, |input|)
      requires stage.Subframes? ==> CutAt(taken)
      modifies this, block, side, sub
      modifies sub.reader`bits, sub.reader`held, sub.reader`index, sub.reader`left, sub.reader`outOfData, sub.reader`rice, sub.reader`buffer, sub.reader`later
      ensures Valid() && used <= |input| && frame == old(frame)
      ensures r.Success? ==> stage.Idle? && Shown(All(block), hdr.blockSize, Recombined(hdr, done))
      ensures r.Success? ==> FrameOf(info, crcOn, frame, sub.reader.cuts) == Frame(Recombined(hdr, done), old(taken) + used)
      ensures r.NeedMoreData? ==> !stage.Idle? && used == |input| && taken == old(taken) + |input|
      ensures r.NeedMoreData? && ahead == [] && (input == [] || 0 !in sub.reader.cuts) ==>
        FrameOf(info, crcOn, frame, sub.reader.cuts) == Incomplete
      ensures r.Failed? ==> stage.Idle? && FrameOf(info, crcOn, frame, sub.reader.cuts) == Refused(r.error)
    {
      hide FrameOf, Shown, Recombined, Entered, Paused, Waiting, PartialHeader;
      hide SubframeDecoder.Fresh, BitReader.Valid;
      ghost var before := taken;
      assert frame == frame[..taken] + (input + ahead);
      var consumed := 0;
      if stage == FrameHeader {
        r, consumed := HeaderPhase(input);
        if r.Failed? {
          ResetFrameState();
          return r, consumed;
        }
        if r.NeedMoreData? {
          taken := taken + |input|;
          if ahead == [] {
            assert headerBuffer == frame;
            PartialHeaderIsIncomplete(info, crcOn, frame, sub.reader.cuts);
          }
          return r, consumed;
        }
      }
      r := DecodeBody(input[consumed..], before + consumed);
      used := if r.NeedMoreData? then |input| else if r.Success? then consumed + sub.reader.index else consumed;
    }

    /** decode_frame. The caller foretells in `ahead` what later calls will bring, and in `cuts` where they end. */
    method DecodeFrame(input: seq<Byte>, ghost ahead: seq<Byte>, ghost cuts: set<nat>) returns (r: Result, used: nat)
      requires Valid()
      requires !stage.Idle? ==> frame[taken..] == input + ahead && cuts == sub.reader.cuts && 8 * |input + ahead| in cuts
      requires forall c | c in cuts :: c <= 8 * |ahead| || c >= 8 * |input + ahead|
      modifies this, block, side, sub, sub.reader
      ensures Valid() && used <= |input| && sub.reader.cuts == cuts
      ensures frame == if old(stage).Idle? then input + ahead else old(frame)
      ensures r.Success? ==> stage.Idle? && Shown(All(block), hdr.blockSize, Recombined(hdr, done))
      ensures r.Success? ==> FrameOf(info, crcOn, frame, cuts) == Frame(Recombined(hdr, done), (if old(stage).Idle? then 0 else old(taken)) + used)
      ensures r.NeedMoreData? ==> !stage.Idle? && used == |input|
      ensures r.NeedMoreData? ==> taken == (if old(stage).Idle? then 0 else old(taken)) + |input|
      ensures r.NeedMoreData? && ahead == [] && (input == [] || 0 !in cuts) ==> FrameOf(info, crcOn, frame, cuts) == Incomplete
      ensures r.Failed? ==> stage.Idle? && FrameOf(info, crcOn, frame, cuts) == Refused(r.error)
    {
      hide Valid, FrameOf, Shown, Recombined;
      if stage == Idle {
        StartFrame(input + ahead, cuts);
      }
      Placed();
      assert |frame| - taken == |input + ahead|;
      r, used := ContinueFrame(input, ahead);
    }

    lemma Placed()
      requires Valid()
      ensures taken <= |frame|
    {
    }
  }
}
