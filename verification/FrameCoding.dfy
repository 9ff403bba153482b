/** FLAC frames, written as an encoder, and the proof that decoding a frame gives back the channels that were
    coded, whatever the stereo mode, the predictions and the partitions. */
module FlacFrameCoding {
  import opened Bits
  import opened Machine
  import opened FlacSpec
  import opened FlacFrameSpec
  import opened FlacResidualCoding
  import opened FlacSubframeCoding
  import Crc8
  import Crc16
  import Decorrelation

  // Bits into bytes.

  function Pack(s: seq<Bit>): (bs: seq<Byte>)
    requires |s| % 8 == 0
    ensures 8 * |bs| == |s|
  {
    if s == [] then [] else Pack(s[..|s| - 8]) + [OneByte(s[|s| - 8..])]
  }

  function OneByte(s: seq<Bit>): (b: Byte)
    requires |s| == 8
    ensures b as nat == ToNat(s)
  {
    ByteSize();
    ByteOf(ToNat(s))
  }

  lemma ByteSize()
    ensures Pow2(8) == 256
  {
  }

  lemma {:induction false} PackInverts(s: seq<Bit>)
    requires |s| % 8 == 0
    ensures BytesToBits(Pack(s)) == s
  {
    hide ToNat, ToBits, OneByte;
    if s != [] {
      var front, last := s[..|s| - 8], s[|s| - 8..];
      PackInverts(front);
      ToBitsToNat(last);
      assert Pack(s)[..|Pack(s)| - 1] == Pack(front);
      assert s == front + last;
    }
  }

  /** What fills the last byte of n bits. */
  function Padding(n: nat): (s: seq<Bit>)
    ensures (n + |s|) % 8 == 0 && |s| < 8
  {
    Zeros(if n % 8 == 0 then 0 else 8 - n % 8)
  }

  // Header.

  /** A header with a 16-bit block size, and the rate and depth of the stream. */
  function HeaderStart(h: Header): (bs: seq<Byte>)
    requires 1 <= h.blockSize <= 0x1_0000 && h.channelAssignment <= MID_SIDE
    ensures |bs| == 7
  {
    [0xFF, 0xF8, 0x70, ByteOf(h.channelAssignment * 16), 0, ByteOf((h.blockSize - 1) / 256), ByteOf((h.blockSize - 1) % 256)]
  }

  function HeaderBytes(h: Header): (bs: seq<Byte>)
    requires 1 <= h.blockSize <= 0x1_0000 && h.channelAssignment <= MID_SIDE
    ensures |bs| == 8
  {
    HeaderStart(h) + [Crc8.Crc(0, HeaderStart(h))]
  }

  lemma HeaderFields(info: StreamInfo, h: Header, bs: seq<Byte>)
    requires 1 <= h.blockSize <= 0x1_0000 && h.channelAssignment <= MID_SIDE
    requires |bs| == 8 && bs[..7] == HeaderStart(h)
    ensures InSync(bs) && HeaderLength(bs) == 8
    ensures bs[1] as nat / 2 % 2 == 0 && bs[2] as nat == 0x70 && bs[3] as nat == h.channelAssignment * 16
    ensures BlockSizeOf(bs) == h.blockSize && SampleRateOf(info, bs) == info.sampleRate
  {
    hide ByteOf, SampleRateTable, BlockSizeTable;
    assert forall i | 0 <= i < 7 :: bs[i] == HeaderStart(h)[i];
    assert HeaderLength(bs) == 8;
    assert Word(bs, 5) == h.blockSize - 1;
  }

  lemma HeaderBytesInvert(info: StreamInfo, crcOn: bool, h: Header)
    requires h.Ok(info) && h.blockSize <= 0x1_0000
    ensures var bs := HeaderBytes(h);
      InSync(bs) && HeaderLength(bs) == 8 && ParseHeader(info, crcOn, bs) == Ok(h)
  {
    hide Crc8.Crc, ByteOf, SampleRateTable, DepthTable, BlockSizeTable, HeaderLength, InSync, BlockSizeOf, SampleRateOf, Word;
    var bs := HeaderBytes(h);
    assert bs[..7] == HeaderStart(h);
    HeaderFields(info, h, bs);
  }

  // Every header (sections 9.1.1 to 9.1.8), read from front to back.

  /** The ones at the front of a number of n bits */
  function LeadingOnes(x: nat, n: nat): nat {
    if n == 0 || x < Pow2(n - 1) then 0 else 1 + LeadingOnes(x - Pow2(n - 1), n - 1)
  }

  /** The coded number has as many bytes as its first byte has ones at its front, or one if it has none; a byte that goes on
      with a number cannot start one. */
  lemma CodedByOnes(b: Byte)
    ensures var n := LeadingOnes(b as nat, 8);
      CodedLength(b) == if n == 0 then 1 else if n == 1 then 0 else if n == 8 then 7 else n
  {
    PowersOfSizes();
    assert Pow2(7) == 128 && Pow2(6) == 64 && Pow2(1) == 2 && Pow2(0) == 1;
    hide Pow2;
    var x := b as nat;
    LeadingStep(x, 8);
    if x >= 128 {
      LeadingStep(x - 128, 7);
    }
    if x >= 192 {
      LeadingStep(x - 192, 6);
    }
    if x >= 224 {
      LeadingStep(x - 224, 5);
    }
    if x >= 240 {
      LeadingStep(x - 240, 4);
    }
    if x >= 248 {
      LeadingStep(x - 248, 3);
    }
    if x >= 252 {
      LeadingStep(x - 252, 2);
    }
    if x >= 254 {
      LeadingStep(x - 254, 1);
    }
    LeadingStep(0, 0);
  }

  lemma LeadingStep(x: nat, n: nat)
    ensures LeadingOnes(x, n) == if n == 0 || x < Pow2(n - 1) then 0 else 1 + LeadingOnes(x - Pow2(n - 1), n - 1)
  {
  }

  /** Where the fields behind the coded number start */
  function ExtrasAt(bs: seq<Byte>): nat
    requires 5 <= |bs|
  {
    4 + CodedLength(bs[4])
  }

  /** A block of this many samples: a power of two, a multiple of 144 that is one, or a number that follows */
  predicate SizeSaid(bs: seq<Byte>, n: nat)
    requires 5 <= |bs| == HeaderLength(bs)
  {
    var code, at := bs[2] as nat / 16, ExtrasAt(bs);
    if code == 1 then n == 192
    else if 2 <= code <= 5 then n == 144 * Pow2(code)
    else if code == 6 then n == bs[at] as nat + 1
    else if code == 7 then n == 256 * bs[at] as nat + bs[at + 1] as nat + 1
    else code >= 8 && n == Pow2(code)
  }

  const RATES := [88_200, 176_400, 192_000, 8_000, 16_000, 22_050, 24_000, 32_000, 44_100, 48_000, 96_000]

  /** A rate in hertz: that of the stream, one of the table, or kilohertz, hertz or tens of hertz that follow */
  predicate RateSaid(info: StreamInfo, bs: seq<Byte>, n: nat)
    requires 5 <= |bs| == HeaderLength(bs)
  {
    var code, size := bs[2] as nat % 16, bs[2] as nat / 16;
    var at := ExtrasAt(bs) + if size == 6 then 1 else if size == 7 then 2 else 0;
    if code == 0 then n == info.sampleRate
    else if code <= 11 then n == RATES[code - 1]
    else if code == 12 then n == 1000 * bs[at] as nat
    else if code == 13 then n == 256 * bs[at] as nat + bs[at + 1] as nat
    else code == 14 && n == 10 * (256 * bs[at] as nat + bs[at + 1] as nat)
  }

  const DEPTHS := [8, 12, 0, 16, 20, 24, 32]

  /** A depth: that of the stream, or one of the table, in which code 3 is reserved */
  predicate DepthSaid(info: StreamInfo, bs: seq<Byte>, n: nat)
    requires 5 <= |bs|
  {
    var code := bs[3] as nat / 2 % 8;
    if code == 0 then n == info.bitsPerSample else code != 3 && n == DEPTHS[code - 1]
  }

  /** A header of this stream, whose last byte is the CRC-8 of the others */
  predicate Says(info: StreamInfo, crcOn: bool, bs: seq<Byte>, h: Header)
    requires 6 <= |bs| == HeaderLength(bs)
  {
    && bs[1] as nat / 2 % 2 == 0 && bs[3] != 0xFF
    && SizeSaid(bs, h.blockSize) && RateSaid(info, bs, info.sampleRate) && DepthSaid(info, bs, h.bitsPerSample)
    && h.channelAssignment == bs[3] as nat / 16 && h.channelAssignment <= 10 && h.bitsPerSample == info.bitsPerSample
    && info.channels == (if h.channelAssignment < 8 then h.channelAssignment + 1 else 2)
    && (crcOn ==> Crc8.Crc(0, bs[..|bs| - 1]) == bs[|bs| - 1])
  }

  lemma PowersOfSizes()
    ensures Pow2(2) == 4 && Pow2(3) == 8 && Pow2(4) == 16 && Pow2(5) == 32
    ensures Pow2(8) == 256 && Pow2(9) == 512 && Pow2(10) == 1024 && Pow2(11) == 2048
    ensures Pow2(12) == 4096 && Pow2(13) == 8192 && Pow2(14) == 16384 && Pow2(15) == 32768
  {
  }

  lemma SizeIs(bs: seq<Byte>, n: nat)
    requires 6 <= |bs| == HeaderLength(bs)
    ensures SizeSaid(bs, n) <==> BlockSizeCode(bs) != 0 && n == BlockSizeOf(bs)
  {
    PowersOfSizes();
    hide Pow2, HeaderLength, CodedLength;
    ExtrasLie(bs);
  }

  lemma RateIs(info: StreamInfo, bs: seq<Byte>, n: nat)
    requires 6 <= |bs| == HeaderLength(bs)
    ensures RateSaid(info, bs, n) <==> SampleRateCode(bs) != 15 && n == SampleRateOf(info, bs)
  {
    hide HeaderLength, CodedLength;
    ExtrasLie(bs);
  }

  /** The fields behind the coded number lie just before the CRC. */
  lemma ExtrasLie(bs: seq<Byte>)
    requires 6 <= |bs| == HeaderLength(bs)
    ensures |bs| - 1 == ExtrasAt(bs) + BlockSizeExtra(BlockSizeCode(bs)) + SampleRateExtra(SampleRateCode(bs))
    ensures BlockSizeCode(bs) == bs[2] as nat / 16 && SampleRateCode(bs) == bs[2] as nat % 16
  {
  }

  lemma DepthIs(info: StreamInfo, bs: seq<Byte>, n: nat)
    requires 6 <= |bs|
    ensures var code := bs[3] as nat / 2 % 8;
      DepthSaid(info, bs, n) <==> (code == 0 || DepthTable(code) != 0) && n == if code == 0 then info.bitsPerSample else DepthTable(code)
  {
  }

  /** A header is accepted exactly if it says what the stream allows, and it is taken for what it says. */
  lemma HeaderSays(info: StreamInfo, crcOn: bool, bs: seq<Byte>, h: Header)
    requires 6 <= |bs| == HeaderLength(bs)
    ensures ParseHeader(info, crcOn, bs) == Ok(h) <==> Says(info, crcOn, bs, h)
  {
    hide Crc8.Crc, SizeSaid, RateSaid, DepthSaid, BlockSizeOf, SampleRateOf, DepthTable, HeaderLength;
    SizeIs(bs, h.blockSize);
    RateIs(info, bs, info.sampleRate);
    DepthIs(info, bs, h.bitsPerSample);
  }

  // Channels.

  /** A stored channel: its samples are y, each with `wasted` zero bits below it. */
  datatype Part = Part(recipe: Recipe, wasted: nat, y: seq<int>) {
    function In(b: Block): Subframe {
      Subframe(b, recipe.Kind(), wasted)
    }

    predicate Suits(b: Block) {
      b.Ok() && recipe.Suits(In(b), y)
    }

    function Samples(): seq<int> {
      Shifted(y, wasted)
    }
  }

  predicate AllSuit(h: Header, parts: seq<Part>) {
    forall c | 0 <= c < |parts| :: parts[c].Suits(h.BlockOf(c))
  }

  function ChannelBits(h: Header, parts: seq<Part>, c: nat): seq<Bit>
    requires AllSuit(h, parts)
    decreases |parts| - c
  {
    if c >= |parts| then []
    else SubframeBits(parts[c].In(h.BlockOf(c)), parts[c].recipe, parts[c].y) + ChannelBits(h, parts, c + 1)
  }

  function StoredSamples(parts: seq<Part>): seq<seq<int>> {
    seq(|parts|, c requires 0 <= c < |parts| => parts[c].Samples())
  }

  lemma {:induction false} ChannelsInvert(h: Header, cuts: set<nat>, parts: seq<Part>, c: nat, t: seq<Bit>)
    requires |parts| == h.Channels() && c <= |parts| && AllSuit(h, parts)
    ensures ChannelsFrom(h, cuts, StoredSamples(parts)[..c], ChannelBits(h, parts, c) + t) == Done(StoredSamples(parts), t)
    decreases |parts| - c
  {
    hide ReadSubframe, SubframeBits, Shifted, Recipe.Suits, Header.Channels, Header.BlockOf;
    var all := StoredSamples(parts);
    if c == |parts| {
      assert all[..c] == all && ChannelBits(h, parts, c) + t == t;
    } else {
      assert parts[c].Suits(h.BlockOf(c));
      var f, rest := parts[c].In(h.BlockOf(c)), ChannelBits(h, parts, c + 1) + t;
      SubframeInverts(f, cuts, parts[c].recipe, parts[c].y, rest);
      assert ChannelBits(h, parts, c) + t == SubframeBits(f, parts[c].recipe, parts[c].y) + rest;
      assert all[..c] + [all[c]] == all[..c + 1];
      ChannelsInvert(h, cuts, parts, c + 1, t);
    }
  }

  // Stereo.

  predicate Suitable(h: Header, chs: seq<seq<int>>) {
    && |chs| == h.Channels()
    && (forall c | 0 <= c < |chs| :: |chs[c]| == h.blockSize)
    && (forall c, k | 0 <= c < |chs| && 0 <= k < |chs[c]| :: Fits32(chs[c][k]))
  }

  /** What the channel assignment makes of a left and a right sample, as they are stored one after the other (section 9.1.3):
      left and side, side and right, or mid and side. */
  function StoredPair(assignment: nat, left: int, right: int): (int, int) {
    match assignment
    case 8 => (left, left - right)
    case 9 => (left - right, right)
    case 10 => ((left + right) / 2, left - right)
    case _ => (left, right)
  }

  /** What is stored for these channels: the channels, or one of them or their mean beside their difference. */
  function StoredFor(h: Header, chs: seq<seq<int>>): seq<seq<int>>
    requires Suitable(h, chs)
  {
    if !h.IsStereo() then chs
    else
      [seq(h.blockSize, k requires 0 <= k < h.blockSize => StoredPair(h.channelAssignment, chs[0][k], chs[1][k]).0),
       seq(h.blockSize, k requires 0 <= k < h.blockSize => StoredPair(h.channelAssignment, chs[0][k], chs[1][k]).1)]
  }

  /** The left and the right sample for which the assignment stores a and b: the sum or difference that is missing, or the
      two numbers of this mean and this difference. */
  predicate StandsFor(assignment: nat, a: int, b: int, left: int, right: int) {
    match assignment
    case 8 => left == a && right == a - b
    case 9 => left == a + b && right == b
    case 10 => left - right == b && (left + right) / 2 == a
    case _ => left == a && right == b
  }

  /** The stereo samples that a frame's two stored channels stand for, for all stored samples: exact, but for bits above
      the 32 of a register, and exact wherever the depth leaves room for a difference. */
  lemma StereoTable(h: Header, a: seq<int>, b: seq<int>, k: nat) returns (left: int, right: int)
    requires h.IsStereo() && h.channelAssignment <= MID_SIDE && k < |a| == |b| == h.blockSize
    requires 0 < h.bitsPerSample <= 32
    requires FitsIn(a[k], h.BlockOf(0).depth) && FitsIn(b[k], h.BlockOf(1).depth)
    ensures StandsFor(h.channelAssignment, a[k], b[k], left, right)
    ensures var chs := Recombined(h, [a, b]);
      |chs| == 2 && |chs[0]| == |chs[1]| == h.blockSize && chs[0][k] == Wrap32(left) && chs[1][k] == Wrap32(right)
    ensures h.bitsPerSample <= 30 || (Fits32(left) && Fits32(right)) ==> Recombined(h, [a, b])[0][k] == left && Recombined(h, [a, b])[1][k] == right
  {
    hide Pow2, Wrap32;
    var x, y := a[k], b[k];
    SampleBounds(h, x, y);
    if h.channelAssignment == LEFT_SIDE {
      left, right := x, x - y;
    } else if h.channelAssignment == RIGHT_SIDE {
      left, right := x + y, y;
    } else {
      right := x - y / 2;
      left := right + y;
      Wrap32Sum(right, y);
    }
  }

  lemma SampleBounds(h: Header, x: int, y: int)
    requires h.IsStereo() && 0 < h.bitsPerSample <= 32 && FitsIn(x, h.BlockOf(0).depth) && FitsIn(y, h.BlockOf(1).depth)
    ensures h.channelAssignment != RIGHT_SIDE ==> Fits32(x)
    ensures h.channelAssignment == RIGHT_SIDE ==> Fits32(y)
    ensures h.bitsPerSample <= 30 ==> -0x4000_0000 <= x < 0x4000_0000 && -0x4000_0000 <= y < 0x4000_0000
  {
    hide Pow2, FitsIn;
    PowersOfRegisters();
    var first, second := h.BlockOf(0).depth, h.BlockOf(1).depth;
    if h.channelAssignment == RIGHT_SIDE {
      InWider(y, second, 32);
    } else {
      InWider(x, first, 32);
    }
    if h.bitsPerSample <= 30 {
      InWider(x, first, 31);
      InWider(y, second, 31);
    }
  }

  lemma InWider(v: int, n: nat, m: nat)
    requires 0 < n <= m && FitsIn(v, n)
    ensures -(Pow2(m - 1) as int) <= v < Pow2(m - 1)
  {
    Pow2Mono(n - 1, m - 1);
  }

  lemma PowersOfRegisters()
    ensures Pow2(30) == 0x4000_0000 && Pow2(31) == 0x8000_0000
  {
    assert Pow2(8) == 0x100;
    assert Pow2(16) == 0x1_0000;
    assert Pow2(24) == 0x100_0000;
  }

  lemma RecombinedInverts(h: Header, chs: seq<seq<int>>)
    requires Suitable(h, chs) && h.channelAssignment <= MID_SIDE
    ensures Recombined(h, StoredFor(h, chs)) == chs
  {
    hide Decorrelation.Decode, Fits32;
    if h.IsStereo() {
      var got := Recombined(h, StoredFor(h, chs));
      forall k | 0 <= k < h.blockSize ensures got[0][k] == chs[0][k] && got[1][k] == chs[1][k] {
        Decorrelation.DecodeInverts(h.Mode(), Decorrelation.Pair(chs[0][k], chs[1][k]));
      }
      assert got[0] == chs[0] && got[1] == chs[1];
    }
  }

  // Frames.

  function BodyBytes(h: Header, parts: seq<Part>): seq<Byte>
    requires AllSuit(h, parts)
  {
    var bits := ChannelBits(h, parts, 0);
    var padding := Padding(|bits|);
    assert |bits + padding| == |bits| + |padding|;
    Pack(bits + padding)
  }

  function FrameBytes(h: Header, parts: seq<Part>): seq<Byte>
    requires 1 <= h.blockSize <= 0x1_0000 && h.channelAssignment <= MID_SIDE && AllSuit(h, parts)
  {
    var covered := HeaderBytes(h) + BodyBytes(h, parts);
    covered + CrcBytes(covered)
  }

  function CrcBytes(covered: seq<Byte>): (bs: seq<Byte>)
    ensures |bs| == 2
  {
    Pack(ToBits(Crc16.Crc(0, covered) as nat, 16))
  }

  /** Any channels, in any stereo mode, with any predictions and partitions that suit them, come back from their
      frame, and the decoder knows where the frame ends, whatever follows it and wherever the calls are cut. */
  lemma FrameInverts(info: StreamInfo, crcOn: bool, h: Header, chs: seq<seq<int>>, parts: seq<Part>, more: seq<Byte>, cuts: set<nat>)
    requires h.Ok(info) && h.blockSize <= 0x1_0000 && h.blockSize <= info.maxBlockSize
    requires Suitable(h, chs) && |parts| == |chs| && AllSuit(h, parts) && StoredSamples(parts) == StoredFor(h, chs)
    ensures FrameOf(info, crcOn, FrameBytes(h, parts) + more, cuts) == Frame(chs, |FrameBytes(h, parts)|)
  {
    hide FrameOf, ParseHeader, HeaderLength, InSync, HeaderBytes, ChannelsFrom, ChannelBits, Recombined, StoredFor, Suitable;
    hide AllSuit, CrcBytes, BytesToBits, AfterChannels, Padding, BodyBytes, StoredSamples;
    ChannelCount(h, chs);
    var head, body := HeaderBytes(h), BodyBytes(h, parts);
    var bytes := FrameBytes(h, parts) + more;
    HeaderBytesInvert(info, crcOn, h);
    assert head <= bytes;
    WholeHeader(info, crcOn, head, bytes, cuts);
    var tail := CrcBytes(head + body) + more;
    assert bytes[8..] == body + tail;
    BodyInverts(h, cuts, parts, tail);
    FooterInverts(crcOn, bytes, head + body, chs, h, parts, more);
    RecombinedInverts(h, chs);
  }

  lemma ChannelCount(h: Header, chs: seq<seq<int>>)
    requires Suitable(h, chs)
    ensures |chs| == h.Channels()
  {
  }

  lemma BodyInverts(h: Header, cuts: set<nat>, parts: seq<Part>, tail: seq<Byte>)
    requires |parts| == h.Channels() && AllSuit(h, parts)
    ensures var bits := ChannelBits(h, parts, 0);
      ChannelsFrom(h, cuts, [], BytesToBits(BodyBytes(h, parts) + tail)) == Done(StoredSamples(parts), Padding(|bits|) + BytesToBits(tail))
  {
    hide ChannelsFrom, ChannelBits, AllSuit, Pack, BytesToBits, StoredSamples;
    var bits := ChannelBits(h, parts, 0);
    PackInverts(bits + Padding(|bits|));
    BytesToBitsConcat(BodyBytes(h, parts), tail);
    assert BytesToBits(BodyBytes(h, parts) + tail) == bits + (Padding(|bits|) + BytesToBits(tail));
    assert StoredSamples(parts)[..0] == [];
    ChannelsInvert(h, cuts, parts, 0, Padding(|bits|) + BytesToBits(tail));
  }

  lemma FooterInverts(crcOn: bool, bytes: seq<Byte>, covered: seq<Byte>, chs: seq<seq<int>>, h: Header, parts: seq<Part>, more: seq<Byte>)
    requires AllSuit(h, parts) && bytes == covered + CrcBytes(covered) + more
    ensures var pad := Padding(|ChannelBits(h, parts, 0)|);
      var tail := CrcBytes(covered) + more;
      AfterChannels(crcOn, bytes, h, Done(StoredSamples(parts), pad + BytesToBits(tail)))
      == Frame(Recombined(h, StoredSamples(parts)), |covered| + 2)
  {
    hide ChannelBits, AllSuit, Crc16.Crc, Pack, BytesToBits, ToBits, ToNat, Recombined, StoredSamples, Padding, CrcBytes;
    var pad, tail := Padding(|ChannelBits(h, parts, 0)|), CrcBytes(covered) + more;
    var rest := pad + BytesToBits(tail);
    var n := |BytesToBits(tail)|;
    assert n == 8 * (2 + |more|);
    Remainder(|pad|, 2 + |more|);
    assert rest[|pad|..] == BytesToBits(tail);
    BytesToBitsConcat(CrcBytes(covered), more);
    CrcBits(covered);
    WordSize(Crc16.Crc(0, covered) as nat);
    FieldInverts(Crc16.Crc(0, covered) as nat, 16, BytesToBits(more));
    assert bytes[..|covered|] == covered && |bytes| == |covered| + 2 + |more|;
    FooterDecides(crcOn, bytes, Recombined(h, StoredSamples(parts)), BytesToBits(tail), 2 + |more|, Crc16.Crc(0, covered));
  }

  lemma CrcBits(covered: seq<Byte>)
    ensures BytesToBits(CrcBytes(covered)) == ToBits(Crc16.Crc(0, covered) as nat, 16)
  {
    PackInverts(ToBits(Crc16.Crc(0, covered) as nat, 16));
  }

  lemma Remainder(k: nat, m: nat)
    requires k < 8
    ensures (k + 8 * m) % 8 == k
  {
  }

  lemma WordSize(x: nat)
    requires x < 0x1_0000
    ensures x < Pow2(16)
  {
    assert Pow2(8) == 0x100;
  }
}
