/** FLAC frames: the header, the channels and the footer (sections 9.1 to 9.3 of RFC 9639), as a function
    of the bytes that start where the frame starts. */
module FlacFrameSpec {
  import opened Bits
  import opened FlacSpec
  import Crc8
  import Crc16
  import Decorrelation

  /** The part of STREAMINFO that frames are checked against. */
  datatype StreamInfo = StreamInfo(sampleRate: nat, channels: nat, bitsPerSample: nat, maxBlockSize: nat) {
    predicate Ok() {
      1 <= channels <= 8 && 1 <= bitsPerSample <= 32
    }
  }

  const LEFT_SIDE := 8
  const RIGHT_SIDE := 9
  const MID_SIDE := 10

  datatype Header = Header(blockSize: nat, channelAssignment: nat, bitsPerSample: nat) {
    predicate Ok(info: StreamInfo) {
      && 0 < blockSize && channelAssignment <= MID_SIDE
      && bitsPerSample == info.bitsPerSample && Channels() == info.channels
    }

    function Channels(): nat {
      if channelAssignment <= 7 then channelAssignment + 1 else 2
    }

    predicate IsStereo() {
      channelAssignment >= LEFT_SIDE
    }

    function SideChannel(): nat {
      if channelAssignment == RIGHT_SIDE then 0 else 1
    }

    predicate IsSide(ch: nat) {
      IsStereo() && ch == SideChannel()
    }

    /** A 33rd bit needs the int64 side buffer. */
    predicate WideSide() {
      IsStereo() && bitsPerSample == 32
    }

    function BlockOf(ch: nat): Block {
      Block(blockSize, if IsSide(ch) then bitsPerSample + 1 else bitsPerSample, WideSide() && ch == SideChannel())
    }

    function Mode(): Decorrelation.Mode
      requires IsStereo()
    {
      if channelAssignment == LEFT_SIDE then Decorrelation.LeftSide
      else if channelAssignment == RIGHT_SIDE then Decorrelation.RightSide
      else Decorrelation.MidSide
    }
  }

  // Header (section 9.1).

  const HEADER_MAX := 16

  /** The length of a coded number, from its first byte; 0 for a continuation byte. */
  function CodedLength(first: Byte): nat {
    if first < 0x80 then 1
    else if first < 0xC0 then 0
    else if first < 0xE0 then 2
    else if first < 0xF0 then 3
    else if first < 0xF8 then 4
    else if first < 0xFC then 5
    else if first < 0xFE then 6
    else 7
  }

  function BlockSizeCode(h: seq<Byte>): (c: nat)
    requires 5 <= |h|
    ensures c < 16
  {
    h[2] as nat / 16
  }

  function SampleRateCode(h: seq<Byte>): (c: nat)
    requires 5 <= |h|
    ensures c < 16
  {
    h[2] as nat % 16
  }

  function BlockSizeExtra(code: nat): nat {
    if code == 6 then 1 else if code == 7 then 2 else 0
  }

  function SampleRateExtra(code: nat): nat {
    if code == 12 then 1 else if code == 13 || code == 14 then 2 else 0
  }

  /** The length of the header that these five bytes start; 0 when they cannot start one. */
  function HeaderLength(h: seq<Byte>): (n: nat)
    requires 5 <= |h|
    ensures n == 0 || 6 <= n <= HEADER_MAX
  {
    var coded := CodedLength(h[4]);
    if coded == 0 then 0
    else 4 + coded + BlockSizeExtra(BlockSizeCode(h)) + SampleRateExtra(SampleRateCode(h)) + 1
  }

  predicate InSync(h: seq<Byte>)
    requires 5 <= |h|
  {
    h[0] == 0xFF && (h[1] & 0xFE) == 0xF8
  }

  function BlockSizeTable(code: nat): nat {
    match code
    case 1 => 192
    case 2 => 576
    case 3 => 1152
    case 4 => 2304
    case 5 => 4608
    case 8 => 256
    case 9 => 512
    case 10 => 1024
    case 11 => 2048
    case 12 => 4096
    case 13 => 8192
    case 14 => 16384
    case 15 => 32768
    case _ => 0
  }

  function SampleRateTable(code: nat): nat {
    match code
    case 1 => 88200
    case 2 => 176400
    case 3 => 192000
    case 4 => 8000
    case 5 => 16000
    case 6 => 22050
    case 7 => 24000
    case 8 => 32000
    case 9 => 44100
    case 10 => 48000
    case 11 => 96000
    case _ => 0
  }

  function DepthTable(code: nat): nat {
    match code
    case 1 => 8
    case 2 => 12
    case 4 => 16
    case 5 => 20
    case 6 => 24
    case 7 => 32
    case _ => 0
  }

  function Word(h: seq<Byte>, i: nat): nat
    requires i + 1 < |h|
  {
    h[i] as nat * 256 + h[i + 1] as nat
  }

  datatype Checked<+T> = Ok(value: T) | Err(error: Error)

  /** The block size that the header gives; the table's code 0 is refused. */
  function BlockSizeOf(h: seq<Byte>): nat
    requires |h| >= 6 && |h| == HeaderLength(h)
  {
    var code := BlockSizeCode(h);
    var at := |h| - 1 - SampleRateExtra(SampleRateCode(h)) - BlockSizeExtra(code);
    if code == 6 then h[at] as nat + 1
    else if code == 7 then Word(h, at) + 1
    else BlockSizeTable(code)
  }

  function SampleRateOf(info: StreamInfo, h: seq<Byte>): nat
    requires |h| >= 6 && |h| == HeaderLength(h)
  {
    var code := SampleRateCode(h);
    var at := |h| - 1 - SampleRateExtra(code);
    if code == 0 then info.sampleRate
    else if code == 12 then h[at] as nat * 1000
    else if code == 13 then Word(h, at)
    else if code == 14 then Word(h, at) * 10
    else SampleRateTable(code)
  }

  /** A complete header, checked in the order of its fields. */
  function ParseHeader(info: StreamInfo, crcOn: bool, h: seq<Byte>): (r: Checked<Header>)
    requires |h| >= 6 && |h| == HeaderLength(h)
    ensures r.Ok? ==> r.value.Ok(info)
  {
    var depthCode := h[3] as nat / 2 % 8;
    var header := Header(BlockSizeOf(h), h[3] as nat / 16, if depthCode == 0 then info.bitsPerSample else DepthTable(depthCode));
    if h[1] as nat / 2 % 2 == 1 then Err(BadHeader)
    else if h[2] as nat == 0xFF then Err(SyncNotFound)
    else if BlockSizeCode(h) == 0 then Err(BadBlockSize)
    else if h[3] as nat == 0xFF then Err(SyncNotFound)
    else if depthCode != 0 && DepthTable(depthCode) == 0 then Err(BadSampleDepth)
    else if SampleRateCode(h) == 15 then Err(BadSampleRate)
    else if crcOn && Crc8.Crc(0, h[..|h| - 1]) != h[|h| - 1] then Err(CrcMismatch)
    else if header.channelAssignment > MID_SIDE then Err(ReservedChannelAssignment)
    else if header.Channels() != info.channels then Err(FrameMismatch)
    else if header.bitsPerSample != info.bitsPerSample then Err(FrameMismatch)
    else if SampleRateOf(info, h) != info.sampleRate then Err(FrameMismatch)
    else Ok(header)
  }

  // Channels (section 9.2).

  function ChannelsFrom(h: Header, cuts: set<nat>, done: seq<seq<int>>, s: seq<Bit>): Parse<seq<seq<int>>>
    decreases h.Channels() - |done|, 0
  {
    if |done| >= h.Channels() then Done(done, s)
    else InChannel(h, cuts, done, ReadSubframe(h.BlockOf(|done|), cuts, s))
  }

  /** From inside the first channel that is not done, of which p is what the bits still give. */
  function InChannel(h: Header, cuts: set<nat>, done: seq<seq<int>>, p: Parse<seq<int>>): Parse<seq<seq<int>>>
    requires |done| < h.Channels()
    decreases h.Channels() - |done| - 1, 1
  {
    match p
    case Short => Short
    case Bad(e) => Bad(e)
    case Done(v, rest) => ChannelsFrom(h, cuts, done + [v], rest)
  }

  function At(s: seq<int>, k: nat): int {
    if k < |s| then s[k] else 0
  }

  /** The channels that were coded, from the ones that are stored. */
  function Recombined(h: Header, chs: seq<seq<int>>): seq<seq<int>> {
    if !h.IsStereo() || |chs| != 2 then chs
    else
      var side, stored := chs[h.SideChannel()], chs[1 - h.SideChannel()];
      [seq(h.blockSize, k requires 0 <= k => Decorrelation.Decode(h.Mode(), At(stored, k), At(side, k)).left),
       seq(h.blockSize, k requires 0 <= k => Decorrelation.Decode(h.Mode(), At(stored, k), At(side, k)).right)]
  }

  // Frames.

  /** What a decoder makes of the bytes: more are needed, they are refused, or a frame of this length. */
  datatype Outcome = Incomplete | Refused(error: Error) | Frame(channels: seq<seq<int>>, length: nat)

  /** The cuts tell the calls apart that bring the bytes: each is the number of bits after the end of a call. */
  function FrameOf(info: StreamInfo, crcOn: bool, bytes: seq<Byte>, cuts: set<nat>): Outcome {
    if |bytes| < 5 then Incomplete
    else if !InSync(bytes) then Refused(SyncNotFound)
    else
      var n := HeaderLength(bytes);
      if n == 0 then Refused(BadHeader)
      else if |bytes| < n then Incomplete
      else
        HeaderLengthPrefix(bytes, n);
        AfterHeaderOf(info, crcOn, bytes, cuts, n, ParseHeader(info, crcOn, bytes[..n]))
  }

  /** Bytes are all the bytes of the frame, of which the first n are its header. */
  function AfterHeaderOf(info: StreamInfo, crcOn: bool, bytes: seq<Byte>, cuts: set<nat>, n: nat, r: Checked<Header>): Outcome
    requires n <= |bytes|
  {
    match r
    case Err(e) => Refused(e)
    case Ok(h) =>
      if h.blockSize > info.maxBlockSize then Refused(BadBlockSize)
      else AfterChannels(crcOn, bytes, h, ChannelsFrom(h, cuts, [], BytesToBits(bytes[n..])))
  }

  lemma HeaderLengthPrefix(bytes: seq<Byte>, n: nat)
    requires 5 <= n <= |bytes|
    ensures HeaderLength(bytes[..n]) == HeaderLength(bytes)
  {
  }

  function AfterChannels(crcOn: bool, bytes: seq<Byte>, h: Header, p: Parse<seq<seq<int>>>): Outcome {
    match p
    case Short => Incomplete
    case Bad(e) => Refused(e)
    case Done(chs, rest) => Footer(crcOn, bytes, Recombined(h, chs), rest[|rest| % 8..])
  }

  /** The padding is over: the bits left start at a byte, and the frame's own bytes end before it. */
  function Footer(crcOn: bool, bytes: seq<Byte>, channels: seq<seq<int>>, s: seq<Bit>): Outcome {
    if |s| < 16 || |s| / 8 > |bytes| then Incomplete
    else
      var end := |bytes| - |s| / 8;
      if crcOn && ToNat(s[..16]) != Crc16.Crc(0, bytes[..end]) as nat then Refused(CrcMismatch)
      else Frame(channels, end + 2)
  }

  // How the first bytes of a frame decide.

  /** The start of a header that is not complete yet. */
  predicate PartialHeader(h: seq<Byte>) {
    |h| < 5 || (InSync(h) && |h| < HeaderLength(h))
  }

  lemma PartialHeaderIsIncomplete(info: StreamInfo, crcOn: bool, h: seq<Byte>, cuts: set<nat>)
    requires PartialHeader(h)
    ensures FrameOf(info, crcOn, h, cuts) == Incomplete
  {
    hide ParseHeader, AfterHeaderOf;
  }

  /** Five bytes decide whether there is a header, and how long it is. */
  lemma FirstFive(info: StreamInfo, crcOn: bool, h: seq<Byte>, bytes: seq<Byte>, cuts: set<nat>)
    requires 5 <= |h| && h <= bytes
    ensures InSync(bytes) == InSync(h) && HeaderLength(bytes) == HeaderLength(h)
    ensures !InSync(h) ==> FrameOf(info, crcOn, bytes, cuts) == Refused(SyncNotFound)
    ensures InSync(h) && HeaderLength(h) == 0 ==> FrameOf(info, crcOn, bytes, cuts) == Refused(BadHeader)
  {
    assert h == bytes[..|h|];
    HeaderLengthPrefix(bytes, |h|);
    hide ParseHeader, AfterHeaderOf, HeaderLength;
  }

  /** A complete header decides what the frame is. */
  lemma WholeHeader(info: StreamInfo, crcOn: bool, h: seq<Byte>, bytes: seq<Byte>, cuts: set<nat>)
    requires 6 <= |h| && h <= bytes && InSync(h) && |h| == HeaderLength(h)
    ensures FrameOf(info, crcOn, bytes, cuts) == AfterHeaderOf(info, crcOn, bytes, cuts, |h|, ParseHeader(info, crcOn, h))
  {
    FirstFive(info, crcOn, h, bytes, cuts);
    assert bytes[..|h|] == h;
    hide ParseHeader, AfterHeaderOf, HeaderLength;
  }

  /** What the footer decides, for a decoder that has the CRC of the bytes before it. */
  lemma FooterDecides(crcOn: bool, bytes: seq<Byte>, channels: seq<seq<int>>, s: seq<Bit>, left: nat, crc: bv16)
    requires |s| == 8 * left <= 8 * |bytes|
    requires crcOn ==> crc == Crc16.Crc(0, bytes[..|bytes| - left])
    ensures Footer(crcOn, bytes, channels, s) ==
      if left < 2 then Incomplete
      else if crcOn && ToNat(s[..16]) != crc as nat then Refused(CrcMismatch)
      else Frame(channels, |bytes| - left + 2)
  {
    hide Crc16.Crc, ToNat;
  }
}
