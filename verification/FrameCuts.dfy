/** When the cutting of the input into calls shows: a decoder that has to wait inside the count of wasted bits, with a
    32-bit counter that has come round to zero, takes the count for over. */
module FlacFrameCuts {
  import opened Bits
  import opened FlacSpec
  import opened FlacSubframe
  import opened FlacFrameSpec
  import opened FlacResidualCoding
  import opened FlacSubframeCoding
  import opened FlacFrameCoding
  import Crc16
  import Lpc

  const ROUND := 0x1_0000_0000

  // Where a call may not end.

  /** A call ends inside the count, after so many zeros that the counter is zero. */
  predicate CountSlips(cuts: set<nat>, wasted: nat, s: seq<Bit>)
    decreases |s|
  {
    (wasted == 0 && |s| in cuts) || (s != [] && s[0] == 0 && CountSlips(cuts, Count32(wasted, 1), s[1..]))
  }

  predicate SubframeSlips(cuts: set<nat>, s: seq<Bit>) {
    |s| >= 8 && ToNat(s[..8]) % 2 == 1 && CountSlips(cuts, 1, s[8..])
  }

  predicate ChannelsSlip(h: Header, cuts: set<nat>, done: seq<seq<int>>, s: seq<Bit>)
    decreases h.Channels() - |done|
  {
    && |done| < h.Channels()
    && (SubframeSlips(cuts, s)
        || match ReadSubframe(h.BlockOf(|done|), {}, s)
           case Done(v, rest) => ChannelsSlip(h, cuts, done + [v], rest)
           case _ => false)
  }

  predicate HeaderSlips(info: StreamInfo, bytes: seq<Byte>, cuts: set<nat>, n: nat, r: Checked<Header>)
    requires n <= |bytes|
  {
    r.Ok? && r.value.blockSize <= info.maxBlockSize && ChannelsSlip(r.value, cuts, [], BytesToBits(bytes[n..]))
  }

  /** A call ends after 2^32 - 1 zero bits (or that and a multiple of 2^32) in a count of wasted bits of the frame. */
  predicate Slips(info: StreamInfo, crcOn: bool, bytes: seq<Byte>, cuts: set<nat>) {
    |bytes| >= 5 && InSync(bytes) &&
    var n := HeaderLength(bytes);
    n != 0 && n <= |bytes| &&
    (HeaderLengthPrefix(bytes, n);
     HeaderSlips(info, bytes, cuts, n, ParseHeader(info, crcOn, bytes[..n])))
  }

  /** A call ends after n zeros, which bring the counter to zero. */
  predicate SlipsAt(cuts: set<nat>, wasted: nat, s: seq<Bit>, n: nat) {
    n <= |s| && (wasted + n) % ROUND == 0 && s[..n] == Zeros(n) && |s| - n in cuts
  }

  lemma SlipsAtStep(cuts: set<nat>, wasted: nat, s: seq<Bit>, n: nat)
    requires n > 0
    ensures SlipsAt(cuts, wasted, s, n) <==> s != [] && s[0] == 0 && SlipsAt(cuts, Count32(wasted, 1), s[1..], n - 1)
  {
    OneMore(wasted, n);
    if 0 < n <= |s| {
      ZerosStep(s, n);
    }
  }

  lemma OneMore(wasted: nat, n: nat)
    requires n > 0
    ensures (Count32(wasted, 1) + (n - 1)) % ROUND == (wasted + n) % ROUND
  {
  }

  lemma ZerosStep(s: seq<Bit>, n: nat)
    requires 0 < n <= |s|
    ensures s[..n] == Zeros(n) <==> s[0] == 0 && s[1..][..n - 1] == Zeros(n - 1)
  {
    var t := s[1..][..n - 1];
    assert s[..n] == [s[0]] + t && Zeros(n) == [0] + Zeros(n - 1);
    assert ([s[0]] + t)[0] == s[0] && ([0] + Zeros(n - 1))[0] == 0;
    assert ([s[0]] + t)[1..] == t && ([0] + Zeros(n - 1))[1..] == Zeros(n - 1);
  }

  /** Where a call may not end: after 2^32 - wasted zeros, and then every 2^32 zeros. */
  lemma {:induction false} SlipsExactly(cuts: set<nat>, wasted: nat, s: seq<Bit>)
    requires wasted < ROUND
    ensures CountSlips(cuts, wasted, s) <==> exists n: nat :: SlipsAt(cuts, wasted, s, n)
    decreases |s|
  {
    hide CountSlips, SlipsAt;
    CountStep(cuts, wasted, s);
    NoZeros(cuts, wasted, s);
    if s != [] && s[0] == 0 {
      var next, tail := Count32(wasted, 1), s[1..];
      SlipsExactly(cuts, next, tail);
      forall n: nat
        ensures n > 0 ==> (SlipsAt(cuts, wasted, s, n) <==> SlipsAt(cuts, next, tail, n - 1))
      {
        if n > 0 {
          SlipsAtStep(cuts, wasted, s, n);
        }
      }
      if n: nat :| SlipsAt(cuts, next, tail, n) {
        SlipsAtStep(cuts, wasted, s, n + 1);
      }
    } else {
      forall n: nat
        ensures n > 0 ==> !SlipsAt(cuts, wasted, s, n)
      {
        if n > 0 {
          SlipsAtStep(cuts, wasted, s, n);
        }
      }
    }
  }

  lemma NoZeros(cuts: set<nat>, wasted: nat, s: seq<Bit>)
    requires wasted < ROUND
    ensures SlipsAt(cuts, wasted, s, 0) <==> wasted == 0 && |s| in cuts
  {
  }

  lemma CountStep(cuts: set<nat>, wasted: nat, s: seq<Bit>)
    ensures CountSlips(cuts, wasted, s) <==>
      (wasted == 0 && |s| in cuts) || (s != [] && s[0] == 0 && CountSlips(cuts, Count32(wasted, 1), s[1..]))
  {
  }

  // If no call ends there, the cutting does not show.

  lemma {:induction false} CountIgnoresCuts(b: Block, cuts: set<nat>, kind: nat, wasted: nat, s: seq<Bit>)
    requires !CountSlips(cuts, wasted, s)
    ensures Wasted(b, cuts, kind, wasted, s) == Wasted(b, {}, kind, wasted, s)
    decreases |s|
  {
    hide AfterHeader;
    if s != [] && s[0] == 0 {
      CountIgnoresCuts(b, cuts, kind, Count32(wasted, 1), s[1..]);
    }
  }

  lemma SubframeIgnoresCuts(b: Block, cuts: set<nat>, s: seq<Bit>)
    requires !SubframeSlips(cuts, s)
    ensures ReadSubframe(b, cuts, s) == ReadSubframe(b, {}, s)
  {
    hide AfterHeader, Wasted, ToNat, CountSlips;
    if |s| >= 8 && ToNat(s[..8]) % 2 == 1 {
      CountIgnoresCuts(b, cuts, ToNat(s[..8]) / 2 % 64, 1, s[8..]);
    }
  }

  lemma {:induction false} ChannelsIgnoreCuts(h: Header, cuts: set<nat>, done: seq<seq<int>>, s: seq<Bit>)
    requires !ChannelsSlip(h, cuts, done, s)
    ensures ChannelsFrom(h, cuts, done, s) == ChannelsFrom(h, {}, done, s)
    decreases h.Channels() - |done|
  {
    hide ReadSubframe, SubframeSlips;
    if |done| < h.Channels() {
      SubframeIgnoresCuts(h.BlockOf(|done|), cuts, s);
      match ReadSubframe(h.BlockOf(|done|), {}, s)
      case Done(v, rest) => ChannelsIgnoreCuts(h, cuts, done + [v], rest);
      case _ =>
    }
  }

  /** A frame means the same in any cutting, unless a call ends where it may not. */
  lemma CutsDoNotShow(info: StreamInfo, crcOn: bool, bytes: seq<Byte>, cuts: set<nat>)
    requires !Slips(info, crcOn, bytes, cuts)
    ensures FrameOf(info, crcOn, bytes, cuts) == FrameOf(info, crcOn, bytes, {})
  {
    hide ParseHeader, HeaderLength, InSync, ChannelsFrom, ChannelsSlip, AfterChannels, BytesToBits;
    if |bytes| >= 5 && InSync(bytes) && HeaderLength(bytes) != 0 && HeaderLength(bytes) <= |bytes| {
      var n := HeaderLength(bytes);
      HeaderLengthPrefix(bytes, n);
      var r := ParseHeader(info, crcOn, bytes[..n]);
      if r.Ok? && r.value.blockSize <= info.maxBlockSize {
        ChannelsIgnoreCuts(r.value, cuts, [], BytesToBits(bytes[n..]));
      }
    }
  }

  // Only a call that ends 2^32 bits after the start of the frame can do so.

  lemma {:induction false} LateCuts(cuts: set<nat>, wasted: nat, s: seq<Bit>)
    requires wasted < ROUND
    requires forall c | c in cuts :: |s| < c + (if wasted == 0 then 0 else ROUND - wasted)
    ensures !CountSlips(cuts, wasted, s)
    decreases |s|
  {
    if s != [] {
      LateCuts(cuts, Count32(wasted, 1), s[1..]);
    }
  }

  lemma {:induction false} ChannelsLate(h: Header, cuts: set<nat>, done: seq<seq<int>>, s: seq<Bit>)
    requires forall c | c in cuts :: |s| < c + ROUND
    ensures !ChannelsSlip(h, cuts, done, s)
    decreases h.Channels() - |done|
  {
    hide ReadSubframe, CountSlips, ToNat;
    if |done| < h.Channels() {
      if |s| >= 8 {
        LateCuts(cuts, 1, s[8..]);
      }
      match ReadSubframe(h.BlockOf(|done|), {}, s)
      case Done(v, rest) => ChannelsLate(h, cuts, done + [v], rest);
      case _ =>
    }
  }

  /** Calls that end less than 2^32 bits (512 MiB) after the start of the frame never slip. */
  lemma EarlyCutsAreSafe(info: StreamInfo, crcOn: bool, bytes: seq<Byte>, cuts: set<nat>)
    requires forall c | c in cuts :: 8 * |bytes| < c + ROUND
    ensures !Slips(info, crcOn, bytes, cuts)
  {
    hide ParseHeader, HeaderLength, InSync, ChannelsSlip;
    if Slips(info, crcOn, bytes, cuts) {
      var n := HeaderLength(bytes);
      HeaderLengthPrefix(bytes, n);
      ChannelsLate(ParseHeader(info, crcOn, bytes[..n]).value, cuts, [], BytesToBits(bytes[n..]));
    }
  }

  // Where a call ends with a counter of zero, the cutting does show.

  predicate OtherError<T>(p: Parse<T>) {
    p.Bad? ==> p.error != BadSampleDepth
  }

  lemma {:induction false} PartitionErrors(c: Coding, i: nat, acc: seq<int>, s: seq<Bit>)
    ensures OtherError(Partition(c, i, acc, s))
    decreases c.Partitions() - i, 3, 0
  {
    hide ToNat, RiceUnary;
    if |s| >= c.paramBits && c.Count(i) >= 0 {
      var param, rest := ToNat(s[..c.paramBits]), s[c.paramBits..];
      if param < c.Escape() {
        RiceRunErrors(c, i, param, c.Count(i), acc, rest);
      } else if |rest| >= 5 {
        RawRunErrors(c, i, ToNat(rest[..5]), c.Count(i), acc, rest[5..]);
      }
    }
  }

  lemma {:induction false} RiceRunErrors(c: Coding, i: nat, param: nat, left: nat, acc: seq<int>, s: seq<Bit>)
    ensures OtherError(RiceRun(c, i, param, left, acc, s))
    decreases c.Partitions() - i, 1, left
  {
    if left == 0 {
      NextPartitionErrors(c, i, acc, s);
    } else {
      UnaryErrors(0, param, s);
      match RiceUnary(0, param, s)
      case Done(v, rest) => RiceRunErrors(c, i, param, left - 1, acc + [v], rest);
      case _ =>
    }
  }

  lemma {:induction false} UnaryErrors(quotient: nat, param: nat, s: seq<Bit>)
    ensures !RiceUnary(quotient, param, s).Bad?
    decreases |s|
  {
    if s != [] && s[0] != 1 {
      UnaryErrors(Count32(quotient, 1), param, s[1..]);
    }
  }

  lemma {:induction false} RawRunErrors(c: Coding, i: nat, width: nat, left: nat, acc: seq<int>, s: seq<Bit>)
    ensures OtherError(RawRun(c, i, width, left, acc, s))
    decreases c.Partitions() - i, 1, left
  {
    hide ToNat, SignExtend;
    if left == 0 {
      NextPartitionErrors(c, i, acc, s);
    } else if |s| >= width {
      RawRunErrors(c, i, width, left - 1, acc + [if width == 0 then 0 else SignExtend(ToNat(s[..width]), width)], s[width..]);
    }
  }

  lemma {:induction false} NextPartitionErrors(c: Coding, i: nat, acc: seq<int>, s: seq<Bit>)
    ensures OtherError(NextPartition(c, i, acc, s))
    decreases c.Partitions() - i, 0, 0
  {
    if i + 1 < c.Partitions() {
      PartitionErrors(c, i + 1, acc, s);
    }
  }

  lemma PredictedErrors(f: Subframe, p: Lpc.Predictor, warm: seq<int>, s: seq<Bit>)
    requires f.Ok()
    ensures OtherError(Predicted(f, p, warm, s))
  {
    hide ToNat, Partition, Finished;
    if |s| >= 6 {
      var h := ToNat(s[..6]);
      PartitionErrors(Coding(f.block.size, |warm|, if h / 16 == 1 then 5 else 4, h % 16), 0, warm, s[6..]);
    }
  }

  lemma {:induction false} WarmupErrors(f: Subframe, acc: seq<int>, s: seq<Bit>)
    requires f.Ok()
    ensures OtherError(Warmup(f, acc, s))
    decreases f.Order() - |acc|
  {
    hide ToNat, SignExtend, Predicted, LpcParams;
    if |acc| >= f.Order() {
      LpcErrors(f, acc, s);
      PredictedErrors(f, Lpc.Predictor(FixedCoefs(f.Order()), 0), acc, s);
    } else if |s| >= f.Depth() {
      WarmupErrors(f, acc + [SignExtend(ToNat(s[..f.Depth()]), f.Depth())], s[f.Depth()..]);
    }
  }

  lemma LpcErrors(f: Subframe, warm: seq<int>, s: seq<Bit>)
    requires f.Ok()
    ensures OtherError(LpcParams(f, warm, s))
  {
    hide ToNat, SignExtend, LpcCoefs;
    if |s| >= 9 {
      var h := ToNat(s[..9]);
      CoefErrors(f, warm, h / 32 + 1, SignExtend(h % 32, 5), [], s[9..]);
    }
  }

  lemma {:induction false} CoefErrors(f: Subframe, warm: seq<int>, precision: nat, shift: int, coefs: seq<int>, s: seq<Bit>)
    requires f.Ok() && precision > 0
    ensures shift >= 0 ==> OtherError(LpcCoefs(f, warm, precision, shift, coefs, s))
    decreases f.Order() - |coefs|
  {
    hide ToNat, SignExtend, Predicted;
    if shift < 0 {
    } else if |coefs| >= f.Order() {
      PredictedErrors(f, Lpc.Predictor(coefs, shift), warm, s);
    } else if |s| >= precision {
      CoefErrors(f, warm, precision, shift, [SignExtend(ToNat(s[..precision]), precision)] + coefs, s[precision..]);
    }
  }

  lemma {:induction false} VerbatimErrors(f: Subframe, acc: seq<int>, s: seq<Bit>)
    requires f.Ok()
    ensures !Verbatim(f, acc, s).Bad?
    decreases f.block.size - |acc|
  {
    hide ToNat, SignExtend, Subframe.Scaled;
    if |acc| < f.block.size && |s| >= f.Depth() {
      VerbatimErrors(f, acc + [f.Scaled(SignExtend(ToNat(s[..f.Depth()]), f.Depth()))], s[f.Depth()..]);
    }
  }

  /** A subframe whose depth is good is not refused for its depth. */
  lemma ContentErrors(f: Subframe, s: seq<Bit>)
    requires f.Ok()
    ensures OtherError(AfterHeader(f, s))
  {
    hide Constant, Verbatim, Warmup;
    ConstantErrors(f, s);
    VerbatimErrors(f, [], s);
    WarmupErrors(f, [], s);
  }

  lemma ConstantErrors(f: Subframe, s: seq<Bit>)
    requires f.Ok()
    ensures !Constant(f, s).Bad?
  {
    hide ToNat, SignExtend;
  }

  /** Zeros in the count, where no call ends. */
  lemma {:induction false} CountZeros(b: Block, cuts: set<nat>, kind: nat, wasted: nat, n: nat, t: seq<Bit>)
    requires wasted < ROUND && wasted + n <= ROUND && (wasted == 0 ==> n == 0 || |t| + n !in cuts)
    ensures Wasted(b, cuts, kind, wasted, Zeros(n) + t) == Wasted(b, cuts, kind, (wasted + n) % ROUND, t)
    decreases n
  {
    hide Wasted, Zeros;
    NoZero(t);
    if n > 0 {
      OneZero(b, cuts, kind, wasted, n, t);
      if wasted + 1 < ROUND {
        CountZeros(b, cuts, kind, wasted + 1, n - 1, t);
      }
    }
  }

  lemma NoZero(t: seq<Bit>)
    ensures Zeros(0) + t == t
  {
  }

  lemma OneZero(b: Block, cuts: set<nat>, kind: nat, wasted: nat, n: nat, t: seq<Bit>)
    requires n > 0 && wasted < ROUND && (wasted == 0 ==> |t| + n !in cuts)
    ensures Wasted(b, cuts, kind, wasted, Zeros(n) + t) == Wasted(b, cuts, kind, (wasted + 1) % ROUND, Zeros(n - 1) + t)
  {
    hide AfterHeader;
    var s := Zeros(n) + t;
    assert s[0] == 0 && s[1..] == Zeros(n - 1) + t;
  }

  /** A call may end in the count exactly if the counter is not zero: then, and only then, all that can follow means the
      same in the next call as it would have in this one. */
  lemma CutShows(b: Block, kind: nat, wasted: nat)
    requires b.Ok() && wasted < ROUND
    ensures (forall s: seq<Bit> :: Wasted(b, {|s|}, kind, wasted, s) == Wasted(b, {}, kind, wasted, s)) <==> wasted != 0
  {
    hide AfterHeader, Wasted;
    if wasted == 0 {
      var s: seq<Bit> := Zeros(b.depth) + [1];
      ZeroShows(b, kind);
      assert Wasted(b, {|s|}, kind, wasted, s) != Wasted(b, {}, kind, wasted, s);
    } else {
      forall s: seq<Bit>
        ensures Wasted(b, {|s|}, kind, wasted, s) == Wasted(b, {}, kind, wasted, s)
      {
        OnlyHere(wasted, s);
        CountIgnoresCuts(b, {|s|}, kind, wasted, s);
      }
    }
  }

  /** What follows for a whole input: a depth without bits; for a cut one, anything but that. */
  lemma ZeroShows(b: Block, kind: nat)
    requires b.Ok()
    ensures var s: seq<Bit> := Zeros(b.depth) + [1]; Wasted(b, {|s|}, kind, 0, s) != Wasted(b, {}, kind, 0, s)
  {
    hide AfterHeader, Wasted;
    var s: seq<Bit>, stop: seq<Bit> := Zeros(b.depth) + [1], [1];
    CountZeros(b, {}, kind, 0, b.depth, stop);
    CountEnds(b, {}, kind, b.depth, stop);
    FlacSubframe.Refused(Subframe(b, kind, b.depth), stop[1..]);
    assert Wasted(b, {}, kind, 0, s) == Bad(BadSampleDepth);
    CountGoesOn(b, {|s|}, kind, 0, s);
    ContentErrors(Subframe(b, kind, 0), s);
  }

  lemma CountEnds(b: Block, cuts: set<nat>, kind: nat, wasted: nat, s: seq<Bit>)
    requires wasted != 0 && s != [] && s[0] == 1
    ensures Wasted(b, cuts, kind, wasted, s) == AfterHeader(Subframe(b, kind, wasted), s[1..])
  {
    hide AfterHeader;
  }

  lemma OnlyHere(wasted: nat, s: seq<Bit>)
    requires wasted != 0
    ensures !CountSlips({|s|}, wasted, s)
  {
    hide CountSlips;
    CountStep({|s|}, wasted, s);
    if s != [] {
      NoneLeft({|s|}, Count32(wasted, 1), s[1..]);
    }
  }

  lemma {:induction false} NoneLeft(cuts: set<nat>, wasted: nat, s: seq<Bit>)
    requires forall c | c in cuts :: c > |s|
    ensures !CountSlips(cuts, wasted, s)
    decreases |s|
  {
    if s != [] {
      NoneLeft(cuts, Count32(wasted, 1), s[1..]);
    }
  }

  // A frame that a decoder finds when it comes in two calls, and does not find when it comes in one.

  /** A constant channel of zeros, without wasted bits */
  function Silent(depth: nat): (s: seq<Bit>)
    ensures |s| == 8 + depth
  {
    HeaderBits(0, 0) + Zeros(depth)
  }

  function Silence(size: nat): seq<int> {
    seq(size, k => 0)
  }

  /** The header of a constant channel with a count of 2^32 - 1 zeros, and zeros that are its value if the count is over */
  function Round(depth: nat): (s: seq<Bit>)
    ensures |s| == 7 + ROUND + depth
  {
    ToBits(1, 8) + (Zeros(ROUND - 1) + Zeros(depth))
  }

  lemma SilentConstant(b: Block, t: seq<Bit>)
    requires b.Ok()
    ensures AfterHeader(Subframe(b, 0, 0), Zeros(b.depth) + t) == Done(Silence(b.size), t)
  {
    hide ToNat, ToBits, SignedBits, SignExtend, FitsIn, Constant, Pow2;
    var f := Subframe(b, 0, 0);
    ZeroFits(b.depth);
    ConstantInverts(f, 0, t);
    ScaledZero(f);
    assert seq(b.size, k => f.Scaled(0)) == Silence(b.size);
  }

  lemma ZeroFits(n: nat)
    requires 0 < n
    ensures FitsIn(0, n) && SignedBits(0, n) == Zeros(n)
  {
    ToBitsZero(n);
  }

  lemma ScaledZero(f: Subframe)
    ensures f.Scaled(0) == 0
  {
    assert 0 * Pow2(f.wasted) == 0;
  }

  lemma SilentReads(b: Block, cuts: set<nat>, t: seq<Bit>)
    requires b.Ok()
    ensures ReadSubframe(b, cuts, Silent(b.depth) + t) == Done(Silence(b.size), t)
  {
    hide AfterHeader, ReadSubframe, HeaderBits;
    HeaderInverts(b, cuts, 0, 0, Zeros(b.depth) + t);
    assert Silent(b.depth) + t == HeaderBits(0, 0) + (Zeros(b.depth) + t);
    SilentConstant(b, t);
  }

  lemma RoundStarts(b: Block, cuts: set<nat>, t: seq<Bit>)
    requires forall c | c in cuts :: c <= b.depth + |t|
    ensures ReadSubframe(b, cuts, Round(b.depth) + t) == Wasted(b, cuts, 0, 0, Zeros(b.depth) + t)
  {
    hide AfterHeader, Wasted, ToBits, ToNat, Pow2;
    var rest := Zeros(ROUND - 1) + (Zeros(b.depth) + t);
    ByteFits(1);
    FieldInverts(1, 8, rest);
    assert Round(b.depth) + t == ToBits(1, 8) + rest;
    CountZeros(b, cuts, 0, 1, ROUND - 1, Zeros(b.depth) + t);
  }

  lemma {:induction false} TooManyWasted(b: Block, kind: nat, wasted: nat, s: seq<Bit>)
    requires b.depth <= wasted && wasted + |s| < ROUND && 0 < wasted
    ensures !Wasted(b, {}, kind, wasted, s).Done?
    decreases |s|
  {
    hide AfterHeader;
    if s != [] {
      FlacSubframe.Refused(Subframe(b, kind, wasted), s[1..]);
      TooManyWasted(b, kind, wasted + 1, s[1..]);
    }
  }

  /** The next call takes the count for over; in one call it goes on. */
  lemma RoundReads(b: Block, cuts: set<nat>, t: seq<Bit>)
    requires b.Ok() && |t| < 64 && forall c | c in cuts :: c <= b.depth + |t|
    ensures b.depth + |t| in cuts ==> ReadSubframe(b, cuts, Round(b.depth) + t) == Done(Silence(b.size), t)
    ensures cuts == {} ==> !ReadSubframe(b, cuts, Round(b.depth) + t).Done?
  {
    hide ReadSubframe, Wasted, AfterHeader;
    RoundStarts(b, cuts, t);
    if b.depth + |t| in cuts {
      CountGoesOn(b, cuts, 0, 0, Zeros(b.depth) + t);
      SilentConstant(b, t);
    } else if cuts == {} {
      CountZeros(b, {}, 0, 0, b.depth, t);
      TooManyWasted(b, 0, b.depth, t);
    }
  }

  function RoundHeader(size: nat): Header {
    Header(size, RIGHT_SIDE, 16)
  }

  function RoundBody(): (bs: seq<Byte>)
    ensures BytesToBits(bs) == Silent(17) + Round(16)
  {
    assert |Silent(17) + Round(16)| == 8 * (ROUND / 8 + 6);
    PackInverts(Silent(17) + Round(16));
    Pack(Silent(17) + Round(16))
  }

  function RoundFrame(size: nat): (bs: seq<Byte>)
    requires 1 <= size <= 0x1_0000
    ensures |bs| >= 4
  {
    var covered := HeaderBytes(RoundHeader(size)) + RoundBody();
    covered + CrcBytes(covered)
  }

  lemma RoundChannels(h: Header, cuts: set<nat>, t: seq<Bit>)
    requires h == RoundHeader(h.blockSize) && |t| == 16 && forall c | c in cuts :: c <= 32
    ensures 32 in cuts ==>
      ChannelsFrom(h, cuts, [], Silent(17) + Round(16) + t) == Done([Silence(h.blockSize), Silence(h.blockSize)], t)
    ensures cuts == {} ==> !ChannelsFrom(h, cuts, [], Silent(17) + Round(16) + t).Done?
  {
    hide ReadSubframe, Silent, Round, Silence;
    var quiet := Silence(h.blockSize);
    assert Silent(17) + Round(16) + t == Silent(17) + (Round(16) + t);
    SilentReads(h.BlockOf(0), cuts, Round(16) + t);
    RoundReads(h.BlockOf(1), cuts, t);
    Twice(h, cuts, quiet, Silent(17) + (Round(16) + t), Round(16) + t, t);
  }

  lemma Twice(h: Header, cuts: set<nat>, quiet: seq<int>, s: seq<Bit>, middle: seq<Bit>, t: seq<Bit>)
    requires h.Channels() == 2 && ReadSubframe(h.BlockOf(0), cuts, s) == Done(quiet, middle)
    ensures ReadSubframe(h.BlockOf(1), cuts, middle) == Done(quiet, t) ==> ChannelsFrom(h, cuts, [], s) == Done([quiet, quiet], t)
    ensures !ReadSubframe(h.BlockOf(1), cuts, middle).Done? ==> !ChannelsFrom(h, cuts, [], s).Done?
  {
    hide ReadSubframe, Header.BlockOf, Header.Channels;
    assert [] + [quiet] == [quiet] && [quiet] + [quiet] == [quiet, quiet];
    OneChannel(h, cuts, [], s);
    OneChannel(h, cuts, [quiet], middle);
    if ReadSubframe(h.BlockOf(1), cuts, middle) == Done(quiet, t) {
      BothChannels(h, cuts, [quiet, quiet], t);
    }
  }

  lemma OneChannel(h: Header, cuts: set<nat>, done: seq<seq<int>>, s: seq<Bit>)
    requires |done| < h.Channels()
    ensures ChannelsFrom(h, cuts, done, s) ==
      match ReadSubframe(h.BlockOf(|done|), cuts, s)
      case Short => Short
      case Bad(e) => Bad(e)
      case Done(v, rest) => ChannelsFrom(h, cuts, done + [v], rest)
  {
    hide ReadSubframe, Header.BlockOf, Header.Channels;
  }

  lemma BothChannels(h: Header, cuts: set<nat>, done: seq<seq<int>>, s: seq<Bit>)
    requires |done| == h.Channels()
    ensures ChannelsFrom(h, cuts, done, s) == Done(done, s)
  {
    hide ReadSubframe, Header.BlockOf, Header.Channels;
  }

  /** The frame that shows it: cut 32 bits before its end it is a frame of zeros with the right checksum, and in one
      piece it is not a frame. */
  lemma RoundFrameShows(info: StreamInfo, crcOn: bool, size: nat)
    requires info.channels == 2 && info.bitsPerSample == 16 && 1 <= size <= 0x1_0000 && size <= info.maxBlockSize
    ensures FrameOf(info, crcOn, RoundFrame(size), {32}).Frame?
    ensures !FrameOf(info, crcOn, RoundFrame(size), {}).Frame?
  {
    RoundFrameIs(info, crcOn, size, {32});
    RoundFrameIs(info, crcOn, size, {});
  }

  lemma RoundFrameIs(info: StreamInfo, crcOn: bool, size: nat, cuts: set<nat>)
    requires info.channels == 2 && info.bitsPerSample == 16 && 1 <= size <= 0x1_0000 && size <= info.maxBlockSize
    requires cuts == {32} || cuts == {}
    ensures FrameOf(info, crcOn, RoundFrame(size), cuts).Frame? <==> 32 in cuts
  {
    hide FrameOf, ParseHeader, HeaderLength, InSync, HeaderBytes, ChannelsFrom, CrcBytes, BytesToBits, AfterChannels, RoundBody, Silent, Round;
    var h, bytes := RoundHeader(size), RoundFrame(size);
    var head := HeaderBytes(h);
    var covered := head + RoundBody();
    HeaderBytesInvert(info, crcOn, h);
    assert head <= bytes;
    WholeHeader(info, crcOn, head, bytes, cuts);
    assert bytes[8..] == RoundBody() + CrcBytes(covered);
    BytesToBitsConcat(RoundBody(), CrcBytes(covered));
    RoundChannels(h, cuts, BytesToBits(CrcBytes(covered)));
    RoundFooter(crcOn, bytes, covered, h);
    NoFrame(crcOn, bytes, h, ChannelsFrom(h, cuts, [], BytesToBits(bytes[8..])));
  }

  lemma NoFrame(crcOn: bool, bytes: seq<Byte>, h: Header, p: Parse<seq<seq<int>>>)
    ensures !p.Done? ==> !AfterChannels(crcOn, bytes, h, p).Frame?
  {
  }

  lemma RoundFooter(crcOn: bool, bytes: seq<Byte>, covered: seq<Byte>, h: Header)
    requires bytes == covered + CrcBytes(covered)
    ensures AfterChannels(crcOn, bytes, h, Done([Silence(h.blockSize), Silence(h.blockSize)], BytesToBits(CrcBytes(covered)))).Frame?
  {
    hide Crc16.Crc, BytesToBits, ToBits, ToNat, Recombined, CrcBytes, Silence;
    var s, quiet := BytesToBits(CrcBytes(covered)), Silence(h.blockSize);
    CrcBits(covered);
    WordSize(Crc16.Crc(0, covered) as nat);
    FieldInverts(Crc16.Crc(0, covered) as nat, 16, []);
    assert s + [] == s && s[0..] == s && bytes[..|bytes| - 2] == covered;
    FooterDecides(crcOn, bytes, Recombined(h, [quiet, quiet]), s, 2, Crc16.Crc(0, covered));
  }
}
