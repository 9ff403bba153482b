/** Where a call may stop: exactly where the bytes so far do not end in a count of wasted bits with a counter of zero. */
module FlacFrameStops {
  import opened Bits
  import opened FlacSpec
  import opened FlacSubframe
  import opened FlacFrameSpec
  import opened FlacResidualCoding
  import opened FlacSubframeCoding
  import opened FlacFrameCoding
  import opened FlacFrameCuts
  import Lpc

  // More bits change nothing in what has been parsed.

  predicate IsTail(r: seq<Bit>, s: seq<Bit>) {
    |r| <= |s| && r == s[|s| - |r|..]
  }

  /** The parse p of some bits, and the parse q of the same bits and more: what is done is done, what is refused is
      refused, and what was short ends behind them. */
  predicate Goes<T(==)>(s: seq<Bit>, t: seq<Bit>, p: Parse<T>, q: Parse<T>) {
    match p
    case Done(v, r) => IsTail(r, s) && q == Done(v, r + t)
    case Bad(e) => q == p
    case Short => q.Done? ==> |q.rest| <= |t|
  }

  /** A field of n bits, and what comes after it */
  lemma AfterField<T>(n: nat, s: seq<Bit>, t: seq<Bit>, p: Parse<T>, q: Parse<T>)
    requires n <= |s| && Goes(s[n..], t, p, q)
    ensures Goes(s, t, p, q)
  {
  }

  lemma FieldSame(n: nat, s: seq<Bit>, t: seq<Bit>)
    requires n <= |s|
    ensures (s + t)[..n] == s[..n] && (s + t)[n..] == s[n..] + t
  {
  }

  /** One parse after the other */
  lemma AfterParse<T, U>(s: seq<Bit>, t: seq<Bit>, p: Parse<T>, q: Parse<T>, a: Parse<U>, b: Parse<U>)
    requires Goes(s, t, p, q) && p.Done? && Goes(p.rest, t, a, b)
    ensures Goes(s, t, a, b)
  {
  }

  lemma {:induction false} UnaryGoes(quotient: nat, param: nat, s: seq<Bit>, t: seq<Bit>)
    ensures Goes(s, t, RiceUnary(quotient, param, s), RiceUnary(quotient, param, s + t))
    decreases |s|
  {
    hide ToNat, BitOr, Low, Shl;
    if s == [] {
      assert s + t == t;
    } else {
      FieldSame(1, s, t);
      if s[0] == 1 {
        if param <= |s| - 1 {
          FieldSame(param, s[1..], t);
        }
      } else {
        UnaryGoes(Count32(quotient, 1), param, s[1..], t);
      }
    }
  }

  /** A field that is cut off */
  lemma FieldShort<T>(n: nat, s: seq<Bit>, t: seq<Bit>, p: Parse<T>, q: Parse<T>)
    requires p.Short? && |s| < n && (q.Done? ==> n <= |s + t| && |q.rest| <= |s + t| - n)
    ensures Goes(s, t, p, q)
  {
  }

  lemma {:induction false} PartitionGoes(c: Coding, i: nat, acc: seq<int>, s: seq<Bit>, t: seq<Bit>)
    ensures Goes(s, t, Partition(c, i, acc, s), Partition(c, i, acc, s + t))
    decreases c.Partitions() - i, 3, 0
  {
    hide ToNat, RiceRun, EscapeWidth, Goes, Pow2, Shr;
    var n := c.paramBits;
    if |s| < n {
      PartitionUses(c, i, acc, s + t);
      FieldShort(n, s, t, Partition(c, i, acc, s), Partition(c, i, acc, s + t));
    } else if c.Count(i) < 0 {
      SameError(s, t, BadRicePartition);
    } else {
      FieldSame(n, s, t);
      var param := ToNat(s[..n]);
      if param < c.Escape() {
        RiceRunGoes(c, i, param, c.Count(i), acc, s[n..], t);
      } else {
        EscapeGoes(c, i, acc, s[n..], t);
      }
      AfterField(n, s, t, Partition(c, i, acc, s), Partition(c, i, acc, s + t));
    }
  }

  lemma SameError(s: seq<Bit>, t: seq<Bit>, e: Error)
    ensures Goes<seq<int>>(s, t, Bad(e), Bad(e))
  {
  }

  /** What comes after a field has at most the bits after it. */
  lemma PartitionUses(c: Coding, i: nat, acc: seq<int>, s: seq<Bit>)
    ensures Partition(c, i, acc, s).Done? ==> c.paramBits <= |s| && |Partition(c, i, acc, s).rest| <= |s| - c.paramBits
  {
    hide ToNat, RiceRun, EscapeWidth, Pow2, Shr;
  }

  lemma {:induction false} EscapeGoes(c: Coding, i: nat, acc: seq<int>, s: seq<Bit>, t: seq<Bit>)
    requires c.Count(i) >= 0
    ensures Goes(s, t, EscapeWidth(c, i, acc, s), EscapeWidth(c, i, acc, s + t))
    decreases c.Partitions() - i, 2, 0
  {
    hide ToNat, RawRun, Goes, Pow2, Shr;
    if |s| < 5 {
      FieldShort(5, s, t, EscapeWidth(c, i, acc, s), EscapeWidth(c, i, acc, s + t));
    } else {
      FieldSame(5, s, t);
      RawRunGoes(c, i, ToNat(s[..5]), c.Count(i), acc, s[5..], t);
      AfterField(5, s, t, EscapeWidth(c, i, acc, s), EscapeWidth(c, i, acc, s + t));
    }
  }

  lemma {:induction false} RiceRunGoes(c: Coding, i: nat, param: nat, left: nat, acc: seq<int>, s: seq<Bit>, t: seq<Bit>)
    ensures Goes(s, t, RiceRun(c, i, param, left, acc, s), RiceRun(c, i, param, left, acc, s + t))
    decreases c.Partitions() - i, 1, left
  {
    hide RiceUnary, NextPartition;
    if left == 0 {
      NextPartitionGoes(c, i, acc, s, t);
    } else {
      UnaryGoes(0, param, s, t);
      var p, q := RiceUnary(0, param, s), RiceUnary(0, param, s + t);
      if p.Done? {
        RiceRunGoes(c, i, param, left - 1, acc + [p.value], p.rest, t);
        AfterParse(s, t, p, q, RiceRun(c, i, param, left, acc, s), RiceRun(c, i, param, left, acc, s + t));
      }
    }
  }

  lemma {:induction false} RawRunGoes(c: Coding, i: nat, width: nat, left: nat, acc: seq<int>, s: seq<Bit>, t: seq<Bit>)
    ensures Goes(s, t, RawRun(c, i, width, left, acc, s), RawRun(c, i, width, left, acc, s + t))
    decreases c.Partitions() - i, 1, left
  {
    hide ToNat, SignExtend, NextPartition, Goes;
    if left == 0 {
      NextPartitionGoes(c, i, acc, s, t);
    } else if |s| < width {
      FieldShort(width, s, t, RawRun(c, i, width, left, acc, s), RawRun(c, i, width, left, acc, s + t));
    } else {
      FieldSame(width, s, t);
      RawRunGoes(c, i, width, left - 1, acc + [if width == 0 then 0 else SignExtend(ToNat(s[..width]), width)], s[width..], t);
      AfterField(width, s, t, RawRun(c, i, width, left, acc, s), RawRun(c, i, width, left, acc, s + t));
    }
  }

  lemma {:induction false} NextPartitionGoes(c: Coding, i: nat, acc: seq<int>, s: seq<Bit>, t: seq<Bit>)
    ensures Goes(s, t, NextPartition(c, i, acc, s), NextPartition(c, i, acc, s + t))
    decreases c.Partitions() - i, 0, 0
  {
    hide Partition, Pow2;
    if i + 1 < c.Partitions() {
      PartitionGoes(c, i + 1, acc, s, t);
    }
  }

  lemma PredictedGoes(f: Subframe, p: Lpc.Predictor, warm: seq<int>, s: seq<Bit>, t: seq<Bit>)
    requires f.Ok()
    ensures Goes(s, t, Predicted(f, p, warm, s), Predicted(f, p, warm, s + t))
  {
    hide Residual, Finished;
    ResidualGoes(f.block.size, warm, s, t);
  }

  lemma ResidualGoes(size: nat, warm: seq<int>, s: seq<Bit>, t: seq<Bit>)
    ensures Goes(s, t, Residual(size, warm, s), Residual(size, warm, s + t))
  {
    hide ToNat, Partition, Pow2, Goes;
    if |s| < 6 {
      FieldShort(6, s, t, Residual(size, warm, s), Residual(size, warm, s + t));
    } else {
      FieldSame(6, s, t);
      var h := ToNat(s[..6]);
      if h / 16 >= 2 {
        SameError(s, t, ReservedResidualMethod);
      } else if size % Pow2(h % 16) != 0 {
        SameError(s, t, NotDivisible);
      } else {
        PartitionGoes(Coding(size, |warm|, if h / 16 == 1 then 5 else 4, h % 16), 0, warm, s[6..], t);
        AfterField(6, s, t, Residual(size, warm, s), Residual(size, warm, s + t));
      }
    }
  }

  lemma {:induction false} WarmupGoes(f: Subframe, acc: seq<int>, s: seq<Bit>, t: seq<Bit>)
    requires f.Ok()
    ensures Goes(s, t, Warmup(f, acc, s), Warmup(f, acc, s + t))
    decreases f.Order() - |acc|
  {
    hide ToNat, SignExtend, Predicted, LpcParams, Goes;
    if |acc| >= f.Order() {
      LpcGoes(f, acc, s, t);
      PredictedGoes(f, Lpc.Predictor(FixedCoefs(f.Order()), 0), acc, s, t);
    } else if |s| < f.Depth() {
      FieldShort(f.Depth(), s, t, Warmup(f, acc, s), Warmup(f, acc, s + t));
    } else {
      FieldSame(f.Depth(), s, t);
      WarmupGoes(f, acc + [SignExtend(ToNat(s[..f.Depth()]), f.Depth())], s[f.Depth()..], t);
      AfterField(f.Depth(), s, t, Warmup(f, acc, s), Warmup(f, acc, s + t));
    }
  }

  lemma LpcGoes(f: Subframe, warm: seq<int>, s: seq<Bit>, t: seq<Bit>)
    requires f.Ok()
    ensures Goes(s, t, LpcParams(f, warm, s), LpcParams(f, warm, s + t))
  {
    hide ToNat, SignExtend, LpcCoefs, Goes;
    if |s| < 9 {
      FieldShort(9, s, t, LpcParams(f, warm, s), LpcParams(f, warm, s + t));
    } else {
      FieldSame(9, s, t);
      var h := ToNat(s[..9]);
      if h / 32 + 1 == 16 || SignExtend(h % 32, 5) < 0 {
        SameError(s, t, BadLpcParams);
      } else {
        CoefsGo(f, warm, h / 32 + 1, SignExtend(h % 32, 5), [], s[9..], t);
        AfterField(9, s, t, LpcParams(f, warm, s), LpcParams(f, warm, s + t));
      }
    }
  }

  lemma {:induction false} CoefsGo(f: Subframe, warm: seq<int>, precision: nat, shift: nat, coefs: seq<int>, s: seq<Bit>, t: seq<Bit>)
    requires f.Ok() && precision > 0
    ensures Goes(s, t, LpcCoefs(f, warm, precision, shift, coefs, s), LpcCoefs(f, warm, precision, shift, coefs, s + t))
    decreases f.Order() - |coefs|
  {
    hide ToNat, SignExtend, Predicted, Goes;
    if |coefs| >= f.Order() {
      PredictedGoes(f, Lpc.Predictor(coefs, shift), warm, s, t);
    } else if |s| < precision {
      FieldShort(precision, s, t, LpcCoefs(f, warm, precision, shift, coefs, s), LpcCoefs(f, warm, precision, shift, coefs, s + t));
    } else {
      FieldSame(precision, s, t);
      CoefsGo(f, warm, precision, shift, [SignExtend(ToNat(s[..precision]), precision)] + coefs, s[precision..], t);
      AfterField(precision, s, t, LpcCoefs(f, warm, precision, shift, coefs, s), LpcCoefs(f, warm, precision, shift, coefs, s + t));
    }
  }

  lemma {:induction false} VerbatimGoes(f: Subframe, acc: seq<int>, s: seq<Bit>, t: seq<Bit>)
    requires f.Ok()
    ensures Goes(s, t, Verbatim(f, acc, s), Verbatim(f, acc, s + t))
    decreases f.block.size - |acc|
  {
    hide ToNat, SignExtend, Subframe.Scaled, Goes;
    if |acc| >= f.block.size {
      NothingMore(acc, s, t);
    } else if |s| < f.Depth() {
      FieldShort(f.Depth(), s, t, Verbatim(f, acc, s), Verbatim(f, acc, s + t));
    } else {
      FieldSame(f.Depth(), s, t);
      VerbatimGoes(f, acc + [f.Scaled(SignExtend(ToNat(s[..f.Depth()]), f.Depth()))], s[f.Depth()..], t);
      AfterField(f.Depth(), s, t, Verbatim(f, acc, s), Verbatim(f, acc, s + t));
    }
  }

  lemma NothingMore<T>(v: T, s: seq<Bit>, t: seq<Bit>)
    ensures Goes(s, t, Done(v, s), Done(v, s + t))
  {
  }

  lemma ConstantGoes(f: Subframe, s: seq<Bit>, t: seq<Bit>)
    requires f.Ok()
    ensures Goes(s, t, Constant(f, s), Constant(f, s + t))
  {
    hide ToNat, SignExtend, Subframe.Scaled;
    if |s| >= f.Depth() {
      FieldSame(f.Depth(), s, t);
    }
  }

  lemma ContentGoes(f: Subframe, s: seq<Bit>, t: seq<Bit>)
    ensures Goes(s, t, AfterHeader(f, s), AfterHeader(f, s + t))
  {
    hide Constant, Verbatim, Warmup;
    if f.Ok() {
      ConstantGoes(f, s, t);
      VerbatimGoes(f, [], s, t);
      WarmupGoes(f, [], s, t);
    }
  }

  lemma {:induction false} WastedGoes(b: Block, kind: nat, wasted: nat, s: seq<Bit>, t: seq<Bit>)
    ensures Goes(s, t, Wasted(b, {}, kind, wasted, s), Wasted(b, {}, kind, wasted, s + t))
    decreases |s|
  {
    hide AfterHeader;
    if s == [] {
      assert s + t == t;
    } else {
      FieldSame(1, s, t);
      if s[0] == 1 {
        ContentGoes(Subframe(b, kind, wasted), s[1..], t);
      } else {
        WastedGoes(b, kind, Count32(wasted, 1), s[1..], t);
      }
    }
  }

  /** A subframe that is whole, or refused, stays so whatever follows. */
  lemma SubframeGoes(b: Block, s: seq<Bit>, t: seq<Bit>)
    ensures Goes(s, t, ReadSubframe(b, {}, s), ReadSubframe(b, {}, s + t))
  {
    hide ToNat, AfterHeader, Wasted, Goes;
    if |s| < 8 {
      FieldShort(8, s, t, ReadSubframe(b, {}, s), ReadSubframe(b, {}, s + t));
    } else {
      FieldSame(8, s, t);
      var h := ToNat(s[..8]);
      WastedGoes(b, h / 2 % 64, 1, s[8..], t);
      ContentGoes(Subframe(b, h / 2 % 64, 0), s[8..], t);
      AfterField(8, s, t, ReadSubframe(b, {}, s), ReadSubframe(b, {}, s + t));
    }
  }

  // A stop at the end of the bytes so far: what follows does not decide where it is.

  /** The cut after these bits, when t follows them, and when nothing does */
  lemma {:induction false} CountStops(wasted: nat, s: seq<Bit>, t: seq<Bit>)
    ensures CountSlips({|t|}, wasted, s + t) <==> CountSlips({0}, wasted, s)
    decreases |s|
  {
    hide CountSlips;
    CountStep({|t|}, wasted, s + t);
    CountStep({0}, wasted, s);
    if s != [] {
      FieldSame(1, s, t);
      CountStops(Count32(wasted, 1), s[1..], t);
    } else {
      assert s + t == t;
      if t != [] {
        NoneLeft({|t|}, Count32(wasted, 1), t[1..]);
      }
    }
  }

  lemma SubframeStops(s: seq<Bit>, t: seq<Bit>)
    ensures SubframeSlips({|t|}, s + t) <==> SubframeSlips({0}, s)
  {
    hide CountSlips, ToNat;
    if |s| >= 8 {
      FieldSame(8, s, t);
      CountStops(1, s[8..], t);
    } else if |s + t| >= 8 {
      NoneLeft({|t|}, 1, (s + t)[8..]);
    }
  }

  lemma {:induction false} ChannelsStop(h: Header, done: seq<seq<int>>, s: seq<Bit>, t: seq<Bit>)
    ensures ChannelsSlip(h, {|t|}, done, s + t) <==> ChannelsSlip(h, {0}, done, s)
    decreases h.Channels() - |done|
  {
    hide ReadSubframe, SubframeSlips;
    if |done| < h.Channels() {
      SubframeStops(s, t);
      SubframeGoes(h.BlockOf(|done|), s, t);
      var p, q := ReadSubframe(h.BlockOf(|done|), {}, s), ReadSubframe(h.BlockOf(|done|), {}, s + t);
      match p
      case Done(v, rest) => ChannelsStop(h, done + [v], rest, t);
      case Bad(_) =>
      case Short =>
        if q.Done? {
          ChannelsLate(h, {|t|}, done + [q.value], q.rest);
        }
    }
  }

  /** Nor does what follows decide whether the stop is a place where a call may not end. */
  lemma SlipsStop(info: StreamInfo, crcOn: bool, pre: seq<Byte>, more: seq<Byte>)
    ensures Slips(info, crcOn, pre + more, {8 * |more|}) <==> Slips(info, crcOn, pre, {0})
  {
    hide ParseHeader, HeaderLength, InSync, ChannelsSlip, BytesToBits;
    var all := pre + more;
    if |pre| >= 5 && HeaderLength(pre) <= |pre| {
      SameStart(pre, more);
      var n := HeaderLength(pre);
      if n != 0 {
        HeaderLengthPrefix(pre, n);
        assert all[..n] == pre[..n] && all[n..] == pre[n..] + more;
        BytesToBitsConcat(pre[n..], more);
        var r := ParseHeader(info, crcOn, pre[..n]);
        if r.Ok? {
          ChannelsStop(r.value, [], BytesToBits(pre[n..]), BytesToBits(more));
        }
      }
    } else if |all| >= 5 && HeaderLength(all) != 0 && HeaderLength(all) <= |all| {
      var n := HeaderLength(all);
      if |pre| >= 5 {
        SameStart(pre, more);
      }
      HeaderLengthPrefix(all, n);
      var r := ParseHeader(info, crcOn, all[..n]);
      if r.Ok? {
        ChannelsLate(r.value, {8 * |more|}, [], BytesToBits(all[n..]));
      }
    }
  }

  lemma SameStart(pre: seq<Byte>, more: seq<Byte>)
    requires |pre| >= 5
    ensures InSync(pre + more) == InSync(pre) && HeaderLength(pre + more) == HeaderLength(pre)
  {
  }

  // Bits that tell the two readings apart.

  /** At most one bit is set. */
  predicate OneSet(s: seq<Bit>) {
    forall i, j | 0 <= i < j < |s| :: s[i] == 0 || s[j] == 0
  }

  lemma TailOneSet(r: seq<Bit>, s: seq<Bit>)
    requires IsTail(r, s) && OneSet(s)
    ensures OneSet(r)
  {
    forall i, j | 0 <= i < j < |r|
      ensures r[i] == 0 || r[j] == 0
    {
      assert r[i] == s[|s| - |r| + i] && r[j] == s[|s| - |r| + j];
    }
  }

  lemma {:induction false} ZerosShort(b: Block, kind: nat, wasted: nat, s: seq<Bit>)
    requires forall i | 0 <= i < |s| :: s[i] == 0
    ensures Wasted(b, {}, kind, wasted, s) == Short
    decreases |s|
  {
    hide AfterHeader;
    if s != [] {
      ZerosShort(b, kind, Count32(wasted, 1), s[1..]);
    }
  }

  /** With one bit set there is no count of wasted bits that ends, so no depth is refused. */
  lemma QuietSubframe(b: Block, s: seq<Bit>)
    requires b.Ok() && OneSet(s)
    ensures OtherError(ReadSubframe(b, {}, s))
  {
    hide AfterHeader, Wasted;
    if |s| >= 8 {
      var h := ToNat(s[..8]);
      assert s[..8][7] == s[7] && h % 2 == s[7] as nat;
      if h % 2 == 1 {
        ZerosShort(b, h / 2 % 64, 1, s[8..]);
      } else {
        ContentErrors(Subframe(b, h / 2 % 64, 0), s[8..]);
      }
    }
  }

  lemma {:induction false} QuietChannels(h: Header, done: seq<seq<int>>, s: seq<Bit>)
    requires OneSet(s) && forall ch :: h.BlockOf(ch).Ok()
    ensures OtherError(ChannelsFrom(h, {}, done, s))
    decreases h.Channels() - |done|
  {
    hide ReadSubframe, OneSet, Header.BlockOf;
    if |done| < h.Channels() {
      QuietSubframe(h.BlockOf(|done|), s);
      SubframeGoes(h.BlockOf(|done|), s, []);
      match ReadSubframe(h.BlockOf(|done|), {}, s)
      case Done(v, rest) =>
        TailOneSet(rest, s);
        QuietChannels(h, done + [v], rest);
      case _ =>
    }
  }

  /** As many zeros as there are bits in a sample, a one, and zeros up to a byte */
  function Telling(depth: nat): (t: seq<Bit>)
    ensures |t| % 8 == 0 && t != []
  {
    Zeros(depth) + [1] + Zeros(7 - depth % 8)
  }

  lemma TellingOneSet(depth: nat)
    ensures OneSet(Telling(depth))
  {
  }

  /** Counted on, they leave no bits for the samples; behind a count that is over, they are not refused for that. */
  lemma CountTells(b: Block, kind: nat)
    requires b.Ok()
    ensures var t := Telling(b.depth);
      Wasted(b, {}, kind, 0, t) == Bad(BadSampleDepth) && Wasted(b, {|t|}, kind, 0, t) == AfterHeader(Subframe(b, kind, 0), t)
  {
    hide AfterHeader, Wasted, Zeros;
    var t := Telling(b.depth);
    var stop: seq<Bit> := [1] + Zeros(7 - b.depth % 8);
    assert t == Zeros(b.depth) + stop;
    CountZeros(b, {}, kind, 0, b.depth, stop);
    CountEnds(b, {}, kind, b.depth, stop);
    FlacSubframe.Refused(Subframe(b, kind, b.depth), stop[1..]);
    CountGoesOn(b, {|t|}, kind, 0, t);
  }

  /** The count comes to the stop with a counter of zero. */
  lemma {:induction false} CountReaches(b: Block, kind: nat, wasted: nat, s: seq<Bit>, t: seq<Bit>)
    requires CountSlips({0}, wasted, s)
    ensures Wasted(b, {|t|}, kind, wasted, s + t) == Wasted(b, {|t|}, kind, 0, t)
    ensures Wasted(b, {}, kind, wasted, s + t) == Wasted(b, {}, kind, 0, t)
    decreases |s|
  {
    hide AfterHeader;
    if s == [] {
      assert s + t == t;
    } else {
      FieldSame(1, s, t);
      CountReaches(b, kind, Count32(wasted, 1), s[1..], t);
    }
  }

  lemma SubframeTells(b: Block, s: seq<Bit>) returns (kind: nat)
    requires b.Ok() && SubframeSlips({0}, s)
    ensures var t := Telling(b.depth);
      ReadSubframe(b, {}, s + t) == Bad(BadSampleDepth) && ReadSubframe(b, {|t|}, s + t) == AfterHeader(Subframe(b, kind, 0), t)
  {
    hide AfterHeader, Wasted, CountSlips, ToNat, Telling;
    var t := Telling(b.depth);
    FieldSame(8, s, t);
    kind := ToNat(s[..8]) / 2 % 64;
    CountReaches(b, kind, 1, s[8..], t);
    CountTells(b, kind);
  }

  lemma ChannelTells(h: Header, done: seq<seq<int>>, s: seq<Bit>)
    requires |done| < h.Channels() && SubframeSlips({0}, s) && forall ch :: h.BlockOf(ch).Ok()
    ensures var t := Telling(h.BlockOf(|done|).depth);
      ChannelsFrom(h, {}, done, s + t) == Bad(BadSampleDepth) && OtherError(ChannelsFrom(h, {|t|}, done, s + t))
  {
    hide ReadSubframe, AfterHeader, SubframeSlips, ToNat, Telling, OneSet, Header.BlockOf;
    var b := h.BlockOf(|done|);
    var t := Telling(b.depth);
    var kind := SubframeTells(b, s);
    ContentErrors(Subframe(b, kind, 0), t);
    match AfterHeader(Subframe(b, kind, 0), t)
    case Done(v, rest) =>
      ContentGoes(Subframe(b, kind, 0), t, []);
      TellingOneSet(b.depth);
      TailOneSet(rest, t);
      ChannelsLate(h, {|t|}, done + [v], rest);
      ChannelsIgnoreCuts(h, {|t|}, done + [v], rest);
      QuietChannels(h, done + [v], rest);
    case _ =>
  }

  lemma {:induction false} ChannelsTell(h: Header, done: seq<seq<int>>, s: seq<Bit>) returns (t: seq<Bit>)
    requires ChannelsSlip(h, {0}, done, s) && forall ch :: h.BlockOf(ch).Ok()
    ensures |t| % 8 == 0 && ChannelsFrom(h, {}, done, s + t) == Bad(BadSampleDepth) && OtherError(ChannelsFrom(h, {|t|}, done, s + t))
    decreases h.Channels() - |done|
  {
    hide ReadSubframe, SubframeSlips, Telling, Header.BlockOf;
    var b := h.BlockOf(|done|);
    if SubframeSlips({0}, s) {
      t := Telling(b.depth);
      ChannelTells(h, done, s);
    } else {
      var p := ReadSubframe(b, {}, s);
      t := ChannelsTell(h, done + [p.value], p.rest);
      SubframeGoes(b, s, t);
      SubframeStops(s, t);
      SubframeIgnoresCuts(b, {|t|}, s + t);
    }
  }

  lemma BlocksOk(info: StreamInfo, h: Header)
    requires info.Ok() && h.Ok(info)
    ensures forall ch :: h.BlockOf(ch).Ok()
  {
  }

  /** A continuation that tells the two apart */
  lemma Tells(info: StreamInfo, crcOn: bool, pre: seq<Byte>) returns (more: seq<Byte>)
    requires info.Ok() && Slips(info, crcOn, pre, {0})
    ensures FrameOf(info, crcOn, pre + more, {8 * |more|}) != FrameOf(info, crcOn, pre + more, {})
  {
    hide ParseHeader, HeaderLength, InSync, ChannelsSlip, BytesToBits, ChannelsFrom, AfterChannels, FrameOf;
    var n := HeaderLength(pre);
    HeaderLengthPrefix(pre, n);
    var h := ParseHeader(info, crcOn, pre[..n]).value;
    BlocksOk(info, h);
    var t := ChannelsTell(h, [], BytesToBits(pre[n..]));
    more := Pack(t);
    PackInverts(t);
    var all := pre + more;
    SameStart(pre, more);
    assert pre == pre[..n] + pre[n..];
    SameStart(pre[..n], pre[n..]);
    assert all[n..] == pre[n..] + more && pre[..n] <= all;
    BytesToBitsConcat(pre[n..], more);
    WholeHeader(info, crcOn, pre[..n], all, {8 * |more|});
    WholeHeader(info, crcOn, pre[..n], all, {});
    Apart(crcOn, all, h, ChannelsFrom(h, {|t|}, [], BytesToBits(all[n..])));
  }

  /** A frame is refused for a depth only if its channels are. */
  lemma Apart(crcOn: bool, bytes: seq<Byte>, h: Header, p: Parse<seq<seq<int>>>)
    requires OtherError(p)
    ensures AfterChannels(crcOn, bytes, h, p) != AfterChannels(crcOn, bytes, h, Bad(BadSampleDepth))
  {
  }

  /** A decoder that stops behind these bytes and goes on in another call makes of everything that can follow what one
      call would make of it, exactly if the bytes do not end in a count of wasted bits with a counter of zero. */
  lemma StopShows(info: StreamInfo, crcOn: bool, pre: seq<Byte>)
    requires info.Ok()
    ensures (forall more: seq<Byte> :: FrameOf(info, crcOn, pre + more, {8 * |more|}) == FrameOf(info, crcOn, pre + more, {}))
      <==> !Slips(info, crcOn, pre, {0})
  {
    hide FrameOf, Slips;
    if Slips(info, crcOn, pre, {0}) {
      var more := Tells(info, crcOn, pre);
    } else {
      forall more: seq<Byte>
        ensures FrameOf(info, crcOn, pre + more, {8 * |more|}) == FrameOf(info, crcOn, pre + more, {})
      {
        SlipsStop(info, crcOn, pre, more);
        CutsDoNotShow(info, crcOn, pre + more, {8 * |more|});
      }
    }
  }
}
