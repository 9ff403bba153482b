/** The frame header code of the FLAC decoder. */
module FlacFrameHeader {
  import opened Bits
  import opened FlacSpec
  import opened FlacFrameSpec
  import Crc8

  /** The ones at the top of a byte, up to this many. */
  function LeadingOnes(mask: Byte, width: nat): nat
    decreases width
  {
    if width == 0 || mask & 0x80 == 0 then 0 else 1 + LeadingOnes(mask << 1, width - 1)
  }

  lemma LeadingOnesOf(first: Byte)
    requires first >= 0xC0
    ensures (if LeadingOnes(first, 8) > 7 then 7 else LeadingOnes(first, 8)) == CodedLength(first)
  {
    var m2 := first << 1 << 1;
    var m4 := m2 << 1 << 1;
    var m6 := m4 << 1 << 1;
    assert LeadingOnes(first, 8) == 2 + LeadingOnes(m2, 6);
    assert LeadingOnes(m2, 6) == if first < 0xE0 then 0 else if first < 0xF0 then 1 else 2 + LeadingOnes(m4, 4);
    assert LeadingOnes(m4, 4) == if m4 < 0x80 then 0 else if m4 < 0xC0 then 1 else 2 + LeadingOnes(m6, 2);
    assert first >= 0xF0 ==> (m4 < 0x80 <==> first < 0xF8) && (m4 < 0xC0 <==> first < 0xFC);
    assert first >= 0xFC ==> (m6 < 0x80 <==> first < 0xFE);
  }

  /** The low k bits of a mask are zero. */
  predicate LowZeros(mask: Byte, k: nat) {
    match k
    case 0 => true
    case 1 => mask & 0x01 == 0
    case 2 => mask & 0x03 == 0
    case 3 => mask & 0x07 == 0
    case 4 => mask & 0x0F == 0
    case 5 => mask & 0x1F == 0
    case 6 => mask & 0x3F == 0
    case 7 => mask & 0x7F == 0
    case _ => mask == 0
  }

  lemma ShiftedMask(mask: Byte, k: nat)
    requires k <= 8 && LowZeros(mask, k) && mask & 0x80 != 0
    ensures k < 8 && LowZeros(mask << 1, k + 1)
  {
  }

  /** compute_frame_header_length */
  method ComputeHeaderLength(h: seq<Byte>) returns (n: nat)
    requires 5 <= |h|
    ensures n == HeaderLength(h)
  {
    var first := h[4];
    var coded := 1;
    if 0x80 <= first < 0xC0 {
      return 0;
    }
    if first >= 0xC0 {
      var mask := first;
      coded := 0;
      assert LowZeros(mask, 0);
      hide LowZeros, CodedLength, BlockSizeCode, SampleRateCode;
      while mask & 0x80 != 0
        invariant coded <= 8 && coded + LeadingOnes(mask, 8 - coded) == LeadingOnes(first, 8)
        invariant LowZeros(mask, coded)
        decreases 8 - coded
      {
        ShiftedMask(mask, coded);
        coded := coded + 1;
        mask := mask << 1;
      }
      LeadingOnesOf(first);
      if coded > 7 {
        coded := 7;
      }
    }
    n := 4 + coded + BlockSizeExtra(BlockSizeCode(h)) + SampleRateExtra(SampleRateCode(h)) + 1;
  }

  /** The block size, and the index of what follows it in the extra fields. */
  method ReadBlockSize(h: seq<Byte>) returns (size: nat, extra: nat)
    requires |h| >= 6 && |h| == HeaderLength(h)
    ensures size == BlockSizeOf(h)
    ensures extra == |h| - 1 - SampleRateExtra(SampleRateCode(h))
  {
    hide BlockSizeTable, Word, CodedLength;
    var code := BlockSizeCode(h);
    size := BlockSizeTable(code);
    extra := |h| - 1 - SampleRateExtra(SampleRateCode(h)) - BlockSizeExtra(code);
    if code == 6 {
      size := h[extra] as nat + 1;
      extra := extra + 1;
    } else if code == 7 {
      size := Word(h, extra);
      size := size + 1;
      extra := extra + 2;
    }
  }

  /** The sample rate, whose extra field is at this index. */
  method ReadSampleRate(info: StreamInfo, h: seq<Byte>, extra: nat) returns (r: Checked<nat>)
    requires |h| >= 6 && |h| == HeaderLength(h)
    requires extra == |h| - 1 - SampleRateExtra(SampleRateCode(h))
    ensures r == if SampleRateCode(h) == 15 then Err(BadSampleRate) else Ok(SampleRateOf(info, h))
  {
    hide SampleRateTable, Word, CodedLength, BlockSizeExtra;
    var code := SampleRateCode(h);
    hide SampleRateCode, HeaderLength;
    if 1 <= code <= 11 {
      r := Ok(SampleRateTable(code));
    } else if code == 0 {
      r := Ok(info.sampleRate);
    } else if code == 12 {
      r := Ok(h[extra] as nat * 1000);
    } else if code == 13 {
      r := Ok(Word(h, extra));
    } else if code == 14 {
      r := Ok(Word(h, extra) * 10);
    } else {
      r := Err(BadSampleRate);
    }
  }

  /** parse_frame_header */
  method ParseFrameHeader(info: StreamInfo, crcOn: bool, h: seq<Byte>) returns (r: Checked<Header>)
    requires |h| >= 6 && |h| == HeaderLength(h)
    ensures r == ParseHeader(info, crcOn, h)
  {
    hide BlockSizeOf, SampleRateOf, BlockSizeExtra, SampleRateExtra, DepthTable, HeaderLength, Crc8.Crc;
    if h[1] as nat / 2 % 2 == 1 {
      return Err(BadHeader);
    }
    if h[2] as nat == 0xFF {
      return Err(SyncNotFound);
    }
    if BlockSizeCode(h) == 0 {
      return Err(BadBlockSize);
    }
    if h[3] as nat == 0xFF {
      return Err(SyncNotFound);
    }
    var assignment := h[3] as nat / 16;
    var depthCode := h[3] as nat / 2 % 8;
    var depth := info.bitsPerSample;
    if depthCode != 0 {
      depth := DepthTable(depthCode);
      if depth == 0 {
        return Err(BadSampleDepth);
      }
    }
    var size, extra := ReadBlockSize(h);
    var rate := ReadSampleRate(info, h, extra);
    if rate.Err? {
      return Err(rate.error);
    }
    hide BlockSizeCode, SampleRateCode;
    if crcOn {
      var crc := Crc8.Calculate(h[..|h| - 1]);
      if crc != h[|h| - 1] {
        return Err(CrcMismatch);
      }
    }
    if assignment > MID_SIDE {
      return Err(ReservedChannelAssignment);
    }
    var channels := if assignment <= 7 then assignment + 1 else 2;
    if channels != info.channels {
      return Err(FrameMismatch);
    }
    if depthCode != 0 && depth != info.bitsPerSample {
      return Err(FrameMismatch);
    }
    if rate.value != info.sampleRate {
      return Err(FrameMismatch);
    }
    return Ok(Header(size, assignment, depth));
  }
}
