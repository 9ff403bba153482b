/** The bit reader of the FLAC decoder, over a 32-bit or a 64-bit buffer register. */
module FlacBitReader {
  import opened Bits
  import opened Machine
  import opened FlacSpec

  /** What an interrupted Rice code has read: its zeros so far, and whether its quotient is complete. */
  datatype RiceState = RiceState(unaryCount: Uint32, binaryPending: bool)

  /** What the bits give for a Rice code that was interrupted in this state. */
  function RiceRest(rice: RiceState, param: nat, s: seq<Bit>): (r: Parse<int>)
    ensures r.Done? ==> |r.rest| <= |s|
  {
    if rice.binaryPending then RiceBinary(rice.unaryCount, param, s) else RiceUnary(rice.unaryCount, param, s)
  }

  class BitReader {
    const width: nat
    // The caller's current input and the position in it.
    var buffer: seq<Byte>
    var index: nat
    var left: nat
    // The buffer register; its low `held` bits have not been read yet.
    var bits: nat
    var held: nat
    var outOfData: bool
    var rice: RiceState
    // The input that the calls after this one will bring.
    ghost var later: seq<Byte>
    // Where calls end: the number of bits that come after.
    ghost var cuts: set<nat>

    ghost predicate Valid()
      reads this
    {
      && (width == 32 || width == 64)
      && index + left == |buffer|
      && bits < Pow2(width)
      && held <= width
    }

    /** The bits that can be read now, in order. */
    ghost function InHand(): (s: seq<Bit>)
      requires Valid()
      reads this
      ensures |s| == held + 8 * left
    {
      ToBits(bits, held) + BytesToBits(buffer[index..])
    }

    /** Every bit still to be read, by this call and the later ones. */
    ghost function Stream(): (s: seq<Bit>)
      requires Valid()
      reads this
    {
      InHand() + BytesToBits(later)
    }

    /** No bit held comes from the input of an earlier call. */
    ghost predicate Local()
      reads this
    {
      held <= 8 * index
    }

    /** No call ends inside the current input. */
    ghost predicate Uncut()
      reads this
    {
      forall c | c in cuts :: c <= 8 * |later| || c >= 8 * (|buffer| + |later|)
    }

    constructor (width: nat, later: seq<Byte>)
      requires width == 32 || width == 64
      ensures Valid() && this.width == width && this.later == later
      ensures held == 0 && buffer == [] && !outOfData
    {
      this.width := width;
      buffer, index, left := [], 0, 0;
      bits, held, outOfData := 0, 0, false;
      rice := RiceState(0, false);
      this.later, cuts := later, {};
    }

    /** Says where the calls that bring the coming bits will end. */
    ghost method Divide(ends: set<nat>)
      requires Valid()
      modifies this`cuts
      ensures Valid() && cuts == ends
    {
      cuts := ends;
    }

    /** Says anew what the later calls will bring. */
    ghost method Foretell(bytes: seq<Byte>)
      requires Valid()
      modifies this`later
      ensures Valid() && later == bytes
    {
      later := bytes;
    }

    /** Takes the next input, which must be what `later` foretold, keeping or dropping the held bits. */
    method SetBuffer(input: seq<Byte>, resetBits: bool)
      requires Valid() && (left == 0 || resetBits)
      requires input <= later
      modifies this`buffer, this`index, this`left, this`bits, this`held, this`outOfData, this`later
      ensures Valid() && !outOfData
      ensures buffer == input && index == 0 && left == |input|
      ensures later == old(later)[|input|..]
      ensures resetBits ==> held == 0 && Stream() == BytesToBits(old(later))
      ensures !resetBits ==> held == old(held) && bits == old(bits) && Stream() == old(Stream())
    {
      hide ToBits, BytesToBits, Pow2;
      buffer := input;
      index := 0;
      left := |input|;
      outOfData := false;
      if resetBits {
        bits := 0;
        held := 0;
      }
      later := later[|input|..];
      BytesToBitsSplit(old(later), |input|);
      assert old(later)[..|input|] == input;
      assert buffer[index..] == input;
      if !resetBits {
        assert old(buffer[index..]) == [];
      }
    }

    /** Loads as many whole bytes as fit; true when there is no byte left. Old bits are overwritten. */
    method Refill() returns (empty: bool)
      requires Valid()
      modifies this`bits, this`held, this`index, this`left
      ensures Valid()
      ensures empty <==> old(left) == 0
      ensures empty ==> unchanged(this)
      ensures !empty ==> var k := if old(left) * 8 < width then old(left) else width / 8;
        && held == 8 * k && index == old(index) + k && left == old(left) - k
        && bits < Pow2(8 * k)
      ensures !empty ==> InHand() == BytesToBits(buffer[old(index)..])
      ensures old(held) == 0 ==> InHand() == old(InHand()) && Stream() == old(Stream())
    {
      hide ToBits, BytesToBits, Pow2, BigEndian;
      if left == 0 {
        return true;
      }
      assert old(held) == 0 ==> ToBits(bits, held) == [];
      var k := if left >= width / 8 then width / 8 else left;
      var loaded := buffer[index..index + k];
      bits := BigEndian(loaded);
      index := index + k;
      held := 8 * k;
      left := left - k;
      empty := false;
      BigEndianBound(loaded);
      Pow2Mono(8 * k, width);
      BigEndianBits(loaded);
      BytesToBitsSplit(buffer[old(index)..], k);
      assert buffer[old(index)..][..k] == loaded;
      assert buffer[old(index)..][k..] == buffer[index..];
    }

    /** Reads n bits; when fewer are in hand it consumes nothing and raises outOfData. */
    method ReadUint(n: nat) returns (v: nat)
      requires Valid() && !outOfData && n <= 32
      modifies this`bits, this`held, this`index, this`left, this`outOfData
      ensures Valid()
      ensures outOfData <==> |old(InHand())| < n
      ensures outOfData ==> v == 0 && held == old(held) && bits == old(bits) && index == old(index) && left == old(left)
      ensures !outOfData ==> v == ToNat(old(InHand())[..n])
      ensures !outOfData ==> InHand() == old(InHand())[n..]
      ensures !outOfData && (old(Local()) || old(held) < n) ==> Local()
      ensures !outOfData ==> n <= |old(Stream())| && v == ToNat(old(Stream())[..n]) && Stream() == old(Stream())[n..]
      ensures outOfData ==> Stream() == old(Stream())
    {
      hide ToBits, BytesToBits, ToNat, Pow2, Shl, Shr, Low, BitOr;
      ghost var before, hand, ahead := bits, InHand(), BytesToBits(buffer[index..]);
      var result := 0;
      if n > held {
        var needed := n - held;
        if left < (needed + 7) / 8 {
          outOfData := true;
          return 0;
        }
        if needed < width {
          result := Low(Low(Shl(bits, needed), width), 32);
        }
        var _ := Refill();
        held := held - needed;
        result := BitOr(result, Low(Shr(bits, held % width), 32));
        v := Low(result, n);
        JoinedRead(before, old(held), bits, held, needed, width);
        ReadJoins(ToBits(before, old(held)), ahead, ToBits(bits, held + needed), BytesToBits(buffer[index..]), needed);
      } else {
        held := held - n;
        result := BitOr(result, Low(Shr(bits, held % width), 32));
        v := Low(result, n);
        HeldRead(bits, held, n, width);
        TakeOfConcat(ToBits(bits, held + n), ahead, n);
      }
      TakeOfConcat(hand, BytesToBits(later), n);
    }

    /** Reads a signed number; 33 bits take two reads, after a check that both will succeed. */
    method ReadSint(n: nat) returns (v: int)
      requires Valid() && !outOfData && 0 < n <= 33
      modifies this`bits, this`held, this`index, this`left, this`outOfData
      ensures Valid()
      ensures outOfData <==> |old(InHand())| < n
      ensures outOfData ==> held == old(held) && bits == old(bits) && index == old(index) && left == old(left)
      ensures !outOfData && (old(Local()) || old(held) < n) ==> Local()
      ensures !outOfData ==> n <= |old(Stream())| && v == SignExtend(ToNat(old(Stream())[..n]), n) && Stream() == old(Stream())[n..]
      ensures outOfData ==> Stream() == old(Stream())
      ensures !outOfData ==> InHand() == old(InHand())[n..]
    {
      hide ToBits, BytesToBits, ToNat, Pow2, Shl, BitOr, BitXor, Wrap32;
      ghost var stream := Stream();
      if n < 32 {
        var next := ReadUint(n);
        var sign := Pow2(n - 1);
        v := Wrap32(BitXor(next, sign) - sign);
        if !outOfData {
          SignTrick(next, n);
        }
      } else if n == 32 {
        var next := ReadUint(32);
        v := Wrap32(next);
        if !outOfData {
          SignOf32(next);
        }
      } else {
        if held + 8 * left < n {
          outOfData := true;
          return 0;
        }
        var upper := ReadUint(n - 32);
        var lower := ReadUint(32);
        var value := BitOr(Shl(upper, 32), lower);
        v := if value >= Pow2(n - 1) then value - Pow2(n) else value;
        assert stream[1..][32..] == stream[33..];
        assert stream[..33] == stream[..1] + stream[1..][..32];
        ToNatConcat(stream[..1], stream[1..][..32]);
      }
    }

    /** Starts a Rice code, or finishes the one that was interrupted: the zeros counted and the
        position in the code survive the interruption in `rice`. */
    method ReadRice(resuming: bool, param: nat) returns (v: int)
      requires Valid() && !outOfData && param < 32
      requires Local() || (resuming && rice.binaryPending && held < param)
      modifies this`bits, this`held, this`index, this`left, this`outOfData, this`rice
      ensures Valid()
      ensures !outOfData ==> old(RiceRest(if resuming then rice else RiceState(0, false), param, Stream())) == Done(v, Stream())
      ensures !outOfData ==> Local()
      ensures outOfData ==> RiceRest(rice, param, Stream()) == old(RiceRest(if resuming then rice else RiceState(0, false), param, Stream()))
      ensures outOfData ==> RiceRest(rice, param, InHand()) == Short
      ensures outOfData ==> |InHand()| < (if rice.binaryPending then param else 1)
    {
      hide RiceUnary, RiceBinary;
      var unary := if resuming then rice.unaryCount else 0;
      if !resuming || !rice.binaryPending {
        unary := CountZeros(unary, param);
        if outOfData {
          rice := RiceState(unary, false);
          return 0;
        }
      }
      v := FinishRice(unary, param);
    }

    /** The unary phase: register by register, counting zeros up to the first one bit. */
    method CountZeros(start: Uint32, ghost param: nat) returns (unary: Uint32)
      requires Valid() && !outOfData && Local()
      modifies this`bits, this`held, this`index, this`left, this`outOfData
      ensures Valid() && Local()
      ensures outOfData ==> InHand() == [] && RiceUnary(unary, param, InHand()) == Short
      ensures outOfData ==> RiceUnary(unary, param, Stream()) == old(RiceUnary(start, param, Stream()))
      ensures !outOfData ==> RiceBinary(unary, param, Stream()) == old(RiceUnary(start, param, Stream()))
    {
      hide ToBits, BytesToBits, ToNat, Pow2, Shl, Low, Clz, RiceUnary, RiceBinary, Count32;
      unary := start;
      ghost var goal := RiceUnary(start, param, Stream());
      while true
        invariant Valid() && !outOfData && Local()
        invariant RiceUnary(unary, param, Stream()) == goal
        decreases held + 8 * left
      {
        if held == 0 {
          var empty := Refill();
          if empty {
            outOfData := true;
            RiceNothing(unary, param, InHand());
            return;
          }
        }
        var found: bool;
        unary, found := ScanRegister(unary, param);
        if found {
          return;
        }
      }
    }

    /** Counts zeros in the held bits, up to and with the first one bit if there is one. */
    method ScanRegister(start: Uint32, ghost param: nat) returns (unary: Uint32, found: bool)
      requires Valid() && held > 0
      modifies this`held
      ensures Valid() && held < old(held)
      ensures found ==> RiceBinary(unary, param, Stream()) == old(RiceUnary(start, param, Stream()))
      ensures !found ==> RiceUnary(unary, param, Stream()) == old(RiceUnary(start, param, Stream()))
    {
      hide ToBits, BytesToBits, Pow2, Shl, Low, Clz, RiceUnary, RiceBinary, Count32;
      ghost var ahead := BytesToBits(buffer[index..]) + BytesToBits(later);
      assert Stream() == ToBits(bits, held) + ahead;
      var shifted := Low(Shl(bits, width - held), width);
      ScanStep(start, param, bits, held, width, ahead);
      if shifted == 0 {
        unary := Count32(start, held);
        held := 0;
        found := false;
        assert ToBits(bits, 0) + ahead == ahead;
      } else {
        var zeros := Clz(shifted, width);
        unary := Count32(start, zeros);
        held := held - (zeros + 1);
        found := true;
      }
      assert Stream() == ToBits(bits, held) + ahead;
    }

    /** The binary part, read_rice_sint from its second comment on. */
    method FinishRice(unary: Uint32, param: nat) returns (v: int)
      requires Valid() && !outOfData && param < 32
      requires Local() || held < param
      modifies this`bits, this`held, this`index, this`left, this`outOfData, this`rice
      ensures Valid()
      ensures !outOfData ==> old(RiceBinary(unary, param, Stream())) == Done(v, Stream())
      ensures !outOfData ==> Local() && rice == old(rice)
      ensures outOfData ==> rice == RiceState(unary, true) && Stream() == old(Stream())
      ensures outOfData ==> |InHand()| < param && RiceBinary(unary, param, InHand()) == Short
    {
      hide ToBits, BytesToBits, ToNat, Pow2, Shl, BitOr, Low, BitXor;
      var binary := ReadUint(param);
      if outOfData {
        rice := RiceState(unary, true);
        return 0;
      }
      var value := BitOr(Low(Shl(unary, param), 32), binary);
      RiceValueFits(unary, param, binary);
      v := Wrap32(BitXor(value / 2, if value % 2 == 1 then 0xFFFF_FFFF else 0));
      ZigZagTrick(value);
    }

    /** Moves the unread bytes into the register, so that nothing refers to the caller's input any more. */
    method DrainRemaining()
      requires Valid() && held + 8 * left <= width
      modifies this`bits, this`held, this`index, this`left
      ensures Valid() && left == 0
      ensures InHand() == old(InHand()) && Stream() == old(Stream())
    {
      hide ToBits, BytesToBits, Pow2, Shl, Low, BitOr;
      ghost var hand := InHand();
      while left > 0
        invariant Valid() && held + 8 * left <= width
        invariant InHand() == hand
      {
        DrainByte(bits, held, buffer[index], width);
        BytesToBitsSplit(buffer[index..], 1);
        assert buffer[index..][..1] == [buffer[index]];
        assert buffer[index..][1..] == buffer[index + 1..];
        bits := BitOr(Low(Shl(bits, 8), width), buffer[index] as nat);
        index := index + 1;
        held := held + 8;
        left := left - 1;
      }
    }

    /** The reader's part of reset_frame_state. */
    method Clear()
      requires Valid()
      modifies this`bits, this`held, this`outOfData, this`rice
      ensures Valid() && held == 0 && !outOfData
    {
      bits, held, outOfData := 0, 0, false;
      rice := RiceState(0, false);
    }

    /** Drops the bits before the next byte of the input. */
    method SkipPadding()
      requires Valid()
      modifies this`held
      ensures Valid() && held % 8 == 0 && (old(Local()) ==> Local())
      ensures Stream() == old(Stream())[|old(Stream())| % 8..]
    {
      hide ToBits, BytesToBits, Pow2, InHand, Stream;
      ghost var ahead := BytesToBits(buffer[index..]) + BytesToBits(later);
      StreamParts(ahead);
      WholeBytesAhead(held, left + |later|);
      PaddingSkipped(bits, held, held % 8, ahead);
      if held % 8 != 0 {
        held := held - held % 8;
      }
      StreamParts(ahead);
    }

    lemma StreamParts(ahead: seq<Bit>)
      requires Valid() && ahead == BytesToBits(buffer[index..]) + BytesToBits(later)
      ensures Stream() == ToBits(bits, held) + ahead && |Stream()| == held + 8 * (left + |later|)
    {
      hide ToBits, BytesToBits, Pow2;
    }

    /** Gives the whole bytes that are held back to the caller. */
    method ResetBitBuffer()
      requires Valid() && held % 8 == 0 && Local()
      modifies this`bits, this`held, this`index, this`left
      ensures Valid() && held == 0
      ensures index == old(index) - old(held) / 8 && left == old(left) + old(held) / 8
    {
      index := index - held / 8;
      left := left + held / 8;
      held := 0;
      bits := 0;
    }
  }

  lemma WholeBytesAhead(held: nat, bytes: nat)
    ensures (held + 8 * bytes) % 8 == held % 8 && (held - held % 8) % 8 == 0
  {
  }

  lemma PaddingSkipped(bits: nat, held: nat, k: nat, ahead: seq<Bit>)
    requires k <= held
    ensures (ToBits(bits, held) + ahead)[k..] == ToBits(bits, held - k) + ahead
  {
    hide ToBits, Shr, Pow2;
    ToBitsSplit(bits, k, held - k);
    DropFront(ToBits(Shr(bits, held - k), k), ToBits(bits, held - k), ahead);
  }

  lemma DropFront(a: seq<Bit>, b: seq<Bit>, c: seq<Bit>)
    ensures (a + b + c)[|a|..] == b + c
  {
  }

  lemma RiceNothing(unary: nat, param: nat, s: seq<Bit>)
    requires s == []
    ensures RiceUnary(unary, param, s) == Short
  {
  }

  lemma CountOn(a: Uint32, k: nat)
    ensures Count32(a, 0) == a
    ensures k > 0 ==> Count32(Count32(a, 1), k - 1) == Count32(a, k)
  {
  }

  lemma {:induction false} RiceSkip(unary: Uint32, param: nat, k: nat, tail: seq<Bit>)
    ensures RiceUnary(unary, param, Zeros(k) + tail) == RiceUnary(Count32(unary, k), param, tail)
    decreases k
  {
    hide RiceBinary;
    CountOn(unary, k);
    hide Count32;
    if k == 0 {
      assert Zeros(0) + tail == tail;
    } else {
      var s := Zeros(k) + tail;
      assert s[0] == 0 && s[1..] == Zeros(k - 1) + tail;
      RiceSkip(Count32(unary, 1), param, k - 1, tail);
    }
  }

  lemma RiceStop(unary: Uint32, param: nat, k: nat, tail: seq<Bit>)
    ensures RiceUnary(unary, param, Zeros(k) + [1] + tail) == RiceBinary(Count32(unary, k), param, tail)
  {
    hide RiceBinary;
    RiceSkip(unary, param, k, [1] + tail);
    assert Zeros(k) + [1] + tail == Zeros(k) + ([1] + tail);
    assert ([1] + tail)[1..] == tail;
  }

  /** What a count of leading zeros of the shifted register says of the held bits. */
  lemma UnaryScan(bits: nat, held: nat, width: nat)
    requires 0 < held <= width
    ensures var shifted := Low(Shl(bits, width - held), width);
      && (shifted == 0 ==> ToBits(bits, held) == Zeros(held))
      && (shifted != 0 ==>
           (Clz(shifted, width) < held
            && ToBits(bits, held) == Zeros(Clz(shifted, width)) + [1] + ToBits(bits, held - Clz(shifted, width) - 1)))
  {
    hide Low, Shl, Clz, Pow2, ToBits;
    var x := Low(bits, held);
    LowOfShl(bits, width - held, width);
    ToBitsLow(bits, held, held);
    if x == 0 {
      ShlZero(width - held);
      ToBitsZero(held);
    } else {
      ClzOfShl(x, held, width - held);
      ClzBits(x, held);
      ToBitsLow(bits, held - Clz(x, held) - 1, held);
    }
  }

  /** One register's worth of the unary phase. */
  lemma ScanStep(unary: Uint32, param: nat, bits: nat, held: nat, width: nat, ahead: seq<Bit>)
    requires 0 < held <= width
    ensures var shifted := Low(Shl(bits, width - held), width);
      var zeros := Clz(shifted, width);
      && (shifted == 0 ==>
           RiceUnary(unary, param, ToBits(bits, held) + ahead) == RiceUnary(Count32(unary, held), param, ahead))
      && (shifted != 0 ==>
           (zeros < held
            && RiceUnary(unary, param, ToBits(bits, held) + ahead)
               == RiceBinary(Count32(unary, zeros), param, ToBits(bits, held - zeros - 1) + ahead)))
  {
    hide ToBits, Pow2, Shl, Low, Clz, RiceUnary, RiceBinary;
    UnaryScan(bits, held, width);
    RiceSkip(unary, param, held, ahead);
    var shifted := Low(Shl(bits, width - held), width);
    if shifted != 0 {
      var zeros := Clz(shifted, width);
      var tail := ToBits(bits, held - zeros - 1) + ahead;
      RiceStop(unary, param, zeros, tail);
      assert ToBits(bits, held) + ahead == Zeros(zeros) + [1] + tail;
    }
  }

  lemma DrainByte(bits: nat, held: nat, b: Byte, width: nat)
    requires held + 8 <= width
    ensures var next := BitOr(Low(Shl(bits, 8), width), b as nat);
      next < Pow2(width) && ToBits(next, held + 8) == ToBits(bits, held) + BytesToBits([b])
  {
    assert Pow2(8) == 256;
    assert BytesToBits([b]) == ByteBits(b);
    hide Low, Shl, Pow2, ToBits, BitOr;
    LowOfShl(bits, 8, width);
    var hi := Low(bits, width - 8);
    ToBitsGlue(hi, b as nat, held, 8);
    ToBitsLow(bits, held, width - 8);
    OrBound(hi, b as nat, width - 8, 8);
  }

  lemma RiceValueFits(unary: nat, param: nat, binary: nat)
    requires param < 32 && binary < Pow2(param)
    ensures BitOr(Low(Shl(unary, param), 32), binary) < 0x1_0000_0000
  {
    hide Low, Shl, BitOr, Pow2;
    LowOfShl(unary, param, 32);
    OrBound(Low(unary, 32 - param), binary, 32 - param, param);
    Pow2Of31();
  }

  /** (value >> 1) ^ -(value & 1) */
  lemma ZigZagTrick(value: nat)
    requires value < 0x1_0000_0000
    ensures Wrap32(BitXor(value / 2, if value % 2 == 1 then 0xFFFF_FFFF else 0)) == ZigZag(value)
  {
    Pow2Of31();
    hide Pow2;
    XorAllOnes(value / 2, 32);
    assert BitXor(value / 2, 0) == value / 2;
    hide BitXor;
  }

  lemma Halves<T>(s: seq<T>, a: seq<T>, b: seq<T>)
    requires s == a + b
    ensures s[..|a|] == a && s[|a|..] == b
  {
  }

  lemma TakeOfConcat<T>(a: seq<T>, b: seq<T>, n: nat)
    requires n <= |a|
    ensures (a + b)[..n] == a[..n]
    ensures (a + b)[n..] == a[n..] + b
  {
  }

  lemma ReadJoins<T>(held: seq<T>, ahead: seq<T>, loaded: seq<T>, unread: seq<T>, needed: nat)
    requires ahead == loaded + unread && needed <= |loaded|
    ensures (held + ahead)[..|held| + needed] == held + loaded[..needed]
    ensures (held + ahead)[|held| + needed..] == loaded[needed..] + unread
  {
  }

  lemma {:induction false} BigEndianBound(bs: seq<Byte>)
    ensures BigEndian(bs) < Pow2(8 * |bs|)
  {
    if bs != [] {
      var front, last := bs[..|bs| - 1], bs[|bs| - 1];
      BigEndianBound(front);
      assert Pow2(8) == 256;
      OrBound(BigEndian(front), last as nat, 8 * |front|, 8);
    }
  }

  /** A read that the held bits satisfy. */
  lemma HeldRead(bits: nat, kept: nat, n: nat, width: nat)
    requires n <= 32 <= width && kept + n <= width
    ensures Low(BitOr(0, Low(Shr(bits, kept % width), 32)), n) == ToNat(ToBits(bits, kept + n)[..n])
    ensures ToBits(bits, kept + n)[n..] == ToBits(bits, kept)
  {
    hide Shr, ToBits, Low, Pow2, ToNat;
    var x := Shr(bits, kept % width);
    assert BitOr(0, Low(x, 32)) == Low(x, 32);
    hide BitOr;
    ToBitsSplit(bits, n, kept);
    ToNatToBits(Low(x, 32), n);
    ToBitsLow(x, n, 32);
    assert n == 0 ==> ToBits(x, n) == [] == ToBits(Shr(bits, kept), n);
  }

  /** A read of all h held bits and of `needed` more from the register loaded after them. */
  lemma JoinedRead(before: nat, h: nat, bits: nat, kept: nat, needed: nat, width: nat)
    requires 0 < needed <= h + needed <= 32 <= width && kept + needed <= width
    requires bits < Pow2(needed + kept)
    ensures var shifted := if needed < width then Low(Low(Shl(before, needed), width), 32) else 0;
      Low(BitOr(shifted, Low(Shr(bits, kept % width), 32)), h + needed)
      == ToNat(ToBits(before, h) + ToBits(bits, kept + needed)[..needed])
    ensures ToBits(bits, kept + needed)[needed..] == ToBits(bits, kept)
  {
    hide Shr, ToBits, Low, Shl, Pow2, BitOr, ToNat;
    ToBitsSplit(bits, needed, kept);
    var lo := Shr(bits, kept);
    ShrBound(bits, needed, kept);
    Pow2Mono(needed, 32);
    LowOfSmall(lo, 32);
    var hi := if needed < width then Low(Low(before, width - needed), 32 - needed) else 0;
    var shifted := if needed < width then Low(Low(Shl(before, needed), width), 32) else 0;
    if needed < width {
      LowOfShl(before, needed, width);
      LowOfShl(Low(before, width - needed), needed, 32);
      ToBitsLow(Low(before, width - needed), h, 32 - needed);
      ToBitsLow(before, h, width - needed);
    } else {
      ShlZero(needed);
      assert h == 0;
      assert ToBits(hi, h) == ToBits(before, h);
    }
    assert shifted == Shl(hi, needed);
    ToBitsGlue(hi, lo, h, needed);
    ToNatToBits(BitOr(shifted, lo), h + needed);
    Halves(ToBits(bits, kept + needed), ToBits(lo, needed), ToBits(bits, kept));
  }

  /** (x ^ sign) - sign is sign extension. */
  lemma SignTrick(v: nat, n: nat)
    requires 0 < n < 32 && v < Pow2(n)
    ensures Wrap32(BitXor(v, Pow2(n - 1)) - Pow2(n - 1)) == SignExtend(v, n)
  {
    Pow2Mono(n, 31);
    Pow2Of31();
    assert Pow2(n) == 2 * Pow2(n - 1);
    hide Pow2;
    XorTopBit(v, n - 1);
  }

  lemma SignOf32(v: nat)
    requires v < Pow2(32)
    ensures Wrap32(v) == SignExtend(v, 32)
  {
    Pow2Of31();
    hide Pow2;
  }

  lemma Pow2Of31()
    ensures Pow2(31) == 0x8000_0000 && Pow2(32) == 0x1_0000_0000
  {
    assert Pow2(8) == 0x100;
    assert Pow2(16) == 0x1_0000;
    assert Pow2(24) == 0x100_0000;
  }
}
