/** WebSocket frames (section 5.2 of RFC 6455): how one is written, and how the receive buffer is read. */
module WsFrames {
  import opened Bits

  const CONTINUATION: Byte := 0
  const TEXT: Byte := 1
  const BINARY: Byte := 2
  const CLOSE: Byte := 8
  const PING: Byte := 9
  const PONG: Byte := 10

  datatype Frame = Frame(fin: bool, opcode: Byte, payload: seq<Byte>)

  /** A frame on the wire, with its key if it is masked. */
  datatype AnyWire = Wire(frame: Frame, masked: bool, key: seq<Byte>)

  type Wire = w: AnyWire | |w.key| == 4 && w.frame.opcode < 16 && |w.frame.payload| < 0x8000_0000_0000_0000
    witness Wire(Frame(true, 1, []), false, [0, 0, 0, 0])

  // Masking.

  function Masked(p: seq<Byte>, key: seq<Byte>): (m: seq<Byte>)
    requires |key| == 4
    ensures |m| == |p|
  {
    seq(|p|, i requires 0 <= i < |p| => p[i] ^ key[i % 4])
  }

  lemma XorTwice(a: Byte, b: Byte)
    ensures (a ^ b) ^ b == a
  {
  }

  /** Masking twice is doing nothing. */
  lemma MaskTwice(p: seq<Byte>, key: seq<Byte>)
    requires |key| == 4
    ensures Masked(Masked(p, key), key) == p
  {
    forall i | 0 <= i < |p|
      ensures Masked(Masked(p, key), key)[i] == p[i]
    {
      XorTwice(p[i], key[i % 4]);
    }
  }

  /** A payload that is masked in place, when that has come to the i-th byte */
  function MaskedTo(p: seq<Byte>, key: seq<Byte>, i: nat): (m: seq<Byte>)
    requires |key| == 4 && i <= |p|
    ensures |m| == |p|
  {
    Masked(p[..i], key) + p[i..]
  }

  lemma MaskEnds(p: seq<Byte>, key: seq<Byte>)
    requires |key| == 4
    ensures MaskedTo(p, key, 0) == p && MaskedTo(p, key, |p|) == Masked(p, key)
  {
    assert p[..|p|] == p;
  }

  lemma MaskByte(p: seq<Byte>, key: seq<Byte>, i: nat)
    requires |key| == 4 && i < |p|
    ensures MaskedTo(p, key, i)[i] == p[i] && MaskedTo(p, key, i)[i := p[i] ^ key[i % 4]] == MaskedTo(p, key, i + 1)
  {
  }

  lemma MaskInside(pre: seq<Byte>, p: seq<Byte>, key: seq<Byte>, i: nat, post: seq<Byte>)
    requires |key| == 4 && i < |p|
    ensures var s := pre + MaskedTo(p, key, i) + post;
      s[|pre| + i := s[|pre| + i] ^ key[i % 4]] == pre + MaskedTo(p, key, i + 1) + post
  {
    hide MaskedTo;
    MaskByte(p, key, i);
    Inside(pre, MaskedTo(p, key, i), i, p[i] ^ key[i % 4], post);
  }

  lemma Inside(pre: seq<Byte>, m: seq<Byte>, i: nat, b: Byte, post: seq<Byte>)
    requires i < |m|
    ensures (pre + m + post)[|pre| + i] == m[i] && (pre + m + post)[|pre| + i := b] == pre + m[i := b] + post
  {
  }

  // The header.

  /** (n >> s) & 0xff */
  function ByteAt(n: nat, s: nat): Byte {
    OctetOf(Low(Shr(n, s), 8))
  }

  function OctetOf(n: nat): Byte {
    if n < 256 then Octet(n) else 0
  }

  function FirstByte(fin: bool, opcode: Byte): Byte {
    if fin then opcode | 0x80 else opcode
  }

  function LengthByte(n: nat, masked: bool): Byte
    requires n < 128
  {
    if masked then Octet(n) | 0x80 else Octet(n)
  }

  function Two(n: nat): seq<Byte> {
    [ByteAt(n, 8), ByteAt(n, 0)]
  }

  function Eight(n: nat): seq<Byte> {
    [ByteAt(n, 56), ByteAt(n, 48), ByteAt(n, 40), ByteAt(n, 32), ByteAt(n, 24), ByteAt(n, 16), ByteAt(n, 8), ByteAt(n, 0)]
  }

  /** The three encodings of a length */
  function Length(n: nat, masked: bool): seq<Byte> {
    if n < 126 then [LengthByte(n, masked)]
    else if n < 65536 then [LengthByte(126, masked)] + Two(n)
    else [LengthByte(127, masked)] + Eight(n)
  }

  function Header(w: Wire): seq<Byte> {
    [FirstByte(w.frame.fin, w.frame.opcode)] + Length(|w.frame.payload|, w.masked) + (if w.masked then w.key else [])
  }

  function FrameBytes(w: Wire): seq<Byte> {
    Header(w) + if w.masked then Masked(w.frame.payload, w.key) else w.frame.payload
  }

  // Reading.

  function FromTwo(b: seq<Byte>): nat
    requires |b| == 2
  {
    Num(b[0]) * 256 + Num(b[1])
  }

  function FromEight(b: seq<Byte>): nat
    requires |b| == 8
  {
    FromFour(FromFour(0, b[0], b[1], b[2], b[3]), b[4], b[5], b[6], b[7])
  }

  function FromFour(high: nat, b0: Byte, b1: Byte, b2: Byte, b3: Byte): nat {
    (((high * 256 + Num(b0)) * 256 + Num(b1)) * 256 + Num(b2)) * 256 + Num(b3)
  }

  /** What the first two bytes of a header say: the size of the header. */
  function HeaderSize(b1: Byte): (n: nat)
    ensures 2 <= n <= 14
  {
    var short := Num(b1 & 0x7F);
    2 + (if short == 126 then 2 else if short == 127 then 8 else 0) + (if b1 & 0x80 == 0x80 then 4 else 0)
  }

  function PayloadSize(buf: seq<Byte>): nat
    requires |buf| >= 2 && |buf| >= HeaderSize(buf[1])
  {
    var short := Num(buf[1] & 0x7F);
    if short < 126 then short else if short == 126 then FromTwo(buf[2..4]) else FromEight(buf[2..10])
  }

  /** The masking key, all zero if there is none */
  function KeyOf(buf: seq<Byte>): (k: seq<Byte>)
    requires |buf| >= 2 && |buf| >= HeaderSize(buf[1])
    ensures |k| == 4
  {
    var n := HeaderSize(buf[1]);
    if buf[1] & 0x80 == 0x80 then buf[n - 4..n] else [0, 0, 0, 0]
  }

  datatype Read = More | Reserved | TooLong | Whole(frame: Frame, header: nat, size: nat)

  /** What dispatch finds at the front of the receive buffer. */
  function ReadFrame(buf: seq<Byte>): (r: Read)
    ensures r.Whole? ==> 2 <= r.header <= r.size <= |buf|
  {
    if |buf| < 2 || |buf| < HeaderSize(buf[1]) then More
    else if buf[0] & 0x70 != 0 then Reserved
    else
      var h, n := HeaderSize(buf[1]), PayloadSize(buf);
      if n > 0x8000_0000_0000_0000 then TooLong
      else if |buf| < h + n then More
      else Whole(Frame(buf[0] & 0x80 == 0x80, buf[0] & 0x0F, Masked(buf[h..h + n], KeyOf(buf))), h, h + n)
  }

  // Reading what was written.

  lemma FirstBits(fin: bool, opcode: Byte)
    requires opcode < 16
    ensures var b := FirstByte(fin, opcode); (b & 0x80 == 0x80 <==> fin) && b & 0x70 == 0 && b & 0x0F == opcode
  {
    FirstBitsRaw(opcode);
  }

  lemma FirstBitsRaw(opcode: Byte)
    requires opcode < 16
    ensures opcode & 0x80 == 0 && (opcode | 0x80) & 0x80 == 0x80 && opcode & 0x70 == 0 && (opcode | 0x80) & 0x70 == 0
    ensures opcode & 0x0F == opcode && (opcode | 0x80) & 0x0F == opcode
  {
  }

  lemma LengthBits(n: nat, masked: bool)
    requires n < 128
    ensures var b := LengthByte(n, masked); (b & 0x80 == 0x80 <==> masked) && Num(b & 0x7F) == n
  {
    hide Num, Octet;
    NumOf(n);
    SmallOctet(n);
    LengthBitsRaw(Octet(n));
  }

  lemma SmallOctet(n: nat)
    requires n < 128
    ensures Octet(n) < 128
  {
  }

  lemma LengthBitsRaw(b: Byte)
    requires b < 128
    ensures b & 0x80 == 0 && (b | 0x80) & 0x80 == 0x80 && b & 0x7F == b && (b | 0x80) & 0x7F == b
  {
  }

  lemma {:induction false} ShrMore(n: nat, s: nat, k: nat)
    ensures Shr(n, s + k) == Shr(Shr(n, s), k)
    decreases s
  {
    if s > 0 {
      ShrMore(n / 2, s - 1, k);
    }
  }

  lemma ByteSplit(n: nat, s: nat)
    ensures Shr(n, s) == Shr(n, s + 8) * 256 + Num(ByteAt(n, s))
  {
    hide Num, Octet, Shr, Low, Pow2;
    ShrMore(n, s, 8);
    Powers();
    ShiftedOut(Shr(n, s), 8);
    NumOf(Low(Shr(n, s), 8));
  }

  lemma Ends(n: nat)
    ensures Shr(n, 0) == n
    ensures n < 65536 ==> Shr(n, 16) == 0
    ensures n < 0x1_0000_0000_0000_0000 ==> Shr(n, 64) == 0
  {
    hide Pow2;
    PowersOfBytes();
    ShrIsDiv(n, 16);
    ShrIsDiv(n, 64);
  }

  lemma PowEight(s: nat)
    ensures Pow2(s + 8) == Pow2(s) * 256
  {
    assert Pow2(s + 2) == 4 * Pow2(s);
    assert Pow2(s + 4) == 4 * Pow2(s + 2);
    assert Pow2(s + 6) == 4 * Pow2(s + 4);
    assert Pow2(s + 8) == 4 * Pow2(s + 6);
  }

  lemma TwoBack(n: nat)
    requires n < 65536
    ensures FromTwo(Two(n)) == n
  {
    hide Num, ByteAt, Shr;
    Ends(n);
    ByteSplit(n, 0);
    ByteSplit(n, 8);
  }

  lemma PowZero()
    ensures Pow2(0) == 1
  {
  }

  lemma PowersOfBytes()
    ensures Pow2(0) == 1 && Pow2(8) == 256 && Pow2(16) == 65536 && Pow2(64) == 0x1_0000_0000_0000_0000
  {
    hide Pow2;
    PowZero();
    PowEight(0);
    PowEight(8);
    PowEight(16);
    PowEight(24);
    PowEight(32);
    PowEight(40);
    PowEight(48);
    PowEight(56);
  }

  lemma FourBack(n: nat, s: nat)
    ensures FromFour(Shr(n, s + 32), ByteAt(n, s + 24), ByteAt(n, s + 16), ByteAt(n, s + 8), ByteAt(n, s)) == Shr(n, s)
  {
    hide Num, ByteAt, Shr;
    ByteSplit(n, s);
    ByteSplit(n, s + 8);
    ByteSplit(n, s + 16);
    ByteSplit(n, s + 24);
  }

  lemma EightBack(n: nat)
    requires n < 0x1_0000_0000_0000_0000
    ensures FromEight(Eight(n)) == n
  {
    hide Num, ByteAt, Shr, FromFour;
    Ends(n);
    FourBack(n, 32);
    FourBack(n, 0);
  }

  lemma SizeReads(b: Byte, short: nat, masked: bool)
    requires short < 128 && b == LengthByte(short, masked)
    ensures HeaderSize(b) == 2 + (if short == 126 then 2 else if short == 127 then 8 else 0) + (if masked then 4 else 0)
    ensures (b & 0x80 == 0x80 <==> masked) && Num(b & 0x7F) == short
  {
    hide LengthByte, Num;
    LengthBits(short, masked);
  }

  lemma TwoReads(buf: seq<Byte>, n: nat)
    requires n < 65536 && |buf| >= 4 && buf[2..4] == Two(n)
    requires |buf| >= HeaderSize(buf[1]) && Num(buf[1] & 0x7F) == 126
    ensures PayloadSize(buf) == n
  {
    hide Two, FromTwo, HeaderSize, Num;
    TwoBack(n);
  }

  lemma EightReads(buf: seq<Byte>, n: nat)
    requires n < 0x1_0000_0000_0000_0000 && |buf| >= 10 && buf[2..10] == Eight(n)
    requires |buf| >= HeaderSize(buf[1]) && Num(buf[1] & 0x7F) == 127
    ensures PayloadSize(buf) == n
  {
    hide Eight, FromEight, HeaderSize, Num;
    EightBack(n);
  }

  lemma OneReads(buf: seq<Byte>, n: nat)
    requires n < 126 && |buf| >= 2
    requires |buf| >= HeaderSize(buf[1]) && Num(buf[1] & 0x7F) == n
    ensures PayloadSize(buf) == n
  {
    hide HeaderSize, Num;
  }

  /** What the second byte of a header says of it, and what follows it of the length. */
  lemma LengthReads(buf: seq<Byte>, n: nat, masked: bool)
    requires n < 0x8000_0000_0000_0000
    requires |buf| >= 2 && Length(n, masked) <= buf[1..]
    ensures HeaderSize(buf[1]) == 1 + |Length(n, masked)| + (if masked then 4 else 0)
    ensures |buf| >= HeaderSize(buf[1]) ==> PayloadSize(buf) == n
    ensures buf[1] & 0x80 == 0x80 <==> masked
  {
    hide HeaderSize, PayloadSize, LengthByte, Num, Two, Eight;
    TwoSizes(n);
    assert buf[1] == Length(n, masked)[0];
    SizeReads(buf[1], if n < 126 then n else if n < 65536 then 126 else 127, masked);
    if |buf| >= HeaderSize(buf[1]) {
      if n < 126 {
        OneReads(buf, n);
      } else if n < 65536 {
        Sliced(buf, Length(n, masked), 2);
        TwoReads(buf, n);
      } else {
        Sliced(buf, Length(n, masked), 8);
        EightReads(buf, n);
      }
    }
  }

  lemma TwoSizes(n: nat)
    ensures |Two(n)| == 2 && |Eight(n)| == 8
  {
  }

  lemma Sliced(buf: seq<Byte>, part: seq<Byte>, k: nat)
    requires |buf| >= 2 && part <= buf[1..] && |part| == 1 + k
    ensures buf[2..2 + k] == part[1..]
  {
    assert buf[1..][1..1 + k] == buf[2..2 + k];
  }

  /** What the reader finds in a header that was written. */
  lemma HeaderReads(w: Wire, tail: seq<Byte>)
    ensures var buf := Header(w) + tail;
      && HeaderSize(buf[1]) == |Header(w)| <= 14 && buf[0] == FirstByte(w.frame.fin, w.frame.opcode)
      && PayloadSize(buf) == |w.frame.payload| && KeyOf(buf) == (if w.masked then w.key else [0, 0, 0, 0])
  {
    hide HeaderSize, PayloadSize, Length, FirstByte;
    var n, buf := |w.frame.payload|, Header(w) + tail;
    LengthSome(n, w.masked);
    assert buf[1..] == Length(n, w.masked) + ((if w.masked then w.key else []) + tail);
    LengthReads(buf, n, w.masked);
    var h := |Header(w)|;
    if w.masked {
      assert buf[h - 4..h] == w.key;
    }
  }

  lemma LengthSome(n: nat, masked: bool)
    ensures 1 <= |Length(n, masked)| <= 9
  {
  }

  lemma MaskZero(p: seq<Byte>)
    ensures Masked(p, [0, 0, 0, 0]) == p
  {
  }

  /** A frame that was written is read as it was, whatever follows it. */
  lemma ReadsBack(w: Wire, rest: seq<Byte>)
    ensures ReadFrame(FrameBytes(w) + rest) == Whole(w.frame, |Header(w)|, |FrameBytes(w)|)
  {
    hide Header, HeaderSize, PayloadSize, KeyOf, Masked, FirstByte;
    var body := if w.masked then Masked(w.frame.payload, w.key) else w.frame.payload;
    var h, n := |Header(w)|, |w.frame.payload|;
    HeaderReads(w, body + rest);
    assert FrameBytes(w) + rest == Header(w) + (body + rest);
    FirstBits(w.frame.fin, w.frame.opcode);
    MaskTwice(w.frame.payload, w.key);
    MaskZero(w.frame.payload);
    assert (Header(w) + (body + rest))[h..h + n] == body;
  }

  /** A part of it is not read at all. */
  lemma PartWaits(w: Wire, part: seq<Byte>)
    requires part <= FrameBytes(w) && |part| < |FrameBytes(w)|
    ensures ReadFrame(part) == More
  {
    hide Header, HeaderSize, PayloadSize, KeyOf, Masked, FirstByte;
    var body := if w.masked then Masked(w.frame.payload, w.key) else w.frame.payload;
    HeaderReads(w, body);
    FirstBits(w.frame.fin, w.frame.opcode);
    if |part| >= 2 && |part| >= HeaderSize(part[1]) {
      assert part[1] == FrameBytes(w)[1] && part[0] == FrameBytes(w)[0];
      var tail := part[|Header(w)|..];
      assert part == Header(w) + tail;
      HeaderReads(w, tail);
    }
  }
}
