/** The accept value of the opening handshake (section 4.2.2 of RFC 6455), from SHA-1 (FIPS 180-4) and Base64 (RFC 4648). */
module HandshakeKey {
  import opened Bits
  import opened Sha1

  // The standards.

  /** Four bytes, the first one highest */
  function WordOf(b0: Byte, b1: Byte, b2: Byte, b3: Byte): Word {
    (b3 as bv32) | ((b2 as bv32) << 8) | ((b1 as bv32) << 16) | ((b0 as bv32) << 24)
  }

  function BytesOf(w: Word): seq<Byte> {
    [((w >> 24) & 0xFF) as bv8, ((w >> 16) & 0xFF) as bv8, ((w >> 8) & 0xFF) as bv8, (w & 0xFF) as bv8]
  }

  /** The sixteen words of a block of 64 bytes */
  function BlockOf(bytes: seq<Byte>): (b: seq<Word>)
    requires |bytes| == 64
    ensures |b| == 16
  {
    seq(16, i requires 0 <= i < 16 => WordOf(bytes[4 * i], bytes[4 * i + 1], bytes[4 * i + 2], bytes[4 * i + 3]))
  }

  function ZeroBytes(n: nat): (z: seq<Byte>)
    ensures |z| == n && forall i | 0 <= i < n :: z[i] == 0
  {
    if n == 0 then [] else ZeroBytes(n - 1) + [0]
  }

  /** A number in eight bytes, the first one highest */
  function Long(n: nat): seq<Byte> {
    [ByteOf(n / 0x100_0000_0000_0000 % 256), ByteOf(n / 0x1_0000_0000_0000 % 256), ByteOf(n / 0x100_0000_0000 % 256),
     ByteOf(n / 0x1_0000_0000 % 256), ByteOf(n / 0x100_0000 % 256), ByteOf(n / 0x1_0000 % 256), ByteOf(n / 256 % 256), ByteOf(n % 256)]
  }

  /** Section 5.1.1: a one bit, zeros up to 64 bits before the end of a block, the length in bits. */
  function Pad(message: seq<Byte>): seq<Byte> {
    message + [0x80] + ZeroBytes((55 + 64 - |message| % 64) % 64) + Long(8 * |message|)
  }

  function Fold(h: Regs, bytes: seq<Byte>): Regs
    decreases |bytes|
  {
    if |bytes| < 64 then h else Fold(Compress(h, BlockOf(bytes[..64])), bytes[64..])
  }

  const INIT := Regs(0x6745_2301, 0xEFCD_AB89, 0x98BA_DCFE, 0x1032_5476, 0xC3D2_E1F0)

  function Digest(message: seq<Byte>): (d: seq<Byte>)
    ensures |d| == 20
  {
    var r := Fold(INIT, Pad(message));
    BytesOf(r.a) + BytesOf(r.b) + BytesOf(r.c) + BytesOf(r.d) + BytesOf(r.e)
  }

  const ALPHABET: string := "ABCDEFGHIJKLMNOPQRSTUVWXYZabcdefghijklmnopqrstuvwxyz0123456789+/"

  function Symbol(n: nat): char
    requires n < 64
  {
    ALPHABET[n]
  }

  /** Three bytes are four groups of six bits. */
  function First(n0: nat): (r: nat)
    requires n0 < 256
    ensures r < 64
  {
    n0 / 4
  }

  function Second(n0: nat, n1: nat): (r: nat)
    requires n0 < 256 && n1 < 256
    ensures r < 64
  {
    n0 % 4 * 16 + n1 / 16
  }

  function Third(n1: nat, n2: nat): (r: nat)
    requires n1 < 256 && n2 < 256
    ensures r < 64
  {
    n1 % 16 * 4 + n2 / 64
  }

  function Fourth(n2: nat): (r: nat)
    ensures r < 64
  {
    n2 % 64
  }

  function Four(n0: nat, n1: nat, n2: nat): string
    requires n0 < 256 && n1 < 256 && n2 < 256
  {
    [Symbol(First(n0)), Symbol(Second(n0, n1)), Symbol(Third(n1, n2)), Symbol(Fourth(n2))]
  }

  function Base64(s: seq<Byte>): string
    decreases |s|
  {
    if s == [] then ""
    else if |s| == 1 then [Symbol(First(Num(s[0]))), Symbol(Second(Num(s[0]), 0)), '=', '=']
    else if |s| == 2 then [Symbol(First(Num(s[0]))), Symbol(Second(Num(s[0]), Num(s[1]))), Symbol(Third(Num(s[1]), 0)), '=']
    else Four(Num(s[0]), Num(s[1]), Num(s[2])) + Base64(s[3..])
  }

  /** 258EAFA5-E914-47DA-95CA-C5AB0DC85B11, in three parts of twelve bytes */
  function Guid(): (g: seq<Byte>)
    ensures |g| == 36
  {
    GuidFront() + GuidMiddle() + GuidBack()
  }

  function GuidFront(): (g: seq<Byte>)
    ensures |g| == 12
  {
    [0x32, 0x35, 0x38, 0x45, 0x41, 0x46, 0x41, 0x35, 0x2D, 0x45, 0x39, 0x31]
  }

  function GuidMiddle(): (g: seq<Byte>)
    ensures |g| == 12
  {
    [0x34, 0x2D, 0x34, 0x37, 0x44, 0x41, 0x2D, 0x39, 0x35, 0x43, 0x41, 0x2D]
  }

  function GuidBack(): (g: seq<Byte>)
    ensures |g| == 12
  {
    [0x43, 0x35, 0x41, 0x42, 0x30, 0x44, 0x43, 0x38, 0x35, 0x42, 0x31, 0x31]
  }

  function AcceptValue(key: seq<Byte>): string {
    Base64(Digest(key + Guid()))
  }

  // Sixty bytes make two blocks.

  lemma {:induction false} ZeroBytesSplit(n: nat, k: nat)
    requires k <= n
    ensures ZeroBytes(n) == ZeroBytes(k) + ZeroBytes(n - k)
  {
  }

  lemma LongOf480()
    ensures Long(480) == [0, 0, 0, 0, 0, 0, 1, 0xE0]
  {
    hide ByteOf;
    assert 480 / 256 % 256 == 1 && 480 % 256 == 0xE0;
    SameByte(0);
    SameByte(1);
    SameByte(0xE0);
  }

  lemma SameByte(b: Byte)
    ensures ByteOf(b as nat) == b
  {
    hide ByteOf;
  }

  lemma PadSixty(m: seq<Byte>)
    requires |m| == 60
    ensures |Pad(m)| == 128 && Pad(m)[..64] == m + [0x80, 0, 0, 0]
    ensures Pad(m)[64..] == ZeroBytes(56) + [0, 0, 0, 0, 0, 0, 1, 0xE0]
  {
    hide Long, ZeroBytes;
    LongOf480();
    ZeroBytesSplit(59, 3);
    var l: seq<Byte> := [0, 0, 0, 0, 0, 0, 1, 0xE0];
    var head: seq<Byte> := [0x80, 0, 0, 0];
    assert ZeroBytes(3) == [0, 0, 0];
    assert [0x80] + ZeroBytes(59) == head + ZeroBytes(56);
    assert Pad(m) == (m + head) + (ZeroBytes(56) + l);
  }

  /** The words of the last block */
  lemma LastBlock()
    ensures BlockOf(ZeroBytes(56) + [0, 0, 0, 0, 0, 0, 1, 0xE0]) == [0, 0, 0, 0, 0, 0, 0, 0, 0, 0, 0, 0, 0, 0, 0, 480]
  {
    hide ZeroBytes, WordOf;
    WordsZero();
    var z := ZeroBytes(56) + [0, 0, 0, 0, 0, 0, 1, 0xE0];
    forall i | 0 <= i < 15
      ensures BlockOf(z)[i] == 0
    {
      assert z[4 * i] == 0 && z[4 * i + 1] == 0 && z[4 * i + 2] == 0 && z[4 * i + 3] == 0;
    }
    assert BlockOf(z)[15] == WordOf(0, 0, 1, 0xE0);
  }

  lemma WordsZero()
    ensures WordOf(0, 0, 0, 0) == 0 && WordOf(0, 0, 1, 0xE0) == 480 && WordOf(0x80, 0, 0, 0) == 0x8000_0000
  {
  }

  /** The words of the GUID, as the program has them */
  lemma GuidWords()
    ensures WordOf(0x32, 0x35, 0x38, 0x45) == 0x3235_3845
    ensures WordOf(0x41, 0x46, 0x41, 0x35) == 0x4146_4135
    ensures WordOf(0x2D, 0x45, 0x39, 0x31) == 0x2D45_3931
    ensures WordOf(0x34, 0x2D, 0x34, 0x37) == 0x342D_3437
    ensures WordOf(0x44, 0x41, 0x2D, 0x39) == 0x4441_2D39
    ensures WordOf(0x35, 0x43, 0x41, 0x2D) == 0x3543_412D
    ensures WordOf(0x43, 0x35, 0x41, 0x42) == 0x4335_4142
    ensures WordOf(0x30, 0x44, 0x43, 0x38) == 0x3044_4338
    ensures WordOf(0x35, 0x42, 0x31, 0x31) == 0x3542_3131
  {
  }

  lemma GuidFrontBytes()
    ensures GuidFront()[0] == 0x32 && GuidFront()[1] == 0x35 && GuidFront()[2] == 0x38 && GuidFront()[3] == 0x45
    ensures GuidFront()[4] == 0x41 && GuidFront()[5] == 0x46 && GuidFront()[6] == 0x41 && GuidFront()[7] == 0x35
    ensures GuidFront()[8] == 0x2D && GuidFront()[9] == 0x45 && GuidFront()[10] == 0x39 && GuidFront()[11] == 0x31
  {
  }

  lemma GuidMiddleBytes()
    ensures GuidMiddle()[0] == 0x34 && GuidMiddle()[1] == 0x2D && GuidMiddle()[2] == 0x34 && GuidMiddle()[3] == 0x37
    ensures GuidMiddle()[4] == 0x44 && GuidMiddle()[5] == 0x41 && GuidMiddle()[6] == 0x2D && GuidMiddle()[7] == 0x39
    ensures GuidMiddle()[8] == 0x35 && GuidMiddle()[9] == 0x43 && GuidMiddle()[10] == 0x41 && GuidMiddle()[11] == 0x2D
  {
  }

  lemma GuidBackBytes()
    ensures GuidBack()[0] == 0x43 && GuidBack()[1] == 0x35 && GuidBack()[2] == 0x41 && GuidBack()[3] == 0x42
    ensures GuidBack()[4] == 0x30 && GuidBack()[5] == 0x44 && GuidBack()[6] == 0x43 && GuidBack()[7] == 0x38
    ensures GuidBack()[8] == 0x35 && GuidBack()[9] == 0x42 && GuidBack()[10] == 0x31 && GuidBack()[11] == 0x31
  {
  }

  lemma GuidBytes()
    ensures Guid()[0] == 0x32 && Guid()[1] == 0x35 && Guid()[2] == 0x38 && Guid()[3] == 0x45
    ensures Guid()[4] == 0x41 && Guid()[5] == 0x46 && Guid()[6] == 0x41 && Guid()[7] == 0x35
    ensures Guid()[8] == 0x2D && Guid()[9] == 0x45 && Guid()[10] == 0x39 && Guid()[11] == 0x31
    ensures Guid()[12] == 0x34 && Guid()[13] == 0x2D && Guid()[14] == 0x34 && Guid()[15] == 0x37
    ensures Guid()[16] == 0x44 && Guid()[17] == 0x41 && Guid()[18] == 0x2D && Guid()[19] == 0x39
    ensures Guid()[20] == 0x35 && Guid()[21] == 0x43 && Guid()[22] == 0x41 && Guid()[23] == 0x2D
    ensures Guid()[24] == 0x43 && Guid()[25] == 0x35 && Guid()[26] == 0x41 && Guid()[27] == 0x42
    ensures Guid()[28] == 0x30 && Guid()[29] == 0x44 && Guid()[30] == 0x43 && Guid()[31] == 0x38
    ensures Guid()[32] == 0x35 && Guid()[33] == 0x42 && Guid()[34] == 0x31 && Guid()[35] == 0x31
  {
    hide GuidFront, GuidMiddle, GuidBack;
    GuidFrontBytes();
    GuidMiddleBytes();
    GuidBackBytes();
  }

  const TAIL: seq<Word> := [
    0x3235_3845, 0x4146_4135, 0x2D45_3931, 0x342D_3437, 0x4441_2D39, 0x3543_412D, 0x4335_4142, 0x3044_4338, 0x3542_3131, 0x8000_0000]

  lemma GuidTail(j: nat)
    requires j < 10
    ensures var t := Guid() + [0x80, 0, 0, 0]; WordOf(t[4 * j], t[4 * j + 1], t[4 * j + 2], t[4 * j + 3]) == TAIL[j]
  {
    hide WordOf, Guid;
    GuidBytes();
    GuidWords();
    WordsZero();
  }

  /** The first block: the words of a key of 24 bytes, those of the GUID, and the padding. */
  lemma FirstBlock(key: seq<Byte>, b: seq<Word>)
    requires |key| == 24 && |b| == 16
    requires forall i | 0 <= i < 6 :: b[i] == WordOf(key[4 * i], key[4 * i + 1], key[4 * i + 2], key[4 * i + 3])
    requires forall i | 6 <= i < 16 :: b[i] == TAIL[i - 6]
    ensures BlockOf(key + Guid() + [0x80, 0, 0, 0]) == b
  {
    hide WordOf, Guid, BlockOf;
    var t := Guid() + [0x80, 0, 0, 0];
    var m := key + Guid() + [0x80, 0, 0, 0];
    assert m == key + t;
    forall i | 0 <= i < 16
      ensures BlockOf(m)[i] == b[i]
    {
      WordAt(m, i);
      if i >= 6 {
        GuidTail(i - 6);
      }
    }
  }

  lemma WordAt(bytes: seq<Byte>, i: nat)
    requires |bytes| == 64 && i < 16
    ensures BlockOf(bytes)[i] == WordOf(bytes[4 * i], bytes[4 * i + 1], bytes[4 * i + 2], bytes[4 * i + 3])
  {
    hide WordOf;
  }

  lemma FoldTwo(h: Regs, bytes: seq<Byte>)
    requires |bytes| == 128
    ensures Fold(h, bytes) == Compress(Compress(h, BlockOf(bytes[..64])), BlockOf(bytes[64..]))
  {
    hide Compress, BlockOf, Fold;
    var rest := bytes[64..];
    assert rest[..64] == rest;
    FoldOne(h, bytes);
    FoldOne(Compress(h, BlockOf(bytes[..64])), rest);
    FoldNone(Compress(Compress(h, BlockOf(bytes[..64])), BlockOf(rest)), rest[64..]);
  }

  lemma FoldOne(h: Regs, bytes: seq<Byte>)
    requires |bytes| >= 64
    ensures Fold(h, bytes) == Fold(Compress(h, BlockOf(bytes[..64])), bytes[64..])
  {
    hide Compress, BlockOf;
  }

  lemma FoldNone(h: Regs, bytes: seq<Byte>)
    requires |bytes| < 64
    ensures Fold(h, bytes) == h
  {
  }

  /** The digest of a key and the GUID is that of the two blocks. */
  lemma DigestIs(key: seq<Byte>, b: seq<Word>)
    requires |key| == 24 && |b| == 16 && BlockOf(key + Guid() + [0x80, 0, 0, 0]) == b
    ensures var r := Compress(Compress(INIT, b), [0, 0, 0, 0, 0, 0, 0, 0, 0, 0, 0, 0, 0, 0, 0, 480]);
      Digest(key + Guid()) == BytesOf(r.a) + BytesOf(r.b) + BytesOf(r.c) + BytesOf(r.d) + BytesOf(r.e)
  {
    hide Compress, BlockOf, BytesOf, Pad, Fold;
    var m := key + Guid();
    PadSixty(m);
    FoldTwo(INIT, Pad(m));
    LastBlock();
  }

  // Base64, six bits at a time.

  /** n & 240 and n & 192, for a byte: its low four, or six, bits are zero. */
  function WithoutLow(n: nat, k: nat): nat {
    Shl(Shr(n, k), k)
  }

  lemma FirstSextet(n0: nat)
    requires n0 < 256
    ensures Low(Shr(n0, 2), 6) == First(n0)
  {
    hide Low, Shr, Pow2;
    Powers();
    ShrIsDiv(n0, 2);
    LowIsMod(Shr(n0, 2), 6);
  }

  lemma SecondSextet(n0: nat, n1: nat)
    requires n0 < 256 && n1 < 256
    ensures BitOr(Shl(Low(n0, 2), 4), Shr(WithoutLow(n1, 4), 4)) == Second(n0, n1)
  {
    hide Low, Shr, Shl, BitOr, Pow2;
    Powers();
    LowIsMod(n0, 2);
    ShlShr(Shr(n1, 4), 4);
    ShrIsDiv(n1, 4);
    OrSum(n0 % 4, n1 / 16, 4);
    BitOrSwap(Shl(n0 % 4, 4), n1 / 16);
  }

  lemma ThirdSextet(n1: nat, n2: nat)
    requires n1 < 256 && n2 < 256
    ensures BitOr(Shl(Low(n1, 4), 2), Shr(WithoutLow(n2, 6), 6)) == Third(n1, n2)
    ensures Shl(Low(n1, 4), 2) == Third(n1, 0)
  {
    hide Low, Shr, Shl, BitOr, Pow2;
    Powers();
    LowIsMod(n1, 4);
    ShlShr(Shr(n2, 6), 6);
    ShrIsDiv(n2, 6);
    OrSum(n1 % 16, n2 / 64, 2);
    BitOrSwap(Shl(n1 % 16, 2), n2 / 64);
    ShlIsTimes(n1 % 16, 2);
  }

  lemma LastSextet(n2: nat)
    requires n2 < 256
    ensures Low(n2, 6) == Fourth(n2)
  {
    hide Low, Pow2;
    Powers();
    LowIsMod(n2, 6);
  }

  lemma Base64Step(s: seq<Byte>)
    requires |s| >= 3
    ensures Base64(s) == Four(Num(s[0]), Num(s[1]), Num(s[2])) + Base64(s[3..])
  {
    hide Four, Num, Symbol, First, Second, Third, Fourth;
  }

  lemma Base64End(s: seq<Byte>)
    requires |s| == 2
    ensures Base64(s) == [Symbol(First(Num(s[0]))), Symbol(Second(Num(s[0]), Num(s[1]))), Symbol(Third(Num(s[1]), 0)), '=']
  {
    hide Num, Symbol, First, Second, Third, Fourth;
  }

  /** The four symbols of three bytes */
  method Symbols(n0: nat, n1: nat, n2: nat) returns (t: string)
    requires n0 < 256 && n1 < 256 && n2 < 256
    ensures t == Four(n0, n1, n2)
  {
    hide Low, Shr, Shl, BitOr, WithoutLow, Symbol, First, Second, Third, Fourth;
    FirstSextet(n0);
    SecondSextet(n0, n1);
    ThirdSextet(n1, n2);
    LastSextet(n2);
    t := [Symbol(Low(Shr(n0, 2), 6)), Symbol(BitOr(Shl(Low(n0, 2), 4), Shr(WithoutLow(n1, 4), 4))),
          Symbol(BitOr(Shl(Low(n1, 4), 2), Shr(WithoutLow(n2, 6), 6))), Symbol(Low(n2, 6))];
  }

  /** base64, of the twenty bytes of a digest */
  method EncodeDigest(src: seq<Byte>) returns (dst: string)
    requires |src| == 20
    ensures dst == Base64(src)
  {
    hide Base64, Four, Low, Shr, Shl, BitOr, WithoutLow, Symbol, First, Second, Third, Fourth, Num;
    dst := "";
    var i := 0;
    assert src[0..] == src;
    while i < 18
      invariant 0 <= i <= 18 && i % 3 == 0
      invariant Base64(src) == dst + Base64(src[i..])
    {
      Base64Step(src[i..]);
      assert src[i..][3..] == src[i + 3..];
      var t := Symbols(Num(src[i]), Num(src[i + 1]), Num(src[i + 2]));
      dst := dst + t;
      i := i + 3;
    }
    Base64End(src[18..]);
    var n0, n1 := Num(src[18]), Num(src[19]);
    FirstSextet(n0);
    SecondSextet(n0, n1);
    ThirdSextet(n1, 0);
    dst := dst + [Symbol(Low(Shr(n0, 2), 6)), Symbol(BitOr(Shl(Low(n0, 2), 4), Shr(WithoutLow(n1, 4), 4))),
                  Symbol(Shl(Low(n1, 4), 2)), '='];
  }

  // generate

  /** strncpy: up to the first zero byte */
  function Cut(s: seq<Byte>): seq<Byte> {
    if s == [] || s[0] == 0 then [] else [s[0]] + Cut(s[1..])
  }

  /** The 24 bytes that are taken of the input, with zeros where it is shorter */
  function KeyUsed(s: seq<Byte>): (t: seq<Byte>)
    ensures |t| == 24
  {
    var c := Cut(s);
    if |c| >= 24 then c[..24] else c + ZeroBytes(24 - |c|)
  }

  /** A key as section 4.1 of RFC 6455 has it, 24 characters, is taken as it is. */
  lemma {:induction false} TakenWhole(s: seq<Byte>)
    requires |s| == 24 && 0 !in s
    ensures KeyUsed(s) == s
  {
    CutWhole(s);
  }

  lemma {:induction false} CutWhole(s: seq<Byte>)
    requires 0 !in s
    ensures Cut(s) == s
  {
    if s != [] {
      CutWhole(s[1..]);
    }
  }

  /** One more byte is copied. */
  lemma CutStep(s: seq<Byte>, i: nat)
    requires i < |s| && s[i] != 0 && Cut(s) == s[..i] + Cut(s[i..])
    ensures Cut(s) == s[..i + 1] + Cut(s[i + 1..]) && s[..i + 1] == s[..i] + [s[i]]
  {
    hide Cut;
    CutOne(s[i..]);
    assert s[i..][1..] == s[i + 1..];
    assert s[..i] + ([s[i]] + Cut(s[i + 1..])) == s[..i + 1] + Cut(s[i + 1..]);
  }

  lemma CutOne(s: seq<Byte>)
    requires s != [] && s[0] != 0
    ensures Cut(s) == [s[0]] + Cut(s[1..])
  {
  }

  lemma CutEnds(s: seq<Byte>, i: nat)
    requires i <= |s| && i <= 24 && Cut(s) == s[..i] + Cut(s[i..]) && (i == 24 || i == |s| || s[i] == 0)
    ensures KeyUsed(s) == s[..i] + ZeroBytes(24 - i)
  {
    hide ZeroBytes;
    if i == 24 {
      assert Cut(s)[..24] == s[..24];
      assert ZeroBytes(0) == [];
    } else {
      assert Cut(s[i..]) == [];
    }
  }

  /** The copy of the key into the input */
  method CopyKey(s: seq<Byte>) returns (input: array<Byte>)
    ensures fresh(input) && input.Length == 25 && input[..24] == KeyUsed(s)
  {
    hide ZeroBytes, Cut, KeyUsed;
    input := new Byte[25](_ => 0);
    var i := 0;
    assert s[0..] == s && s[..0] + Cut(s) == Cut(s);
    while i < 24 && i < |s| && s[i] != 0
      invariant 0 <= i <= 24 && i <= |s| && Cut(s) == s[..i] + Cut(s[i..])
      invariant input[..i] == s[..i] && forall k | i <= k < 25 :: input[k] == 0
    {
      CutStep(s, i);
      input[i] := s[i];
      i := i + 1;
    }
    CutEnds(s, i);
    assert input[..24] == input[..i] + ZeroBytes(24 - i);
  }

  /** The six words of the key */
  method PackKey(input: array<Byte>, block: array<Word>)
    requires input.Length == 25 && block.Length == 16
    modifies block
    ensures forall k | 0 <= k < 6 :: block[k] == WordOf(input[4 * k], input[4 * k + 1], input[4 * k + 2], input[4 * k + 3])
    ensures forall k | 6 <= k < 16 :: block[k] == old(block[k])
  {
    hide WordOf;
    for i := 0 to 6
      invariant forall k | 0 <= k < i :: block[k] == WordOf(input[4 * k], input[4 * k + 1], input[4 * k + 2], input[4 * k + 3])
      invariant forall k | 6 <= k < 16 :: block[k] == old(block[k])
    {
      block[i] := WordOf(input[4 * i], input[4 * i + 1], input[4 * i + 2], input[4 * i + 3]);
    }
  }

  /** The first block, b_input */
  method MakeBlock(input: array<Byte>) returns (block: array<Word>)
    requires input.Length == 25
    ensures fresh(block) && block.Length == 16 && block[..] == BlockOf(input[..24] + Guid() + [0x80, 0, 0, 0])
  {
    hide WordOf, BlockOf, Guid;
    block := new Word[16][
      0, 0, 0, 0, 0, 0, 0x3235_3845, 0x4146_4135, 0x2D45_3931, 0x342D_3437, 0x4441_2D39, 0x3543_412D, 0x4335_4142,
      0x3044_4338, 0x3542_3131, 0x8000_0000];
    assert forall i | 6 <= i < 16 :: block[i] == TAIL[i - 6];
    PackKey(input, block);
    FirstBlock(input[..24], block[..]);
  }

  /** generate: the accept value of the key. */
  method Generate(inputStr: seq<Byte>) returns (output: string)
    ensures output == AcceptValue(KeyUsed(inputStr))
  {
    hide AcceptValue, BytesOf, Compress, BlockOf, KeyUsed, Guid, Digest, Base64;
    var input := CopyKey(inputStr);
    ghost var key := input[..24];
    var hash := new Word[5][0x6745_2301, 0xEFCD_AB89, 0x98BA_DCFE, 0x1032_5476, 0xC3D2_E1F0];
    assert RegsOf(hash[..]) == INIT;
    var block := MakeBlock(input);
    DigestIs(key, block[..]);
    Compression(hash, block);
    var last := new Word[16][0, 0, 0, 0, 0, 0, 0, 0, 0, 0, 0, 0, 0, 0, 0, 480];
    assert last[..] == [0, 0, 0, 0, 0, 0, 0, 0, 0, 0, 0, 0, 0, 0, 0, 480];
    Compression(hash, last);
    var digest := Spread(hash);
    output := EncodeDigest(digest);
    AcceptIs(key);
  }

  lemma AcceptIs(key: seq<Byte>)
    ensures AcceptValue(key) == Base64(Digest(key + Guid()))
  {
    hide Base64, Digest, Guid;
  }

  /** The words of the hash, byte by byte */
  method Spread(hash: array<Word>) returns (bytes: seq<Byte>)
    requires hash.Length == 5
    ensures bytes == BytesOf(hash[0]) + BytesOf(hash[1]) + BytesOf(hash[2]) + BytesOf(hash[3]) + BytesOf(hash[4]) && |bytes| == 20
  {
    hide BytesOf;
    FourBytes(hash[0]);
    FourBytes(hash[1]);
    FourBytes(hash[2]);
    FourBytes(hash[3]);
    FourBytes(hash[4]);
    bytes := [];
    for i := 0 to 5
      invariant bytes == Joined(hash[..i])
    {
      assert hash[..i + 1][..i] == hash[..i];
      bytes := bytes + BytesOf(hash[i]);
    }
    assert hash[..5] == [hash[0], hash[1], hash[2], hash[3], hash[4]];
    JoinedFive(hash[0], hash[1], hash[2], hash[3], hash[4]);
  }

  lemma FourBytes(w: Word)
    ensures |BytesOf(w)| == 4
  {
  }

  function Joined(words: seq<Word>): seq<Byte> {
    if words == [] then [] else Joined(words[..|words| - 1]) + BytesOf(words[|words| - 1])
  }

  lemma JoinedFive(a: Word, b: Word, c: Word, d: Word, e: Word)
    ensures Joined([a, b, c, d, e]) == BytesOf(a) + BytesOf(b) + BytesOf(c) + BytesOf(d) + BytesOf(e)
  {
    hide BytesOf;
    assert [a, b, c, d, e][..4] == [a, b, c, d] && [a, b, c, d][..3] == [a, b, c] && [a, b, c][..2] == [a, b] && [a, b][..1] == [a];
    assert Joined([a]) == [] + BytesOf(a) == BytesOf(a);
    assert Joined([a, b]) == Joined([a]) + BytesOf(b);
    assert Joined([a, b, c]) == Joined([a, b]) + BytesOf(c);
    assert Joined([a, b, c, d]) == Joined([a, b, c]) + BytesOf(d);
  }
}
