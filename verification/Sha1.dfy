/** SHA-1 over rotating registers and a circular schedule, and the hash of FIPS 180-4 that it computes. */
module Sha1 {
  import opened Bits

  type Word = bv32

  // The operations, named so that proofs can treat them as a whole.

  function Add(a: Word, b: Word): Word { a + b }

  function Xor(a: Word, b: Word): Word { a ^ b }

  function Rol1(x: Word): Word { (x << 1) | (x >> 31) }

  function Rol5(x: Word): Word { (x << 5) | (x >> 27) }

  function Rol30(x: Word): Word { (x << 30) | (x >> 2) }

  function Mod5(x: nat): (r: nat)
    ensures r < 5
  {
    x % 5
  }

  function Mod16(x: nat): (r: nat)
    ensures r < 16
  {
    x % 16
  }

  // Section 4.1.1: the functions of the rounds.

  function Ch(x: Word, y: Word, z: Word): Word { (x & y) ^ (!x & z) }

  function Parity(x: Word, y: Word, z: Word): Word { x ^ y ^ z }

  function Maj(x: Word, y: Word, z: Word): Word { (x & y) ^ (x & z) ^ (y & z) }

  // Their forms in the program.

  function Choose(x: Word, y: Word, z: Word): Word { (x & (y ^ z)) ^ z }

  function Majority(x: Word, y: Word, z: Word): Word { ((x | y) & z) | (x & y) }

  lemma ChooseBits(x: Word, y: Word, z: Word)
    ensures (x & (y ^ z)) ^ z == (x & y) ^ (!x & z)
  {
  }

  lemma ChooseIs(x: Word, y: Word, z: Word)
    ensures Choose(x, y, z) == Ch(x, y, z)
  {
    ChooseBits(x, y, z);
  }

  lemma MajorityBits(x: Word, y: Word, z: Word)
    ensures ((x | y) & z) | (x & y) == (x & y) ^ (x & z) ^ (y & z)
  {
  }

  lemma MajorityIs(x: Word, y: Word, z: Word)
    ensures Majority(x, y, z) == Maj(x, y, z)
  {
    MajorityBits(x, y, z);
  }

  function F(t: nat, x: Word, y: Word, z: Word): Word {
    if t < 20 then Ch(x, y, z) else if t < 40 then Parity(x, y, z) else if t < 60 then Maj(x, y, z) else Parity(x, y, z)
  }

  function K(t: nat): Word {
    if t < 20 then 0x5A82_7999 else if t < 40 then 0x6ED9_EBA1 else if t < 60 then 0x8F1B_BCDC else 0xCA62_C1D6
  }

  // Section 6.1.2.

  /** The message schedule */
  function W(block: seq<Word>, t: nat): Word
    requires |block| == 16
  {
    if t < 16 then block[t]
    else Rol1(Xor(Xor(Xor(W(block, t - 3), W(block, t - 8)), W(block, t - 14)), W(block, t - 16)))
  }

  datatype Regs = Regs(a: Word, b: Word, c: Word, d: Word, e: Word)

  /** T is the sum, in whatever order, of five words. */
  function Round(r: Regs, t: nat, w: Word): Regs {
    Regs(Add(r.e, Add(Add(Add(F(t, r.b, r.c, r.d), w), K(t)), Rol5(r.a))), r.a, Rol30(r.b), r.c, r.d)
  }

  function Rounds(r: Regs, block: seq<Word>, t: nat): Regs
    requires |block| == 16
  {
    if t == 0 then r else Round(Rounds(r, block, t - 1), t - 1, W(block, t - 1))
  }

  function Compress(h: Regs, block: seq<Word>): Regs
    requires |block| == 16
  {
    var r := Rounds(h, block, 80);
    Regs(Add(r.a, h.a), Add(r.b, h.b), Add(r.c, h.c), Add(r.d, h.d), Add(r.e, h.e))
  }

  // The registers in their array: at round t the role of the first one is played by a[Mod5(t)].

  function At(a: seq<Word>, t: nat): Regs
    requires |a| == 5
  {
    Regs(a[Mod5(4 + t)], a[Mod5(3 + t)], a[Mod5(2 + t)], a[Mod5(1 + t)], a[Mod5(t)])
  }

  /** The circular schedule holds the last sixteen words before t. */
  predicate Holds(b: seq<Word>, block: seq<Word>, t: nat)
    requires |b| == 16 == |block| && t >= 16
  {
    forall k | t - 16 <= k < t :: b[Mod16(k)] == W(block, k)
  }

  /** One round in place, the first register in a[Mod5(i)]. */
  function InPlace(a: seq<Word>, i: nat, f: Word, w: Word, k: Word): seq<Word>
    requires |a| == 5
  {
    var c := a[Mod5(i) := Add(a[Mod5(i)], Add(Add(Add(f, w), k), Rol5(a[Mod5(4 + i)])))];
    c[Mod5(3 + i) := Rol30(c[Mod5(3 + i)])]
  }

  lemma Next5(x: nat)
    ensures Mod5(x + 1) == if Mod5(x) == 4 then 0 else Mod5(x) + 1
  {
  }

  /** The next five places after x. */
  lemma Five(x: nat)
    ensures Mod5(x + 1) == if Mod5(x) == 4 then 0 else Mod5(x) + 1
    ensures Mod5(x + 2) == if Mod5(x + 1) == 4 then 0 else Mod5(x + 1) + 1
    ensures Mod5(x + 3) == if Mod5(x + 2) == 4 then 0 else Mod5(x + 2) + 1
    ensures Mod5(x + 4) == if Mod5(x + 3) == 4 then 0 else Mod5(x + 3) + 1
    ensures Mod5(x + 5) == Mod5(x)
  {
    hide Mod5;
    Next5(x);
    Next5(x + 1);
    Next5(x + 2);
    Next5(x + 3);
    Next5(x + 4);
  }

  lemma SamePlace(a: seq<Word>, t: nat, i: nat)
    requires |a| == 5 && Mod5(t) == Mod5(i)
    ensures At(a, t) == At(a, i)
  {
    hide Mod5;
    Five(t);
    Five(i);
  }

  /** It is the round of the shifting registers, with the roles moved on by one. */
  lemma InPlaceIsRound(a: seq<Word>, t: nat, i: nat, w: Word)
    requires |a| == 5 && Mod5(t) == Mod5(i)
    ensures var r := At(a, t);
      At(InPlace(a, i, F(t, r.b, r.c, r.d), w, K(t)), t + 1) == Round(r, t, w)
  {
    hide Add, F, K, Rol5, Rol30, Mod5;
    FiveApart(t);
    SameFive(t, i);
    SameFive(i, t);
  }

  lemma FiveApart(x: nat)
    ensures Mod5(5 + x) == Mod5(x)
    ensures Mod5(x) != Mod5(1 + x) && Mod5(x) != Mod5(2 + x) && Mod5(x) != Mod5(3 + x) && Mod5(x) != Mod5(4 + x)
    ensures Mod5(3 + x) != Mod5(1 + x) && Mod5(3 + x) != Mod5(2 + x) && Mod5(3 + x) != Mod5(4 + x)
  {
    hide Mod5;
    Five(x);
  }

  lemma SameFive(t: nat, i: nat)
    requires Mod5(t) == Mod5(i)
    ensures Mod5(1 + t) == Mod5(1 + i) && Mod5(2 + t) == Mod5(2 + i) && Mod5(3 + t) == Mod5(3 + i) && Mod5(4 + t) == Mod5(4 + i)
  {
    hide Mod5;
    Five(t);
    Five(i);
  }

  lemma Sixteen(t: nat, k: nat)
    requires t >= 16 && t - 15 <= k < t
    ensures Mod16(k) != Mod16(t)
  {
  }

  lemma Around(x: nat)
    ensures Mod16(x + 16) == Mod16(x)
  {
  }

  lemma Behind(t: nat, j: nat)
    ensures Mod16(Mod16(t) + j) == Mod16(t + j)
  {
  }

  lemma WStep(block: seq<Word>, t: nat)
    requires |block| == 16 && t >= 16
    ensures W(block, t) == Rol1(Xor(Xor(Xor(W(block, t - 3), W(block, t - 8)), W(block, t - 14)), W(block, t - 16)))
  {
  }

  /** blk */
  function Blk(b: seq<Word>, i: nat): Word
    requires |b| == 16 && i < 16
  {
    Rol1(Xor(Xor(Xor(b[Mod16(i + 13)], b[Mod16(i + 8)]), b[Mod16(i + 2)]), b[i]))
  }

  /** A word is replaced by the one sixteen further on. */
  lemma NextWord(b: seq<Word>, block: seq<Word>, t: nat, i: nat)
    requires |b| == 16 == |block| && t >= 16 && Holds(b, block, t) && i == Mod16(t)
    ensures Blk(b, i) == W(block, t) && Holds(b[i := Blk(b, i)], block, t + 1)
  {
    hide Xor, Rol1, W, Mod16, Holds;
    NextBlk(b, block, t, i);
    NextHolds(b, block, t, i);
  }

  lemma NextHolds(b: seq<Word>, block: seq<Word>, t: nat, i: nat)
    requires |b| == 16 == |block| && t >= 16 && Holds(b, block, t) && i == Mod16(t)
    ensures Holds(b[i := W(block, t)], block, t + 1)
  {
    hide W, Mod16;
    forall k | t - 15 <= k < t
      ensures Mod16(k) != Mod16(t)
    {
      Sixteen(t, k);
    }
  }

  lemma NextBlk(b: seq<Word>, block: seq<Word>, t: nat, i: nat)
    requires |b| == 16 == |block| && t >= 16 && Holds(b, block, t) && i == Mod16(t)
    ensures Blk(b, i) == W(block, t)
  {
    hide Xor, Rol1, W, Mod16;
    WStep(block, t);
    Around(t - 3);
    Around(t - 8);
    Around(t - 14);
    Around(t - 16);
    Behind(t, 13);
    Behind(t, 8);
    Behind(t, 2);
    assert b[Mod16(t - 3)] == W(block, t - 3) && b[Mod16(t - 8)] == W(block, t - 8);
    assert b[Mod16(t - 14)] == W(block, t - 14) && b[Mod16(t - 16)] == W(block, t - 16);
  }

  // The program.

  function RegsOf(h: seq<Word>): Regs
    requires |h| == 5
  {
    Regs(h[0], h[1], h[2], h[3], h[4])
  }

  /** A round in place. */
  method Step(a: array<Word>, i: nat, f: Word, w: Word, k: Word)
    requires a.Length == 5
    modifies a
    ensures a[..] == InPlace(old(a[..]), i, f, w, k)
  {
    hide Add, Rol5, Rol30;
    a[Mod5(i)] := Add(a[Mod5(i)], Add(Add(Add(f, w), k), Rol5(a[Mod5(4 + i)])));
    a[Mod5(3 + i)] := Rol30(a[Mod5(3 + i)]);
  }

  /** Where the compression stands at round t. */
  ghost predicate Reached(a: array<Word>, b: array<Word>, h: Regs, block: seq<Word>, t: nat)
    reads a, b
  {
    && a.Length == 5 && b.Length == 16 == |block| && At(a[..], t) == Rounds(h, block, t)
    && (if t < 16 then b[..] == block else Holds(b[..], block, t))
  }

  /** From one round to the next. */
  lemma RoundDone(a: seq<Word>, t: nat, i: nat, h: Regs, block: seq<Word>, w: Word)
    requires |a| == 5 && |block| == 16 && Mod5(t) == Mod5(i) && At(a, t) == Rounds(h, block, t) && w == W(block, t)
    ensures var r := At(a, i);
      At(InPlace(a, i, F(t, r.b, r.c, r.d), w, K(t)), t + 1) == Rounds(h, block, t + 1)
  {
    hide Add, F, K, Rol5, Rol30, W, InPlace, At, Round;
    InPlaceIsRound(a, t, i, w);
    SamePlace(a, t, i);
  }

  /** A round of the program, where f is what the functions of the round make of b, c and d. */
  method Turn(a: array<Word>, b: array<Word>, i: nat, f: Word, w: Word, k: Word, ghost t: nat, ghost h: Regs, ghost block: seq<Word>)
    requires a.Length == 5 && b.Length == 16 == |block| && a != b
    requires Mod5(t) == Mod5(i) && At(a[..], t) == Rounds(h, block, t) && w == W(block, t)
    requires var r := At(a[..], i); f == F(t, r.b, r.c, r.d) && k == K(t)
    modifies a
    ensures At(a[..], t + 1) == Rounds(h, block, t + 1)
  {
    hide F, K, W, InPlace, At, Rounds, Mod5;
    RoundDone(a[..], t, i, h, block, w);
    Step(a, i, f, w, k);
  }

  /** The schedule moves on by one word. */
  method Refill(b: array<Word>, j: nat, ghost t: nat, ghost block: seq<Word>)
    requires b.Length == 16 == |block| && t >= 16 && j == Mod16(t) && Holds(b[..], block, t)
    modifies b
    ensures Holds(b[..], block, t + 1) && b[j] == W(block, t)
  {
    hide Blk, Holds, W, Mod16;
    NextWord(b[..], block, t, j);
    ghost var was := b[..];
    b[j] := Blk(b[..], j);
    assert b[..] == was[j := Blk(was, j)];
  }

  lemma First16(b: seq<Word>, block: seq<Word>)
    requires |b| == 16 && b == block
    ensures Holds(b, block, 16)
  {
  }

  /** Sha1Loop<1> */
  method Loop1(a: array<Word>, b: array<Word>, ghost h: Regs, ghost block: seq<Word>)
    requires Reached(a, b, h, block, 0) && a != b
    modifies a
    ensures Reached(a, b, h, block, 16)
  {
    hide Rounds, Choose, Ch, Add, Holds, Mod5;
    for i := 0 to 16
      invariant At(a[..], i) == Rounds(h, block, i)
    {
      ChooseIs(a[Mod5(3 + i)], a[Mod5(2 + i)], a[Mod5(1 + i)]);
      Turn(a, b, i, Choose(a[Mod5(3 + i)], a[Mod5(2 + i)], a[Mod5(1 + i)]), b[i], 0x5A82_7999, i, h, block);
    }
    First16(b[..], block);
  }

  /** Sha1Loop<2> */
  method Loop2(a: array<Word>, b: array<Word>, ghost h: Regs, ghost block: seq<Word>)
    requires Reached(a, b, h, block, 16) && a != b
    modifies a, b
    ensures Reached(a, b, h, block, 20)
  {
    hide Rounds, Choose, Ch, Add, Holds, W;
    for i := 0 to 4
      invariant At(a[..], 16 + i) == Rounds(h, block, 16 + i) && Holds(b[..], block, 16 + i)
    {
      Refill(b, i, 16 + i, block);
      ChooseIs(a[Mod5(4 + i)], a[Mod5(3 + i)], a[Mod5(2 + i)]);
      Turn(a, b, 1 + i, Choose(a[Mod5(4 + i)], a[Mod5(3 + i)], a[Mod5(2 + i)]), b[i], 0x5A82_7999, 16 + i, h, block);
    }
  }

  lemma Places(i: nat)
    requires i < 20
    ensures Mod16(i + 4) == Mod16(20 + i) && Mod16(i + 8) == Mod16(40 + i) && Mod16(i + 12) == Mod16(60 + i)
    ensures Mod5(20 + i) == Mod5(i) && Mod5(40 + i) == Mod5(i) && Mod5(60 + i) == Mod5(i)
  {
  }

  /** Sha1Loop<3> */
  method Loop3(a: array<Word>, b: array<Word>, ghost h: Regs, ghost block: seq<Word>)
    requires Reached(a, b, h, block, 20) && a != b
    modifies a, b
    ensures Reached(a, b, h, block, 40)
  {
    hide Rounds, Parity, Add, Holds, W, Mod5, Mod16;
    for i := 0 to 20
      invariant At(a[..], 20 + i) == Rounds(h, block, 20 + i) && Holds(b[..], block, 20 + i)
    {
      Places(i);
      Refill(b, Mod16(i + 4), 20 + i, block);
      Turn(a, b, i, Parity(a[Mod5(3 + i)], a[Mod5(2 + i)], a[Mod5(1 + i)]), b[Mod16(i + 4)], 0x6ED9_EBA1, 20 + i, h, block);
    }
  }

  /** Sha1Loop<4> */
  method Loop4(a: array<Word>, b: array<Word>, ghost h: Regs, ghost block: seq<Word>)
    requires Reached(a, b, h, block, 40) && a != b
    modifies a, b
    ensures Reached(a, b, h, block, 60)
  {
    hide Rounds, Maj, Majority, Add, Holds, W, Mod5, Mod16;
    for i := 0 to 20
      invariant At(a[..], 40 + i) == Rounds(h, block, 40 + i) && Holds(b[..], block, 40 + i)
    {
      Places(i);
      Refill(b, Mod16(i + 8), 40 + i, block);
      MajorityIs(a[Mod5(3 + i)], a[Mod5(2 + i)], a[Mod5(1 + i)]);
      Turn(a, b, i, Majority(a[Mod5(3 + i)], a[Mod5(2 + i)], a[Mod5(1 + i)]), b[Mod16(i + 8)], 0x8F1B_BCDC, 40 + i, h, block);
    }
  }

  /** Sha1Loop<5> */
  method Loop5(a: array<Word>, b: array<Word>, ghost h: Regs, ghost block: seq<Word>)
    requires Reached(a, b, h, block, 60) && a != b
    modifies a, b
    ensures Reached(a, b, h, block, 80)
  {
    hide Rounds, Parity, Add, Holds, W, Mod5, Mod16;
    for i := 0 to 20
      invariant At(a[..], 60 + i) == Rounds(h, block, 60 + i) && Holds(b[..], block, 60 + i)
    {
      Places(i);
      Refill(b, Mod16(i + 12), 60 + i, block);
      Turn(a, b, i, Parity(a[Mod5(3 + i)], a[Mod5(2 + i)], a[Mod5(1 + i)]), b[Mod16(i + 12)], 0xCA62_C1D6, 60 + i, h, block);
    }
  }

  /** sha1: for every state and every block, the compression of section 6.1.2. */
  method Compression(hash: array<Word>, b: array<Word>)
    requires hash.Length == 5 && b.Length == 16 && hash != b
    modifies hash, b
    ensures RegsOf(hash[..]) == Compress(RegsOf(old(hash[..])), old(b[..]))
  {
    hide Rounds, Add, Holds, W, At;
    ghost var h, block := RegsOf(hash[..]), b[..];
    var a := new Word[5][hash[4], hash[3], hash[2], hash[1], hash[0]];
    WholeTurns(a[..]);
    NoRounds(h, block);
    Loop1(a, b, h, block);
    Loop2(a, b, h, block);
    Loop3(a, b, h, block);
    Loop4(a, b, h, block);
    Loop5(a, b, h, block);
    WholeTurns(a[..]);
    assert hash[..] == old(hash[..]);
    ghost var r := At(a[..], 80);
    CompressIs(h, block, r);
    Loop6(a, hash);
    assert hash[0] == Add(a[4], h.a) && hash[1] == Add(a[3], h.b) && hash[2] == Add(a[2], h.c);
    assert hash[3] == Add(a[1], h.d) && hash[4] == Add(a[0], h.e);
  }

  lemma CompressIs(h: Regs, block: seq<Word>, r: Regs)
    requires |block| == 16 && r == Rounds(h, block, 80)
    ensures Compress(h, block) == Regs(Add(r.a, h.a), Add(r.b, h.b), Add(r.c, h.c), Add(r.d, h.d), Add(r.e, h.e))
  {
    hide Rounds, Add;
  }

  /** After a multiple of five rounds the registers are where they were. */
  lemma WholeTurns(a: seq<Word>)
    requires |a| == 5
    ensures At(a, 0) == At(a, 80) == Regs(a[4], a[3], a[2], a[1], a[0])
  {
  }

  /** Sha1Loop<6> */
  method Loop6(a: array<Word>, hash: array<Word>)
    requires a.Length == 5 == hash.Length && a != hash
    modifies hash
    ensures forall j | 0 <= j < 5 :: hash[j] == Add(a[4 - j], old(hash[j]))
  {
    hide Add;
    for i := 0 to 5
      invariant forall j | 0 <= j < 5 :: hash[j] == if j < i then Add(a[4 - j], old(hash[j])) else old(hash[j])
    {
      hash[i] := Add(a[4 - i], hash[i]);
    }
  }

  lemma NoRounds(h: Regs, block: seq<Word>)
    requires |block| == 16
    ensures Rounds(h, block, 0) == h
  {
  }
}
