/** The table-driven UTF-8 validator, and the grammar and the encodings of RFC 3629 that it accepts exactly. */
module Utf8 {
  import opened Bits

  // The grammar of section 4.

  predicate In(b: Byte, lo: nat, hi: nat) {
    lo <= Num(b) <= hi
  }

  predicate Tail(b: Byte) {
    In(b, 0x80, 0xBF)
  }

  predicate Two(s: seq<Byte>) {
    |s| >= 2 && In(s[0], 0xC2, 0xDF) && Tail(s[1])
  }

  predicate Three(s: seq<Byte>) {
    |s| >= 3 && Tail(s[2]) &&
      ((In(s[0], 0xE0, 0xE0) && In(s[1], 0xA0, 0xBF)) || (In(s[0], 0xE1, 0xEC) && Tail(s[1]))
       || (In(s[0], 0xED, 0xED) && In(s[1], 0x80, 0x9F)) || (In(s[0], 0xEE, 0xEF) && Tail(s[1])))
  }

  predicate Four(s: seq<Byte>) {
    |s| >= 4 && Tail(s[2]) && Tail(s[3]) &&
      ((In(s[0], 0xF0, 0xF0) && In(s[1], 0x90, 0xBF)) || (In(s[0], 0xF1, 0xF3) && Tail(s[1]))
       || (In(s[0], 0xF4, 0xF4) && In(s[1], 0x80, 0x8F)))
  }

  /** UTF8-octets: a sequence of UTF8-char */
  predicate Octets(s: seq<Byte>)
    decreases |s|
  {
    || s == []
    || (In(s[0], 0, 0x7F) && Octets(s[1..]))
    || (Two(s) && Octets(s[2..]))
    || (Three(s) && Octets(s[3..]))
    || (Four(s) && Octets(s[4..]))
  }

  // The table.

  type State = s: nat | s < 9

  const ACCEPT: State := 0
  const REJECT: State := 1

  /** utf8d[byte] */
  function Class(b: Byte): (c: nat)
    ensures c < 12
  {
    if In(b, 0, 0x7F) then 0
    else if In(b, 0x80, 0x8F) then 1
    else if In(b, 0x90, 0x9F) then 9
    else if In(b, 0xA0, 0xBF) then 7
    else if In(b, 0xC0, 0xC1) then 8
    else if In(b, 0xC2, 0xDF) then 2
    else if In(b, 0xE0, 0xE0) then 10
    else if In(b, 0xED, 0xED) then 4
    else if In(b, 0xE1, 0xEF) then 3
    else if In(b, 0xF0, 0xF0) then 11
    else if In(b, 0xF1, 0xF3) then 6
    else if In(b, 0xF4, 0xF4) then 5
    else 8
  }

  /** utf8d[256 + state * 16 + class] */
  function Move(s: State, c: nat): State {
    match s
    case 0 =>
      if c == 0 then 0 else if c == 2 then 2 else if c == 3 then 3 else if c == 10 then 4 else if c == 4 then 5
      else if c == 11 then 6 else if c == 6 then 7 else if c == 5 then 8 else 1
    case 1 => 1
    case 2 => if c == 1 || c == 7 || c == 9 then 0 else 1
    case 3 => if c == 1 || c == 7 || c == 9 then 2 else 1
    case 4 => if c == 7 then 2 else 1
    case 5 => if c == 1 || c == 9 then 2 else 1
    case 6 => if c == 7 || c == 9 then 3 else 1
    case 7 => if c == 1 || c == 7 || c == 9 then 3 else 1
    case _ => if c == 1 then 3 else 1
  }

  /** 0xff >> k, as a mask of low bits */
  function Mask(k: nat): nat {
    if k >= 8 then 0 else 8 - k
  }

  /** decodeNextByte: the code point in 32 bits */
  function NextPoint(s: State, point: nat, b: Byte): nat {
    if s != ACCEPT then BitOr(Low(Num(b), 6), Low(Shl(point, 6), 32)) else Low(Num(b), Mask(Class(b)))
  }

  function NextState(s: State, b: Byte): State {
    Move(s, Class(b))
  }

  /** The state behind a byte string. */
  function Run(s: State, bytes: seq<Byte>): State
    decreases |bytes|
  {
    if bytes == [] then s else Run(NextState(s, bytes[0]), bytes[1..])
  }

  // What is missing in each state.

  predicate Rest(s: State, bytes: seq<Byte>) {
    match s
    case 0 => Octets(bytes)
    case 1 => false
    case 2 => bytes != [] && Tail(bytes[0]) && Octets(bytes[1..])
    case 3 => |bytes| >= 2 && Tail(bytes[0]) && Tail(bytes[1]) && Octets(bytes[2..])
    case 4 => |bytes| >= 2 && In(bytes[0], 0xA0, 0xBF) && Tail(bytes[1]) && Octets(bytes[2..])
    case 5 => |bytes| >= 2 && In(bytes[0], 0x80, 0x9F) && Tail(bytes[1]) && Octets(bytes[2..])
    case 6 => |bytes| >= 3 && In(bytes[0], 0x90, 0xBF) && Tail(bytes[1]) && Tail(bytes[2]) && Octets(bytes[3..])
    case 7 => |bytes| >= 3 && Tail(bytes[0]) && Tail(bytes[1]) && Tail(bytes[2]) && Octets(bytes[3..])
    case _ => |bytes| >= 3 && In(bytes[0], 0x80, 0x8F) && Tail(bytes[1]) && Tail(bytes[2]) && Octets(bytes[3..])
  }

  lemma Tails(bytes: seq<Byte>)
    requires bytes != []
    ensures forall k | 1 <= k <= |bytes| :: bytes[1..][k - 1..] == bytes[k..]
  {
  }

  lemma FirstStep(bytes: seq<Byte>)
    requires bytes != []
    ensures Rest(0, bytes) == Rest(NextState(0, bytes[0]), bytes[1..])
  {
    Tails(bytes);
  }

  lemma LaterStep(s: State, bytes: seq<Byte>)
    requires bytes != [] && s != 0
    ensures Rest(s, bytes) == Rest(NextState(s, bytes[0]), bytes[1..])
  {
    hide Octets;
    Tails(bytes);
  }

  /** From every state the table accepts exactly what is missing. */
  lemma {:induction false} RunAccepts(s: State, bytes: seq<Byte>)
    ensures Run(s, bytes) == ACCEPT <==> Rest(s, bytes)
    decreases |bytes|
  {
    if bytes != [] {
      hide Rest, NextState;
      if s == 0 {
        FirstStep(bytes);
      } else {
        LaterStep(s, bytes);
      }
      RunAccepts(NextState(s, bytes[0]), bytes[1..]);
    }
  }

  lemma {:induction false} RunConcat(s: State, a: seq<Byte>, b: seq<Byte>)
    ensures Run(s, a + b) == Run(Run(s, a), b)
    decreases |a|
  {
    if a == [] {
      assert a + b == b;
    } else {
      assert (a + b)[1..] == a[1..] + b;
      RunConcat(NextState(s, a[0]), a[1..], b);
    }
  }

  lemma {:induction false} Rejected(bytes: seq<Byte>)
    ensures Run(REJECT, bytes) == REJECT
  {
    if bytes != [] {
      Rejected(bytes[1..]);
    }
  }

  /** Utf8Validator */
  class Validator {
    var state: State
    var point: nat

    constructor ()
      ensures state == ACCEPT && point == 0
    {
      state, point := ACCEPT, 0;
    }

    /** consume */
    method Consume(b: Byte) returns (ok: bool)
      modifies this
      ensures state == NextState(old(state), b) && point == NextPoint(old(state), old(point), b) && ok == (state != REJECT)
    {
      point := NextPoint(state, point, b);
      state := NextState(state, b);
      ok := state != REJECT;
    }

    /** decode: it stops at the first byte that cannot be; in pieces or whole, it comes to the same state. */
    method Decode(bytes: seq<Byte>) returns (ok: bool)
      modifies this
      ensures state == Run(old(state), bytes)
      ensures ok <==> bytes == [] || state != REJECT
    {
      var i := 0;
      ok := true;
      assert bytes[0..] == bytes;
      while i < |bytes|
        invariant 0 <= i <= |bytes| && Run(state, bytes[i..]) == Run(old(state), bytes)
        invariant i > 0 ==> state != REJECT
      {
        assert bytes[i..][1..] == bytes[i + 1..];
        var good := Consume(bytes[i]);
        if !good {
          Rejected(bytes[i + 1..]);
          return false;
        }
        i := i + 1;
      }
    }

    /** complete */
    method Complete() returns (ok: bool)
      ensures ok == (state == ACCEPT)
    {
      ok := state == ACCEPT;
    }
  }

  /** validateUtf8: it accepts the byte strings of the grammar, and no others. */
  method ValidateUtf8(bytes: seq<Byte>) returns (ok: bool)
    ensures ok <==> Octets(bytes)
  {
    var v := new Validator();
    RunAccepts(ACCEPT, bytes);
    ok := v.Decode(bytes);
    if ok {
      ok := v.Complete();
    }
  }

  // Code points.

  /** Every code point but the surrogates, up to U+10FFFF. */
  type Scalar = c: nat | c < 0xD800 || 0xE000 <= c < 0x11_0000

  /** A number without its low six bits, and those. */
  function High(c: nat): nat { c / 64 }

  function Six(c: nat): nat { c % 64 }

  lemma Split(c: nat)
    ensures c == High(c) * 64 + Six(c) && Six(c) < 64
  {
  }

  lemma Join(h: nat, l: nat)
    requires l < 64
    ensures High(h * 64 + l) == h && Six(h * 64 + l) == l
  {
  }

  /** The encoding of section 3 of RFC 3629. */
  function Encode(c: Scalar): (bytes: seq<Byte>)
    ensures 1 <= |bytes| <= 4
  {
    if c < 0x80 then [Octet(c)]
    else if c < 0x800 then [Octet(0xC0 + High(c)), Octet(0x80 + Six(c))]
    else if c < 0x1_0000 then [Octet(0xE0 + High(High(c))), Octet(0x80 + Six(High(c))), Octet(0x80 + Six(c))]
    else [Octet(0xF0 + High(High(High(c)))), Octet(0x80 + Six(High(High(c)))), Octet(0x80 + Six(High(c))), Octet(0x80 + Six(c))]
  }

  function EncodeAll(points: seq<Scalar>): seq<Byte> {
    if points == [] then [] else Encode(points[0]) + EncodeAll(points[1..])
  }

  /** A later byte adds its six low bits. */
  lemma AddsSix(s: State, point: nat, b: Byte)
    requires s != ACCEPT && point < 0x20_0000
    ensures NextPoint(s, point, b) == point * 64 + Num(b) % 64
  {
    hide Low, BitOr, Shl, Pow2, Num;
    Powers();
    LowIsMod(Num(b), 6);
    ShlIsTimes(point, 6);
    LowIsMod(Shl(point, 6), 32);
    OrSum(point, Num(b) % 64, 6);
  }

  /** A first byte gives what its class leaves of it. */
  lemma Leads(point: nat, b: Byte)
    ensures NextPoint(ACCEPT, point, b) == Num(b) % Pow2(Mask(Class(b)))
  {
    hide Low, Pow2, Class, Num;
    LowIsMod(Num(b), Mask(Class(b)));
  }

  /** The state and the code point behind a byte string. */
  function Reads(s: State, point: nat, bytes: seq<Byte>): (State, nat)
    decreases |bytes|
  {
    if bytes == [] then (s, point) else Reads(NextState(s, bytes[0]), NextPoint(s, point, bytes[0]), bytes[1..])
  }

  lemma ReadsOne(s: State, point: nat, b: Byte, rest: seq<Byte>)
    ensures Reads(s, point, [b] + rest) == Reads(NextState(s, b), NextPoint(s, point, b), rest)
  {
    assert ([b] + rest)[1..] == rest;
  }

  lemma {:induction false} ReadsRun(s: State, point: nat, bytes: seq<Byte>)
    ensures Reads(s, point, bytes).0 == Run(s, bytes)
    decreases |bytes|
  {
    if bytes != [] {
      ReadsRun(NextState(s, bytes[0]), NextPoint(s, point, bytes[0]), bytes[1..]);
    }
  }

  /** What a first byte makes of the state and of the code point. */
  lemma LeadTwo(q: nat, point: nat)
    requires 2 <= q < 32
    ensures var b := Octet(0xC0 + q); NextState(0, b) == 2 && NextPoint(0, point, b) == q
  {
    hide Low, Octet, NextPoint, Pow2, Num;
    Powers();
    NumOf(0xC0 + q);
    Leads(point, Octet(0xC0 + q));
  }

  lemma LeadThree(q: nat, point: nat)
    requires q < 16
    ensures var b := Octet(0xE0 + q);
      NextPoint(0, point, b) == q && NextState(0, b) == (if q == 0 then 4 else if q == 13 then 5 else 3)
  {
    hide Low, Octet, NextPoint, Pow2, Num;
    Powers();
    NumOf(0xE0 + q);
    Leads(point, Octet(0xE0 + q));
  }

  lemma LeadFour(q: nat, point: nat)
    requires q < 5
    ensures var b := Octet(0xF0 + q);
      NextPoint(0, point, b) == q && NextState(0, b) == (if q == 0 then 6 else if q == 4 then 8 else 7)
  {
    hide Low, Octet, NextPoint, Pow2, Num;
    Powers();
    NumOf(0xF0 + q);
    Leads(point, Octet(0xF0 + q));
  }

  lemma LeadOne(c: nat, point: nat)
    requires c < 0x80
    ensures NextState(0, Octet(c)) == 0 && NextPoint(0, point, Octet(c)) == c
  {
    hide Low, Octet, NextPoint, Pow2, Num;
    Powers();
    NumOf(c);
    Leads(point, Octet(c));
  }

  /** What a tail byte makes of them, where the state allows it. */
  lemma TailByte(s: State, t: State, point: nat, r: nat)
    requires r < 64 && point < 0x20_0000
    requires (s == 2 && t == 0) || (s == 3 && t == 2) || (s == 4 && r >= 0x20 && t == 2) || (s == 5 && r < 0x20 && t == 2)
      || (s == 6 && r >= 0x10 && t == 3) || (s == 7 && t == 3) || (s == 8 && r < 0x10 && t == 3)
    ensures var b := Octet(0x80 + r); NextState(s, b) == t && NextPoint(s, point, b) == point * 64 + r
  {
    hide Octet, NextPoint, Num;
    NumOf(0x80 + r);
    AddsSix(s, point, Octet(0x80 + r));
  }

  lemma ReadsThree(h: nat, m: nat, l: nat, point: nat)
    requires ThreeFit(h, m) && l < 64
    ensures Reads(ACCEPT, point, [Octet(0xE0 + h), Octet(0x80 + m), Octet(0x80 + l)]) == (ACCEPT, (h * 64 + m) * 64 + l)
  {
    hide Octet, NextPoint, NextState, Reads;
    LeadThree(h, point);
    var s: State := if h == 0 then 4 else if h == 13 then 5 else 3;
    TailByte(s, 2, h, m);
    TailByte(2, 0, h * 64 + m, l);
    var b0, b1, b2 := Octet(0xE0 + h), Octet(0x80 + m), Octet(0x80 + l);
    assert [b0, b1, b2] == [b0] + [b1, b2];
    ReadsMore(ACCEPT, point, b0, [b1, b2]);
    ReadsTwo(s, h, b1, b2);
  }

  lemma ReadsFour(h: nat, m: nat, l: nat, k: nat, point: nat)
    requires FourFit(h, m) && l < 64 && k < 64
    ensures Reads(ACCEPT, point, [Octet(0xF0 + h), Octet(0x80 + m), Octet(0x80 + l), Octet(0x80 + k)])
         == (ACCEPT, ((h * 64 + m) * 64 + l) * 64 + k)
  {
    hide Octet, NextPoint, NextState, Reads;
    LeadFour(h, point);
    var s: State := if h == 0 then 6 else if h == 4 then 8 else 7;
    TailByte(s, 3, h, m);
    TailByte(3, 2, h * 64 + m, l);
    TailByte(2, 0, (h * 64 + m) * 64 + l, k);
    var b0, b1, b2, b3 := Octet(0xF0 + h), Octet(0x80 + m), Octet(0x80 + l), Octet(0x80 + k);
    assert [b0, b1, b2, b3] == [b0] + ([b1] + [b2, b3]);
    ReadsMore(ACCEPT, point, b0, [b1] + [b2, b3]);
    ReadsMore(s, h, b1, [b2, b3]);
    ReadsTwo(3, h * 64 + m, b2, b3);
  }

  /** The values of three bytes that are no surrogate and no overlong form. */
  predicate ThreeFit(h: nat, m: nat) {
    h < 16 && m < 64 && (h == 0 ==> m >= 32) && (h == 13 ==> m < 32)
  }

  /** The values of four bytes that are no overlong form and not above U+10FFFF. */
  predicate FourFit(h: nat, m: nat) {
    h < 5 && m < 64 && (h == 0 ==> m >= 16) && (h == 4 ==> m < 16)
  }

  /** The table reads an encoding to its end, never rejecting, and comes to the code point. */
  lemma EncodingReads(c: Scalar, point: nat)
    ensures Reads(ACCEPT, point, Encode(c)) == (ACCEPT, c)
  {
    hide Octet, NextPoint, NextState, Reads, High, Six;
    Split(c);
    Split(High(c));
    Split(High(High(c)));
    if c < 0x80 {
      LeadOne(c, point);
      ReadsTwo(ACCEPT, point, Octet(c), 0);
    } else if c < 0x800 {
      LeadTwo(High(c), point);
      TailByte(2, 0, High(c), Six(c));
      ReadsTwo(ACCEPT, point, Octet(0xC0 + High(c)), Octet(0x80 + Six(c)));
    } else if c < 0x1_0000 {
      ReadsThree(High(High(c)), Six(High(c)), Six(c), point);
    } else {
      ReadsFour(High(High(High(c))), Six(High(High(c))), Six(High(c)), Six(c), point);
    }
  }

  /** Bytes, one after the other. */
  lemma ReadsTwo(s: State, point: nat, b0: Byte, b1: Byte)
    ensures var s1, p1 := NextState(s, b0), NextPoint(s, point, b0);
      Reads(s, point, [b0, b1]) == (NextState(s1, b1), NextPoint(s1, p1, b1)) && Reads(s, point, [b0]) == (s1, p1)
  {
    hide NextState, NextPoint;
    ReadsOne(s, point, b0, [b1]);
    ReadsOne(s, point, b0, []);
    ReadsOne(NextState(s, b0), NextPoint(s, point, b0), b1, []);
    assert [b0] + [b1] == [b0, b1] && [b1] + [] == [b1] && [b0] + [] == [b0];
  }

  lemma ReadsMore(s: State, point: nat, b0: Byte, rest: seq<Byte>)
    ensures Reads(s, point, [b0] + rest) == Reads(NextState(s, b0), NextPoint(s, point, b0), rest)
  {
    hide NextState, NextPoint;
    ReadsOne(s, point, b0, rest);
  }

  /** Every encoded text is accepted. */
  lemma {:induction false} EncodingsAreOctets(points: seq<Scalar>)
    ensures Octets(EncodeAll(points))
  {
    hide Encode, Octets;
    RunAccepts(ACCEPT, EncodeAll(points));
    EncodingsRun(points);
  }

  lemma {:induction false} EncodingsRun(points: seq<Scalar>)
    ensures Run(ACCEPT, EncodeAll(points)) == ACCEPT
  {
    if points != [] {
      hide Encode;
      RunConcat(ACCEPT, Encode(points[0]), EncodeAll(points[1..]));
      EncodingReads(points[0], 0);
      ReadsRun(ACCEPT, 0, Encode(points[0]));
      EncodingsRun(points[1..]);
    }
  }

  /** And nothing else is: no overlong form, no surrogate, nothing above U+10FFFF. */
  lemma {:induction false} OctetsAreEncodings(s: seq<Byte>) returns (points: seq<Scalar>)
    requires Octets(s)
    ensures EncodeAll(points) == s
    decreases |s|
  {
    hide Encode;
    points := [];
    if s != [] {
      var c := FirstPoint(s);
      var n := |Encode(c)|;
      var rest := OctetsAreEncodings(s[n..]);
      points := [c] + rest;
      assert points[1..] == rest && s == s[..n] + s[n..];
    }
  }

  lemma FirstPoint(s: seq<Byte>) returns (c: Scalar)
    requires s != [] && Octets(s)
    ensures |Encode(c)| <= |s| && s[..|Encode(c)|] == Encode(c) && Octets(s[|Encode(c)|..])
  {
    hide Octets, Octet, Num;
    var n := CharLength(s);
    if n == 1 {
      c := Num(s[0]);
      SameByte(s[0], c);
    } else if n == 2 {
      c := TwoBytes(s);
    } else if n == 3 {
      c := ThreeBytes(s);
    } else {
      c := FourBytes(s);
    }
  }

  lemma CharLength(s: seq<Byte>) returns (n: nat)
    requires s != [] && Octets(s)
    ensures 1 <= n <= 4 && n <= |s| && Octets(s[n..])
    ensures n == 1 ==> In(s[0], 0, 0x7F)
    ensures n == 2 ==> Two(s)
    ensures n == 3 ==> Three(s)
    ensures n == 4 ==> Four(s)
  {
    n := if In(s[0], 0, 0x7F) && Octets(s[1..]) then 1
      else if Two(s) && Octets(s[2..]) then 2
      else if Three(s) && Octets(s[3..]) then 3 else 4;
  }

  lemma SameByte(b: Byte, n: nat)
    requires Num(b) == n
    ensures Octet(n) == b
  {
    hide ByteOf;
  }

  lemma TwoBytes(s: seq<Byte>) returns (c: Scalar)
    requires Two(s)
    ensures Encode(c) == s[..2]
  {
    hide Octet, Num, High, Six;
    var h: nat, l: nat := Num(s[0]) - 0xC0, Num(s[1]) - 0x80;
    Join(h, l);
    c := h * 64 + l;
    SameByte(s[0], 0xC0 + h);
    SameByte(s[1], 0x80 + l);
  }

  lemma ThreeBytes(s: seq<Byte>) returns (c: Scalar)
    requires Three(s)
    ensures Encode(c) == s[..3]
  {
    hide Octet, Num, High, Six;
    var h: nat, m: nat, l: nat := Num(s[0]) - 0xE0, Num(s[1]) - 0x80, Num(s[2]) - 0x80;
    Join(h, m);
    Join(h * 64 + m, l);
    c := (h * 64 + m) * 64 + l;
    SameByte(s[0], 0xE0 + h);
    SameByte(s[1], 0x80 + m);
    SameByte(s[2], 0x80 + l);
  }

  lemma FourBytes(s: seq<Byte>) returns (c: Scalar)
    requires Four(s)
    ensures Encode(c) == s[..4]
  {
    hide Octet, Num, High, Six;
    var h: nat, m: nat, l: nat, k: nat := Num(s[0]) - 0xF0, Num(s[1]) - 0x80, Num(s[2]) - 0x80, Num(s[3]) - 0x80;
    Join(h, m);
    Join(h * 64 + m, l);
    Join((h * 64 + m) * 64 + l, k);
    c := ((h * 64 + m) * 64 + l) * 64 + k;
    SameByte(s[0], 0xF0 + h);
    SameByte(s[1], 0x80 + m);
    SameByte(s[2], 0x80 + l);
    SameByte(s[3], 0x80 + k);
  }
}
