/** Frames fed to the decoder in pieces. */
module FlacFrameStream {
  import opened Bits
  import opened FlacSpec
  import opened FlacFrameSpec
  import opened FlacResidual
  import opened FlacFrameDecoder
  import opened FlacFrameCoding
  import opened FlacFrameCuts
  import opened Samples

  /** Where the calls that bring these pieces end, the last one left out: how many bits come after. */
  function Cuts(pieces: seq<seq<Byte>>): set<nat> {
    if |pieces| <= 1 then {} else {8 * |Flat(pieces[1..])|} + Cuts(pieces[1..])
  }

  lemma {:induction false} FlatShrinks(pieces: seq<seq<Byte>>, i: nat)
    requires i <= |pieces|
    ensures |Flat(pieces[i..])| <= |Flat(pieces)|
    decreases i
  {
    if i > 0 {
      assert pieces[1..][i - 1..] == pieces[i..];
      FlatShrinks(pieces[1..], i - 1);
    } else {
      assert pieces[0..] == pieces;
    }
  }

  lemma {:induction false} CutsBehind(pieces: seq<seq<Byte>>)
    requires pieces != []
    ensures forall c | c in Cuts(pieces) :: 8 * |pieces[|pieces| - 1]| <= c <= 8 * |Flat(pieces[1..])|
    decreases |pieces|
  {
    if |pieces| > 1 {
      var tail := pieces[1..];
      CutsBehind(tail);
      assert tail[|tail| - 1] == pieces[|pieces| - 1];
      FlatShrinks(tail, 1);
      FlatShrinks(tail, |tail| - 1);
      assert tail[|tail| - 1..] == [pieces[|pieces| - 1]];
      OneFlat(pieces[|pieces| - 1]);
    }
  }

  lemma OneFlat(piece: seq<Byte>)
    ensures Flat([piece]) == piece
  {
    assert [piece][1..] == [];
  }

  /** No call ends inside a piece, and one ends before every piece but the first. */
  lemma {:induction false} CutsApart(pieces: seq<seq<Byte>>, i: nat)
    requires i < |pieces|
    ensures forall c | c in Cuts(pieces) :: c <= 8 * |Flat(pieces[i + 1..])| || c >= 8 * |Flat(pieces[i..])|
    ensures i > 0 ==> 8 * |Flat(pieces[i..])| in Cuts(pieces)
    decreases i
  {
    if i == 0 {
      CutsBehind(pieces);
      assert pieces[0..] == pieces;
    } else {
      var tail := pieces[1..];
      CutsApart(tail, i - 1);
      assert tail[i - 1..] == pieces[i..] && tail[i..] == pieces[i + 1..];
      assert i == 1 ==> tail == pieces[i..];
      FlatShrinks(tail, i - 1);
    }
  }

  /** What a decoder reports, as an outcome of the frame. */
  ghost function Reported(d: FrameDecoder, r: Result, used: nat): Outcome
    reads d
  {
    match r
    case Success => Frame(Recombined(d.hdr, d.done), used)
    case NeedMoreData => Incomplete
    case Failed(e) => Refused(e)
  }

  /** Feeds one frame piece by piece, until the decoder is done with it; used counts the bytes it took. */
  method Feed(d: FrameDecoder, pieces: seq<seq<Byte>>) returns (r: Result, used: nat)
    requires d.Valid() && d.stage.Idle?
    modifies d, d.block, d.side, d.sub, d.sub.reader
    ensures d.Valid()
    ensures Reported(d, r, used) == FrameOf(d.info, d.crcOn, Flat(pieces), Cuts(pieces))
    ensures r.Success? ==> d.stage.Idle? && used <= |Flat(pieces)|
    ensures r.Success? ==> Shown(All(d.block), d.hdr.blockSize, Recombined(d.hdr, d.done))
  {
    hide FrameOf, Recombined, Shown, FrameDecoder.Valid, Cuts;
    ghost var all, cuts := Flat(pieces), Cuts(pieces);
    used := 0;
    r := NeedMoreData;
    NothingYet(d.info, d.crcOn, cuts);
    for i := 0 to |pieces|
      invariant d.Valid() && r == NeedMoreData
      invariant i == 0 ==> d.stage.Idle? && used == 0
      invariant i > 0 ==> !d.stage.Idle? && d.frame == all && used == d.taken && d.sub.reader.cuts == cuts
      invariant used <= |all| && Flat(pieces[i..]) == all[used..]
      invariant i > 0 && i == |pieces| ==> FrameOf(d.info, d.crcOn, all, cuts) == Incomplete
    {
      assert pieces[i..][0] == pieces[i] && pieces[i..][1..] == pieces[i + 1..];
      ghost var ahead := Flat(pieces[i + 1..]);
      CutsApart(pieces, i);
      if i + 1 == |pieces| {
        LastPiece(pieces);
      }
      var n;
      r, n := d.DecodeFrame(pieces[i], ahead, cuts);
      used := used + n;
      if !r.NeedMoreData? {
        return;
      }
    }
    assert pieces[|pieces|..] == [];
  }

  lemma NothingYet(info: StreamInfo, crcOn: bool, cuts: set<nat>)
    ensures FrameOf(info, crcOn, [], cuts) == Incomplete
  {
  }

  lemma LastPiece(pieces: seq<seq<Byte>>)
    requires pieces != []
    ensures pieces[|pieces| - 1] == [] || 0 !in Cuts(pieces)
    ensures Flat(pieces[|pieces|..]) == []
  {
    CutsBehind(pieces);
    assert pieces[|pieces|..] == [];
  }

  /** The cutting does not matter, unless a call ends after 2^32 - 1 zeros of a count of wasted bits (or 2^32 more):
      otherwise a decoder that gets all the bytes in one call does the same. */
  method FeedTwoWays(d: FrameDecoder, pieces: seq<seq<Byte>>, whole: FrameDecoder) returns (r: Result, used: nat, r': Result, used': nat)
    requires d.Valid() && d.stage.Idle? && whole.Valid() && whole.stage.Idle?
    requires whole.info == d.info && whole.crcOn == d.crcOn
    requires {d, d.sub, d.sub.reader} !! {whole, whole.sub, whole.sub.reader} && {d.block, d.side} !! {whole.block, whole.side}
    modifies d, d.block, d.side, d.sub, d.sub.reader
    modifies whole, whole.block, whole.side, whole.sub, whole.sub.reader
    ensures !Slips(d.info, d.crcOn, Flat(pieces), Cuts(pieces)) ==> SameFrame(d, r, used, whole, r', used')
    ensures r'.Success? ==> Shown(All(whole.block), whole.hdr.blockSize, Recombined(whole.hdr, whole.done))
    ensures r.Success? ==> Shown(All(d.block), d.hdr.blockSize, Recombined(d.hdr, d.done))
  {
    hide FrameOf, Recombined, Shown, FrameDecoder.Valid, Slips;
    r, used := Feed(d, pieces);
    OneFlat(Flat(pieces));
    r', used' := Feed(whole, [Flat(pieces)]);
    if !Slips(d.info, d.crcOn, Flat(pieces), Cuts(pieces)) {
      CutsDoNotShow(d.info, d.crcOn, Flat(pieces), Cuts(pieces));
    }
  }

  ghost predicate SameFrame(d: FrameDecoder, r: Result, used: nat, whole: FrameDecoder, r': Result, used': nat)
    reads d, whole
  {
    r' == r && (r.Success? ==> used' == used && Recombined(whole.hdr, whole.done) == Recombined(d.hdr, d.done))
  }

  /** Where a call ends there, it can matter: this frame is decoded when it comes in two calls, and not when it comes
      in one. */
  method FeedRound(d: FrameDecoder, size: nat, whole: FrameDecoder) returns (r: Result, r': Result)
    requires d.Valid() && d.stage.Idle? && whole.Valid() && whole.stage.Idle?
    requires whole.info == d.info && whole.crcOn == d.crcOn
    requires {d, d.sub, d.sub.reader} !! {whole, whole.sub, whole.sub.reader} && {d.block, d.side} !! {whole.block, whole.side}
    requires d.info.channels == 2 && d.info.bitsPerSample == 16 && 1 <= size <= 0x1_0000 && size <= d.info.maxBlockSize
    modifies d, d.block, d.side, d.sub, d.sub.reader
    modifies whole, whole.block, whole.side, whole.sub, whole.sub.reader
    ensures r.Success? && !r'.Success?
  {
    hide FrameOf, Recombined, Shown, FrameDecoder.Valid, Flat, Cuts, RoundFrame;
    RoundFrameShows(d.info, d.crcOn, size);
    var bytes := RoundFrame(size);
    var n := |bytes| - 4;
    TwoPieces(bytes[..n], bytes[n..]);
    assert bytes[..n] + bytes[n..] == bytes;
    OnePiece(bytes);
    r := FeedFor(d, [bytes[..n], bytes[n..]]);
    r' := FeedFor(whole, [bytes]);
  }

  /** Feed, for its result */
  method FeedFor(d: FrameDecoder, pieces: seq<seq<Byte>>) returns (r: Result)
    requires d.Valid() && d.stage.Idle?
    modifies d, d.block, d.side, d.sub, d.sub.reader
    ensures r.Success? <==> FrameOf(d.info, d.crcOn, Flat(pieces), Cuts(pieces)).Frame?
  {
    hide FrameOf, Shown, FrameDecoder.Valid, Flat, Cuts;
    var used;
    r, used := Feed(d, pieces);
  }

  lemma TwoPieces(a: seq<Byte>, b: seq<Byte>)
    ensures Flat([a, b]) == a + b && Cuts([a, b]) == {8 * |b|}
  {
    assert [a, b][1..] == [b];
    OneFlat(b);
  }

  lemma OnePiece(a: seq<Byte>)
    ensures Flat([a]) == a && Cuts([a]) == {}
  {
    OneFlat(a);
  }

  /** Lossless, however the stream is cut: the channels that were coded lie in the block, and the frame is used up exactly. */
  method FeedEncoded(d: FrameDecoder, pieces: seq<seq<Byte>>, ghost h: Header, ghost chs: seq<seq<int>>,
                     ghost parts: seq<Part>, ghost more: seq<Byte>) returns (r: Result, used: nat)
    requires d.Valid() && d.stage.Idle?
    requires h.Ok(d.info) && h.blockSize <= 0x1_0000 && h.blockSize <= d.info.maxBlockSize
    requires Suitable(h, chs) && |parts| == |chs| && AllSuit(h, parts) && StoredSamples(parts) == StoredFor(h, chs)
    requires Flat(pieces) == FrameBytes(h, parts) + more
    modifies d, d.block, d.side, d.sub, d.sub.reader
    ensures r == Success && used == |FrameBytes(h, parts)|
    ensures Shown(All(d.block), d.hdr.blockSize, chs)
  {
    hide FrameOf, Recombined, Shown, FrameDecoder.Valid, FrameBytes, Header.Ok, Suitable, StoredFor, StoredSamples, AllSuit, Cuts;
    FrameInverts(d.info, d.crcOn, h, chs, parts, more, Cuts(pieces));
    r, used := Feed(d, pieces);
  }
}
