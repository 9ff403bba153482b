/** What an answer of the demuxer says of the page that its bytes come from, for any input whatever. */
module OggMarks {
  import opened Bits
  import opened OggFormat
  import opened OggSteps
  import opened OggAccounts
  import Crc32

  /** An answer of the streaming interface from inside a page */
  predicate Marks(s: State, t: State, r: Reply) {
    if r.code == OggSteps.Ok then
      && r.granule == s.cur.page.granule && r.isEos == s.cur.page.Has(LAST) && r.isBos == s.job.isBos && !t.job.isBos
      && r.isLast == (t.stage != Processing)
      && (r.data != [] && !r.isLast ==> s.cur.consumed + |r.data| < Sum(s.cur.page.table))
    else t.job.isBos == s.job.isBos
  }

  /** What no step within a page touches */
  predicate SamePage(s: State, t: State) {
    t.job.bosUsed == s.job.bosUsed && t.link.initialized == s.link.initialized && (t.stage == Processing ==> t.cur.page == s.cur.page)
  }

  lemma SliceMarks(c: Config, s: State, span: Span, left: nat, body: seq<Byte>, head: nat)
    requires s.stage == Processing
    ensures var (t, r) := Slice(c, s, span, left, body, head); !r.code.IsError() ==> Marks(s, t, r) && SamePage(s, t)
  {
    hide Crc32.ByTable, Sum;
  }

  lemma {:induction false} SettleMarks(c: Config, s: State, body: seq<Byte>, head: nat)
    requires s.stage == Processing
    ensures var (t, r) := Settle(c, s, body, head); !r.code.IsError() ==> Marks(s, t, r) && SamePage(s, t)
    decreases |s.cur.page.table| - s.cur.index
  {
    hide Scan, Slice, Sum;
    if !s.cur.AtEnd() {
      var span := Scan(s.cur.page.table, s.cur.index);
      if span.size > 0 {
        SliceMarks(c, s, span, span.size, body, head);
      } else if !(s.cur.index == 0 && s.link.prevContinued) {
        SettleMarks(c, s.(cur := s.cur.Advance(span)), body, head);
      }
    }
  }

  lemma OfferMarks(c: Config, s: State, body: seq<Byte>, head: nat)
    requires s.stage == Processing
    ensures var (t, r) := Offer(c, s, body, head); !r.code.IsError() ==> Marks(s, t, r) && SamePage(s, t)
  {
    hide Settle, Slice, Marks;
    SliceMarks(c, s, s.cur.span, s.cur.spanLeft, body, head);
    SettleMarks(c, s, body, head);
  }

  /** An answer of the packet interface from inside a page: what it says of the page, it says at the page's end. */
  predicate PacketMarks(s: State, t: State, r: Reply) {
    if r.code == OggSteps.Ok then
      && r.granule == (if r.isLast then s.cur.page.granule else INVALID_GRANULE) && r.isEos == (r.isLast && s.cur.page.Has(LAST))
      && r.isBos == s.job.isBos && !t.job.isBos && r.isLast == (t.stage != Processing)
    else t.job.isBos == s.job.isBos && (r.code == PacketSkipped ==> r.isLast == (t.stage != Processing))
  }

  lemma SkipMarks(c: Config, s: State, input: seq<Byte>)
    requires s.stage == Processing
    ensures var (t, r) := Skip(c, s, input); !r.code.IsError() ==> PacketMarks(s, t, r) && SamePage(s, t) && r.code != OggSteps.Ok
  {
    hide Scan, Crc32.ByTable;
  }

  lemma FlushMarks(c: Config, s: State, used: nat)
    requires s.stage == Processing
    ensures var (t, r) := Flush(c, s, used); !r.code.IsError() ==> PacketMarks(s, t, r) && SamePage(s, t)
  {
  }

  lemma AssembleMarks(c: Config, s: State, input: seq<Byte>)
    requires s.stage == Processing
    ensures var (t, r) := Assemble(c, s, input); !r.code.IsError() ==> PacketMarks(s, t, r) && SamePage(s, t)
  {
    hide Scan, Skip, Flush, Crc32.ByTable;
    var cur := s.cur.Resumed();
    var n := Min(|input|, cur.spanLeft);
    SkipMarks(c, s.(cur := cur, job := s.job.(skipping := true, assembling := false, assembly := [])), input);
    FlushMarks(c, s.(cur := cur.Advance(cur.span)), 0);
    FlushMarks(c, s.(cur := cur.Eat(c, input[..n]).Advance(cur.span), job := s.job.(assembly := s.job.assembly + input[..n])), n);
  }

  lemma CopyMarks(c: Config, s: State, span: Span, body: seq<Byte>, head: nat)
    requires s.stage == Processing && span.size <= |body|
    ensures var (t, r) := ZeroCopy(c, s, span, body, head); !r.code.IsError() ==> PacketMarks(s, t, r) && SamePage(s, t)
  {
    hide Crc32.ByTable;
  }

  lemma ExtractMarks(c: Config, s: State, input: seq<Byte>)
    requires s.stage == Processing
    ensures var (t, r) := Extract(c, s, input); !r.code.IsError() ==> PacketMarks(s, t, r) && SamePage(s, t)
  {
    hide Scan, Assemble, ZeroCopy;
    var next := Scan(s.cur.page.table, s.cur.index);
    if next.size <= |input| {
      CopyMarks(c, s, next, input, 0);
    }
    AssembleMarks(c, s.(cur := s.cur.Open(next, next.size), job := s.job.(assembling := true)), input);
  }

  // Whole calls.

  /** The state in which a call comes to the body of a page, if it does. */
  function AtBody(c: Config, s: State, input: seq<Byte>, mode: Mode): State {
    var s1 := s.(mode := mode);
    if s.stage == Processing then s1
    else match HeaderStage(c, s1, input) case Entered(s2, _) => s2 case Stop(s2, _) => s2
  }

  lemma DataMarks(c: Config, s: State, input: seq<Byte>)
    requires !Conflicts(s, DataMode)
    ensures var (t, r) := NextData(c, s, input);
      var u := AtBody(c, s, input, DataMode);
      !r.code.IsError() ==>
        if u.stage == Processing then Marks(u, t, r) && SamePage(u, t) else t == u && r.code != OggSteps.Ok
  {
    hide Offer, Marks, Conflicts, HeaderStage;
    var u := AtBody(c, s, input, DataMode);
    if s.stage != Processing {
      HeaderAnswers(c, s.(mode := DataMode), input);
    }
    if u.stage == Processing {
      OfferMarks(c, u, input, 0);
      var h := HeaderStage(c, s.(mode := DataMode), input);
      if s.stage != Processing && h.Entered? {
        if h.used < |input| {
          OfferMarks(c, u, input[h.used..], h.used);
        } else {
          NothingSaid(u, h.used);
        }
      }
    }
  }

  lemma NothingSaid(u: State, used: nat)
    ensures Marks(u, u, Nothing(NeedMoreData, used)) && PacketMarks(u, u, Nothing(NeedMoreData, used)) && SamePage(u, u)
  {
  }

  lemma HeaderAnswers(c: Config, s: State, input: seq<Byte>)
    requires s.stage != Processing
    ensures match HeaderStage(c, s, input)
      case Stop(t, r) => t.stage != Processing && r.code != OggSteps.Ok
      case Entered(t, _) => t.stage == Processing
  {
    hide Crc32.ByTable, Little, Signed64, StagedCount, Consistency;
  }

  lemma PacketCallMarks(c: Config, s: State, input: seq<Byte>)
    requires !Conflicts(s, PacketMode)
    ensures var (t, r) := NextPacket(c, s, input);
      var u := AtBody(c, s, input, PacketMode);
      !r.code.IsError() ==>
        if u.stage == Processing then PacketMarks(u, t, r) && SamePage(u, t) else t == u && r.code != OggSteps.Ok
  {
    hide Skip, Assemble, Extract, ZeroCopy, Scan, PacketMarks, Conflicts, HeaderStage;
    var u := AtBody(c, s, input, PacketMode);
    if s.stage == Processing {
      SkipMarks(c, u, input);
      AssembleMarks(c, u, input);
      ExtractMarks(c, u, input);
    } else {
      HeaderAnswers(c, s.(mode := PacketMode), input);
      var h := HeaderStage(c, s.(mode := PacketMode), input);
      if h.Entered? {
        NothingSaid(u, h.used);
        var first := Scan(u.cur.page.table, 0);
        if h.used < |input| && first.complete && |input| - h.used >= first.size {
          CopyMarks(c, u, first, input[h.used..], h.used);
        }
      }
    }
  }

  // The mark of the first packet.

  /** The mark is up for the first answer from the first page, and for no other. */
  predicate FirstMark(s: State, answered: bool) {
    && (!s.link.initialized ==> !s.job.bosUsed && !answered && s.stage != Processing)
    && (s.stage == Processing ==> (s.job.isBos <==> s.cur.page.Has(FIRST) && !answered))
  }

  lemma HeaderFirst(c: Config, s: State, input: seq<Byte>, answered: bool)
    requires s.stage != Processing && FirstMark(s, answered)
    ensures match HeaderStage(c, s, input)
      case Stop(t, r) => !r.code.IsError() ==> FirstMark(t, answered)
      case Entered(t, _) => FirstMark(t, answered)
  {
    hide Crc32.ByTable, ParseHeader, StagedCount;
  }

  lemma AtBodyFirst(c: Config, s: State, input: seq<Byte>, mode: Mode, answered: bool)
    requires FirstMark(s, answered)
    ensures s.stage == Processing || HeaderStage(c, s.(mode := mode), input).Entered? || !HeaderStage(c, s.(mode := mode), input).reply.code.IsError() ==>
      FirstMark(AtBody(c, s, input, mode), answered)
  {
    hide HeaderStage;
    if s.stage != Processing {
      HeaderFirst(c, s.(mode := mode), input, answered);
    }
  }

  /** Every call of either interface keeps the mark; an answer carries it just when it is the first, from the first page. */
  lemma FirstAnswer(c: Config, s: State, input: seq<Byte>, answered: bool)
    requires FirstMark(s, answered)
    ensures var (t, r) := NextData(c, s, input);
      !r.code.IsError() ==>
        && FirstMark(t, answered || r.code == OggSteps.Ok)
        && (r.code == OggSteps.Ok ==> (r.isBos <==> !answered && AtBody(c, s, input, DataMode).cur.page.Has(FIRST)))
    ensures var (t, r) := NextPacket(c, s, input);
      !r.code.IsError() ==>
        && FirstMark(t, answered || r.code == OggSteps.Ok)
        && (r.code == OggSteps.Ok ==> (r.isBos <==> !answered && AtBody(c, s, input, PacketMode).cur.page.Has(FIRST)))
  {
    hide Offer, Skip, Assemble, Extract, FirstPacket, HeaderStage, BetweenPackets;
    AtBodyFirst(c, s, input, DataMode, answered);
    AtBodyFirst(c, s, input, PacketMode, answered);
    if !Conflicts(s, DataMode) {
      DataMarks(c, s, input);
    }
    if !Conflicts(s, PacketMode) {
      PacketCallMarks(c, s, input);
    }
  }
}
