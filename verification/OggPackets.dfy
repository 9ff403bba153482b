/** What each call of the packet interface delivers on a well-formed stream: whole packets, one at a time. */
module OggPackets {
  import opened Bits
  import opened OggFormat
  import opened OggSteps
  import opened OggAccounts
  import opened OggStreams
  import opened OggHeaders
  import opened OggMarks
  import opened OggDelivery
  import Crc32

  /** The packet in work: assembled so far, or known to be too long, or not begun. */
  predicate JobTracks(c: Config, s: State, part: seq<Byte>) {
    && (s.job.assembling ==> !s.job.skipping && s.job.assembly == part)
    && (s.job.skipping ==> c.maxBuffer < |part|)
    && (!s.job.assembling ==> s.job.assembly == [])
    && (s.job.assembling || s.job.skipping ==> s.mode == PacketMode)
    && (s.mode != DataMode && !s.job.assembling && !s.job.skipping ==> !s.cur.spanActive && part == [])
  }

  /** A reply returns the packet that is due, or nothing yet, or says that it was too long. */
  predicate Takes(c: Config, owed: seq<seq<Byte>>, r: Reply, owed2: seq<seq<Byte>>) {
    || (r.code == OggSteps.Ok && r.isEnd && owed == [r.data] + owed2)
    || (r.code == NeedMoreData && r.data == [] && owed == owed2)
    || (r.code == PacketSkipped && owed != [] && |owed[0]| > c.maxBuffer && owed2 == owed[1..])
  }

  /** A reply of the packet interface that has taken the bytes d. */
  predicate Packed(c: Config, s: State, w: World, d: seq<Byte>, t: State, v: World, r: Reply) {
    && InStream(c, t, v) && d <= Ahead(s, w) && Ahead(t, v) == Ahead(s, w)[|d|..]
    && Takes(c, Owed(s, w), r, Owed(t, v))
    && t.mode == PacketMode && JobTracks(c, t, Part(t, v)) && v.page == w.page && v.later == w.later
  }

  lemma ResumedSpan(c: Config, cur: Cursor)
    requires InPage(c, cur) && !cur.AtEnd()
    ensures var r := cur.Resumed(); HasSpan(cur, r.span, r.spanLeft) && 0 < r.span.count
    ensures cur.spanActive ==> cur.Resumed() == cur
  {
    hide Scan, Sum, Crc32.ByTable;
    ScanSpan(cur.page.table, cur.index);
  }

  lemma ResumedMoves(c: Config, cur: Cursor, d: seq<Byte>, span: Span, left: nat)
    ensures cur.Resumed().Eat(c, d).Open(span, left) == cur.Eat(c, d).Open(span, left)
    ensures cur.Resumed().Eat(c, d).Advance(span) == cur.Eat(c, d).Advance(span)
  {
    hide Scan, Crc32.ByTable;
  }

  /** The span that a step works on, with the bytes it takes of it. */
  lemma Working(c: Config, s: State, w: World, d: seq<Byte>)
    requires Loose(c, s, w) && s.stage == Processing && !s.cur.AtEnd()
    requires d <= Ahead(s, w) && |d| <= s.cur.Resumed().spanLeft
    ensures s.staged == [] && InPage(c, s.cur)
    ensures var r := s.cur.Resumed(); May(c, s, w, r.span, r.spanLeft, d) && HasSpan(s.cur, r.span, r.spanLeft)
    ensures !s.cur.Resumed().span.complete ==> 0 < s.cur.Resumed().span.size
  {
    hide Loose, InPage, Scan, Cursor.Resumed, May, HasSpan;
    Standing(c, s, w);
    ResumedSpan(c, s.cur);
    var r := s.cur.Resumed();
    InBody(c, s, w, r.span, r.spanLeft, d);
    SpanSize(s.cur, r.span, r.spanLeft);
  }

  lemma SpanSize(cur: Cursor, span: Span, left: nat)
    requires HasSpan(cur, span, left)
    ensures !span.complete ==> 0 < span.size
  {
    if span.size == 0 {
      EmptySpan(cur.page.table, cur.index);
    }
  }

  /** The page is over, and a packet goes on. */
  lemma LeavesPage(c: Config, s: State, w: World, t: State, d: seq<Byte>, reply: Reply) returns (v: World)
    requires Loose(c, s, w) && s.stage == Processing && !s.cur.AtEnd()
    requires d <= Ahead(s, w) && |d| == s.cur.Resumed().spanLeft && !s.cur.Resumed().span.complete
    requires Moved(s, t, s.cur.Eat(c, d).Advance(s.cur.Resumed().span))
    ensures var (u, r) := Finish(c, t, reply);
      && r == reply && u == Finalized(t) && InStream(c, u, v) && Ahead(u, v) == Ahead(s, w)[|d|..]
      && Part(u, v) == Part(s, w) + d && Owed(u, v) == Owed(s, w) && v.page == w.page && v.later == w.later
  {
    hide Loose, InPage, Scan, Cursor.Resumed, HasSpan, May, Part, Owed, Ahead, Inv, OnBody, Start, Inside, Finish;
    var r := s.cur.Resumed();
    Working(c, s, w, d);
    RunsOut(c, s, t, w, r.span, r.spanLeft, d);
    v := w.(open := Part(s, w) + d);
    Closed(c, t, v);
    Ends(c, t, v, reply);
    v := Behind(t, v);
  }

  /** A packet is over. */
  lemma Completes(c: Config, s: State, w: World, t: State, d: seq<Byte>, reply: Reply) returns (v: World)
    requires Loose(c, s, w) && s.stage == Processing && !s.cur.AtEnd()
    requires d <= Ahead(s, w) && |d| == s.cur.Resumed().spanLeft && s.cur.Resumed().span.complete
    requires Moved(s, t, s.cur.Eat(c, d).Advance(s.cur.Resumed().span))
    ensures var (u, r) := Answer(c, t, reply);
      && r == reply && InStream(c, u, v) && Ahead(u, v) == Ahead(s, w)[|d|..]
      && Part(u, v) == [] && Owed(s, w) == [Part(s, w) + d] + Owed(u, v) && u.mode == t.mode && u.job == t.job && !u.cur.spanActive
      && v.page == w.page && v.later == w.later
  {
    hide Loose, InPage, Scan, Cursor.Resumed, HasSpan, May, Part, Owed, Ahead, Inv, OnBody, Start, Inside, Finish;
    var r := s.cur.Resumed();
    Working(c, s, w, d);
    Closes(c, s, t, w, r.span, r.spanLeft, d);
    v := Answered(c, t, w.(open := []), reply);
    AnswerCloses(c, t, reply);
  }

  lemma AnswerCloses(c: Config, s: State, reply: Reply)
    requires !s.cur.spanActive
    ensures !Answer(c, s, reply).0.cur.spanActive
  {
  }

  /** Some bytes of a packet. */
  lemma GoesOn(c: Config, s: State, w: World, t: State, d: seq<Byte>)
    requires Loose(c, s, w) && s.stage == Processing && !s.cur.AtEnd()
    requires d <= Ahead(s, w) && |d| < s.cur.Resumed().spanLeft
    requires Moved(s, t, s.cur.Eat(c, d).Open(s.cur.Resumed().span, s.cur.Resumed().spanLeft - |d|))
    ensures InStream(c, t, w) && Ahead(t, w) == Ahead(s, w)[|d|..] && Part(t, w) == Part(s, w) + d && Owed(t, w) == Owed(s, w)
  {
    hide Loose, InPage, Scan, Cursor.Resumed, HasSpan, May, Part, Owed, Ahead, Inv, OnBody, Start, Inside;
    var r := s.cur.Resumed();
    Working(c, s, w, d);
    Eats(c, s, t, w, r.span, r.spanLeft, d);
  }

  lemma SkipTracks(c: Config, s: State, w: World, input: seq<Byte>) returns (v: World)
    requires Loose(c, s, w) && s.stage == Processing && !s.cur.AtEnd() && input <= Ahead(s, w)
    requires s.mode == PacketMode && s.job.skipping && !s.job.assembling && s.job.assembly == []
    requires c.maxBuffer < |Part(s, w)| + Min(|input|, s.cur.Resumed().spanLeft)
    ensures var (t, r) := Skip(c, s, input);
      r.used <= |input| && Packed(c, s, w, input[..r.used], t, v, r)
  {
    hide Loose, InPage, Scan, Cursor.Resumed, HasSpan, Part, Owed, Ahead, Inv, OnBody, Finish, Answer, InStream;
    var cur := s.cur.Resumed();
    var n := Min(|input|, cur.spanLeft);
    var d := input[..n];
    Standing(c, s, w);
    ResumedMoves(c, s.cur, d, cur.span, if n < cur.spanLeft then cur.spanLeft - n else 0);
    if n < cur.spanLeft {
      GoesOn(c, s, w, s.(cur := cur.Eat(c, d).Open(cur.span, cur.spanLeft - n)), d);
      v := w;
    } else {
      var t := s.(cur := cur.Eat(c, d).Advance(cur.span));
      if !cur.span.complete {
        v := LeavesPage(c, s, w, t, d, Nothing(NeedMoreData, n));
      } else {
        v := Completes(c, s, w, t.(job := s.job.(skipping := false)), d, Nothing(PacketSkipped, n).(isLast := t.cur.AtEnd()));
      }
    }
  }

  /** An assembled packet is returned. */
  lemma FlushTracks(c: Config, s: State, w: World, t: State, d: seq<Byte>) returns (v: World)
    requires Loose(c, s, w) && s.stage == Processing && !s.cur.AtEnd()
    requires d <= Ahead(s, w) && |d| == s.cur.Resumed().spanLeft && s.cur.Resumed().span.complete
    requires Moved(s, t, s.cur.Resumed().Eat(c, d).Advance(s.cur.Resumed().span))
    requires t.mode == PacketMode && !t.job.skipping && t.job.assembly == Part(s, w) + d
    ensures var (u, r) := Flush(c, t, |d|);
      r.used == |d| && Packed(c, s, w, d, u, v, r)
  {
    hide Loose, Scan, Cursor.Resumed, Part, Owed, Ahead, Answer, InStream;
    ResumedMoves(c, s.cur, d, s.cur.Resumed().span, 0);
    var last := t.cur.AtEnd();
    v := Completes(c, s, w, t.(job := t.job.(isBos := false, assembling := false, assembly := [])), d,
                   Reply(OggSteps.Ok, |d|, t.job.assembly, if last then t.cur.page.granule else INVALID_GRANULE, t.job.isBos,
                         last && t.cur.page.Has(LAST), last, true));
  }

  lemma EmptyEnds(c: Config, s: State, w: World)
    requires InStream(c, s, w) && s.stage == Processing && s.cur.Resumed().spanLeft == 0
    ensures s.cur.Resumed().span.complete && !s.cur.AtEnd()
  {
    hide Stream, OnBody, Scan, Page.Sealed;
    EmptySpan(s.cur.page.table, s.cur.index);
  }

  lemma InPageStill(c: Config, s: State, w: World)
    requires InStream(c, s, w) && s.stage == Processing
    ensures !s.cur.AtEnd() && Loose(c, s, w)
  {
    hide Loose;
  }

  /** The span at the cursor is opened. */
  lemma Opened(c: Config, s: State, w: World, t: State)
    requires Loose(c, s, w) && s.stage == Processing && !s.cur.AtEnd() && 0 < s.cur.Resumed().spanLeft
    requires Moved(s, t, s.cur.Resumed())
    ensures InStream(c, t, w) && Ahead(t, w) == Ahead(s, w) && Part(t, w) == Part(s, w) && Owed(t, w) == Owed(s, w)
    ensures t.cur.Resumed() == t.cur
  {
    hide Loose, Scan, Part, Owed, Ahead, InStream;
    EatsNothing(c, s.cur);
    ReopenedSelf(s.cur);
    GoesOn(c, s, w, t, []);
    assert Ahead(s, w)[0..] == Ahead(s, w) && Part(s, w) + [] == Part(s, w);
  }

  lemma ReopenedSelf(cur: Cursor)
    ensures cur.Resumed() == cur.Open(cur.Resumed().span, cur.Resumed().spanLeft) && cur.Resumed().Resumed() == cur.Resumed()
  {
    hide Scan;
  }

  lemma AssembleTracks(c: Config, s: State, w: World, input: seq<Byte>) returns (v: World)
    requires InStream(c, s, w) && s.stage == Processing && input <= Ahead(s, w)
    requires s.mode == PacketMode && s.job.assembling && !s.job.skipping && s.job.assembly == Part(s, w)
    ensures var (t, r) := Assemble(c, s, input);
      r.used <= |input| && Packed(c, s, w, input[..r.used], t, v, r)
  {
    hide Loose, InPage, Scan, Cursor.Resumed, HasSpan, Part, Owed, Ahead, Inv, OnBody, Finish, InStream, Skip, Flush;
    var cur := s.cur.Resumed();
    var n := Min(|input|, cur.spanLeft);
    var d := input[..n];
    InPageStill(c, s, w);
    Standing(c, s, w);
    ResumedMoves(c, s.cur, d, cur.span, if n < cur.spanLeft then cur.spanLeft - n else 0);
    if cur.spanLeft == 0 {
      EmptyEnds(c, s, w);
      EatsNothing(c, cur);
      assert d == [] && Part(s, w) + [] == Part(s, w);
      v := FlushTracks(c, s, w, s.(cur := cur.Advance(cur.span)), d);
    } else if n == 0 {
      Opened(c, s, w, s.(cur := cur));
      assert Ahead(s, w)[0..] == Ahead(s, w);
      v := w;
    } else if |s.job.assembly| + n > c.maxBuffer {
      v := GivesUp(c, s, w, input);
    } else {
      var job := s.job.(assembly := s.job.assembly + d);
      if n < cur.spanLeft {
        GoesOn(c, s, w, s.(cur := cur.Eat(c, d).Open(cur.span, cur.spanLeft - n), job := job), d);
        v := w;
      } else {
        var t := s.(cur := cur.Eat(c, d).Advance(cur.span), job := job);
        if cur.span.complete {
          v := FlushTracks(c, s, w, t, d);
        } else {
          v := LeavesPage(c, s, w, t, d, Nothing(NeedMoreData, n));
        }
      }
    }
  }

  /** A packet that proves too long is skipped from here on. */
  lemma GivesUp(c: Config, s: State, w: World, input: seq<Byte>) returns (v: World)
    requires InStream(c, s, w) && s.stage == Processing && input <= Ahead(s, w) && s.mode == PacketMode
    requires 0 < s.cur.Resumed().spanLeft && c.maxBuffer < |Part(s, w)| + Min(|input|, s.cur.Resumed().spanLeft)
    ensures var (t, r) := Skip(c, s.(cur := s.cur.Resumed(), job := s.job.(skipping := true, assembling := false, assembly := [])), input);
      r.used <= |input| && Packed(c, s, w, input[..r.used], t, v, r)
  {
    hide Loose, InPage, Scan, Cursor.Resumed, Part, Owed, Ahead, Inv, Skip;
    InPageStill(c, s, w);
    Standing(c, s, w);
    var s2 := s.(cur := s.cur.Resumed(), job := s.job.(skipping := true, assembling := false, assembly := []));
    Opened(c, s, w, s2);
    InPageStill(c, s2, w);
    v := SkipTracks(c, s2, w, input);
  }

  /** A packet that lies whole in the input is returned where it lies. */
  lemma ZeroCopyTracks(c: Config, s: State, w: World, body: seq<Byte>, head: nat) returns (v: World)
    requires InStream(c, s, w) && s.stage == Processing && !s.cur.spanActive && body <= Ahead(s, w) && Part(s, w) == []
    requires var span := Scan(s.cur.page.table, s.cur.index); span.complete && span.size <= |body|
    requires s.mode == PacketMode && !s.job.assembling && !s.job.skipping && s.job.assembly == []
    ensures var span := Scan(s.cur.page.table, s.cur.index);
      var (t, r) := ZeroCopy(c, s, span, body, head);
      r.used == head + span.size && Packed(c, s, w, body[..span.size], t, v, r)
  {
    hide Loose, Scan, Part, Owed, Ahead, Answer, InStream;
    var span := Scan(s.cur.page.table, s.cur.index);
    var d := body[..span.size];
    InPageStill(c, s, w);
    Standing(c, s, w);
    var t := s.(cur := s.cur.Eat(c, d).Advance(span), job := s.job.(isBos := false));
    var last := t.cur.AtEnd();
    v := Completes(c, s, w, t, d,
                   Reply(OggSteps.Ok, head + span.size, d, if last then s.cur.page.granule else INVALID_GRANULE, s.job.isBos,
                         last && s.cur.page.Has(LAST), last, true));
    assert [] + d == d;
  }

  lemma ExtractTracks(c: Config, s: State, w: World, input: seq<Byte>) returns (v: World)
    requires InStream(c, s, w) && s.stage == Processing && !s.cur.spanActive && input <= Ahead(s, w) && Part(s, w) == []
    requires s.mode == PacketMode && !s.job.assembling && !s.job.skipping && s.job.assembly == []
    ensures var (t, r) := Extract(c, s, input);
      r.used <= |input| && Packed(c, s, w, input[..r.used], t, v, r)
  {
    hide InStream, Scan, Part, Owed, Ahead, ZeroCopy, Assemble;
    var next := Scan(s.cur.page.table, s.cur.index);
    InPageStill(c, s, w);
    if next.complete && |input| >= next.size {
      v := ZeroCopyTracks(c, s, w, input, 0);
    } else if input == [] {
      assert Ahead(s, w)[0..] == Ahead(s, w);
      v := w;
    } else {
      Standing(c, s, w);
      if next.size == 0 {
        EmptySpan(s.cur.page.table, s.cur.index);
      }
      var t := s.(cur := s.cur.Open(next, next.size), job := s.job.(assembling := true));
      Opened(c, s, w, t);
      v := AssembleTracks(c, t, w, input);
    }
  }

  /** Where a mode switch is allowed, no packet is under way. */
  lemma Boundary(c: Config, s: State, w: World)
    requires InStream(c, s, w) && BetweenPackets(s)
    ensures !s.cur.spanActive && Part(s, w) == []
  {
    hide Stream, InPage, OnBody, Inside, Page.Sealed, PartOfHeader, Start;
    if s.stage == Processing {
      InPageStill(c, s, w);
      Closed(c, s, w);
    }
  }

  /** A call of the packet interface: no error, and the packet that is due, no part of it and no other. */
  predicate PacketDelivered(c: Config, s: State, w: World, input: seq<Byte>, t: State, v: World, r: Reply) {
    && r.used <= |input| && InStream(c, t, v) && r.used <= |Ahead(s, w)| && Ahead(t, v) == Ahead(s, w)[r.used..]
    && Takes(c, Owed(s, w), r, Owed(t, v))
    && t.mode == PacketMode && JobTracks(c, t, Part(t, v)) && Moves(s, w, t, v, r)
  }

  /** What an answer says of the page of the stream in which the packet ends: that the page is over, and only then its
      granule position, and the end of the stream if the page is marked as the last one. */
  predicate PacketTold(s: State, w: World, t: State, r: Reply) {
    && (r.code == OggSteps.Ok ==>
          && (s.stage == Processing || w.later != [])
          && var p := if s.stage == Processing then w.page else w.later[0];
          && (r.isLast <==> t.stage != Processing)
          && r.granule == (if r.isLast then Signed64(Little(p.granule)) else -1) && (r.isEos <==> r.isLast && p.flags & 4 != 0))
    && (r.code == PacketSkipped ==> (r.isLast <==> t.stage != Processing))
  }

  lemma MarksTell(c: Config, s: State, w: World, t: State, r: Reply)
    requires InStream(c, s, w) && s.stage == Processing && PacketMarks(s, t, r)
    ensures PacketTold(s, w, t, r)
  {
    hide InStream, Little, Signed64;
    PageHere(c, s, w);
  }

  lemma PacketTells(c: Config, s: State, w: World, input: seq<Byte>)
    requires InStream(c, s, w) && input <= Ahead(s, w) && !Conflicts(s, PacketMode)
    ensures var (t, r) := NextPacket(c, s, input); !r.code.IsError() ==> PacketTold(s, w, t, r)
  {
    hide InStream, Ahead, NextPacket, HeaderStage, Conflicts, Carried, PacketTold, PacketMarks;
    var s1 := s.(mode := PacketMode);
    SamePlace(c, s, s1, w);
    PacketCallMarks(c, s, input);
    var (t, r) := NextPacket(c, s, input);
    if s.stage == Processing {
      if !r.code.IsError() {
        MarksTell(c, s1, w, t, r);
        PacketToldFrom(s, s1, w, w, t, r);
      }
    } else {
      HeaderAnswers(c, s1, input);
      var u := HeaderTracks(c, s1, w, input);
      var h := HeaderStage(c, s1, input);
      if h.Entered? {
        EnteredFresh(c, s1, w, h.state, u, h.used);
        CarriedIn(c, s1, w, h.state, u, h.used);
        if !r.code.IsError() {
          MarksTell(c, h.state, u, t, r);
          PacketToldFrom(s, h.state, w, u, t, r);
        }
      } else {
        HeaderNoSkip(c, s, input);
        if !r.code.IsError() {
          PacketToldNothing(s, w, t, r);
        }
      }
    }
  }

  lemma HeaderNoSkip(c: Config, s: State, input: seq<Byte>)
    requires s.stage != Processing && !Conflicts(s, PacketMode) && HeaderStage(c, s.(mode := PacketMode), input).Stop?
    ensures var code := NextPacket(c, s, input).1.code; code != OggSteps.Ok && code != PacketSkipped
  {
    hide BetweenPackets, Crc32.ByTable, Little, Signed64, StagedCount;
  }

  lemma CarriedIn(c: Config, s: State, w: World, t: State, u: World, used: nat)
    requires Carried(c, s, w, t, u, used)
    ensures InStream(c, t, u)
  {
    hide InStream, Ahead, Part, Owed, BodyAhead;
  }

  lemma PacketToldNothing(s: State, w: World, t: State, r: Reply)
    requires r.code != OggSteps.Ok && r.code != PacketSkipped
    ensures PacketTold(s, w, t, r)
  {
  }

  lemma PacketToldFrom(s: State, u: State, w: World, x: World, t: State, r: Reply)
    requires PacketTold(u, x, t, r) && u.stage == Processing
    requires if s.stage == Processing then x == w else w.later != [] && x == Enter(w)
    ensures PacketTold(s, w, t, r)
  {
  }

  lemma DeliversPacket(c: Config, s: State, w: World, input: seq<Byte>) returns (v: World)
    requires InStream(c, s, w) && input <= Ahead(s, w) && !Conflicts(s, PacketMode) && JobTracks(c, s, Part(s, w))
    ensures var (t, r) := NextPacket(c, s, input); PacketDelivered(c, s, w, input, t, v, r)
  {
    hide InStream, Scan, Ahead, Part, Owed, HeaderStage, Skip, Assemble, Extract, ZeroCopy, BetweenPackets, Carried;
    var s1 := s.(mode := PacketMode);
    SamePlace(c, s, s1, w);
    if s.mode == DataMode {
      Boundary(c, s, w);
    }
    if s.stage == Processing {
      v := BodyTracks(c, s1, w, input);
    } else {
      v := HeaderTracks(c, s1, w, input);
      var h := HeaderStage(c, s1, input);
      if h.Entered? {
        v := FirstTracks(c, s1, w, h.state, v, input, h.used);
      } else {
        WorkCarried(c, s1, w, h.state, v, h.reply.used);
      }
    }
  }

  /** On a well-formed stream every call of the packet interface, with any part of what comes next, delivers. */
  lemma PacketTracks(c: Config, s: State, w: World, input: seq<Byte>) returns (v: World)
    requires InStream(c, s, w) && input <= Ahead(s, w) && !Conflicts(s, PacketMode) && JobTracks(c, s, Part(s, w))
    ensures var (t, r) := NextPacket(c, s, input); PacketDelivered(c, s, w, input, t, v, r) && PacketTold(s, w, t, r)
  {
    hide InStream, Ahead, Part, Owed, NextPacket, Conflicts, JobTracks, PacketTold, Moves, Takes;
    v := DeliversPacket(c, s, w, input);
    PacketSound(c, s, w, input, v);
    PacketTells(c, s, w, input);
  }

  lemma PacketSound(c: Config, s: State, w: World, input: seq<Byte>, v: World)
    requires var (t, r) := NextPacket(c, s, input); PacketDelivered(c, s, w, input, t, v, r)
    ensures !NextPacket(c, s, input).1.code.IsError()
  {
    hide InStream, Ahead, Part, Owed, NextPacket, JobTracks, Moves;
  }

  lemma BodyTracks(c: Config, s: State, w: World, input: seq<Byte>) returns (v: World)
    requires InStream(c, s, w) && s.stage == Processing && input <= Ahead(s, w) && s.mode == PacketMode && JobTracks(c, s, Part(s, w))
    ensures var (t, r) :=
        if s.job.skipping then Skip(c, s, input) else if s.job.assembling then Assemble(c, s, input) else Extract(c, s, input);
      PacketDelivered(c, s, w, input, t, v, r)
  {
    hide InStream, Loose, Scan, Ahead, Part, Owed, Skip, Assemble, Extract, Packed, PacketDelivered;
    InPageStill(c, s, w);
    if s.job.skipping {
      v := SkipTracks(c, s, w, input);
      PackedDelivers(c, s, w, input, Skip(c, s, input).0, v, Skip(c, s, input).1);
    } else if s.job.assembling {
      v := AssembleTracks(c, s, w, input);
      PackedDelivers(c, s, w, input, Assemble(c, s, input).0, v, Assemble(c, s, input).1);
    } else {
      v := ExtractTracks(c, s, w, input);
      PackedDelivers(c, s, w, input, Extract(c, s, input).0, v, Extract(c, s, input).1);
    }
  }

  lemma PackedDelivers(c: Config, s: State, w: World, input: seq<Byte>, t: State, v: World, r: Reply)
    requires r.used <= |input| && Packed(c, s, w, input[..r.used], t, v, r) && s.stage == Processing
    ensures PacketDelivered(c, s, w, input, t, v, r)
  {
    hide InStream, Ahead, Part, Owed;
  }

  /** Reading headers leaves the packet in work as it was. */
  lemma WorkCarried(c: Config, s: State, w: World, t: State, v: World, used: nat)
    requires Carried(c, s, w, t, v, used) && s.mode == PacketMode && JobTracks(c, s, Part(s, w)) && s.stage != Processing
    requires t.stage == Processing ==> !t.cur.spanActive
    ensures JobTracks(c, t, Part(t, v)) && !t.cur.spanActive && Moves(s, w, t, v, Nothing(NeedMoreData, used)) && (t.stage == Processing ==> w.later != [] && v == Enter(w))
    ensures used <= |Ahead(s, w)| && Takes(c, Owed(s, w), Nothing(NeedMoreData, used), Owed(t, v)) && t.mode == PacketMode
    ensures InStream(c, t, v) && Ahead(t, v) == Ahead(s, w)[used..]
  {
    hide Loose, Part, Owed, Ahead, InPage;
  }

  /** The first packet of a page may be returned with the header. */
  lemma FirstTracks(c: Config, s: State, w: World, s2: State, w2: World, input: seq<Byte>, used: nat) returns (v: World)
    requires Carried(c, s, w, s2, w2, used) && used <= |input| && input <= Ahead(s, w) && s.mode == PacketMode && s.stage != Processing
    requires JobTracks(c, s, Part(s, w)) && s2.stage == Processing && !s2.cur.spanActive && s2.cur.index == 0
    ensures var (t, r) := FirstPacket(c, s2, input, used);
      PacketDelivered(c, s, w, input, t, v, r)
  {
    hide InStream, Scan, Ahead, Part, Owed, ZeroCopy, Carried, Packed, PacketDelivered;
    var first := Scan(s2.cur.page.table, 0);
    WorkCarried(c, s, w, s2, w2, used);
    Remaining(c, s, w, s2, w2, input, used);
    HeaderDelivers(c, s, w, s2, w2, input, used);
    v := w2;
    if used < |input| && !s2.job.assembling && !s2.job.skipping && first.complete && |input| - used >= first.size {
      v := ZeroCopyTracks(c, s2, w2, input[used..], used);
      var (t, r) := ZeroCopy(c, s2, first, input[used..], used);
      FromPacked(c, s, w, s2, w2, input, used, input[used..][..first.size], t, v, r);
    }
  }

  lemma HeaderDelivers(c: Config, s: State, w: World, t: State, v: World, input: seq<Byte>, used: nat)
    requires Carried(c, s, w, t, v, used) && used <= |input| && s.mode == PacketMode && JobTracks(c, s, Part(s, w)) && s.stage != Processing
    requires t.stage == Processing ==> !t.cur.spanActive
    ensures PacketDelivered(c, s, w, input, t, v, Nothing(NeedMoreData, used))
  {
    hide InStream, Ahead, Part, Owed, Carried;
    WorkCarried(c, s, w, t, v, used);
  }

  lemma FromPacked(c: Config, s: State, w: World, s2: State, w2: World, input: seq<Byte>, used: nat, d: seq<Byte>,
                   t: State, v: World, r: Reply)
    requires Carried(c, s, w, s2, w2, used) && s.stage != Processing && s2.stage == Processing
    requires input <= Ahead(s, w) && r.used == used + |d| <= |input|
    requires Packed(c, s2, w2, d, t, v, r)
    ensures PacketDelivered(c, s, w, input, t, v, r)
  {
    hide InStream, Ahead, Part, Owed;
    assert Ahead(s, w)[used..][|d|..] == Ahead(s, w)[used + |d|..];
  }
}
