/** When the interface may be changed: a call of the other one is refused exactly inside a packet. */
module OggSwitches {
  import opened Bits
  import opened OggFormat
  import opened OggSteps
  import opened OggAccounts
  import opened OggStreams
  import opened OggHeaders
  import opened OggDelivery
  import opened OggPackets
  import opened OggRuns
  import Crc32

  /** Outside the packet interface a span is open only when some of it has been delivered. */
  predicate Touched(s: State) {
    s.mode != PacketMode && s.cur.spanActive ==> s.cur.spanLeft < s.cur.span.size
  }

  lemma SliceTouches(c: Config, s: State, span: Span, left: nat, body: seq<Byte>, head: nat)
    requires Touched(s) && s.mode == DataMode && left <= span.size
    ensures Touched(Slice(c, s, span, left, body, head).0)
  {
    hide Crc32.ByTable, Sum;
  }

  lemma {:induction false} SettleTouches(c: Config, s: State, body: seq<Byte>, head: nat)
    requires Touched(s) && s.mode == DataMode
    ensures Touched(Settle(c, s, body, head).0)
    decreases |s.cur.page.table| - s.cur.index
  {
    hide Scan, Slice, Sum;
    if !s.cur.AtEnd() {
      var span := Scan(s.cur.page.table, s.cur.index);
      SliceTouches(c, s, span, span.size, body, head);
      SettleTouches(c, s.(cur := s.cur.Advance(span)), body, head);
    }
  }

  lemma HeaderTouches(c: Config, s: State, input: seq<Byte>)
    requires Inv(c, s) && s.stage != Processing
    ensures match HeaderStage(c, s, input)
      case Stop(t, r) => t.mode == s.mode && (!t.cur.spanActive || t.cur == s.cur)
      case Entered(t, _) => t.mode == s.mode && !t.cur.spanActive
  {
    hide Crc32.ByTable, ParseHeader, StagedCount, Consistency;
  }

  lemma DataTouches(c: Config, s: State, input: seq<Byte>)
    requires Inv(c, s) && Touched(s) && !Conflicts(s, DataMode)
    ensures Touched(NextData(c, s, input).0)
  {
    hide Settle, Slice, InPage, HeaderStage, Scan;
    var s1 := s.(mode := DataMode);
    if s.stage == Processing {
      LeftInSpan(c, s);
      if s.cur.spanActive {
        SliceTouches(c, s1, s.cur.span, s.cur.spanLeft, input, 0);
      } else {
        SettleTouches(c, s1, input, 0);
      }
    } else {
      HeaderTouches(c, s1, input);
      var h := HeaderStage(c, s1, input);
      if h.Entered? && h.used < |input| {
        SettleTouches(c, h.state, input[h.used..], h.used);
      }
    }
  }

  lemma LeftInSpan(c: Config, s: State)
    requires Inv(c, s) && s.stage == Processing
    ensures s.cur.spanActive ==> s.cur.spanLeft <= s.cur.span.size
  {
    hide Scan, Sum, Crc32.ByTable;
  }

  /** Between packets is where nothing of a packet is in hand. */
  lemma BoundaryIs(c: Config, s: State, w: World)
    requires InStream(c, s, w) && JobTracks(c, s, Part(s, w)) && Touched(s) && Owned(s)
    ensures BetweenPackets(s) <==> Part(s, w) == [] && !s.job.assembling && !s.job.skipping
  {
    hide Stream, InPage, OnBody, Page.Sealed, PartOfHeader, Start, Inside;
    if BetweenPackets(s) {
      Boundary(c, s, w);
      AtBoundary(s);
    } else if s.stage == Processing && s.cur.spanActive && Part(s, w) == [] && !s.job.assembling && !s.job.skipping {
      InPageStill(c, s, w);
      Standing(c, s, w);
      OpenIsInside(c, s.cur, w.page);
    } else if s.stage == Processing {
      InPageStill(c, s, w);
    }
  }

  /** What has been delivered of an open span lies in the body. */
  lemma OpenIsInside(c: Config, cur: Cursor, p: Page)
    requires InPage(c, cur) && OnBody(cur, p) && cur.spanActive && cur.spanLeft < cur.span.size
    ensures Inside(cur, p.body) != []
  {
    hide Scan, Crc32.ByTable, Page.HeaderWith;
  }

  /** The call leaves the state so. */
  lemma OneTouches(c: Config, run: Run, w: World, all: seq<seq<Byte>>, call: Call) returns (v: World)
    requires Holds(c, run, w, all) && WithinBuffer(c, all) && Sound(run.codes) && Touched(run.state) && Owned(run.state)
    ensures var next := One(c, run, call);
      Holds(c, next, v, all) && Sound(next.codes) && Touched(next.state) && Owned(next.state)
  {
    hide Holds, NextData, NextPacket, Conflicts, WithinBuffer, Touched, Owned;
    var input := run.rest[..Min(call.size, |run.rest|)];
    var (t, r) := Make(c, run.state, call, input);
    HoldsPlace(c, run, w, all);
    InvOf(c, run.state, w);
    v := w;
    if Conflicts(run.state, if call.AskData? then DataMode else PacketMode) {
      Refused(c, run.state, call, input);
      assert run.rest[0..] == run.rest;
      OtherCodes(c, run, w, all, run.codes + [r.code]);
    } else if call.AskData? {
      v := DataStep(c, run, w, all, call, input);
      DataTouches(c, run.state, input);
      DataOwned(c, run.state, input);
    } else {
      v := PacketStep(c, run, w, all, call, input);
      PacketKeeps(c, run.state, input);
      InPackets(t);
      KeptOwned(c, run.state, input[..r.used], t);
    }
  }

  lemma InPackets(s: State)
    requires s.mode == PacketMode
    ensures Touched(s)
  {
  }

  lemma KeptOwned(c: Config, s: State, d: seq<Byte>, next: State)
    requires Kept(c, s, d, next)
    ensures Owned(next)
  {
    hide Inv, Owned, Accounted, Gathers, TakesPage;
  }

  lemma {:induction false} PlayTouches(c: Config, run: Run, w: World, all: seq<seq<Byte>>, calls: seq<Call>) returns (v: World)
    requires Holds(c, run, w, all) && WithinBuffer(c, all) && Sound(run.codes) && Touched(run.state) && Owned(run.state)
    ensures var next := Play(c, run, calls);
      Holds(c, next, v, all) && Sound(next.codes) && Touched(next.state) && Owned(next.state)
    decreases |calls|
  {
    hide Holds, One, Play, WithinBuffer, Touched, Owned, Sound;
    v := w;
    PlayFirst(c, run, calls);
    if calls != [] {
      v := OneTouches(c, run, w, all, calls[0]);
      v := PlayTouches(c, One(c, run, calls[0]), v, all, calls[1..]);
    }
  }

  /** In any run on a well-formed stream: after streaming calls, a call for packets is refused exactly if the caller holds
      slices of a packet that goes on; after calls for packets, a streaming call is refused exactly if a packet has been
      begun. Between packets, then, the interface can always be changed. */
  lemma RefusedInsidePackets(c: Config, pages: seq<Page>, calls: seq<Call>)
    requires AllOk(pages) && Stream(NEW_STREAM, pages, c.crcOn) && WithinBuffer(c, PacketsOf([], pages))
    ensures var run := Play(c, Opening(pages), calls);
      && (run.state.mode == DataMode ==> (Conflicts(run.state, PacketMode) <==> run.got.part != []) && !Conflicts(run.state, DataMode))
      && (run.state.mode == PacketMode ==>
            (Conflicts(run.state, DataMode) <==> run.state.job.assembling || run.state.job.skipping) && !Conflicts(run.state, PacketMode))
      && (run.state.mode == Unset ==> !Conflicts(run.state, DataMode) && !Conflicts(run.state, PacketMode))
  {
    hide Stream, StreamBytes, PacketsOf, Play, Touched, Owned, WithinBuffer, BetweenPackets, Holds;
    StartHolds(c, pages);
    StartIdle(c, pages);
    var v := PlayTouches(c, Opening(pages), Before(pages), PacketsOf([], pages), calls);
    var run := Play(c, Opening(pages), calls);
    HoldsBoundary(c, run, v, PacketsOf([], pages));
  }

  lemma StartIdle(c: Config, pages: seq<Page>)
    requires AllOk(pages)
    ensures Touched(RESET) && Owned(RESET) && Sound([]) && Opening(pages).state == RESET && Opening(pages).codes == []
  {
  }

  lemma HoldsBoundary(c: Config, run: Run, w: World, all: seq<seq<Byte>>)
    requires Holds(c, run, w, all) && Touched(run.state) && Owned(run.state)
    ensures run.state.mode == DataMode ==> (BetweenPackets(run.state) <==> run.got.part == [])
    ensures run.state.mode == PacketMode ==> (BetweenPackets(run.state) <==> !run.state.job.assembling && !run.state.job.skipping)
  {
    hide InStream, Ahead, Part, Owed, NonEmpty, BetweenPackets, Touched, Owned;
    BoundaryIs(c, run.state, w);
  }
}
