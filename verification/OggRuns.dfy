/** Whole runs of the demuxer: any calls of either interface, any cutting of the stream. */
module OggRuns {
  import opened Bits
  import opened OggFormat
  import opened OggSteps
  import opened OggAccounts
  import opened OggStreams
  import opened OggHeaders
  import opened OggDelivery
  import opened OggPackets

  const NEW_STREAM := Context(false, 0, 0, false)

  /** A call, with at most this many bytes of what comes next in the stream. */
  datatype Call = AskData(size: nat) | AskPacket(size: nat)

  predicate OnlyData(calls: seq<Call>) {
    forall call <- calls :: call.AskData?
  }

  predicate OnlyPackets(calls: seq<Call>) {
    forall call <- calls :: call.AskPacket?
  }

  /** What a caller has put together: the packets, and the slices of the one that goes on. */
  datatype Got = Got(packets: seq<seq<Byte>>, part: seq<Byte>)

  datatype Run = Run(state: State, rest: seq<Byte>, got: Got, codes: seq<Code>)

  const BEGIN := Got([], [])

  function Make(c: Config, s: State, call: Call, input: seq<Byte>): (State, Reply) {
    if call.AskData? then NextData(c, s, input) else NextPacket(c, s, input)
  }

  function Collect(got: Got, call: Call, r: Reply): Got {
    if r.code != OggSteps.Ok then got
    else if call.AskPacket? then Got(got.packets + [r.data], got.part)
    else if r.isEnd then Got(got.packets + [got.part + r.data], [])
    else Got(got.packets, got.part + r.data)
  }

  /** One call; bytes that it does not take are offered again. */
  function One(c: Config, run: Run, call: Call): Run {
    var (t, r) := Make(c, run.state, call, run.rest[..Min(call.size, |run.rest|)]);
    Run(t, run.rest[Min(r.used, |run.rest|)..], Collect(run.got, call, r), run.codes + [r.code])
  }

  function Play(c: Config, run: Run, calls: seq<Call>): Run
    decreases |calls|
  {
    if calls == [] then run else Play(c, One(c, run, calls[0]), calls[1..])
  }

  lemma OneKind(calls: seq<Call>)
    ensures calls != [] && OnlyData(calls) ==> calls[0].AskData? && OnlyData(calls[1..])
    ensures calls != [] && OnlyPackets(calls) ==> calls[0].AskPacket? && OnlyPackets(calls[1..])
  {
  }

  lemma PlayFirst(c: Config, run: Run, calls: seq<Call>)
    ensures Play(c, run, calls) == if calls == [] then run else Play(c, One(c, run, calls[0]), calls[1..])
  {
    hide One;
  }

  predicate WithinBuffer(c: Config, packets: seq<seq<Byte>>) {
    forall p <- packets :: |p| <= c.maxBuffer
  }

  /** A run is at this place, and has got what the stream no longer owes. */
  predicate Holds(c: Config, run: Run, w: World, all: seq<seq<Byte>>) {
    && InStream(c, run.state, w) && run.rest == Ahead(run.state, w) && JobTracks(c, run.state, Part(run.state, w))
    && NonEmpty(all) == NonEmpty(run.got.packets) + NonEmpty(Owed(run.state, w))
    && run.got.part == (if run.state.mode == DataMode then Part(run.state, w) else [])
  }

  lemma {:induction false} NonEmptyIn(packets: seq<seq<Byte>>)
    ensures forall p <- NonEmpty(packets) :: p in packets
    ensures packets != [] && packets[0] != [] ==> packets[0] in NonEmpty(packets)
  {
    if packets != [] {
      NonEmptyIn(packets[1..]);
    }
  }

  /** No packet within the buffer's size is skipped. */
  lemma NeverSkipped(c: Config, all: seq<seq<Byte>>, got: seq<seq<Byte>>, owed: seq<seq<Byte>>)
    requires NonEmpty(all) == NonEmpty(got) + NonEmpty(owed) && WithinBuffer(c, all)
    ensures owed != [] ==> |owed[0]| <= c.maxBuffer
  {
    NonEmptyIn(all);
    NonEmptyIn(owed);
    if owed != [] && owed[0] != [] {
      assert owed[0] in NonEmpty(got) + NonEmpty(owed);
    }
  }

  lemma NonEmptyEnd(got: seq<seq<Byte>>, p: seq<Byte>)
    ensures NonEmpty(got + [p]) == NonEmpty(got) + (if p == [] then [] else [p])
  {
    NonEmptyConcat(got, [p]);
    assert NonEmpty([p]) == (if p == [] then [] else [p]) + NonEmpty([]);
  }

  lemma DataStep(c: Config, run: Run, w: World, all: seq<seq<Byte>>, call: Call, input: seq<Byte>) returns (v: World)
    requires Holds(c, run, w, all) && call.AskData? && input <= run.rest && !Conflicts(run.state, DataMode)
    ensures var (t, r) := NextData(c, run.state, input);
      && !r.code.IsError() && r.code != PacketSkipped && r.used <= |run.rest|
      && Holds(c, Run(t, run.rest[r.used..], Collect(run.got, call, r), run.codes + [r.code]), v, all)
      && t.mode == DataMode && r.data + BodyAhead(t, v) == BodyAhead(run.state, w)
      && (r.code != OggSteps.Ok ==> r.data == []) && (r.isEnd ==> run.got.part + r.data != [])
      && Moves(run.state, w, t, v, r) && DataTold(run.state, w, t, r)
  {
    hide InStream, Ahead, BodyAhead, Part, Owed, NextData, BetweenPackets, NonEmpty, DataTold, Moves;
    v := DataTracks(c, run.state, w, input);
    var s := run.state;
    if s.mode == PacketMode {
      Boundary(c, s, w);
      AtBoundary(s);
    }
    var (t, r) := NextData(c, s, input);
    if r.code == OggSteps.Ok && r.isEnd {
      NonEmptyEnd(run.got.packets, Part(s, w) + r.data);
      assert NonEmpty(run.got.packets) + ([Part(s, w) + r.data] + NonEmpty(Owed(t, v)))
          == NonEmpty(run.got.packets) + [Part(s, w) + r.data] + NonEmpty(Owed(t, v));
    } else {
      assert Part(s, w) + [] == Part(s, w);
    }
  }

  lemma AtBoundary(s: State)
    requires BetweenPackets(s)
    ensures !s.job.assembling && !s.job.skipping
  {
  }

  lemma PacketStep(c: Config, run: Run, w: World, all: seq<seq<Byte>>, call: Call, input: seq<Byte>) returns (v: World)
    requires Holds(c, run, w, all) && WithinBuffer(c, all) && call.AskPacket? && input <= run.rest && !Conflicts(run.state, PacketMode)
    ensures var (t, r) := NextPacket(c, run.state, input);
      && !r.code.IsError() && r.code != PacketSkipped && r.used <= |run.rest|
      && Holds(c, Run(t, run.rest[r.used..], Collect(run.got, call, r), run.codes + [r.code]), v, all)
      && run.got.packets + Owed(run.state, w) == Collect(run.got, call, r).packets + Owed(t, v)
      && t.mode == PacketMode
  {
    hide InStream, Ahead, Part, Owed, NextPacket, BetweenPackets, NonEmpty;
    v := PacketTracks(c, run.state, w, input);
    var s := run.state;
    if s.mode == DataMode {
      Boundary(c, s, w);
    }
    NeverSkipped(c, all, run.got.packets, Owed(s, w));
    var (t, r) := NextPacket(c, s, input);
    if r.code == OggSteps.Ok {
      NonEmptyEnd(run.got.packets, r.data);
      NonEmptyOne(r.data, Owed(t, v));
      assert run.got.packets + ([r.data] + Owed(t, v)) == run.got.packets + [r.data] + Owed(t, v);
      var e := if r.data == [] then [] else [r.data];
      assert NonEmpty(run.got.packets) + (e + NonEmpty(Owed(t, v))) == NonEmpty(run.got.packets) + e + NonEmpty(Owed(t, v));
    }
  }

  lemma Refused(c: Config, s: State, call: Call, input: seq<Byte>)
    requires Conflicts(s, if call.AskData? then DataMode else PacketMode)
    ensures Make(c, s, call, input) == (s, Nothing(InvalidModeSwitch, 0))
  {
  }

  /** A reply that is not an error, or the refusal of a mode switch. */
  predicate Sound(codes: seq<Code>) {
    forall code <- codes :: code == OggSteps.Ok || code == NeedMoreData || code == InvalidModeSwitch
  }

  lemma {:induction false} PlayHolds(c: Config, run: Run, w: World, all: seq<seq<Byte>>, calls: seq<Call>) returns (v: World)
    requires Holds(c, run, w, all) && WithinBuffer(c, all) && Sound(run.codes)
    ensures Holds(c, Play(c, run, calls), v, all) && Sound(Play(c, run, calls).codes)
    decreases |calls|
  {
    hide Holds, NextData, NextPacket, Conflicts, WithinBuffer, Play;
    v := w;
    PlayFirst(c, run, calls);
    if calls != [] {
      var input := run.rest[..Min(calls[0].size, |run.rest|)];
      var (t, r) := Make(c, run.state, calls[0], input);
      if Conflicts(run.state, if calls[0].AskData? then DataMode else PacketMode) {
        Refused(c, run.state, calls[0], input);
        assert run.rest[0..] == run.rest;
        OtherCodes(c, run, w, all, run.codes + [r.code]);
      } else if calls[0].AskData? {
        v := DataStep(c, run, w, all, calls[0], input);
      } else {
        v := PacketStep(c, run, w, all, calls[0], input);
      }
      v := PlayHolds(c, One(c, run, calls[0]), v, all, calls[1..]);
    }
  }

  lemma OtherCodes(c: Config, run: Run, w: World, all: seq<seq<Byte>>, codes: seq<Code>)
    requires Holds(c, run, w, all)
    ensures Holds(c, run.(codes := codes), w, all)
  {
    hide InStream, Ahead, Part, Owed, NonEmpty;
  }

  function Opening(pages: seq<Page>): (run: Run)
    requires AllOk(pages)
  {
    Run(RESET, StreamBytes(pages), BEGIN, [])
  }

  lemma {:induction false} StreamPagesOk(x: Context, pages: seq<Page>, crcOn: bool)
    requires Stream(x, pages, crcOn)
    ensures AllOk(pages)
    decreases |pages|
  {
    if pages != [] {
      StreamPagesOk(After(x, pages[0]), pages[1..], crcOn);
      assert forall i | 1 <= i < |pages| :: pages[i] == pages[1..][i - 1];
    }
  }

  /** The place before the first page. */
  function Before(pages: seq<Page>): World
    requires AllOk(pages)
  {
    Place(Page(0, [], [], [], [], [], []), pages, [])
  }

  lemma ResetInStream(c: Config, pages: seq<Page>)
    requires AllOk(pages) && Stream(NEW_STREAM, pages, c.crcOn)
    ensures InStream(c, RESET, Before(pages))
  {
    hide Stream, OnPage, InPage, Page.Header;
  }

  lemma ResetPlace(pages: seq<Page>)
    requires AllOk(pages)
    ensures Ahead(RESET, Before(pages)) == StreamBytes(pages) && Part(RESET, Before(pages)) == []
    ensures Owed(RESET, Before(pages)) == PacketsOf([], pages) && BodyAhead(RESET, Before(pages)) == Bodies(pages)
  {
    hide PacketsOf, StreamBytes, Rest, Inside;
    assert StreamBytes(pages)[0..] == StreamBytes(pages);
  }

  lemma StartHolds(c: Config, pages: seq<Page>)
    requires AllOk(pages) && Stream(NEW_STREAM, pages, c.crcOn)
    ensures Holds(c, Opening(pages), Before(pages), PacketsOf([], pages)) && Owed(RESET, Before(pages)) == PacketsOf([], pages)
    ensures BodyAhead(RESET, Before(pages)) == Bodies(pages)
  {
    hide Stream, PacketsOf, StreamBytes, NonEmpty, InStream, Ahead, BodyAhead, Part, Owed, Before;
    ResetInStream(c, pages);
    ResetPlace(pages);
    NonEmptyNone();
    assert [] + NonEmpty(PacketsOf([], pages)) == NonEmpty(PacketsOf([], pages));
  }

  lemma NonEmptyNone()
    ensures NonEmpty([]) == []
  {
  }

  /** Between pages, with no byte of the stream left, no packet is owed. */
  lemma NothingOwed(c: Config, s: State, w: World)
    requires InStream(c, s, w) && s.stage != Processing && Ahead(s, w) == []
    ensures Owed(s, w) == [] && BodyAhead(s, w) == [] && s.staged == []
  {
    hide Stream, Page.Header;
    if w.later != [] {
      NextPage(c, s, w);
      Waiting(c, s, w);
    }
  }

  // How far calls come.

  /** Nothing of the stream is left, nor of the page. */
  predicate AtEnd(run: Run) {
    run.rest == [] && run.state.stage != Processing
  }

  /** What is left to do: every call with input takes a byte, or a lacing value of the page. */
  function Left(run: Run): nat {
    257 * |run.rest| + Pending(run.state)
  }

  /** Every call has input, as long as there is any. */
  predicate Fed(calls: seq<Call>) {
    forall call <- calls :: call.size > 0
  }

  /** More calls with input than the stream can keep busy */
  predicate Enough(pages: seq<Page>, calls: seq<Call>)
    requires AllOk(pages)
  {
    |calls| >= 257 * |StreamBytes(pages)| && Fed(calls)
  }

  /** So many calls have taken what was left from a to b. */
  predicate Nearer(a: nat, b: nat, calls: nat) {
    b == 0 || b + calls <= a
  }

  lemma NearerStep(a: nat, b: nat, c: nat, calls: nat)
    requires (b < a || a == b == 0) && Nearer(b, c, calls)
    ensures Nearer(a, c, calls + 1)
  {
  }

  lemma NearerNone(a: nat)
    ensures Nearer(a, a, 0)
  {
  }

  lemma FedFirst(calls: seq<Call>)
    requires Fed(calls) && calls != []
    ensures calls[0].size > 0 && Fed(calls[1..])
  {
  }

  lemma AllLeft(run: Run)
    ensures Left(run) == 0 ==> run.rest == [] && Pending(run.state) == 0
  {
  }

  lemma PendingSmall(c: Config, s: State, w: World)
    requires InStream(c, s, w)
    ensures Pending(s) <= 256 && (Pending(s) == 0 <==> s.stage != Processing)
  {
    hide Stream, InPage, Start, Page.HeaderWith, Sum, Page.Sealed;
  }

  lemma {:induction false} AllZero(table: seq<Byte>, i: nat)
    requires i <= |table| && Sum(table[i..]) == 0
    ensures forall j | i <= j < |table| :: table[j] == 0
    decreases |table| - i
  {
    if i < |table| {
      assert table[i..][0] == table[i] && table[i..][1..] == table[i + 1..];
      AllZero(table, i + 1);
    }
  }

  lemma LastBytes(c: Config, s: State, w: World)
    requires InStream(c, s, w) && s.stage == Processing && Ahead(s, w) == []
    ensures NoBytes(s)
  {
    hide Loose, InPage, Scan, Sum, OnBody, Start, StreamBytes;
    InPageStill(c, s, w);
    Standing(c, s, w);
    if s.cur.spanActive {
      ActiveSpan(c, s.cur);
      InBody(c, s, w, s.cur.span, s.cur.spanLeft, []);
      StillLeft(c, s);
      AllTaken(s, w);
    } else {
      Closed(c, s, w);
      AllTaken(s, w);
      RestHolds(w.page.lacing, s.cur.index, w.page.body);
      AllZero(s.cur.page.table, s.cur.index);
    }
  }

  lemma StillLeft(c: Config, s: State)
    requires Inv(c, s) && s.stage == Processing && s.cur.spanActive
    ensures 0 < s.cur.spanLeft
  {
    hide InPage;
  }

  lemma AllTaken(s: State, w: World)
    requires s.stage == Processing && Ahead(s, w) == []
    ensures s.cur.consumed >= |w.page.body|
  {
    hide StreamBytes;
  }

  /** A call comes closer to the end of the stream, or stays there. */
  lemma CallProgress(c: Config, run: Run, w: World, call: Call, t: State, v: World, r: Reply)
    requires InStream(c, run.state, w) && run.rest == Ahead(run.state, w) && call.size > 0
    requires (t, r) == Make(c, run.state, call, run.rest[..Min(call.size, |run.rest|)])
    requires !r.code.IsError() && r.used <= |run.rest| && InStream(c, t, v)
    ensures var next := Run(t, run.rest[r.used..], Collect(run.got, call, r), run.codes + [r.code]);
      Left(next) < Left(run) || Left(run) == Left(next) == 0
  {
    hide InStream, Ahead, NextData, NextPacket, Pending, NoBytes;
    var s, input := run.state, run.rest[..Min(call.size, |run.rest|)];
    PendingSmall(c, s, w);
    PendingSmall(c, t, v);
    InvOf(c, s, w);
    if input != [] {
      DataProgress(c, s, input);
      PacketProgress(c, s, input);
    } else if s.stage == Processing {
      LastBytes(c, s, w);
      EmptyDataProgress(c, s);
      PacketProgress(c, s, input);
    } else {
      NothingOwed(c, s, w);
      NothingComes(c, s, call);
    }
  }

  lemma InvOf(c: Config, s: State, w: World)
    requires InStream(c, s, w)
    ensures Inv(c, s)
  {
    hide Loose, Inv;
  }

  lemma NothingComes(c: Config, s: State, call: Call)
    requires s.stage != Processing && s.staged == []
    ensures Make(c, s, call, []).0.stage != Processing
  {
    Unparsed();
    hide ParseHeader, Accept, Offer, BetweenPackets;
  }

  /** Whatever calls of the two interfaces are made on a well-formed stream, in whatever order and however it is cut:
      no call fails, except that a mode switch inside a packet is refused and changes nothing; the non-empty packets
      that the caller puts together are, in order, the first non-empty packets of the stream, none lost, split or
      repeated; and at the end of the stream they are all of them. */
  lemma AnyCalls(c: Config, pages: seq<Page>, calls: seq<Call>)
    requires AllOk(pages) && Stream(NEW_STREAM, pages, c.crcOn) && WithinBuffer(c, PacketsOf([], pages))
    ensures var run := Play(c, Opening(pages), calls);
      && Sound(run.codes)
      && NonEmpty(run.got.packets) <= NonEmpty(PacketsOf([], pages))
      && (AtEnd(run) ==> NonEmpty(run.got.packets) == NonEmpty(PacketsOf([], pages)))
  {
    hide Stream, PacketsOf, StreamBytes, NonEmpty, InStream, Owed, Ahead, Part, Play, JobTracks;
    var all := PacketsOf([], pages);
    StartHolds(c, pages);
    var v := PlayHolds(c, Opening(pages), Before(pages), all, calls);
    var run := Play(c, Opening(pages), calls);
    if AtEnd(run) {
      NothingOwed(c, run.state, v);
      NonEmptyNone();
    }
  }

  /** A run of the packet interface has exactly the packets that the stream no longer owes. */
  predicate Unpacking(c: Config, run: Run, w: World, all: seq<seq<Byte>>) {
    Holds(c, run, w, all) && WithinBuffer(c, all) && run.state.mode != DataMode && all == run.got.packets + Owed(run.state, w)
  }

  lemma UnpackingStep(c: Config, run: Run, w: World, all: seq<seq<Byte>>, call: Call) returns (v: World)
    requires Unpacking(c, run, w, all) && call.AskPacket?
    ensures var next := One(c, run, call);
      Unpacking(c, next, v, all) && (call.size > 0 ==> Left(next) < Left(run) || Left(run) == Left(next) == 0)
  {
    hide Holds, NextPacket, WithinBuffer, Owed, Conflicts, Left, Collect;
    var input := run.rest[..Min(call.size, |run.rest|)];
    var (t, r) := Make(c, run.state, call, input);
    NoSwitch(run.state);
    v := PacketStep(c, run, w, all, call, input);
    if call.size > 0 {
      HoldsPlace(c, run, w, all);
      HoldsPlace(c, One(c, run, call), v, all);
      CallProgress(c, run, w, call, t, v, r);
    }
  }

  lemma {:induction false} PacketPlay(c: Config, run: Run, w: World, all: seq<seq<Byte>>, calls: seq<Call>) returns (v: World)
    requires Unpacking(c, run, w, all) && OnlyPackets(calls)
    ensures Unpacking(c, Play(c, run, calls), v, all)
    ensures Fed(calls) ==> Nearer(Left(run), Left(Play(c, run, calls)), |calls|)
    decreases |calls|
  {
    hide Unpacking, One, Left, Fed, Nearer, Play, OnlyPackets;
    v := w;
    OneKind(calls);
    NearerNone(Left(run));
    PlayFirst(c, run, calls);
    if calls != [] {
      var next := One(c, run, calls[0]);
      v := UnpackingStep(c, run, w, all, calls[0]);
      v := PacketPlay(c, next, v, all, calls[1..]);
      if Fed(calls) {
        FedFirst(calls);
        NearerStep(Left(run), Left(next), Left(Play(c, next, calls[1..])), |calls| - 1);
      }
    }
  }

  lemma HoldsPlace(c: Config, run: Run, w: World, all: seq<seq<Byte>>)
    requires Holds(c, run, w, all)
    ensures InStream(c, run.state, w) && run.rest == Ahead(run.state, w)
  {
    hide InStream, Ahead, Part, Owed;
  }

  lemma NoSwitch(s: State)
    requires s.mode != DataMode
    ensures !Conflicts(s, PacketMode)
  {
  }

  /** The packet interface alone returns exactly the packets of the stream, the empty ones too, for any cutting. */
  lemma PacketCalls(c: Config, pages: seq<Page>, calls: seq<Call>)
    requires AllOk(pages) && Stream(NEW_STREAM, pages, c.crcOn) && WithinBuffer(c, PacketsOf([], pages))
    requires OnlyPackets(calls)
    ensures var run := Play(c, Opening(pages), calls);
      && run.got.packets <= PacketsOf([], pages)
      && (AtEnd(run) ==> run.got.packets == PacketsOf([], pages))
      && (Enough(pages, calls) ==> AtEnd(run))
  {
    hide Stream, PacketsOf, StreamBytes, NonEmpty, InStream, Owed, Ahead, Part, Play, JobTracks;
    var all := PacketsOf([], pages);
    StartHolds(c, pages);
    assert [] + all == all;
    var v := PacketPlay(c, Opening(pages), Before(pages), all, calls);
    var run := Play(c, Opening(pages), calls);
    if AtEnd(run) {
      NothingOwed(c, run.state, v);
    }
    if Enough(pages, calls) {
      PendingSmall(c, run.state, v);
      AllLeft(run);
    }
  }

  // The streaming interface alone.

  /** What a caller holds, and the bytes of the bodies to come, are the bodies. */
  predicate Reading(c: Config, run: Run, w: World, all: seq<seq<Byte>>, bodies: seq<Byte>) {
    && Holds(c, run, w, all) && run.state.mode != PacketMode && NonEmpty(run.got.packets) == run.got.packets
    && Flat(run.got.packets) + run.got.part + BodyAhead(run.state, w) == bodies
    && forall code <- run.codes :: code == OggSteps.Ok || code == NeedMoreData
  }

  lemma BytesKept(got: Got, r: Reply, size: nat, ahead: seq<Byte>, ahead2: seq<Byte>)
    requires r.data + ahead2 == ahead && (r.code != OggSteps.Ok ==> r.data == [])
    ensures var next := Collect(got, AskData(size), r);
      Flat(next.packets) + next.part + ahead2 == Flat(got.packets) + got.part + ahead
  {
    hide Flat;
    FlatEnd(got.packets, got.part + r.data);
    var a := Flat(got.packets);
    assert a + (got.part + r.data) + [] + ahead2 == a + got.part + (r.data + ahead2);
    assert a + (got.part + r.data) + ahead2 == a + got.part + (r.data + ahead2);
    assert [] + ahead2 == ahead2;
  }

  lemma ReadingStep(c: Config, run: Run, w: World, all: seq<seq<Byte>>, bodies: seq<Byte>, call: Call) returns (v: World)
    requires Reading(c, run, w, all, bodies) && call.AskData?
    ensures var next := One(c, run, call);
      Reading(c, next, v, all, bodies) && (call.size > 0 ==> Left(next) < Left(run) || Left(run) == Left(next) == 0)
    ensures var (t, r) := NextData(c, run.state, run.rest[..Min(call.size, |run.rest|)]);
      && t == One(c, run, call).state && Moves(run.state, w, t, v, r) && DataTold(run.state, w, t, r)
      && r.data + BodyAhead(t, v) == BodyAhead(run.state, w) && (r.code != OggSteps.Ok ==> r.data == [])
  {
    hide Holds, NextData, BodyAhead, Flat, NonEmpty, BetweenPackets, Left, DataTold, Moves, Reading, Collect, One;
    var input := run.rest[..Min(call.size, |run.rest|)];
    ReadingHolds(c, run, w, all, bodies);
    v := DataStep(c, run, w, all, call, input);
    var (t, r) := NextData(c, run.state, input);
    OneIs(c, run, call);
    StillReading(c, run, w, all, bodies, call, t, v, r);
    if call.size > 0 {
      HoldsPlace(c, run, w, all);
      HoldsPlace(c, One(c, run, call), v, all);
      CallProgress(c, run, w, call, t, v, r);
    }
  }

  lemma ReadingHolds(c: Config, run: Run, w: World, all: seq<seq<Byte>>, bodies: seq<Byte>)
    requires Reading(c, run, w, all, bodies)
    ensures Holds(c, run, w, all) && !Conflicts(run.state, DataMode)
  {
    hide Holds, Flat, NonEmpty, BodyAhead;
  }

  lemma OneIs(c: Config, run: Run, call: Call)
    requires call.AskData?
    ensures var (t, r) := NextData(c, run.state, run.rest[..Min(call.size, |run.rest|)]);
      One(c, run, call) == Run(t, run.rest[Min(r.used, |run.rest|)..], Collect(run.got, call, r), run.codes + [r.code])
  {
    hide NextData, Collect;
  }

  lemma StillReading(c: Config, run: Run, w: World, all: seq<seq<Byte>>, bodies: seq<Byte>, call: Call, t: State, v: World, r: Reply)
    requires Reading(c, run, w, all, bodies) && call.AskData? && r.used <= |run.rest| && t.mode == DataMode
    requires var next := Run(t, run.rest[r.used..], Collect(run.got, call, r), run.codes + [r.code]); Holds(c, next, v, all)
    requires !r.code.IsError() && r.code != PacketSkipped && r.data + BodyAhead(t, v) == BodyAhead(run.state, w)
    requires (r.code != OggSteps.Ok ==> r.data == []) && (r.isEnd ==> run.got.part + r.data != [])
    ensures Reading(c, Run(t, run.rest[r.used..], Collect(run.got, call, r), run.codes + [r.code]), v, all, bodies)
  {
    hide Holds, BodyAhead, Flat, NonEmpty;
    BytesKept(run.got, r, call.size, BodyAhead(run.state, w), BodyAhead(t, v));
    NonEmptyEnd(run.got.packets, run.got.part + r.data);
  }

  lemma {:induction false} DataPlay(c: Config, run: Run, w: World, all: seq<seq<Byte>>, bodies: seq<Byte>, calls: seq<Call>) returns (v: World)
    requires Reading(c, run, w, all, bodies) && OnlyData(calls)
    ensures Reading(c, Play(c, run, calls), v, all, bodies)
    ensures Fed(calls) ==> Nearer(Left(run), Left(Play(c, run, calls)), |calls|)
    decreases |calls|
  {
    hide Reading, One, Left, Fed, Nearer, Play, OnlyData;
    v := w;
    OneKind(calls);
    NearerNone(Left(run));
    PlayFirst(c, run, calls);
    if calls != [] {
      var next := One(c, run, calls[0]);
      v := ReadingStep(c, run, w, all, bodies, calls[0]);
      v := DataPlay(c, next, v, all, bodies, calls[1..]);
      if Fed(calls) {
        FedFirst(calls);
        NearerStep(Left(run), Left(next), Left(Play(c, next, calls[1..])), |calls| - 1);
      }
    }
  }

  lemma StartReads(c: Config, pages: seq<Page>)
    requires AllOk(pages) && Stream(NEW_STREAM, pages, c.crcOn)
    ensures Reading(c, Opening(pages), Before(pages), PacketsOf([], pages), Bodies(pages))
  {
    hide Stream, PacketsOf, StreamBytes, NonEmpty, InStream, Owed, Ahead, BodyAhead, Bodies, Part, JobTracks, Flat;
    StartHolds(c, pages);
    FlatOne([], []);
    NonEmptyNone();
    assert [] + [] + Bodies(pages) == Bodies(pages);
  }

  /** Where no byte of the stream is left, no byte of a body is. */
  lemma NoBodyLeft(c: Config, s: State, w: World)
    requires InStream(c, s, w) && Ahead(s, w) == []
    ensures BodyAhead(s, w) == []
  {
    hide InStream, StreamBytes, Bodies;
    if s.stage != Processing {
      NothingOwed(c, s, w);
    } else {
      var rest := w.page.body[Min(s.cur.consumed, |w.page.body|)..];
      assert |rest + StreamBytes(w.later)| == 0;
      NoPageLeft(c, s, w);
    }
  }

  lemma NoPageLeft(c: Config, s: State, w: World)
    requires InStream(c, s, w) && StreamBytes(w.later) == []
    ensures w.later == [] && Bodies(w.later) == []
  {
    hide OpenWell, OnPage, BeforePage, Inv, Page.Header;
  }

  /** The streaming interface alone, on any well-formed stream, however it is cut and however long its packets are: no
      call fails; the packets that the caller has put together are the first non-empty packets of the stream; they and
      the slices of the packet that goes on are the first bytes of the page bodies; at the end they are all of them; and
      calls with input do come to the end. */
  lemma DataCalls(c: Config, pages: seq<Page>, calls: seq<Call>)
    requires AllOk(pages) && Stream(NEW_STREAM, pages, c.crcOn) && OnlyData(calls)
    ensures var run := Play(c, Opening(pages), calls);
      && (forall code <- run.codes :: code == OggSteps.Ok || code == NeedMoreData)
      && run.got.packets <= NonEmpty(PacketsOf([], pages))
      && Flat(run.got.packets) + run.got.part <= Bodies(pages)
      && (AtEnd(run) ==> run.got.packets == NonEmpty(PacketsOf([], pages)) && Flat(run.got.packets) + run.got.part == Bodies(pages))
      && (Enough(pages, calls) ==> AtEnd(run))
  {
    hide Stream, PacketsOf, StreamBytes, NonEmpty, InStream, Owed, Ahead, BodyAhead, Bodies, Part, Play, JobTracks, Flat;
    var all, bodies := PacketsOf([], pages), Bodies(pages);
    StartReads(c, pages);
    var v := DataPlay(c, Opening(pages), Before(pages), all, bodies, calls);
    var run := Play(c, Opening(pages), calls);
    if AtEnd(run) {
      NothingOwed(c, run.state, v);
      assert run.got.packets + [] == run.got.packets;
    }
    if Enough(pages, calls) {
      PendingSmall(c, run.state, v);
      AllLeft(run);
    }
  }

  // The bytes.

  /** What the pages leave of a packet that they do not complete. */
  function OpenAfter(open: seq<Byte>, pages: seq<Page>): seq<Byte>
    requires AllOk(pages)
    decreases |pages|
  {
    if pages == [] then open else OpenAfter(Lace(open, pages[0].lacing, pages[0].body).open, pages[1..])
  }

  lemma Assoc(a: seq<Byte>, b: seq<Byte>, c: seq<Byte>)
    ensures (a + b) + c == a + (b + c)
  {
  }

  lemma {:induction false} LacePartitions(open: seq<Byte>, lacing: seq<Byte>, body: seq<Byte>)
    requires |body| == Sum(lacing)
    ensures Flat(Lace(open, lacing, body).packets) + Lace(open, lacing, body).open == open + body
    decreases |lacing|
  {
    hide Flat, Lace, Sum;
    FlatOne([], []);
    if lacing == [] {
      LaceNone(open);
      LaceNone([]);
      assert body == [] && [] + open == open + [];
    } else {
      assert lacing[0..] == lacing;
      LaceStep(open, lacing, 0, body);
      var n := lacing[0] as nat;
      Assoc(open, body[..n], body[n..]);
      assert body[..n] + body[n..] == body;
      if n == 255 {
        LacePartitions(open + body[..n], lacing[1..], body[n..]);
      } else {
        LacePartitions([], lacing[1..], body[n..]);
        var rest := Lace([], lacing[1..], body[n..]);
        FlatOne(open + body[..n], rest.packets);
        Assoc(open + body[..n], Flat(rest.packets), rest.open);
        assert [] + body[n..] == body[n..];
      }
    }
  }

  /** Lacing divides the page bodies into the packets and an open end: no byte is left out or used twice. */
  lemma {:induction false} LacingPartitions(open: seq<Byte>, pages: seq<Page>)
    requires AllOk(pages)
    ensures Flat(PacketsOf(open, pages)) + OpenAfter(open, pages) == open + Bodies(pages)
    decreases |pages|
  {
    hide Flat, Lace, Sum;
    FlatOne([], []);
    if pages == [] {
      assert [] + open == open + [];
    } else {
      var p := pages[0];
      var l := Lace(open, p.lacing, p.body);
      var later := PacketsOf(l.open, pages[1..]);
      LacePartitions(open, p.lacing, p.body);
      LacingPartitions(l.open, pages[1..]);
      FlatConcat(l.packets, later);
      Assoc(Flat(l.packets), Flat(later), OpenAfter(l.open, pages[1..]));
      Assoc(Flat(l.packets), l.open, Bodies(pages[1..]));
      Assoc(open, p.body, Bodies(pages[1..]));
    }
  }

  lemma {:induction false} FlatNonEmpty(packets: seq<seq<Byte>>)
    ensures Flat(NonEmpty(packets)) == Flat(packets)
  {
    if packets != [] {
      FlatNonEmpty(packets[1..]);
      if packets[0] != [] {
        assert ([packets[0]] + NonEmpty(packets[1..]))[1..] == NonEmpty(packets[1..]);
      } else {
        assert [] + NonEmpty(packets[1..]) == NonEmpty(packets[1..]);
        assert [] + Flat(packets[1..]) == Flat(packets[1..]);
      }
    }
  }

  /** The bytes that a caller has put together are the page bodies, in order, as far as its packets go. */
  lemma BytesInOrder(c: Config, pages: seq<Page>, calls: seq<Call>)
    requires AllOk(pages) && Stream(NEW_STREAM, pages, c.crcOn) && WithinBuffer(c, PacketsOf([], pages))
    ensures var run := Play(c, Opening(pages), calls);
      && Flat(run.got.packets) <= Bodies(pages)
      && (AtEnd(run) ==> Flat(run.got.packets) + OpenAfter([], pages) == Bodies(pages))
  {
    hide Stream, PacketsOf, StreamBytes, NonEmpty, Play, Flat, Bodies, OpenAfter;
    var all, run := PacketsOf([], pages), Play(c, Opening(pages), calls);
    AnyCalls(c, pages, calls);
    LacingPartitions([], pages);
    FlatNonEmpty(all);
    FlatNonEmpty(run.got.packets);
    var a, b := NonEmpty(run.got.packets), NonEmpty(all);
    assert b == a + b[|a|..];
    FlatConcat(a, b[|a|..]);
    assert [] + Bodies(pages) == Bodies(pages);
    assert Flat(all) + OpenAfter([], pages) == Flat(a) + (Flat(b[|a|..]) + OpenAfter([], pages));
  }
}
