/** A demuxer object in use: the theorems about whole runs hold of what a caller of the object gets. */
module OggSession {
  import opened Bits
  import opened OggFormat
  import opened OggSteps
  import opened OggAccounts
  import opened OggStreams
  import opened OggPackets
  import opened OggRuns
  import opened OggDemuxing

  /** A call that agrees with the step leads to the same run. */
  lemma SameRun(c: Config, run: Run, call: Call, input: seq<Byte>, r: Reply)
    requires Agrees(r, Make(c, run.state, call, input).1)
    ensures Collect(run.got, call, r) == Collect(run.got, call, Make(c, run.state, call, input).1)
    ensures r.used == Make(c, run.state, call, input).1.used && r.code == Make(c, run.state, call, input).1.code
  {
    hide NextData, NextPacket;
  }

  /** One call of the object. */
  method Ask(d: OggDemuxer, call: Call, input: seq<Byte>, ghost run: Run, ghost w: World, ghost all: seq<seq<Byte>>)
      returns (r: Reply, ghost v: World)
    requires d.Valid() && d.Model() == run.state && input <= run.rest
    requires Holds(d.Settings(), run, w, all) && (WithinBuffer(d.Settings(), all) || call.AskData?)
    modifies d, d.staging, d.Buffers()
    ensures d.Valid() && (d.buffer == old(d.buffer) || fresh(d.buffer)) && r.used <= |run.rest|
    ensures var (t, m) := Make(d.Settings(), run.state, call, input); d.Model() == t && Agrees(r, m)
    ensures Holds(d.Settings(), Run(d.Model(), run.rest[r.used..], Collect(run.got, call, r), run.codes + [r.code]), v, all)
  {
    hide Holds, NextData, NextPacket, Conflicts, WithinBuffer, OggDemuxer.Valid, Collect;
    ghost var c := d.Settings();
    v := w;
    if Conflicts(run.state, if call.AskData? then DataMode else PacketMode) {
      Refused(c, run.state, call, input);
      RefusedHolds(c, run, w, all, call);
    } else if call.AskData? {
      v := DataStep(c, run, w, all, call, input);
    } else {
      v := PacketStep(c, run, w, all, call, input);
    }
    if call.AskData? {
      r := d.GetNextData(input);
    } else {
      r := d.GetNextPacket(input);
    }
    SameRun(c, run, call, input, r);
  }

  lemma RefusedHolds(c: Config, run: Run, w: World, all: seq<seq<Byte>>, call: Call)
    requires Holds(c, run, w, all)
    ensures var r := Nothing(InvalidModeSwitch, 0);
      Holds(c, Run(run.state, run.rest[0..], Collect(run.got, call, r), run.codes + [r.code]), w, all)
  {
    hide Holds;
    assert run.rest[0..] == run.rest;
    OtherCodes(c, run, w, all, run.codes + [InvalidModeSwitch]);
  }

  /** A caller that makes these calls, offering again what a call did not take, of a demuxer that has been reset. Only
      calls for packets need a buffer that they fit. */
  method Use(d: OggDemuxer, stream: seq<Byte>, calls: seq<Call>, ghost pages: seq<Page>) returns (got: Got, rest: seq<Byte>)
    requires d.Valid() && d.Model() == RESET
    requires AllOk(pages) && Stream(NEW_STREAM, pages, d.crcOn) && stream == StreamBytes(pages)
    requires WithinBuffer(d.Settings(), PacketsOf([], pages)) || OnlyData(calls)
    modifies d, d.staging, d.Buffers()
    ensures d.Valid() && got == Play(d.Settings(), Opening(pages), calls).got && rest == Play(d.Settings(), Opening(pages), calls).rest
    ensures !OnlyData(calls) ==> NonEmpty(got.packets) <= NonEmpty(PacketsOf([], pages))
    ensures !OnlyData(calls) && rest == [] && d.stage != Processing ==> NonEmpty(got.packets) == NonEmpty(PacketsOf([], pages))
    ensures OnlyData(calls) ==> got.packets <= NonEmpty(PacketsOf([], pages)) && Flat(got.packets) + got.part <= Bodies(pages)
    ensures OnlyData(calls) && Enough(pages, calls) ==>
      rest == [] && d.stage != Processing && got.packets == NonEmpty(PacketsOf([], pages)) && Flat(got.packets) + got.part == Bodies(pages)
    ensures !OnlyData(calls) && OnlyPackets(calls) ==> got.packets <= PacketsOf([], pages)
    ensures !OnlyData(calls) && OnlyPackets(calls) && Enough(pages, calls) ==> rest == [] && d.stage != Processing && got.packets == PacketsOf([], pages)
  {
    hide Holds, Stream, StreamBytes, PacketsOf, NonEmpty, WithinBuffer, OggDemuxer.Valid, OggDemuxer.Model, Make, Collect, Flat, Bodies, Enough;
    ghost var c, all, w, codes := d.Settings(), PacketsOf([], pages), Before(pages), [];
    StartHolds(c, pages);
    d.Shaped();
    got, rest := BEGIN, stream;
    var i := 0;
    while i < |calls|
      invariant 0 <= i <= |calls|
      invariant d.Valid() && (d.buffer == old(d.buffer) || fresh(d.buffer)) && d.Shape() && d.Model().stage == d.stage
      invariant Holds(c, Run(d.Model(), rest, got, codes), w, all)
      invariant Play(c, Run(d.Model(), rest, got, codes), calls[i..]) == Play(c, Opening(pages), calls)
    {
      ghost var run := Run(d.Model(), rest, got, codes);
      var r;
      var n := Min(calls[i].size, |rest|);
      r, w := Ask(d, calls[i], rest[..n], run, w, all);
      d.Shaped();
      SameRun(c, run, calls[i], rest[..n], r);
      PlayOne(c, run, calls, i);
      got := Collect(got, calls[i], r);
      rest := rest[r.used..];
      codes := codes + [r.code];
      i := i + 1;
    }
    assert Play(c, Run(d.Model(), rest, got, codes), calls[i..]) == Run(d.Model(), rest, got, codes);
    if OnlyData(calls) {
      DataCalls(c, pages, calls);
    } else {
      AnyCalls(c, pages, calls);
      if OnlyPackets(calls) {
        PacketCalls(c, pages, calls);
      }
    }
  }

  lemma PlayOne(c: Config, run: Run, calls: seq<Call>, i: nat)
    requires i < |calls|
    ensures var (t, r) := Make(c, run.state, calls[i], run.rest[..Min(calls[i].size, |run.rest|)]);
      Play(c, run, calls[i..]) ==
      Play(c, Run(t, run.rest[Min(r.used, |run.rest|)..], Collect(run.got, calls[i], r), run.codes + [r.code]), calls[i + 1..])
  {
    hide Play, Make, Collect;
    assert calls[i..][1..] == calls[i + 1..];
    PlayFirst(c, run, calls[i..]);
  }
}
