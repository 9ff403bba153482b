/** Pings, pongs and close frames between the fragments of messages: they are reported, and change nothing else. */
module WsControls {
  import opened Bits
  import opened WsFrames
  import opened WsReceiver
  import opened WsSender
  import opened WsLink
  import Utf8

  predicate IsControl(f: Frame) {
    f.opcode == PING || f.opcode == PONG || f.opcode == CLOSE
  }

  /** The frames that are left when the control frames are taken out */
  function DataOnly(ws: seq<FineWire>): seq<FineWire>
    decreases |ws|
  {
    if ws == [] then [] else (if IsControl(ws[0].frame) then [] else [ws[0]]) + DataOnly(ws[1..])
  }

  /** What the control frames say, each with its payload (sections 5.5.1 to 5.5.3 of RFC 6455) */
  function ControlsOf(ws: seq<FineWire>): seq<Event>
    decreases |ws|
  {
    if ws == [] then []
    else
      var f := ws[0].frame;
      var first :=
        if f.opcode == 0x9 then [Ping(f.payload)]
        else if f.opcode == 0xA then [Pong(f.payload)]
        else if f.opcode == 0x8 then [CloseFrame(f.payload)]
        else [];
      first + ControlsOf(ws[1..])
  }

  predicate IsReport(e: Event) {
    e.Ping? || e.Pong? || e.CloseFrame?
  }

  /** The reports of control frames among what was emitted */
  function Reports(out: seq<Event>): seq<Event> {
    if out == [] then [] else Reports(out[..|out| - 1]) + if IsReport(out[|out| - 1]) then [out[|out| - 1]] else []
  }

  /** What was emitted beside them */
  function Others(out: seq<Event>): seq<Event> {
    if out == [] then [] else Others(out[..|out| - 1]) + if IsReport(out[|out| - 1]) then [] else [out[|out| - 1]]
  }

  lemma OneEvent(out: seq<Event>, e: Event)
    ensures Reports(out + [e]) == Reports(out) + (if IsReport(e) then [e] else [])
    ensures Others(out + [e]) == Others(out) + (if IsReport(e) then [] else [e])
  {
    assert (out + [e])[..|out|] == out;
  }

  /** A receiver that has never been told of a control frame */
  function Aside(rx: Rx): Rx {
    rx.(out := Others(rx.out))
  }

  lemma EmitAside(rx: Rx, kind: Kind, payload: seq<Byte>)
    ensures Aside(Emit(rx, kind, payload)) == Emit(Aside(rx), kind, payload) && Reports(Emit(rx, kind, payload).out) == Reports(rx.out)
    ensures Emit(rx, kind, payload).chunks == rx.chunks
  {
    hide Utf8.Octets, Reports, Others;
    OneEvent(rx.out, Message(kind, payload));
  }

  lemma DataAside(rx: Rx, f: Frame)
    ensures Aside(OnData(rx, f)) == OnData(Aside(rx), f) && Reports(OnData(rx, f).out) == Reports(rx.out)
  {
    hide Utf8.Octets, Reports, Others, Flat, Emit;
    var r :=
      if f.opcode != CONTINUATION then
        rx.(kind := if f.opcode == TEXT then TextKind else BinaryKind,
            closes := if rx.chunks != [] then rx.closes + [PROTOCOL_ERROR] else rx.closes)
      else if rx.chunks == [] then rx.(closes := rx.closes + [PROTOCOL_ERROR])
      else rx;
    var s := r.(chunks := r.chunks + [f.payload]);
    EmitAside(r, r.kind, f.payload);
    EmitAside(s, s.kind, Flat(s.chunks));
    OneEvent(s.out, Fragment);
  }

  /** A control frame is reported, and the message in work, its kind and the closes are as before; a frame that is none
      does what it would have done without the reports. */
  lemma FrameAside(rx: Rx, w: FineWire)
    ensures var t := OnFrame(rx, w.frame);
      && Reports(t.out) == Reports(rx.out) + ControlsOf([w])
      && Aside(t) == if IsControl(w.frame) then Aside(rx) else OnFrame(Aside(rx), w.frame)
  {
    hide OnData, Reports, Others;
    DataAside(rx, w.frame);
    OneEvent(rx.out, Ping(w.frame.payload));
    OneEvent(rx.out, Pong(w.frame.payload));
    OneEvent(rx.out, CloseFrame(w.frame.payload));
    OneControl(w);
  }

  lemma OneControl(w: FineWire)
    ensures ControlsOf([w]) ==
      if w.frame.opcode == 0x9 then [Ping(w.frame.payload)]
      else if w.frame.opcode == 0xA then [Pong(w.frame.payload)]
      else if w.frame.opcode == 0x8 then [CloseFrame(w.frame.payload)]
      else []
  {
    assert [w][1..] == [];
  }

  /** Of any frames the control frames are reported, all and in order, and the rest is as if they had not been there. */
  lemma {:induction false} ControlsAside(rx: Rx, ws: seq<FineWire>)
    ensures Reports(OnFrames(rx, ws).out) == Reports(rx.out) + ControlsOf(ws)
    ensures Aside(OnFrames(rx, ws)) == OnFrames(Aside(rx), DataOnly(ws))
    decreases |ws|
  {
    hide OnFrame, OnFrames, Reports, Others, Aside, DataOnly, ControlsOf, IsControl;
    if ws == [] {
      NoFrames(rx);
      NoFrames(Aside(rx));
    } else {
      var w, t := ws[0], OnFrame(rx, ws[0].frame);
      FrameAside(rx, w);
      ControlsAside(t, ws[1..]);
      FirstOf(ws);
      FramesFirst(rx, ws);
      assert Reports(rx.out) + ControlsOf([w]) + ControlsOf(ws[1..]) == Reports(rx.out) + ControlsOf(ws);
      if !IsControl(w.frame) {
        FramesFirst(Aside(rx), DataOnly(ws));
        assert ([w] + DataOnly(ws[1..]))[1..] == DataOnly(ws[1..]);
      }
    }
  }

  lemma NoFrames(rx: Rx)
    ensures OnFrames(rx, []) == rx && DataOnly([]) == [] && ControlsOf([]) == [] && Reports(rx.out) + [] == Reports(rx.out)
  {
  }

  lemma FramesFirst(rx: Rx, ws: seq<FineWire>)
    requires ws != []
    ensures OnFrames(rx, ws) == OnFrames(OnFrame(rx, ws[0].frame), ws[1..])
  {
    hide OnFrame;
  }

  lemma FirstOf(ws: seq<FineWire>)
    requires ws != []
    ensures DataOnly(ws) == (if IsControl(ws[0].frame) then [] else [ws[0]]) + DataOnly(ws[1..])
    ensures IsControl(ws[0].frame) ==> DataOnly(ws) == DataOnly(ws[1..])
    ensures ControlsOf(ws) == ControlsOf([ws[0]]) + ControlsOf(ws[1..])
  {
    OneControl(ws[0]);
    assert [] + DataOnly(ws[1..]) == DataOnly(ws[1..]);
  }

  lemma {:induction false} DataJoins(a: seq<FineWire>, b: seq<FineWire>)
    ensures DataOnly(a + b) == DataOnly(a) + DataOnly(b)
    decreases |a|
  {
    if a == [] {
      assert a + b == b;
    } else {
      assert (a + b)[1..] == a[1..] + b;
      DataJoins(a[1..], b);
    }
  }

  lemma StartsAside()
    ensures Aside(START) == START && Reports(START.out) == []
  {
  }

  /** What a part of the data frames makes of a receiver that has just started */
  lemma PartMeans(posts: seq<Post>, masked: bool, clock: nat -> bv32, k: nat, part: seq<FineWire>)
    requires (forall p | p in posts :: Proper(p)) && part <= PostWires(posts, masked, clock, k)
    ensures var r := OnFrames(START, part);
      && r.closes == [] && Spoken(r.out) <= Messages(posts)
      && (part == PostWires(posts, masked, clock, k) ==> Spoken(r.out) == Messages(posts) && r.chunks == [])
  {
    hide PostWires, OnFrames, Spoken, Proper, Messages;
    var ws := PostWires(posts, masked, clock, k);
    PostsMean(START, posts, masked, clock, k);
    SpokenNone();
    assert [] + Messages(posts) == Messages(posts);
    assert ws == part + ws[|part|..];
    OnFramesJoins(START, part, ws[|part|..]);
    OnFramesAdd(OnFrames(START, part), ws[|part|..]);
    SpokenPart(OnFrames(START, part).out, OnFrames(START, ws).out);
  }

  /** Every message whose frames have all come has been emitted. */
  lemma WholeSpoken(posts: seq<Post>, m: nat, masked: bool, clock: nat -> bv32, k: nat, part: seq<FineWire>)
    requires m <= |posts| && (forall p | p in posts :: Proper(p)) && PostWires(posts[..m], masked, clock, k) <= part
    ensures Messages(posts[..m]) <= Spoken(OnFrames(START, part).out)
  {
    hide PostWires, OnFrames, Spoken, Proper, Messages;
    var first := PostWires(posts[..m], masked, clock, k);
    PartMeans(posts[..m], masked, clock, k, first);
    assert part == first + part[|first|..];
    OnFramesJoins(START, first, part[|first|..]);
    OnFramesAdd(OnFrames(START, first), part[|first|..]);
    SpokenPart(OnFrames(START, first).out, OnFrames(START, part).out);
  }

  /** The first n of the frames have come whole, and no more. */
  predicate HaveCome(ws: seq<FineWire>, n: nat, bytes: seq<Byte>) {
    n <= |ws| && WireBytes(ws[..n]) <= bytes && (n < |ws| ==> |bytes| < |WireBytes(ws[..n])| + |FrameBytes(ws[n])|)
  }

  /** Messages with control frames between their fragments, in any batches. Of the frames that have come whole the control
      frames have been reported, each once, in order and with its payload; beside them the first of the messages have been
      emitted, at least those whose frames have all come, and nothing else but notices of fragments; there was no
      complaint; and when all has come, all messages have been emitted. */
  lemma ArrivesAmongControls(posts: seq<Post>, masked: bool, clock: nat -> bv32, k: nat, ws: seq<FineWire>, batches: seq<seq<Byte>>)
      returns (n: nat)
    requires forall p | p in posts :: Proper(p)
    requires DataOnly(ws) == PostWires(posts, masked, clock, k) && Flat(batches) <= WireBytes(ws)
    ensures HaveCome(ws, n, Flat(batches))
    ensures var (r, rest) := Feed(START, [], batches);
      && Reports(r.out) == ControlsOf(ws[..n]) && r.closes == [] && Spoken(Others(r.out)) <= Messages(posts)
      && (forall m: nat | m <= |posts| && PostWires(posts[..m], masked, clock, k) <= DataOnly(ws[..n]) ::
            Messages(posts[..m]) <= Spoken(Others(r.out)))
      && (Flat(batches) == WireBytes(ws) ==>
            Reports(r.out) == ControlsOf(ws) && Spoken(Others(r.out)) == Messages(posts) && r.chunks == [] && rest == [])
  {
    hide Feed, Dispatch, WireBytes, PostWires, OnFrames, Flat, Spoken, Proper, Messages, Others, Reports, DataOnly, ControlsOf, FrameBytes;
    assert [] + Flat(batches) == Flat(batches);
    FeedIsDispatch(START, ws, [], batches);
    n := DispatchPrefix(START, ws, Flat(batches));
    StartsAside();
    ControlsAside(START, ws[..n]);
    ControlsAside(START, ws);
    assert [] + ControlsOf(ws[..n]) == ControlsOf(ws[..n]) && [] + ControlsOf(ws) == ControlsOf(ws);
    assert ws == ws[..n] + ws[n..];
    DataJoins(ws[..n], ws[n..]);
    var part := DataOnly(ws[..n]);
    PartMeans(posts, masked, clock, k, part);
    PartMeans(posts, masked, clock, k, DataOnly(ws));
    forall m: nat | m <= |posts| && PostWires(posts[..m], masked, clock, k) <= part
      ensures Messages(posts[..m]) <= Spoken(OnFrames(START, part).out)
    {
      WholeSpoken(posts, m, masked, clock, k, part);
    }
    if Flat(batches) == WireBytes(ws) {
      FeedAll(START, ws, batches);
    }
  }

  // Frames that are out of order, and frames that stop the reading.

  /** How many frames are out of order (section 5.4 of RFC 6455): a new message inside one, a continuation outside, and
      an opcode that is reserved */
  function OutOfOrder(inside: bool, ws: seq<FineWire>): nat
    decreases |ws|
  {
    if ws == [] then 0
    else
      var f := ws[0].frame;
      var wrong := if f.opcode == 1 || f.opcode == 2 then inside else if f.opcode == 0 then !inside else f.opcode < 8 || 10 < f.opcode;
      (if wrong then 1 else 0) + OutOfOrder(if f.opcode <= 2 then !f.fin else inside, ws[1..])
  }

  /** How often close was called with 1002 */
  function Complaints(closes: seq<nat>): nat {
    if closes == [] then 0 else Complaints(closes[..|closes| - 1]) + if closes[|closes| - 1] == 1002 then 1 else 0
  }

  lemma OneClose(closes: seq<nat>, code: nat)
    ensures Complaints(closes + [code]) == Complaints(closes) + if code == 1002 then 1 else 0
  {
    assert (closes + [code])[..|closes|] == closes;
  }

  lemma FrameComplaint(rx: Rx, w: FineWire)
    ensures var f, t := w.frame, OnFrame(rx, w.frame);
      && Complaints(t.closes) == Complaints(rx.closes) +
         (if (if f.opcode == 1 || f.opcode == 2 then rx.chunks != [] else if f.opcode == 0 then rx.chunks == [] else f.opcode < 8 || 10 < f.opcode)
          then 1 else 0)
      && (t.chunks != [] <==> if f.opcode <= 2 then !f.fin else rx.chunks != [])
  {
    hide Utf8.Octets, Complaints, Flat;
    OneClose(rx.closes, 1002);
    OneClose(rx.closes, 1007);
    OneClose(rx.closes + [1002], 1007);
  }

  /** The receiver complains of exactly the frames that are out of order. */
  lemma {:induction false} ComplainsExactly(rx: Rx, ws: seq<FineWire>)
    ensures Complaints(OnFrames(rx, ws).closes) == Complaints(rx.closes) + OutOfOrder(rx.chunks != [], ws)
    decreases |ws|
  {
    hide OnFrame, Complaints;
    if ws != [] {
      FrameComplaint(rx, ws[0]);
      ComplainsExactly(OnFrame(rx, ws[0].frame), ws[1..]);
    }
  }

  /** A control frame in fragments, or a ping of more than 125 bytes, is complained of, and nothing behind it is read. */
  lemma BadControlStops(rx: Rx, w: Wire, rest: seq<Byte>)
    requires (!w.frame.fin && 8 <= w.frame.opcode <= 10) || (w.frame.opcode == 9 && |w.frame.payload| > 125)
    ensures var (r, buf) := Dispatch(rx, FrameBytes(w) + rest);
      r == rx.(closes := rx.closes + [1002]) && |buf| == |FrameBytes(w)| + |rest| && buf[|FrameBytes(w)|..] == rest
  {
    hide OnFrame, FrameBytes, ReadFrame, Masked, KeyOf;
    ReadsBack(w, rest);
    HeaderFound(FrameBytes(w) + rest);
  }

  lemma HeaderFound(buf: seq<Byte>)
    requires ReadFrame(buf).Whole?
    ensures |buf| >= HeaderSize(buf[1])
  {
  }

  /** The frames of a message (section 5.4 of RFC 6455): the first has its opcode, the others are continuations, and only
      the last one is final. */
  lemma {:induction false} FragmentsInOrder(opcode: DataCode, p: seq<Byte>, i: nat)
    requires i < |Fragments(opcode, p)|
    ensures var f := Fragments(opcode, p)[i];
      f.opcode == (if i == 0 then opcode else 0) && (f.fin <==> i == |Fragments(opcode, p)| - 1)
    decreases |p|
  {
    if |p| >= 2 * CHUNK {
      if i > 0 {
        FragmentsInOrder(CONTINUATION, p[CHUNK..], i - 1);
      }
    }
  }
}
