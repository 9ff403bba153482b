/** The receiving side of the transport: frames out of the receive buffer, messages out of frames. */
module WsReceiver {
  import opened Bits
  import opened WsFrames
  import Utf8

  datatype Kind = TextKind | BinaryKind

  /** What the callback is given; a close frame goes to the closing handshake. */
  datatype Event = Message(kind: Kind, payload: seq<Byte>) | Fragment | Ping(payload: seq<Byte>) | Pong(payload: seq<Byte>) | CloseFrame(payload: seq<Byte>)

  /** The chunks of a message on its way, its kind, what was emitted, and the codes that close was called with. */
  datatype Rx = Rx(chunks: seq<seq<Byte>>, kind: Kind, out: seq<Event>, closes: seq<nat>)

  const PROTOCOL_ERROR := 1002
  const INVALID_PAYLOAD := 1007

  /** emitMessage, for a message that is not compressed */
  function Emit(rx: Rx, kind: Kind, payload: seq<Byte>): Rx {
    if kind == TextKind && !Utf8.Octets(payload) then rx.(closes := rx.closes + [INVALID_PAYLOAD])
    else rx.(out := rx.out + [Message(kind, payload)])
  }

  function OnData(rx: Rx, f: Frame): Rx {
    var r :=
      if f.opcode != CONTINUATION then
        rx.(kind := if f.opcode == TEXT then TextKind else BinaryKind,
            closes := if rx.chunks != [] then rx.closes + [PROTOCOL_ERROR] else rx.closes)
      else if rx.chunks == [] then rx.(closes := rx.closes + [PROTOCOL_ERROR])
      else rx;
    if f.fin && r.chunks == [] then Emit(r, r.kind, f.payload)
    else
      var s := r.(chunks := r.chunks + [f.payload]);
      if f.fin then Emit(s, s.kind, Flat(s.chunks)).(chunks := []) else s.(out := s.out + [Fragment])
  }

  function OnFrame(rx: Rx, f: Frame): Rx {
    if f.opcode == TEXT || f.opcode == BINARY || f.opcode == CONTINUATION then OnData(rx, f)
    else if f.opcode == PING then rx.(out := rx.out + [Ping(f.payload)])
    else if f.opcode == PONG then rx.(out := rx.out + [Pong(f.payload)])
    else if f.opcode == CLOSE then rx.(out := rx.out + [CloseFrame(f.payload)])
    else rx.(closes := rx.closes + [PROTOCOL_ERROR])
  }

  /** A control frame in fragments is not even unmasked. */
  predicate BrokenControl(f: Frame) {
    !f.fin && (f.opcode == PING || f.opcode == PONG || f.opcode == CLOSE)
  }

  predicate LongPing(f: Frame) {
    f.opcode == PING && |f.payload| > 125
  }

  /** unmaskReceiveBuffer */
  function Unmasked(buf: seq<Byte>, header: nat, size: nat): seq<Byte>
    requires 2 <= header <= size <= |buf| && |buf| >= HeaderSize(buf[1])
  {
    buf[..header] + Masked(buf[header..size], KeyOf(buf)) + buf[size..]
  }

  /** dispatch: all that can be read of the buffer */
  function Dispatch(rx: Rx, buf: seq<Byte>): (Rx, seq<Byte>)
    decreases |buf|
  {
    match ReadFrame(buf)
    case More => (rx, buf)
    case Reserved => (rx.(closes := rx.closes + [PROTOCOL_ERROR]), buf)
    case TooLong => (rx, buf)
    case Whole(f, header, size) =>
      if BrokenControl(f) then (rx.(closes := rx.closes + [PROTOCOL_ERROR]), buf)
      else if LongPing(f) then (rx.(closes := rx.closes + [PROTOCOL_ERROR]), Unmasked(buf, header, size))
      else Dispatch(OnFrame(rx, f), buf[size..])
  }

  // The bytes of frames, in any cutting.

  /** A frame that the receiver reads without complaint. */
  type FineWire = w: Wire | !BrokenControl(w.frame) && !LongPing(w.frame)
    witness Wire(Frame(true, 1, []), false, [0, 0, 0, 0])

  function WireBytes(ws: seq<FineWire>): seq<Byte> {
    if ws == [] then [] else FrameBytes(ws[0]) + WireBytes(ws[1..])
  }

  function OnFrames(rx: Rx, ws: seq<FineWire>): Rx
    decreases |ws|
  {
    if ws == [] then rx else OnFrames(OnFrame(rx, ws[0].frame), ws[1..])
  }

  lemma DispatchFrame(rx: Rx, w: FineWire, rest: seq<Byte>)
    ensures Dispatch(rx, FrameBytes(w) + rest) == Dispatch(OnFrame(rx, w.frame), rest)
  {
    hide OnFrame, FrameBytes, ReadFrame;
    ReadsBack(w, rest);
    assert (FrameBytes(w) + rest)[|FrameBytes(w)|..] == rest;
  }

  lemma DispatchPart(rx: Rx, part: seq<Byte>)
    requires ReadFrame(part) == More
    ensures Dispatch(rx, part) == (rx, part)
  {
    hide ReadFrame;
  }

  lemma NothingToRead()
    ensures ReadFrame([]) == More
  {
  }

  /** Of a part of the bytes of some frames the receiver reads the frames that are whole, and keeps the rest. */
  lemma {:induction false} DispatchPrefix(rx: Rx, ws: seq<FineWire>, buf: seq<Byte>) returns (k: nat)
    requires buf <= WireBytes(ws)
    ensures k <= |ws|
    ensures var (r, rest) := Dispatch(rx, buf);
      r == OnFrames(rx, ws[..k]) && buf == WireBytes(ws[..k]) + rest && rest <= WireBytes(ws[k..])
      && (k < |ws| ==> |rest| < |FrameBytes(ws[k])|)
    ensures buf == WireBytes(ws) ==> Dispatch(rx, buf) == (OnFrames(rx, ws), [])
    decreases |ws|
  {
    hide OnFrame, OnFrames, WireBytes, FrameBytes, Dispatch;
    NoWires(rx);
    if ws == [] {
      NothingToRead();
      DispatchPart(rx, buf);
      k := 0;
    } else {
      var w := ws[0];
      FineFrame(w);
      FirstFrames(rx, ws, 1);
      if |buf| < |FrameBytes(w)| {
        assert buf <= FrameBytes(w);
        PartWaits(w, buf);
        DispatchPart(rx, buf);
        k := 0;
        assert ws[0..] == ws && ws[..0] == [];
      } else {
        var rest := buf[|FrameBytes(w)|..];
        assert buf == FrameBytes(w) + rest;
        assert rest <= WireBytes(ws[1..]);
        DispatchFrame(rx, w, rest);
        var j := DispatchPrefix(OnFrame(rx, w.frame), ws[1..], rest);
        k := j + 1;
        FirstFrames(rx, ws, k);
        assert FrameBytes(w) + (WireBytes(ws[1..][..j]) + Dispatch(OnFrame(rx, w.frame), rest).1)
            == FrameBytes(w) + WireBytes(ws[1..][..j]) + Dispatch(OnFrame(rx, w.frame), rest).1;
      }
    }
  }

  lemma NoWires(rx: Rx)
    ensures WireBytes([]) == [] && OnFrames(rx, []) == rx
  {
  }

  lemma FirstFrames(rx: Rx, ws: seq<FineWire>, k: nat)
    requires 0 < k <= |ws|
    ensures WireBytes(ws[..k]) == FrameBytes(ws[0]) + WireBytes(ws[1..][..k - 1]) && ws[k..] == ws[1..][k - 1..]
    ensures OnFrames(rx, ws[..k]) == OnFrames(OnFrame(rx, ws[0].frame), ws[1..][..k - 1])
    ensures OnFrames(rx, ws) == OnFrames(OnFrame(rx, ws[0].frame), ws[1..]) && WireBytes(ws) == FrameBytes(ws[0]) + WireBytes(ws[1..])
    ensures k < |ws| ==> ws[k] == ws[1..][k - 1]
  {
    hide OnFrame, FrameBytes;
    assert ws[..k][1..] == ws[1..][..k - 1] && ws[..k][0] == ws[0];
  }

  lemma FineFrame(w: FineWire)
    ensures 2 <= |FrameBytes(w)|
  {
    hide Length, Masked, FirstByte;
    LengthSome(|w.frame.payload|, w.masked);
  }

  /** Frames that are whole are read in their turn. */
  lemma {:induction false} DispatchSkips(rx: Rx, ws: seq<FineWire>, tail: seq<Byte>)
    ensures Dispatch(rx, WireBytes(ws) + tail) == Dispatch(OnFrames(rx, ws), tail)
    decreases |ws|
  {
    hide OnFrame, FrameBytes, Dispatch;
    if ws == [] {
      assert WireBytes(ws) + tail == tail;
    } else {
      FineFrame(ws[0]);
      assert WireBytes(ws) + tail == FrameBytes(ws[0]) + (WireBytes(ws[1..]) + tail);
      DispatchFrame(rx, ws[0], WireBytes(ws[1..]) + tail);
      DispatchSkips(OnFrame(rx, ws[0].frame), ws[1..], tail);
    }
  }

  /** Batches that come in one after the other, each followed by a dispatch. */
  function Feed(rx: Rx, buf: seq<Byte>, batches: seq<seq<Byte>>): (Rx, seq<Byte>)
    decreases |batches|
  {
    if batches == [] then Dispatch(rx, buf)
    else
      var (r, rest) := Dispatch(rx, buf + batches[0]);
      Feed(r, rest, batches[1..])
  }

  /** However the bytes are cut into batches, the receiver comes to the same state as with all of them at once. */
  lemma {:induction false} FeedIsDispatch(rx: Rx, ws: seq<FineWire>, buf: seq<Byte>, batches: seq<seq<Byte>>)
    requires buf + Flat(batches) <= WireBytes(ws)
    ensures Feed(rx, buf, batches) == Dispatch(rx, buf + Flat(batches))
    decreases |batches|
  {
    hide OnFrame, FrameBytes, Dispatch, WireBytes, OnFrames;
    if batches == [] {
      assert buf + Flat(batches) == buf;
    } else {
      var first, later := buf + batches[0], Flat(batches[1..]);
      assert buf + Flat(batches) == first + later;
      assert first <= WireBytes(ws);
      var k := DispatchPrefix(rx, ws, first);
      var (r, rest) := Dispatch(rx, first);
      SplitWires(ws, k);
      assert first + later == WireBytes(ws[..k]) + (rest + later);
      assert WireBytes(ws[..k]) + (rest + later) <= WireBytes(ws[..k]) + WireBytes(ws[k..]);
      Behind(WireBytes(ws[..k]), rest + later, WireBytes(ws[k..]));
      FeedIsDispatch(r, ws[k..], rest, batches[1..]);
      DispatchSkips(rx, ws[..k], rest + later);
    }
  }

  lemma Behind(a: seq<Byte>, b: seq<Byte>, c: seq<Byte>)
    requires a + b <= a + c
    ensures b <= c
  {
    assert (a + b)[|a|..] == b && (a + c)[|a|..] == c;
    assert (a + c)[..|a + b|] == a + b;
    assert c[..|b|] == (a + c)[|a|..|a| + |b|] == (a + b)[|a|..] == b;
  }

  lemma {:induction false} SplitWires(ws: seq<FineWire>, k: nat)
    requires k <= |ws|
    ensures WireBytes(ws) == WireBytes(ws[..k]) + WireBytes(ws[k..])
    decreases k
  {
    hide FrameBytes;
    if k == 0 {
      assert ws[0..] == ws && ws[..0] == [];
    } else {
      assert ws[1..][..k - 1] == ws[..k][1..] && ws[1..][k - 1..] == ws[k..];
      SplitWires(ws[1..], k - 1);
      assert FrameBytes(ws[0]) + (WireBytes(ws[..k][1..]) + WireBytes(ws[k..])) == (FrameBytes(ws[0]) + WireBytes(ws[..k][1..])) + WireBytes(ws[k..]);
    }
  }

  /** All batches together are all the bytes: all frames are received, and nothing is left. */
  lemma FeedAll(rx: Rx, ws: seq<FineWire>, batches: seq<seq<Byte>>)
    requires Flat(batches) == WireBytes(ws)
    ensures Feed(rx, [], batches) == (OnFrames(rx, ws), [])
  {
    hide Dispatch, WireBytes, OnFrames, Flat;
    assert [] + Flat(batches) == Flat(batches);
    FeedIsDispatch(rx, ws, [], batches);
    var k := DispatchPrefix(rx, ws, WireBytes(ws));
  }

  // The receiver as an object.

  class Receiver {
    var rxbuf: seq<Byte>
    var chunks: seq<seq<Byte>>
    var kind: Kind
    var out: seq<Event>
    var closes: seq<nat>

    ghost function State(): Rx
      reads this
    {
      Rx(chunks, kind, out, closes)
    }

    constructor ()
      ensures rxbuf == [] && State() == Rx([], TextKind, [], [])
    {
      rxbuf, chunks, kind, out, closes := [], [], TextKind, [], [];
    }

    /** unmaskReceiveBuffer: the payload, in place */
    method Unmask(header: nat, size: nat)
      requires 2 <= header <= size <= |rxbuf| && |rxbuf| >= HeaderSize(rxbuf[1]) == header
      modifies `rxbuf
      ensures rxbuf == Unmasked(old(rxbuf), header, size)
      ensures |rxbuf| == |old(rxbuf)| && rxbuf[size..] == old(rxbuf)[size..]
      ensures rxbuf[header..size] == Masked(old(rxbuf)[header..size], KeyOf(old(rxbuf)))
    {
      hide HeaderSize, KeyOf, Masked, MaskedTo;
      var key := KeyOf(rxbuf);
      ghost var pre, p, post := rxbuf[..header], rxbuf[header..size], rxbuf[size..];
      MaskEnds(p, key);
      assert rxbuf == pre + p + post;
      if rxbuf[1] & 0x80 == 0x80 {
        for j := header to size
          invariant rxbuf == pre + MaskedTo(p, key, j - header) + post
        {
          MaskInside(pre, p, key, j - header, post);
          rxbuf := rxbuf[j := rxbuf[j] ^ key[(j - header) % 4]];
        }
      } else {
        NoKey(rxbuf);
        MaskZero(p);
      }
    }

    lemma NoKey(buf: seq<Byte>)
      requires |buf| >= 2 && |buf| >= HeaderSize(buf[1]) && buf[1] & 0x80 != 0x80
      ensures KeyOf(buf) == [0, 0, 0, 0]
    {
    }

    /** getMergedChunks */
    method GetMergedChunks() returns (message: seq<Byte>)
      ensures message == Flat(chunks)
    {
      message := [];
      for i := 0 to |chunks|
        invariant message == Flat(chunks[..i])
      {
        assert chunks[..i + 1] == chunks[..i] + [chunks[i]];
        FlatEnd(chunks[..i], chunks[i]);
        message := message + chunks[i];
      }
      assert chunks[..|chunks|] == chunks;
    }

    /** emitMessage */
    method EmitMessage(messageKind: Kind, message: seq<Byte>)
      modifies `out, `closes
      ensures State() == Emit(old(State()), messageKind, message)
    {
      if messageKind == TextKind {
        var valid := Utf8.ValidateUtf8(message);
        if !valid {
          closes := closes + [INVALID_PAYLOAD];
          return;
        }
      }
      out := out + [Message(messageKind, message)];
    }

    /** The part of dispatch for a data frame */
    method TakeData(f: Frame)
      requires f.opcode == TEXT || f.opcode == BINARY || f.opcode == CONTINUATION
      modifies `chunks, `kind, `out, `closes
      ensures State() == OnData(old(State()), f)
    {
      if f.opcode != CONTINUATION {
        kind := if f.opcode == TEXT then TextKind else BinaryKind;
        if chunks != [] {
          closes := closes + [PROTOCOL_ERROR];
        }
      } else if chunks == [] {
        closes := closes + [PROTOCOL_ERROR];
      }
      if f.fin && chunks == [] {
        EmitMessage(kind, f.payload);
      } else {
        chunks := chunks + [f.payload];
        if f.fin {
          var message := GetMergedChunks();
          EmitMessage(kind, message);
          chunks := [];
        } else {
          out := out + [Fragment];
        }
      }
    }

    /** dispatch */
    method DispatchBuffer()
      modifies this
      ensures (State(), rxbuf) == Dispatch(old(State()), old(rxbuf))
    {
      hide ReadFrame, OnData, HeaderSize, Unmasked;
      while true
        invariant Dispatch(State(), rxbuf) == Dispatch(old(State()), old(rxbuf))
        decreases |rxbuf|
      {
        var read := ReadFrame(rxbuf);
        match read {
          case More =>
            return;
          case Reserved =>
            closes := closes + [PROTOCOL_ERROR];
            return;
          case TooLong =>
            return;
          case Whole(f, header, size) =>
            if BrokenControl(f) {
              closes := closes + [PROTOCOL_ERROR];
              return;
            }
            HeaderIs(rxbuf);
            Unmask(header, size);
            var frameData := rxbuf[header..size];
            assert frameData == f.payload;
            if LongPing(f) {
              closes := closes + [PROTOCOL_ERROR];
              return;
            }
            if f.opcode == TEXT || f.opcode == BINARY || f.opcode == CONTINUATION {
              TakeData(Frame(f.fin, f.opcode, frameData));
            } else if f.opcode == PING {
              out := out + [Ping(frameData)];
            } else if f.opcode == PONG {
              out := out + [Pong(frameData)];
            } else if f.opcode == CLOSE {
              out := out + [CloseFrame(frameData)];
            } else {
              closes := closes + [PROTOCOL_ERROR];
            }
            rxbuf := rxbuf[size..];
        }
      }
    }

    lemma HeaderIs(buf: seq<Byte>)
      requires ReadFrame(buf).Whole?
      ensures |buf| >= HeaderSize(buf[1]) == ReadFrame(buf).header
      ensures ReadFrame(buf).frame.payload == Masked(buf[ReadFrame(buf).header..ReadFrame(buf).size], KeyOf(buf))
    {
    }

    /** receiveFromSocket and the dispatch that follows it, for one batch */
    method Receive(batch: seq<Byte>)
      modifies this
      ensures (State(), rxbuf) == Dispatch(old(State()), old(rxbuf) + batch)
    {
      rxbuf := rxbuf + batch;
      DispatchBuffer();
    }

    /** Batches, one after the other */
    method ReceiveAll(batches: seq<seq<Byte>>)
      modifies this
      ensures (State(), rxbuf) == Feed(old(State()), old(rxbuf), batches)
    {
      hide Dispatch;
      assert batches[0..] == batches;
      for i := 0 to |batches|
        invariant Feed(State(), rxbuf, batches[i..]) == Feed(old(State()), old(rxbuf), batches)
      {
        assert batches[i..][1..] == batches[i + 1..];
        Receive(batches[i]);
      }
      DispatchBuffer();
    }
  }
}
