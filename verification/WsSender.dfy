/** The sending side of the transport: messages into frames, frames into the send buffer, and that onto the socket. */
module WsSender {
  import opened Bits
  import opened WsFrames
  import opened WsReceiver

  const CHUNK := 32768

  /** An opcode that sendData is called with for a message, or goes on with */
  type DataCode = b: Byte | b == TEXT || b == BINARY || b == CONTINUATION witness TEXT

  type SmallFrame = f: Frame | (f.opcode == TEXT || f.opcode == BINARY || f.opcode == CONTINUATION) && |f.payload| < 65536
    witness Frame(true, TEXT, [])

  function Small(fin: bool, opcode: DataCode, p: seq<Byte>): SmallFrame
    requires |p| < 65536
  {
    Frame(fin, opcode, p)
  }

  /** The frames of a message: chunks of that size, the last one with what is over. No frame of a message needs the
      longest form of the length. */
  function Fragments(opcode: DataCode, p: seq<Byte>): (fs: seq<SmallFrame>)
    ensures fs != []
    decreases |p|
  {
    if |p| < 2 * CHUNK then [Small(true, opcode, p)]
    else [Small(false, opcode, p[..CHUNK])] + Fragments(CONTINUATION, p[CHUNK..])
  }

  /** The four bytes of the clock, which is what the key is made of */
  function KeyFrom(x: bv32): (k: seq<Byte>)
    ensures |k| == 4
  {
    [(x >> 24) as bv8, ((x >> 16) & 0xFF) as bv8, ((x >> 8) & 0xFF) as bv8, (x & 0xFF) as bv8]
  }

  function OnWire(f: SmallFrame, masked: bool, key: seq<Byte>): FineWire
    requires |key| == 4
  {
    Wire(f, masked, key)
  }

  /** Frames on the wire, the k-th with the key of the clock at its turn */
  function Wires(fs: seq<SmallFrame>, masked: bool, clock: nat -> bv32, k: nat): seq<FineWire> {
    if fs == [] then [] else [OnWire(fs[0], masked, KeyFrom(clock(k)))] + Wires(fs[1..], masked, clock, k + 1)
  }

  /** A socket: what each send will return, and what has gone out. */
  class Socket {
    var script: seq<int>
    var wire: seq<Byte>

    constructor (answers: seq<int>)
      ensures script == answers && wire == []
    {
      script, wire := answers, [];
    }

    /** It takes a part of what it is given, or asks to wait (-1), or fails (0). */
    method Send(data: seq<Byte>) returns (ret: int)
      requires data != []
      modifies this
      ensures -1 <= ret <= |data| && wire == old(wire) + (if ret > 0 then data[..ret] else [])
    {
      ret := -1;
      if script != [] {
        ret := if script[0] > |data| then |data| else if script[0] < 0 then -1 else script[0];
        script := script[1..];
      }
      if ret > 0 {
        wire := wire + data[..ret];
      }
    }
  }

  datatype ReadyState = Open | Closing | Closed

  /** The state after the socket failed */
  function Failed(state: ReadyState): ReadyState {
    if state == Closing then Closing else Closed
  }

  class Sender {
    const useMask: bool
    const clock: nat -> bv32
    const socket: Socket
    var txbuf: seq<Byte>
    var turn: nat
    var state: ReadyState

    constructor (mask: bool, time: nat -> bv32, s: Socket)
      ensures useMask == mask && clock == time && socket == s && txbuf == [] && turn == 0 && state == Open
    {
      useMask, clock, socket, txbuf, turn, state := mask, time, s, [], 0, Open;
    }

    /** What has gone out and what waits to. */
    ghost function Sent(): seq<Byte>
      reads this, socket
    {
      socket.wire + txbuf
    }

    /** appendToSendBuffer: the message is masked in place, at the end of the buffer. */
    method AppendToSendBuffer(header: seq<Byte>, message: seq<Byte>, key: seq<Byte>)
      requires |key| == 4
      modifies `txbuf
      ensures txbuf == old(txbuf) + header + (if useMask then Masked(message, key) else message)
    {
      hide Masked, MaskedTo;
      txbuf := txbuf + header;
      ghost var before := txbuf;
      var at := |txbuf|;
      txbuf := txbuf + message;
      if useMask {
        MaskEnds(message, key);
        for i := 0 to |message|
          invariant txbuf == before + MaskedTo(message, key, i) + []
        {
          MaskInside(before, message, key, i, []);
          txbuf := txbuf[at + i := txbuf[at + i] ^ key[i % 4]];
        }
      }
    }

    /** sendOnSocket: as much of the buffer as the socket takes; nothing is lost or sent twice. */
    method SendOnSocket() returns (ok: bool)
      modifies `txbuf, `state, socket
      ensures Sent() == old(Sent()) && (ok ==> state == old(state)) && (!ok ==> state == Failed(old(state)))
    {
      while |txbuf| > 0
        invariant Sent() == old(Sent()) && state == old(state)
      {
        label Before:
        var ret := socket.Send(txbuf);
        if ret < 0 {
          break;
        } else if ret == 0 {
          if state != Closing {
            state := Closed;
          }
          return false;
        } else {
          Moved(old@Before(socket.wire), txbuf, ret);
          txbuf := txbuf[ret..];
        }
      }
      ok := true;
    }

    /** The header of a frame, byte by byte */
    method MakeHeader(w: Wire) returns (header: seq<Byte>)
      ensures header == Header(w)
    {
      hide FirstByte, LengthByte, ByteAt;
      var n := |w.frame.payload|;
      var size := 2 + (if n >= 126 then 2 else 0) + (if n >= 65536 then 6 else 0) + (if w.masked then 4 else 0);
      var h := new Byte[size](_ => 0);
      h[0] := FirstByte(w.frame.fin, w.frame.opcode);
      var i := PutLength(h, n, w.masked);
      ghost var first := [h[0]] + h[1..i];
      assert h[..i] == first;
      if w.masked {
        PutFour(h, i, w.key[0], w.key[1], w.key[2], w.key[3]);
        assert h[i..] == h[i..i + 4] == w.key;
      }
      header := h[..];
      assert header == h[..i] + h[i..];
    }

    /** The length of the payload, from the second byte of the header on */
    static method PutLength(h: array<Byte>, n: nat, masked: bool) returns (i: nat)
      requires h.Length >= 1 + |Length(n, masked)|
      modifies h
      ensures i == 1 + |Length(n, masked)| && h[1..i] == Length(n, masked)
      ensures h[0] == old(h[0]) && h[i..] == old(h[i..])
    {
      hide LengthByte, ByteAt;
      i := 2;
      if n < 126 {
        h[1] := LengthByte(n, masked);
      } else if n < 65536 {
        h[1] := LengthByte(126, masked);
        assert h[4..] == old(h[4..]);
        PutTwo(h, n);
        i := 4;
        assert h[1..4] == [h[1]] + h[2..4];
      } else {
        h[1] := LengthByte(127, masked);
        PutEight(h, n);
        i := 10;
        assert h[1..10] == [h[1]] + h[2..10];
      }
    }

    static method PutTwo(h: array<Byte>, n: nat)
      requires h.Length >= 4
      modifies h
      ensures h[2..4] == Two(n) && h[..2] == old(h[..2]) && h[4..] == old(h[4..])
    {
      hide ByteAt;
      h[2] := ByteAt(n, 8);
      h[3] := ByteAt(n, 0);
    }

    static method PutEight(h: array<Byte>, n: nat)
      requires h.Length >= 10
      modifies h
      ensures h[2..10] == Eight(n) && h[..2] == old(h[..2]) && h[10..] == old(h[10..])
    {
      hide ByteAt;
      PutFour(h, 2, ByteAt(n, 56), ByteAt(n, 48), ByteAt(n, 40), ByteAt(n, 32));
      assert h[10..] == h[6..][4..] == old(h[10..]);
      PutFour(h, 6, ByteAt(n, 24), ByteAt(n, 16), ByteAt(n, 8), ByteAt(n, 0));
      assert h[2..10] == h[..6][2..] + h[6..10];
      assert h[..2] == h[..6][..2];
    }

    static method PutFour(h: array<Byte>, at: nat, b0: Byte, b1: Byte, b2: Byte, b3: Byte)
      requires h.Length >= at + 4
      modifies h
      ensures h[at..at + 4] == [b0, b1, b2, b3] && h[..at] == old(h[..at]) && h[at + 4..] == old(h[at + 4..])
    {
      h[at] := b0;
      h[at + 1] := b1;
      h[at + 2] := b2;
      h[at + 3] := b3;
    }

    /** sendFragment */
    method SendFragment(opcode: DataCode, fin: bool, message: seq<Byte>) returns (ok: bool)
      requires |message| < 65536
      modifies `txbuf, `state, `turn, socket
      ensures turn == old(turn) + 1 && (ok ==> state == old(state)) && (!ok ==> state == Failed(old(state)))
      ensures Sent() == old(Sent()) + FrameBytes(OnWire(Small(fin, opcode, message), useMask, KeyFrom(clock(old(turn)))))
    {
      hide Header, KeyFrom, Masked;
      var key := KeyFrom(clock(turn));
      turn := turn + 1;
      var w := OnWire(Small(fin, opcode, message), useMask, key);
      var header := MakeHeader(w);
      AppendToSendBuffer(header, message, key);
      ghost var body := if useMask then Masked(message, key) else message;
      assert socket.wire + (old(txbuf) + header + body) == old(socket.wire + txbuf) + (header + body);
      ok := SendOnSocket();
    }

    /** sendData, without compression: it adds the frames of the message, or, if the socket fails, the first of them. */
    method SendData(opcode: DataCode, message: seq<Byte>) returns (ok: bool)
      modifies `txbuf, `state, `turn, socket
      ensures ok ==> state == old(state) != Closed && turn == old(turn) + |Fragments(opcode, message)|
      ensures !ok ==> state == Failed(old(state))
      ensures old(state) == Closed ==> !ok && Sent() == old(Sent())
      ensures Sent() <= old(Sent()) + WireBytes(Wires(Fragments(opcode, message), useMask, clock, old(turn)))
      ensures ok ==> Sent() == old(Sent()) + WireBytes(Wires(Fragments(opcode, message), useMask, clock, old(turn)))
    {
      hide FrameBytes, OnWire, KeyFrom;
      if state != Open && state != Closing {
        return false;
      }
      if |message| < CHUNK {
        OneWire(Small(true, opcode, message), useMask, clock, turn);
        ok := SendFragment(opcode, true, message);
      } else {
        ok := SendChunks(opcode, message);
      }
    }

    /** The loop of sendData */
    method SendChunks(opcode: DataCode, message: seq<Byte>) returns (ok: bool)
      requires |message| >= CHUNK && state != Closed
      modifies `txbuf, `state, `turn, socket
      ensures ok ==> state == old(state) && turn == old(turn) + |Fragments(opcode, message)|
      ensures !ok ==> state == Failed(old(state))
      ensures Sent() <= old(Sent()) + WireBytes(Wires(Fragments(opcode, message), useMask, clock, old(turn)))
      ensures ok ==> Sent() == old(Sent()) + WireBytes(Wires(Fragments(opcode, message), useMask, clock, old(turn)))
    {
      hide FrameBytes, OnWire, KeyFrom, Fragments, Wires, WireBytes;
      var steps := |message| / CHUNK;
      var begin, i := 0, 0;
      assert message[0..] == message;
      ghost var sent: seq<Byte> := [];
      while i < steps
        invariant 0 <= i <= steps && begin == i * CHUNK && state == old(state)
        invariant turn == old(turn) + i && Sent() == old(Sent()) + sent
        invariant i < steps ==> Halfway(opcode, message, begin, i, old(turn), sent)
        invariant i == steps ==> |Fragments(opcode, message)| == i && WireBytes(Wires(Fragments(opcode, message), useMask, clock, old(turn))) == sent
      {
        var last := i + 1 == steps;
        var end := if last then |message| else begin + CHUNK;
        var piece := message[begin..end];
        ghost var bytes := FrameBytes(OnWire(Small(last, CodeAt(opcode, i), piece), useMask, KeyFrom(clock(turn))));
        ChunkStep(opcode, message, begin, i, last, piece, old(turn), sent);
        ok := SendFragment(CodeAt(opcode, i), last, piece);
        Longer(old(Sent()), sent, bytes);
        if !ok {
          return false;
        }
        sent := sent + bytes;
        begin := begin + CHUNK;
        i := i + 1;
      }
      ok := true;
    }

    /** What the frames of a message are, when some of them have gone: those, and the frames of the rest. */
    ghost predicate Halfway(opcode: DataCode, message: seq<Byte>, begin: nat, i: nat, start: nat, sent: seq<Byte>)
      requires begin <= |message|
    {
      var all, rest := Fragments(opcode, message), Fragments(CodeAt(opcode, i), message[begin..]);
      |all| == i + |rest| && WireBytes(Wires(all, useMask, clock, start)) == sent + WireBytes(Wires(rest, useMask, clock, start + i))
    }

    lemma ChunkStep(opcode: DataCode, message: seq<Byte>, begin: nat, i: nat, last: bool, piece: seq<Byte>, start: nat, sent: seq<Byte>)
      requires begin + CHUNK <= |message| && last == (|message| < begin + 2 * CHUNK)
      requires piece == (if last then message[begin..] else message[begin..begin + CHUNK])
      requires Halfway(opcode, message, begin, i, start, sent)
      ensures |piece| < 65536
      ensures var now := sent + FrameBytes(OnWire(Small(last, CodeAt(opcode, i), piece), useMask, KeyFrom(clock(start + i))));
        && now <= WireBytes(Wires(Fragments(opcode, message), useMask, clock, start))
        && if last then |Fragments(opcode, message)| == i + 1 && WireBytes(Wires(Fragments(opcode, message), useMask, clock, start)) == now
           else Halfway(opcode, message, begin + CHUNK, i + 1, start, now)
    {
      hide FrameBytes, OnWire, KeyFrom, Fragments, Wires, WireBytes;
      assert message[begin..][..CHUNK] == message[begin..begin + CHUNK];
      assert message[begin..][CHUNK..] == message[begin + CHUNK..];
      FragmentStep(CodeAt(opcode, i), message[begin..], last, piece, useMask, clock, start + i);
      var bytes := FrameBytes(OnWire(Small(last, CodeAt(opcode, i), piece), useMask, KeyFrom(clock(start + i))));
      if !last {
        Longer(sent, bytes, WireBytes(Wires(Fragments(CONTINUATION, message[begin + CHUNK..]), useMask, clock, start + i + 1)));
      }
    }
  }

  /** Only the first frame of a message says what it is. */
  function CodeAt(opcode: DataCode, i: nat): DataCode {
    if i == 0 then opcode else CONTINUATION
  }

  lemma Moved(wire: seq<Byte>, buf: seq<Byte>, n: nat)
    requires n <= |buf|
    ensures (wire + buf[..n]) + buf[n..] == wire + buf
  {
  }

  lemma Longer(a: seq<Byte>, b: seq<Byte>, c: seq<Byte>)
    ensures a + b + c == a + (b + c)
  {
  }

  lemma OneWire(f: SmallFrame, masked: bool, clock: nat -> bv32, k: nat)
    ensures WireBytes(Wires([f], masked, clock, k)) == FrameBytes(OnWire(f, masked, KeyFrom(clock(k))))
  {
    hide FrameBytes, OnWire, KeyFrom;
    assert [f][1..] == [];
  }

  /** The first of the frames that are left of a message */
  lemma FragmentStep(opcode: DataCode, p: seq<Byte>, last: bool, piece: seq<Byte>, masked: bool, clock: nat -> bv32, k: nat)
    requires |p| >= CHUNK && last == (|p| < 2 * CHUNK) && piece == (if last then p else p[..CHUNK])
    ensures var bytes := FrameBytes(OnWire(Small(last, opcode, piece), masked, KeyFrom(clock(k))));
      var fs := Fragments(opcode, p);
      if last then |fs| == 1 && WireBytes(Wires(fs, masked, clock, k)) == bytes
      else
        var rest := Fragments(CONTINUATION, p[CHUNK..]);
        |fs| == 1 + |rest| && WireBytes(Wires(fs, masked, clock, k)) == bytes + WireBytes(Wires(rest, masked, clock, k + 1))
  {
    hide FrameBytes, OnWire, KeyFrom;
    if last {
      OneWire(Small(true, opcode, p), masked, clock, k);
    } else {
      var f, rest := Small(false, opcode, p[..CHUNK]), Fragments(CONTINUATION, p[CHUNK..]);
      assert ([f] + rest)[1..] == rest;
      WiresFirst(f, rest, masked, clock, k);
    }
  }

  lemma WiresFirst(f: SmallFrame, rest: seq<SmallFrame>, masked: bool, clock: nat -> bv32, k: nat)
    ensures WireBytes(Wires([f] + rest, masked, clock, k)) ==
      FrameBytes(OnWire(f, masked, KeyFrom(clock(k)))) + WireBytes(Wires(rest, masked, clock, k + 1))
  {
    hide FrameBytes, OnWire, KeyFrom;
    assert ([f] + rest)[1..] == rest;
    var w, ws := OnWire(f, masked, KeyFrom(clock(k))), Wires(rest, masked, clock, k + 1);
    assert ([w] + ws)[1..] == ws;
  }
}
