/** From one end to the other: whatever the socket takes at a time and however the bytes arrive, the receiver's callback
    gets the messages that were sent. */
module WsLink {
  import opened Bits
  import opened WsFrames
  import opened WsReceiver
  import opened WsSender
  import Utf8

  datatype Post = Post(kind: Kind, payload: seq<Byte>)

  /** sendText and sendBinary */
  function Code(kind: Kind): DataCode {
    if kind == TextKind then 1 else 2
  }

  /** Text is in UTF-8. */
  predicate Proper(post: Post) {
    post.kind == TextKind ==> Utf8.Octets(post.payload)
  }

  function FramesOf(post: Post): (fs: seq<SmallFrame>)
    ensures fs != []
  {
    Fragments(Code(post.kind), post.payload)
  }

  /** The frames of some messages, the first of them made at the k-th tick of the clock */
  function PostWires(posts: seq<Post>, masked: bool, clock: nat -> bv32, k: nat): seq<FineWire> {
    if posts == [] then []
    else Wires(FramesOf(posts[0]), masked, clock, k) + PostWires(posts[1..], masked, clock, k + |FramesOf(posts[0])|)
  }

  // What the frames of a message do to the receiver.

  function Marks(n: nat): (s: seq<Event>)
    ensures |s| == n
  {
    seq(n, i => Fragment)
  }

  lemma FlatSingle(p: seq<Byte>)
    ensures Flat([p]) == p
  {
    FlatEnd([], p);
    assert [] + [p] == [p] && [] + p == p;
  }

  lemma OneFrame(rx: Rx, f: SmallFrame, masked: bool, clock: nat -> bv32, k: nat)
    ensures OnFrames(rx, Wires([f], masked, clock, k)) == OnFrame(rx, f)
  {
    hide OnFrame;
    assert Wires([f], masked, clock, k) == [OnWire(f, masked, KeyFrom(clock(k)))];
  }

  lemma FirstFrame(rx: Rx, f: SmallFrame, rest: seq<SmallFrame>, masked: bool, clock: nat -> bv32, k: nat)
    ensures OnFrames(rx, Wires([f] + rest, masked, clock, k)) == OnFrames(OnFrame(rx, f), Wires(rest, masked, clock, k + 1))
  {
    hide OnFrame;
    assert ([f] + rest)[1..] == rest;
    assert Wires([f] + rest, masked, clock, k) == [OnWire(f, masked, KeyFrom(clock(k)))] + Wires(rest, masked, clock, k + 1);
  }

  /** The frames that continue a message end it: it is all the chunks, those that were there and those of the frames. */
  lemma {:induction false} TailMeans(rx: Rx, p: seq<Byte>, masked: bool, clock: nat -> bv32, k: nat)
    requires rx.chunks != []
    ensures OnFrames(rx, Wires(Fragments(CONTINUATION, p), masked, clock, k)) ==
      Emit(rx.(out := rx.out + Marks(|Fragments(CONTINUATION, p)| - 1)), rx.kind, Flat(rx.chunks) + p).(chunks := [])
    decreases |p|
  {
    hide OnFrames, Wires, Utf8.Octets, Flat;
    if |p| < 2 * CHUNK {
      OneFrame(rx, Small(true, CONTINUATION, p), masked, clock, k);
      FlatEnd(rx.chunks, p);
      assert rx.out + Marks(0) == rx.out;
    } else {
      var head, tail := p[..CHUNK], p[CHUNK..];
      var n := |Fragments(CONTINUATION, tail)|;
      FirstFrame(rx, Small(false, CONTINUATION, head), Fragments(CONTINUATION, tail), masked, clock, k);
      var next := rx.(chunks := rx.chunks + [head], out := rx.out + [Fragment]);
      TailMeans(next, tail, masked, clock, k + 1);
      FlatEnd(rx.chunks, head);
      assert Flat(rx.chunks) + head + tail == Flat(rx.chunks) + p;
      assert rx.out + [Fragment] + Marks(n - 1) == rx.out + Marks(n);
    }
  }

  /** Of the frames of a message one message is emitted, after a notice for each but the last, or, for text that is not
      UTF-8, the connection is closed with 1007; the receiver is then between messages again. */
  lemma MessageMeans(rx: Rx, kind: Kind, p: seq<Byte>, masked: bool, clock: nat -> bv32, k: nat)
    requires rx.chunks == []
    ensures var fs := Fragments(Code(kind), p);
      OnFrames(rx, Wires(fs, masked, clock, k)) == Emit(rx.(kind := kind, out := rx.out + Marks(|fs| - 1)), kind, p)
  {
    hide OnFrames, Wires, Utf8.Octets, Flat;
    if |p| < 2 * CHUNK {
      OneFrame(rx, Small(true, Code(kind), p), masked, clock, k);
      assert rx.out + Marks(0) == rx.out;
    } else {
      var head, tail := p[..CHUNK], p[CHUNK..];
      var n := |Fragments(CONTINUATION, tail)|;
      FirstFrame(rx, Small(false, Code(kind), head), Fragments(CONTINUATION, tail), masked, clock, k);
      var next := rx.(kind := kind, chunks := [head], out := rx.out + [Fragment]);
      assert rx.chunks + [head] == [head];
      TailMeans(next, tail, masked, clock, k + 1);
      FlatSingle(head);
      assert head + tail == p;
      assert rx.out + [Fragment] + Marks(n - 1) == rx.out + Marks(n);
    }
  }

  // Messages one after the other.

  /** What is emitted, without the notices of fragments */
  function Spoken(out: seq<Event>): seq<Event> {
    if out == [] then []
    else Spoken(out[..|out| - 1]) + if out[|out| - 1] == Fragment then [] else [out[|out| - 1]]
  }

  function Messages(posts: seq<Post>): (events: seq<Event>)
    ensures |events| == |posts|
  {
    seq(|posts|, i requires 0 <= i < |posts| => Message(posts[i].kind, posts[i].payload))
  }

  lemma {:induction false} SpokenJoins(a: seq<Event>, b: seq<Event>)
    ensures Spoken(a + b) == Spoken(a) + Spoken(b)
    decreases |b|
  {
    if b == [] {
      assert a + b == a;
    } else {
      assert (a + b)[..|a + b| - 1] == a + b[..|b| - 1];
      SpokenJoins(a, b[..|b| - 1]);
    }
  }

  lemma {:induction false} MarksSilent(n: nat)
    ensures Spoken(Marks(n)) == []
  {
    if n > 0 {
      assert Marks(n)[..n - 1] == Marks(n - 1);
      MarksSilent(n - 1);
    }
  }

  lemma {:induction false} OnFramesJoins(rx: Rx, a: seq<FineWire>, b: seq<FineWire>)
    ensures OnFrames(rx, a + b) == OnFrames(OnFrames(rx, a), b)
    decreases |a|
  {
    hide OnFrame;
    if a == [] {
      assert a + b == b;
    } else {
      assert (a + b)[1..] == a[1..] + b;
      OnFramesJoins(OnFrame(rx, a[0].frame), a[1..], b);
    }
  }

  lemma OnePost(rx: Rx, post: Post, masked: bool, clock: nat -> bv32, k: nat)
    requires rx.chunks == [] && Proper(post)
    ensures var r := OnFrames(rx, Wires(FramesOf(post), masked, clock, k));
      r.chunks == [] && r.closes == rx.closes && Spoken(r.out) == Spoken(rx.out) + [Message(post.kind, post.payload)]
  {
    hide OnFrames, Wires, Utf8.Octets, Fragments, Spoken;
    var n := |FramesOf(post)| - 1;
    var m := Message(post.kind, post.payload);
    MessageMeans(rx, post.kind, post.payload, masked, clock, k);
    SpokenJoins(rx.out, Marks(n));
    SpokenJoins(rx.out + Marks(n), [m]);
    MarksSilent(n);
    SpokenOne(m);
  }

  lemma SpokenOne(e: Event)
    requires e != Fragment
    ensures Spoken([e]) == [e]
  {
    assert [e][..0] == [];
  }

  /** Messages whose text is UTF-8 are emitted, each once and in order, and nothing else but notices of fragments. */
  lemma {:induction false} PostsMean(rx: Rx, posts: seq<Post>, masked: bool, clock: nat -> bv32, k: nat)
    requires rx.chunks == [] && forall p | p in posts :: Proper(p)
    ensures var r := OnFrames(rx, PostWires(posts, masked, clock, k));
      r.chunks == [] && r.closes == rx.closes && Spoken(r.out) == Spoken(rx.out) + Messages(posts)
    decreases |posts|
  {
    hide Proper, FramesOf, Wires, Spoken, OnFrame, Messages, OnFrames;
    if posts != [] {
      var first, rest := Wires(FramesOf(posts[0]), masked, clock, k), posts[1..];
      OnePost(rx, posts[0], masked, clock, k);
      PostsMean(OnFrames(rx, first), rest, masked, clock, k + |FramesOf(posts[0])|);
      OnFramesJoins(rx, first, PostWires(rest, masked, clock, k + |FramesOf(posts[0])|));
      FirstMessage(posts, Spoken(rx.out));
    } else {
      NoMessages(rx);
    }
  }

  lemma FirstMessage(posts: seq<Post>, out: seq<Event>)
    requires posts != []
    ensures out + [Message(posts[0].kind, posts[0].payload)] + Messages(posts[1..]) == out + Messages(posts)
  {
  }

  lemma NoMessages(rx: Rx)
    ensures OnFrames(rx, []) == rx && Messages([]) == [] && Spoken(rx.out) + Messages([]) == Spoken(rx.out)
  {
  }

  // A part of the bytes.

  lemma OnFrameAdds(rx: Rx, f: Frame)
    ensures rx.out <= OnFrame(rx, f).out && rx.closes <= OnFrame(rx, f).closes
  {
    hide Utf8.Octets, Flat;
  }

  lemma {:induction false} OnFramesAdd(rx: Rx, ws: seq<FineWire>)
    ensures rx.out <= OnFrames(rx, ws).out && rx.closes <= OnFrames(rx, ws).closes
    decreases |ws|
  {
    hide OnFrame;
    if ws != [] {
      OnFrameAdds(rx, ws[0].frame);
      OnFramesAdd(OnFrame(rx, ws[0].frame), ws[1..]);
    }
  }

  lemma SpokenPart(a: seq<Event>, b: seq<Event>)
    requires a <= b
    ensures Spoken(a) <= Spoken(b)
  {
    hide Spoken;
    assert b == a + b[|a|..];
    SpokenJoins(a, b[|a|..]);
  }

  const START := Rx([], TextKind, [], [])

  /** The bytes of some messages, in any batches: as long as they are not all there the first of the messages have been
      emitted, and when they are, all of them. */
  lemma Arrives(posts: seq<Post>, masked: bool, clock: nat -> bv32, k: nat, batches: seq<seq<Byte>>)
    requires forall p | p in posts :: Proper(p)
    requires Flat(batches) <= WireBytes(PostWires(posts, masked, clock, k))
    ensures var (r, rest) := Feed(START, [], batches);
      && r.closes == [] && Spoken(r.out) <= Messages(posts)
      && (Flat(batches) == WireBytes(PostWires(posts, masked, clock, k)) ==> Spoken(r.out) == Messages(posts) && r.chunks == [] && rest == [])
  {
    hide Feed, Dispatch, WireBytes, PostWires, OnFrames, Flat, Spoken, Proper, Messages;
    var ws := PostWires(posts, masked, clock, k);
    assert [] + Flat(batches) == Flat(batches);
    FeedIsDispatch(START, ws, [], batches);
    var n := DispatchPrefix(START, ws, Flat(batches));
    PostsMean(START, posts, masked, clock, k);
    SpokenNone();
    assert ws == ws[..n] + ws[n..];
    OnFramesJoins(START, ws[..n], ws[n..]);
    OnFramesAdd(OnFrames(START, ws[..n]), ws[n..]);
    SpokenPart(OnFrames(START, ws[..n]).out, OnFrames(START, ws).out);
    assert [] + Messages(posts) == Messages(posts);
  }

  lemma SpokenNone()
    ensures Spoken([]) == []
  {
  }

  // The two ends.

  /** flushSendBuffer, which poll calls: the socket is found ready to write this many times. */
  method Flush(sender: Sender, times: nat)
    requires sender.state != Closing
    modifies sender`txbuf, sender`state, sender.socket
    ensures sender.Sent() == old(sender.Sent()) && sender.state != Closing && (sender.state == Open ==> old(sender.state) == Open)
  {
    for i := 0 to times
      invariant sender.Sent() == old(sender.Sent()) && sender.state != Closing && (sender.state == Open ==> old(sender.state) == Open)
    {
      var ok := sender.SendOnSocket();
    }
  }

  /** Messages sent one after the other, with any number of flushes before each and after the last: what is on the wire
      or waits for it is their frames, or, once the socket has failed, the first bytes of them. */
  method SendAll(sender: Sender, posts: seq<Post>, flushes: nat -> nat)
    requires sender.state == Open
    modifies sender`txbuf, sender`state, sender`turn, sender.socket
    ensures var all := old(sender.Sent()) + WireBytes(PostWires(posts, sender.useMask, sender.clock, old(sender.turn)));
      sender.Sent() <= all && (sender.state == Open ==> sender.Sent() == all)
  {
    hide WireBytes, PostWires, FramesOf, Wires, Fragments;
    ghost var before, all := sender.Sent(), PostWires(posts, sender.useMask, sender.clock, sender.turn);
    assert posts[0..] == posts && before + WireBytes(all) == before + WireBytes(all);
    for i := 0 to |posts|
      invariant sender.state != Closing && sender.Sent() <= before + WireBytes(all)
      invariant sender.state == Open ==>
        before + WireBytes(all) == sender.Sent() + WireBytes(PostWires(posts[i..], sender.useMask, sender.clock, sender.turn))
    {
      Flush(sender, flushes(i));
      PostStep(posts[i..], sender.useMask, sender.clock, sender.turn, sender.Sent());
      assert posts[i..][1..] == posts[i + 1..];
      var ok := sender.SendData(Code(posts[i].kind), posts[i].payload);
    }
    Flush(sender, flushes(|posts|));
    NoPosts(sender.useMask, sender.clock, sender.turn);
    assert posts[|posts|..] == [];
  }

  lemma NoPosts(masked: bool, clock: nat -> bv32, k: nat)
    ensures WireBytes(PostWires([], masked, clock, k)) == []
  {
  }

  lemma PostStep(posts: seq<Post>, masked: bool, clock: nat -> bv32, k: nat, sent: seq<Byte>)
    requires posts != []
    ensures var fs := Fragments(Code(posts[0].kind), posts[0].payload);
      var first := WireBytes(Wires(fs, masked, clock, k));
      && sent + WireBytes(PostWires(posts, masked, clock, k)) == (sent + first) + WireBytes(PostWires(posts[1..], masked, clock, k + |fs|))
      && sent + first <= sent + WireBytes(PostWires(posts, masked, clock, k))
  {
    hide WireBytes, Wires, Fragments;
    var fs := FramesOf(posts[0]);
    var a, b := Wires(fs, masked, clock, k), PostWires(posts[1..], masked, clock, k + |fs|);
    SplitWires(a + b, |a|);
    assert (a + b)[..|a|] == a && (a + b)[|a|..] == b;
    Longer(sent, WireBytes(a), WireBytes(b));
  }

  /** Batches of these sizes, and one for what is over */
  function Cut(bytes: seq<Byte>, sizes: seq<nat>): (batches: seq<seq<Byte>>)
    ensures Flat(batches) == bytes
    decreases |sizes|
  {
    if sizes == [] then
      assert [bytes][1..] == [];
      [bytes]
    else
      var n := if sizes[0] > |bytes| then |bytes| else sizes[0];
      var rest := Cut(bytes[n..], sizes[1..]);
      assert ([bytes[..n]] + rest)[1..] == rest;
      [bytes[..n]] + rest
  }

  /** A sender that flushes at any times, a socket with any answers, and a receiver that gets what went out in batches of any sizes. */
  method Talk(posts: seq<Post>, useMask: bool, clock: nat -> bv32, flushes: nat -> nat, answers: seq<int>, sizes: seq<nat>)
    returns (sender: Sender, receiver: Receiver)
    requires forall p | p in posts :: Proper(p)
    ensures receiver.closes == [] && Spoken(receiver.out) <= Messages(posts)
    ensures sender.state == Open && sender.txbuf == [] ==> Spoken(receiver.out) == Messages(posts) && receiver.chunks == [] && receiver.rxbuf == []
  {
    hide WireBytes, PostWires, Proper, Cut, Flat, Feed, Spoken, Messages;
    var socket := new Socket(answers);
    sender := new Sender(useMask, clock, socket);
    SendAll(sender, posts, flushes);
    var batches := Cut(socket.wire, sizes);
    ghost var all := WireBytes(PostWires(posts, useMask, clock, 0));
    assert [] + [] + all == all;
    Arrives(posts, useMask, clock, 0, batches);
    receiver := new Receiver();
    receiver.ReceiveAll(batches);
  }
}
