/** What becomes of a notification, and that an image gets through: the other half of safety. */
module ArtworkProgress {
  import opened Bits
  import opened Artwork
  import opened ArtworkSafety

  // What becomes of a notification.

  /** The message was received in the stream that is running. */
  predicate Current(s: State, n: Notification)
    requires n.msg < |s.messages|
  {
    s.messages[n.msg].epoch == s.epoch
  }

  /** No later message has been written where this one's bytes are; a clear has none. */
  predicate Intact(s: State, n: Notification)
    requires Shaped(s) && n.msg < |s.messages| && n.slot < SLOTS
    requires n.length == |s.messages[n.msg].payload| && (n.length > 0 ==> n.bufferIdx < 2)
  {
    s.messages[n.msg].payload == [] || s.slots[n.slot].buffers[n.bufferIdx].owner == n.msg
  }

  /** The slot needs no acknowledgement, or owes none. */
  predicate GateOpen(c: Config, s: State, slot: nat)
    requires Shaped(s) && slot < SLOTS
  {
    slot !in c.ackSlots || s.slots[slot].ack == Idle
  }

  lemma InHandOk(s: State)
    requires Inv(s) && s.decode.Claiming?
    ensures Shaped(s) && Named(s) && Sent(s, s.decode.n)
    ensures BuffersOk(s)
  {
  }

  /** What processing makes of the notification in hand */
  predicate Decided(c: Config, s: State, n: Notification, t: State)
    requires Shaped(s) && Sent(s, n)
  {
    var goes, through := Current(s, n) && Intact(s, n), GateOpen(c, s, n.slot);
    && (goes && through <==> t.decode == if s.messages[n.msg].payload == [] then HandingOff(n) else Decoding(n))
    && (!(goes && through) ==> t.decode == Waiting)
    && (goes && !through ==> t == WithSlot(s, n.slot, s.slots[n.slot].(parked := Some(n))).(decode := Waiting))
    && (!goes ==> t == s.(decode := Waiting))
  }

  lemma InvDecides(c: Config, s: State)
    requires Inv(s) && s.decode.Claiming?
    ensures Shaped(s) && Named(s) && Sent(s, s.decode.n) && Decided(c, s, s.decode.n, Next(c, s, Process))
  {
    hide Inv, BuffersOk;
    InHandOk(s);
    var n := s.decode.n;
    if n.length > 0 {
      NotEmptied(s, n);
    }
    if !(Current(s, n) && Intact(s, n)) {
      assert s.slots[n.slot := s.slots[n.slot]] == s.slots;
    }
  }

  /** In every reachable state: a notification that is processed is decoded, or handed on as a clear, exactly if its message
      is of the stream that is running, its bytes have not been written over, and its slot owes no acknowledgement. If
      only an acknowledgement is owed it is parked; otherwise it is dropped, and nothing else changes. */
  lemma ProcessDecides(c: Config, actions: seq<Action>)
    requires Play(c, START, actions).decode.Claiming?
    ensures var s := Play(c, START, actions);
      Shaped(s) && Named(s) && Sent(s, s.decode.n) && Decided(c, s, s.decode.n, Next(c, s, Process))
  {
    hide Inv, Play, Next, Decided;
    StartInv();
    PlayKeeps(c, START, actions);
    InvDecides(c, Play(c, START, actions));
  }

  lemma NotEmptied(s: State, n: Notification)
    requires Shaped(s) && BuffersOk(s) && NoteOk(s, n) && n.length > 0
    ensures s.slots[n.slot].buffers[n.bufferIdx].bytes != []
  {
    assert BufferOk(s, s.slots[n.slot].buffers[n.bufferIdx]);
  }

  // An image gets through.

  lemma {:induction false} PlayJoins(c: Config, s: State, a: seq<Action>, b: seq<Action>)
    ensures Play(c, s, a + b) == Play(c, Play(c, s, a), b)
    decreases |a|
  {
    hide Next, Shaped, Named, Enabled;
    if a == [] {
      assert a + b == b;
    } else {
      assert (a + b)[0] == a[0] && (a + b)[1..] == a[1..] + b;
      PlayJoins(c, if Shaped(s) && Named(s) && Enabled(s, a[0]) then Next(c, s, a[0]) else s, a[1..], b);
    }
  }

  lemma PlayOne(c: Config, s: State, a: Action)
    requires Shaped(s) && Named(s) && Enabled(s, a)
    ensures Play(c, s, [a]) == Next(c, s, a)
  {
    hide Next, Shaped, Named, Enabled;
    assert [a][1..] == [];
  }

  /** A step after others */
  lemma ThenOne(c: Config, s: State, before: seq<Action>, a: Action)
    requires var t := Play(c, s, before); Shaped(t) && Named(t) && Enabled(t, a)
    ensures Play(c, s, before + [a]) == Next(c, Play(c, s, before), a)
  {
    hide Play, Next, Shaped, Named, Enabled;
    PlayJoins(c, s, before, [a]);
    PlayOne(c, Play(c, s, before), a);
  }

  /** A stream is running and no thread is at anything. */
  predicate AtRest(s: State) {
    s.active && s.network == NetIdle && s.decode == Waiting && s.main == MainIdle && s.queue == []
  }

  /** The decode thread has taken the notification of the last message that was received. */
  predicate InHand(s: State, t: State, slot: nat, payload: seq<Byte>) {
    && t.decode.Claiming? && t.decode.n.slot == slot && t.decode.n.msg == |s.messages| && t.decode.n.length == |payload|
    && t.decode.n.epoch == s.epoch
    && |t.messages| == |s.messages| + 1 && t.messages[|s.messages|].payload == payload && t.messages[|s.messages|].epoch == s.epoch
    && t.epoch == s.epoch && t.active && t.network == NetIdle && t.main == MainIdle && t.queue == [] && t.log == s.log + [Received(|s.messages|)]
  }

  lemma Arrival(c: Config, s: State, slot: nat, payload: seq<Byte>, timestamp: int, format: nat)
    requires Shaped(s) && AtRest(s) && slot < SLOTS
    ensures var t := Play(c, s, [Receive(slot, payload, timestamp, format), Send(true), Dequeue]);
      Shaped(t) && InHand(s, t, slot, payload) && GateOpen(c, t, slot) == GateOpen(c, s, slot)
      && (payload != [] ==> t.decode.n.bufferIdx < 2 && t.slots[slot].buffers[t.decode.n.bufferIdx].owner == |s.messages|)
  {
    hide Overwritten;
    var receive := Receive(slot, payload, timestamp, format);
    PlayOne(c, s, receive);
    var s1 := Next(c, s, receive);
    ThenOne(c, s, [receive], Send(true));
    var s2 := Next(c, s1, Send(true));
    assert [receive] + [Send(true)] == [receive, Send(true)];
    ThenOne(c, s, [receive, Send(true)], Dequeue);
    assert [receive, Send(true)] + [Dequeue] == [receive, Send(true), Dequeue];
    assert s2.queue[1..] == [];
  }

  /** Nothing but the slots and the decode thread has moved on. */
  predicate SameBeside(s: State, t: State) {
    && t.active == s.active && t.epoch == s.epoch && t.messages == s.messages && t.log == s.log && t.network == s.network
    && t.main == s.main && t.queue == s.queue && t.display == s.display && t.held == s.held
  }

  lemma ProcessBeside(c: Config, s: State)
    requires Shaped(s) && Named(s) && s.decode.Claiming?
    ensures SameBeside(s, Next(c, s, Process)) && Shaped(Next(c, s, Process))
  {
  }

  /** An entry waits on the main thread, which is about to look at the slots. */
  predicate Held(s: State, n: Notification) {
    && s.main == Draining(s.epoch, 0) && n.slot in s.held && s.held[n.slot] == EntryOf(n)
  }

  /** The notification is handed on, merged and taken over by the main thread. */
  lemma Handover(c: Config, s: State)
    requires Shaped(s) && s.decode.HandingOff? && s.active && s.main == MainIdle && s.decode.n.slot < SLOTS
    ensures var t := Play(c, s, [CheckActive, Merge, DrainEvents, MainStep]);
      Shaped(t) && Held(t, s.decode.n) && t.log == s.log && t.epoch == s.epoch && t.decode == Waiting
  {
    PlayOne(c, s, CheckActive);
    ThenOne(c, s, [CheckActive], Merge);
    assert [CheckActive] + [Merge] == [CheckActive, Merge];
    ThenOne(c, s, [CheckActive, Merge], DrainEvents);
    assert [CheckActive, Merge] + [DrainEvents] == [CheckActive, Merge, DrainEvents];
    ThenOne(c, s, [CheckActive, Merge, DrainEvents], MainStep);
    assert [CheckActive, Merge, DrainEvents] + [MainStep] == [CheckActive, Merge, DrainEvents, MainStep];
  }

  /** The main thread passes slots whose time has not come. */
  function Passes(n: nat): (a: seq<Action>)
    ensures |a| == n
  {
    seq(n, i => SlotStep(false, false))
  }

  lemma {:induction false} Passing(c: Config, s: State, slot: nat, k: nat)
    requires Shaped(s) && Named(s) && k <= slot < SLOTS && s.main == Draining(s.epoch, 0) && slot in s.held
    ensures var t := Play(c, s, Passes(k));
      && Shaped(t) && Named(t) && t.main == Draining(s.epoch, k) && t.epoch == s.epoch && t.log == s.log
      && slot in t.held && t.held[slot] == s.held[slot]
    decreases k
  {
    if k > 0 {
      Passing(c, s, slot, k - 1);
      assert Passes(k) == Passes(k - 1) + [SlotStep(false, false)];
      ThenOne(c, s, Passes(k - 1), SlotStep(false, false));
    }
  }

  lemma Firing(c: Config, s: State, n: Notification, wake: bool)
    requires Shaped(s) && Named(s) && n.slot < SLOTS && s.main == Draining(s.epoch, n.slot)
    requires n.slot in s.held && s.held[n.slot] == EntryOf(n) && n.epoch == s.epoch
    ensures var t := Next(c, s, SlotStep(true, wake));
      && t.log == s.log + [Delivered(n.slot, n.length == 0, n.msg)] && n.slot !in t.held
      && |t.slots| == SLOTS && (n.slot in c.ackSlots ==> t.slots[n.slot].ack == Presented)
  {
  }

  /** From the claim to the delivery */
  function Onward(slot: nat, clear: bool): seq<Action> {
    [Process] + (if clear then [] else [DecodeDone]) + [CheckActive, Merge, DrainEvents, MainStep] + Passes(slot) + [SlotStep(true, false)]
  }

  /** A claimed notification that may be decoded leads to a delivery. */
  lemma Through(c: Config, s: State)
    requires Inv(s) && s.decode.Claiming? && Sent(s, s.decode.n) && s.active && s.main == MainIdle
    requires Current(s, s.decode.n) && Intact(s, s.decode.n) && GateOpen(c, s, s.decode.n.slot)
    ensures var n := s.decode.n;
      var t := Play(c, s, Onward(n.slot, n.length == 0));
      && t.log == s.log + (if n.length == 0 then [] else [Decoded(n.msg)]) + [Delivered(n.slot, n.length == 0, n.msg)]
      && |t.slots| == SLOTS && (n.slot in c.ackSlots ==> t.slots[n.slot].ack == Presented)
  {
    hide Inv, Play, Next, Sent, Intact, GateOpen, Passes;
    var n := s.decode.n;
    Claimant(s);
    InvDecides(c, s);
    ProcessBeside(c, s);
    PlayOne(c, s, Process);
    var handed := [Process] + if n.length == 0 then [] else [DecodeDone];
    Handed(c, s, n);
    var t := Play(c, s, handed);
    Handover(c, t);
    var rest := [CheckActive, Merge, DrainEvents, MainStep];
    PlayJoins(c, s, handed, rest);
    var u := Play(c, t, rest);
    Passing(c, u, n.slot, n.slot);
    PlayJoins(c, s, handed + rest, Passes(n.slot));
    var v := Play(c, u, Passes(n.slot));
    Firing(c, v, n, false);
    ThenOne(c, s, handed + rest + Passes(n.slot), SlotStep(true, false));
    assert Onward(n.slot, n.length == 0) == handed + rest + Passes(n.slot) + [SlotStep(true, false)];
  }

  lemma Claimant(s: State)
    requires Inv(s) && s.decode.Claiming? && Sent(s, s.decode.n)
    ensures Shaped(s) && Named(s) && s.decode.n.slot < SLOTS && s.decode.n.msg < |s.messages|
    ensures s.decode.n.length == |s.messages[s.decode.n.msg].payload| && s.decode.n.epoch == s.messages[s.decode.n.msg].epoch
  {
    hide BuffersOk, QueueOk, NetworkOk, EntriesOk, LogOk, DrainOk, DeliveredOk;
  }

  /** Decoded, or a clear: handed on */
  lemma Handed(c: Config, s: State, n: Notification)
    requires Inv(s) && s.decode == Claiming(n) && Sent(s, n)
    requires Current(s, n) && Intact(s, n) && GateOpen(c, s, n.slot)
    ensures var t := Play(c, s, [Process] + if n.length == 0 then [] else [DecodeDone]);
      && Shaped(t) && t.decode == HandingOff(n) && t.active == s.active && t.main == s.main && t.epoch == s.epoch
      && t.log == s.log + (if n.length == 0 then [] else [Decoded(n.msg)])
  {
    hide Inv, Play, Sent, Current, Intact, GateOpen, DoProcess;
    Claimant(s);
    InvDecides(c, s);
    ProcessBeside(c, s);
    PlayOne(c, s, Process);
    if n.length == 0 {
      assert [Process] + [] == [Process];
    } else {
      ThenOne(c, s, [Process], DecodeDone);
    }
  }

  /** From a running stream with idle threads and an open gate, an image that is received, sent, taken, decoded, merged and
      due is decoded and then delivered; a clear is delivered as one. The slot then owes an acknowledgement, if it needs
      any. */
  lemma ImageGetsThrough(c: Config, s: State, slot: nat, payload: seq<Byte>, timestamp: int, format: nat)
    requires Inv(s) && AtRest(s) && slot < SLOTS && GateOpen(c, s, slot)
    ensures var m := |s.messages|;
      var t := Play(c, s, [Receive(slot, payload, timestamp, format), Send(true), Dequeue] + Onward(slot, payload == []));
      && t.log == s.log + [Received(m)] + (if payload == [] then [] else [Decoded(m)]) + [Delivered(slot, payload == [], m)]
      && |t.slots| == SLOTS && (slot in c.ackSlots ==> t.slots[slot].ack == Presented)
  {
    hide Inv, Play, GateOpen, Onward;
    InvShape(s);
    var first := [Receive(slot, payload, timestamp, format), Send(true), Dequeue];
    Arrival(c, s, slot, payload, timestamp, format);
    PlayKeeps(c, s, first);
    var t := Play(c, s, first);
    InHandOk(t);
    Through(c, t);
    PlayJoins(c, s, first, Onward(slot, payload == []));
  }

  /** Behind a closed gate it is parked, and gets through once the slot has acknowledged. */
  lemma ParkedGetsThrough(c: Config, s: State, slot: nat, payload: seq<Byte>, timestamp: int, format: nat, wake: bool)
    requires Inv(s) && AtRest(s) && slot < SLOTS && !GateOpen(c, s, slot)
    ensures var m := |s.messages|;
      var first := [Receive(slot, payload, timestamp, format), Send(true), Dequeue];
      Play(c, s, first + [Process, FrameDone(slot, wake), Replay(slot)] + Onward(slot, payload == [])).log ==
      s.log + [Received(m)] + (if payload == [] then [] else [Decoded(m)]) + [Delivered(slot, payload == [], m)]
  {
    hide Inv, Play, Onward, Next;
    InvShape(s);
    var first := [Receive(slot, payload, timestamp, format), Send(true), Dequeue];
    Arrival(c, s, slot, payload, timestamp, format);
    PlayKeeps(c, s, first);
    var t := Play(c, s, first);
    InHandOk(t);
    var again := [Process, FrameDone(slot, wake), Replay(slot)];
    Reclaimed(c, t, wake);
    PlayKeeps(c, t, again);
    var u := Play(c, t, again);
    InHandOk(u);
    Through(c, u);
    PlayJoins(c, s, first, again);
    PlayJoins(c, s, first + again, Onward(slot, payload == []));
  }

  /** Parked, acknowledged, and taken up again */
  lemma Reclaimed(c: Config, s: State, wake: bool)
    requires Inv(s) && s.decode.Claiming? && Shaped(s) && Sent(s, s.decode.n) && s.active && s.main == MainIdle
    requires Current(s, s.decode.n) && Intact(s, s.decode.n) && !GateOpen(c, s, s.decode.n.slot)
    ensures var n, t := s.decode.n, Play(c, s, [Process, FrameDone(s.decode.n.slot, wake), Replay(s.decode.n.slot)]);
      && Shaped(t) && t.decode == Claiming(n) && t.active && t.main == MainIdle && t.log == s.log && t.messages == s.messages
      && t.epoch == s.epoch && t.slots[n.slot].buffers == s.slots[n.slot].buffers && GateOpen(c, t, n.slot)
  {
    hide Inv, Play, DoProcess, Current, Intact, NoteOk;
    var n := s.decode.n;
    InHandOk(s);
    InvDecides(c, s);
    PlayOne(c, s, Process);
    var s1 := Next(c, s, Process);
    ThenOne(c, s, [Process], FrameDone(n.slot, wake));
    var s2 := Next(c, s1, FrameDone(n.slot, wake));
    assert [Process] + [FrameDone(n.slot, wake)] == [Process, FrameDone(n.slot, wake)];
    ThenOne(c, s, [Process, FrameDone(n.slot, wake)], Replay(n.slot));
    assert [Process, FrameDone(n.slot, wake)] + [Replay(n.slot)] == [Process, FrameDone(n.slot, wake), Replay(n.slot)];
  }

  lemma InvShape(s: State)
    requires Inv(s)
    ensures Shaped(s) && Named(s)
  {
  }

  // The ends of a stream.

  /** A new stream opens the gates that wait for a delivery of the old one, and forgets what was parked and merged. */
  lemma RestartOpens(c: Config, s: State)
    requires Inv(s) && s.network == NetIdle
    ensures var t := Play(c, s, [StreamStart, NetworkStep(true), NetworkStep(true), NetworkStep(true)]);
      && Shaped(s) && Shaped(t) && t.active && t.network == NetIdle && t.epoch == s.epoch + 1 && t.display == map[] && t.log == s.log
      && forall i | 0 <= i < SLOTS ::
           && t.slots[i].parked == None && t.slots[i].buffers == s.slots[i].buffers
           && t.slots[i].ack == if s.slots[i].ack == DecodeDelivered then Idle else s.slots[i].ack
  {
    hide Inv, Play, Next, Shaped, Named, Enabled;
    InvShape(s);
    var step := NetworkStep(true);
    var s1 := StartedAt(c, s);
    PlayOne(c, s, StreamStart);
    ThenOne(c, s, [StreamStart], step);
    assert [StreamStart] + [step] == [StreamStart, step];
    var s2 := Next(c, s1, step);
    EpochStep(c, s1);
    ThenOne(c, s, [StreamStart, step], step);
    assert [StreamStart, step] + [step] == [StreamStart, step, step];
    var s3 := Next(c, s2, step);
    DisplayStep(c, s2);
    ThenOne(c, s, [StreamStart, step, step], step);
    assert [StreamStart, step, step] + [step] == [StreamStart, step, step, step];
    ReopenStep(c, s3);
    assert Shaped(s);
  }

  lemma StartedAt(c: Config, s: State) returns (t: State)
    requires Shaped(s) && Named(s) && s.network == NetIdle
    ensures Enabled(s, StreamStart) && t == Next(c, s, StreamStart) == s.(active := true, network := Starting(0))
    ensures Shaped(t) && Named(t) && Enabled(t, NetworkStep(true))
  {
    t := s.(active := true, network := Starting(0));
  }

  lemma EpochStep(c: Config, s: State)
    requires Shaped(s) && Named(s) && s.network == Starting(0) && Enabled(s, NetworkStep(true))
    ensures var t := Next(c, s, NetworkStep(true));
      t == s.(epoch := s.epoch + 1, network := Starting(1)) && Shaped(t) && Named(t) && Enabled(t, NetworkStep(true))
  {
  }

  lemma DisplayStep(c: Config, s: State)
    requires Shaped(s) && Named(s) && s.network == Starting(1) && Enabled(s, NetworkStep(true))
    ensures var t := Next(c, s, NetworkStep(true));
      t == s.(display := map[], network := Starting(2)) && Shaped(t) && Named(t) && Enabled(t, NetworkStep(true))
  {
  }

  lemma ReopenStep(c: Config, s: State)
    requires Shaped(s) && Named(s) && s.network == Starting(2) && Enabled(s, NetworkStep(true))
    ensures var t := Next(c, s, NetworkStep(true));
      && t == s.(slots := t.slots, network := NetIdle) && Shaped(t) && |s.slots| == |t.slots| == SLOTS
      && forall i | 0 <= i < SLOTS ::
           && t.slots[i].parked == None && t.slots[i].buffers == s.slots[i].buffers
           && t.slots[i].ack == if s.slots[i].ack == DecodeDelivered then Idle else s.slots[i].ack
  {
  }

  /** The dispatched end of a stream leaves nothing to deliver and nothing parked, and each slot that acknowledges owes that
      for the clear. */
  lemma EndClears(c: Config, s: State)
    requires Inv(s) && s.main == MainIdle && s.ring != []
    ensures var t := Play(c, s, [DispatchEnd, MainStep, MainStep]);
      && Shaped(t) && t.main == MainIdle && t.held == map[] && t.display == map[] && t.log == s.log + [Dispatched(s.ring[0])]
      && t.ring == s.ring[1..]
      && forall i | 0 <= i < SLOTS :: t.slots[i].parked == None && (i in c.ackSlots ==> t.slots[i].ack == Presented)
  {
    hide Inv, Play, Next, Shaped, Named, Enabled;
    InvShape(s);
    var s1 := DispatchedAt(c, s);
    PlayOne(c, s, DispatchEnd);
    ThenOne(c, s, [DispatchEnd], MainStep);
    assert [DispatchEnd] + [MainStep] == [DispatchEnd, MainStep];
    var s2 := Next(c, s1, MainStep);
    ForgetStep(c, s1);
    ThenOne(c, s, [DispatchEnd, MainStep], MainStep);
    assert [DispatchEnd, MainStep] + [MainStep] == [DispatchEnd, MainStep, MainStep];
    ClearStep(c, s2);
  }

  lemma DispatchedAt(c: Config, s: State) returns (t: State)
    requires Shaped(s) && Named(s) && s.main == MainIdle && s.ring != []
    ensures Enabled(s, DispatchEnd)
    ensures t == Next(c, s, DispatchEnd) == Logged(s.(held := map[], ring := s.ring[1..], main := Clearing(0)), Dispatched(s.ring[0]))
    ensures Shaped(t) && Named(t) && Enabled(t, MainStep)
  {
    t := Logged(s.(held := map[], ring := s.ring[1..], main := Clearing(0)), Dispatched(s.ring[0]));
  }

  lemma ForgetStep(c: Config, s: State)
    requires Shaped(s) && Named(s) && s.main == Clearing(0) && Enabled(s, MainStep)
    ensures var t := Next(c, s, MainStep); t == s.(display := map[], main := Clearing(1)) && Shaped(t) && Named(t) && Enabled(t, MainStep)
  {
  }

  lemma ClearStep(c: Config, s: State)
    requires Shaped(s) && Named(s) && s.main == Clearing(1) && Enabled(s, MainStep)
    ensures var t := Next(c, s, MainStep);
      && t == s.(slots := t.slots, main := MainIdle) && Shaped(t) && |t.slots| == SLOTS
      && forall i | 0 <= i < SLOTS :: t.slots[i].parked == None && (i in c.ackSlots ==> t.slots[i].ack == Presented)
  {
  }
}
