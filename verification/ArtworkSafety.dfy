/** What holds in every run of the artwork role, whatever the interleaving of its threads. */
module ArtworkSafety {
  import opened Bits
  import opened Artwork

  // The invariant.

  /** A notification is one message's; if its buffer has not been written since, that message's bytes are in it, and
      otherwise those of a later one. */
  predicate NoteOk(s: State, n: Notification)
    requires Shaped(s)
  {
    && n.msg < |s.messages| && n.slot < SLOTS
    && var m := s.messages[n.msg];
    && m.slot == n.slot && m.timestamp == n.timestamp && m.format == n.format && |m.payload| == n.length
    && (n.length > 0 ==>
          && n.bufferIdx < 2 && n.generation > 0
          && var b := s.slots[n.slot].buffers[n.bufferIdx];
             n.generation <= b.generation && (if n.generation == b.generation then b.owner == n.msg else n.msg < b.owner))
  }

  /** The same, for one that carries its epoch. */
  predicate Sent(s: State, n: Notification)
    requires Shaped(s)
  {
    NoteOk(s, n) && n.epoch == s.messages[n.msg].epoch
  }

  predicate BufferOk(s: State, b: Buffer) {
    b.generation > 0 ==> b.owner < |s.messages| && s.messages[b.owner].payload <= b.bytes && s.messages[b.owner].payload != []
  }

  predicate BuffersOk(s: State)
    requires Shaped(s)
  {
    forall i, j | 0 <= i < SLOTS && 0 <= j < 2 :: BufferOk(s, s.slots[i].buffers[j])
  }

  predicate QueueOk(s: State)
    requires Shaped(s)
  {
    && (forall k | 0 <= k < |s.queue| && s.queue[k].Note? :: Sent(s, s.queue[k].n))
    && (forall i | 0 <= i < SLOTS && s.slots[i].parked.Some? :: Sent(s, s.slots[i].parked.value))
  }

  predicate NetworkOk(s: State)
    requires Shaped(s)
  {
    && (forall m <- s.messages :: m.epoch <= s.epoch)
    && (s.network.Staged? ==> NoteOk(s, s.network.n) && s.messages[s.network.n.msg].epoch == s.epoch)
  }

  /** The decode thread is in no slot but the one of its notification, and that one's buffer holds the message. */
  predicate DecodeOk(s: State)
    requires Shaped(s)
  {
    && (forall i | 0 <= i < SLOTS && s.slots[i].drainActive :: s.decode.Decoding? && s.decode.n.slot == i)
    && match s.decode
       case Waiting => true
       case Claiming(n) => Sent(s, n)
       case Decoding(n) =>
         && Sent(s, n) && n.length > 0
         && var sb := s.slots[n.slot];
            sb.drainActive && sb.drainIdx == n.bufferIdx && sb.buffers[n.bufferIdx].generation == n.generation
       case HandingOff(n) => Sent(s, n) && (n.length > 0 ==> Decoded(n.msg) in s.log)
       case Merging(n) => Sent(s, n) && (n.length > 0 ==> Decoded(n.msg) in s.log)
  }

  predicate EntryOk(s: State, slot: nat, e: Entry) {
    && e.msg < |s.messages| && slot < SLOTS
    && var m := s.messages[e.msg];
    && m.slot == slot && m.epoch == e.epoch && m.timestamp == e.timestamp && (e.isClear <==> m.payload == [])
    && (!e.isClear ==> Decoded(e.msg) in s.log)
  }

  predicate EntriesOk(s: State) {
    && (forall i <- s.display :: EntryOk(s, i, s.display[i]))
    && (forall i <- s.held :: EntryOk(s, i, s.held[i]))
  }

  /** A message is of an older epoch than every end of a stream that comes after it. */
  predicate EndsLater(log: seq<Event>, messages: seq<Message>) {
    forall i, j | 0 <= i < j < |log| && log[i].Received? && log[j].StreamOver? ::
      log[i].msg < |messages| && messages[log[i].msg].epoch < log[j].epoch
  }

  lemma EndsAppend(log: seq<Event>, messages: seq<Message>, e: Event)
    requires EndsLater(log, messages)
    requires e.StreamOver? ==> forall i | 0 <= i < |log| && log[i].Received? :: log[i].msg < |messages| && messages[log[i].msg].epoch < e.epoch
    ensures EndsLater(log + [e], messages)
  {
  }

  lemma EndsReceive(log: seq<Event>, messages: seq<Message>, m: Message)
    requires EndsLater(log, messages)
    ensures EndsLater(log, messages + [m])
  {
  }

  /** Where in the log the messages of an ended stream end. */
  predicate LogOk(s: State) {
    && (forall i | 0 <= i < |s.log| && s.log[i].Received? :: s.log[i].msg < |s.messages|)
    && EndsLater(s.log, s.messages)
    && (forall i | 0 <= i < |s.log| && s.log[i].StreamOver? :: s.log[i].epoch <= s.epoch)
    && (forall i | 0 <= i < |s.log| && s.log[i].Dispatched? :: s.log[i].epoch <= s.epoch)
    && (forall k | 0 <= k < |s.ring| :: s.ring[k] <= s.epoch)
    && (s.network.Ending? ==> s.network.epoch <= s.epoch)
  }

  predicate DrainOk(s: State) {
    s.main.Draining? ==> s.main.epoch <= s.epoch && forall i | 0 <= i < |s.log| && s.log[i].Dispatched? :: s.log[i].epoch <= s.main.epoch
  }

  /** Every delivery is of a message that was received in an epoch no older than the ends dispatched before it, and an
      image is delivered only after its decoding. */
  predicate DeliveredOk(s: State) {
    forall k | 0 <= k < |s.log| && s.log[k].Delivered? ::
      && s.log[k].msg < |s.messages|
      && var m := s.messages[s.log[k].msg];
      && m.slot == s.log[k].slot && (s.log[k].isClear <==> m.payload == [])
      && (!s.log[k].isClear ==> Decoded(s.log[k].msg) in s.log[..k])
      && (forall d | 0 <= d < k && s.log[d].Dispatched? :: s.log[d].epoch <= m.epoch)
  }

  predicate Inv(s: State) {
    && Shaped(s) && BuffersOk(s) && QueueOk(s) && NetworkOk(s) && DecodeOk(s) && EntriesOk(s)
    && LogOk(s) && DrainOk(s) && DeliveredOk(s)
  }

  lemma InvNamed(s: State)
    requires Inv(s)
    ensures Named(s)
  {
  }

  // What a step leaves alone.

  /** No buffer is written, and what was received stays received. */
  predicate Quiet(s: State, t: State)
    requires Shaped(s)
  {
    && Shaped(t) && t.messages == s.messages && s.epoch <= t.epoch && s.log <= t.log
    && forall i | 0 <= i < SLOTS :: t.slots[i].buffers == s.slots[i].buffers
  }

  lemma QuietNotes(s: State, t: State, n: Notification)
    requires Shaped(s) && Quiet(s, t)
    ensures NoteOk(s, n) == NoteOk(t, n) && Sent(s, n) == Sent(t, n)
  {
  }

  lemma QuietEntries(s: State, t: State, i: nat, e: Entry)
    requires Shaped(s) && Quiet(s, t)
    ensures EntryOk(s, i, e) ==> EntryOk(t, i, e)
  {
  }

  /** A step that writes nothing to the log. */
  lemma QuietLog(s: State, t: State)
    requires Inv(s) && Quiet(s, t) && t.log == s.log && t.ring == s.ring && t.main == s.main
    requires t.network.Ending? ==> t.network.epoch <= t.epoch
    ensures LogOk(t) && DrainOk(t) && DeliveredOk(t)
  {
  }

  /** What such a step keeps of the invariant. */
  lemma QuietBuffers(s: State, t: State)
    requires Inv(s) && Quiet(s, t)
    ensures BuffersOk(t)
  {
  }

  lemma QuietQueue(s: State, t: State)
    requires Inv(s) && Quiet(s, t) && (t.queue == s.queue || (t.queue == s.queue + [Recheck]))
    requires forall i | 0 <= i < SLOTS :: t.slots[i].parked == s.slots[i].parked || t.slots[i].parked == None
    ensures QueueOk(t)
  {
    hide BuffersOk, NetworkOk, DecodeOk, EntriesOk, LogOk, DrainOk, DeliveredOk, NoteOk;
    forall k | 0 <= k < |t.queue| && t.queue[k].Note?
      ensures Sent(t, t.queue[k].n)
    {
      QuietNotes(s, t, s.queue[k].n);
    }
    forall i | 0 <= i < SLOTS && t.slots[i].parked.Some?
      ensures Sent(t, t.slots[i].parked.value)
    {
      QuietNotes(s, t, s.slots[i].parked.value);
    }
  }

  lemma QuietNetwork(s: State, t: State)
    requires Inv(s) && Quiet(s, t) && (!t.network.Staged? || (t.network == s.network && t.epoch == s.epoch))
    ensures NetworkOk(t)
  {
    hide BuffersOk, QueueOk, DecodeOk, EntriesOk, LogOk, DrainOk, DeliveredOk, NoteOk;
    if t.network.Staged? {
      QuietNotes(s, t, t.network.n);
    }
  }

  lemma QuietHolds(s: State, t: State)
    requires Inv(s) && Quiet(s, t)
    requires forall i <- t.display :: i in s.display && t.display[i] == s.display[i]
    requires forall i <- t.held :: (i in s.held && t.held[i] == s.held[i]) || (i in s.display && t.held[i] == s.display[i])
    ensures EntriesOk(t)
  {
    hide BuffersOk, QueueOk, NetworkOk, DecodeOk, LogOk, DrainOk, DeliveredOk;
  }

  lemma QuietDecode(s: State, t: State)
    requires Inv(s) && Quiet(s, t) && t.decode == s.decode
    requires forall i | 0 <= i < SLOTS :: t.slots[i].drainActive == s.slots[i].drainActive && t.slots[i].drainIdx == s.slots[i].drainIdx
    ensures DecodeOk(t)
  {
    hide BuffersOk, QueueOk, NetworkOk, EntriesOk, LogOk, DrainOk, DeliveredOk;
    if !s.decode.Waiting? {
      QuietNotes(s, t, s.decode.n);
    }
  }

  lemma Parts(s: State)
    requires Inv(s)
    ensures Shaped(s) && BuffersOk(s) && QueueOk(s) && NetworkOk(s) && DecodeOk(s) && EntriesOk(s) && LogOk(s) && DrainOk(s) && DeliveredOk(s)
  {
  }

  lemma Whole(s: State)
    requires Shaped(s) && BuffersOk(s) && QueueOk(s) && NetworkOk(s) && DecodeOk(s) && EntriesOk(s) && LogOk(s) && DrainOk(s) && DeliveredOk(s)
    ensures Inv(s)
  {
  }

  /** More of the log changes nothing for the deliveries before. */
  lemma DeliveredGrows(s: State, t: State)
    requires DeliveredOk(s) && s.messages <= t.messages && s.log <= t.log
    requires forall k | |s.log| <= k < |t.log| :: !t.log[k].Delivered?
    ensures DeliveredOk(t)
  {
    forall k | 0 <= k < |t.log| && t.log[k].Delivered?
      ensures t.log[k] == s.log[k] && t.log[..k] == s.log[..k]
    {
    }
  }

  // The steps of the network thread.

  lemma SendQueue(s: State, accepted: bool)
    requires Inv(s) && s.network.Staged?
    ensures QueueOk(DoSend(s, accepted))
  {
    hide BuffersOk, DecodeOk, EntriesOk, LogOk, DrainOk, DeliveredOk, NoteOk;
    var t := DoSend(s, accepted);
    QuietNotes(s, t, s.network.n.(epoch := s.epoch));
    Stamped(s, s.network.n);
    forall k | 0 <= k < |t.queue| && t.queue[k].Note?
      ensures Sent(t, t.queue[k].n)
    {
      QuietNotes(s, t, t.queue[k].n);
    }
    forall i | 0 <= i < SLOTS && t.slots[i].parked.Some?
      ensures Sent(t, t.slots[i].parked.value)
    {
      QuietNotes(s, t, s.slots[i].parked.value);
    }
  }

  lemma Stamped(s: State, n: Notification)
    requires Shaped(s) && NoteOk(s, n)
    ensures NoteOk(s, n.(epoch := s.epoch))
  {
  }

  /** The end of a stream is later than all that was received before. */
  lemma EndLog(s: State, accepted: bool)
    requires Inv(s) && s.network.Ending?
    ensures var t := DoNetworkStep(s, accepted); LogOk(t) && DrainOk(t) && DeliveredOk(t)
  {
    hide BuffersOk, QueueOk, DecodeOk, EntriesOk, DeliveredOk, Inv, NoteOk, NetworkOk, EndsLater;
    var t := DoNetworkStep(s, accepted);
    Parts(s);
    DeliveredGrows(s, t);
    EpochBefore(s);
    EndsAppend(s.log, s.messages, StreamOver(s.epoch + 1));
  }

  lemma EpochBefore(s: State)
    requires Inv(s)
    ensures forall i | 0 <= i < |s.log| && s.log[i].Received? :: s.log[i].msg < |s.messages| && s.messages[s.log[i].msg].epoch <= s.epoch
  {
  }

  lemma SendKeeps(s: State, accepted: bool)
    requires Inv(s) && s.network.Staged?
    ensures Inv(DoSend(s, accepted))
  {
    hide Inv, BuffersOk, QueueOk, NetworkOk, DecodeOk, EntriesOk, LogOk, DrainOk, DeliveredOk;
    Parts(s);
    var t := DoSend(s, accepted);
    QuietBuffers(s, t);
    QuietNetwork(s, t);
    QuietHolds(s, t);
    QuietDecode(s, t);
    SendQueue(s, accepted);
    QuietLog(s, t);
    Whole(t);
  }

  /** A change of the stream, one access after the other. */
  lemma LifecycleKeeps(s: State, accepted: bool)
    requires Inv(s) && (s.network.Starting? || s.network.Ending?)
    ensures Inv(DoNetworkStep(s, accepted))
  {
    hide Inv, BuffersOk, QueueOk, NetworkOk, DecodeOk, EntriesOk, LogOk, DrainOk, DeliveredOk, DoNetworkStep, LifecycleQuiet;
    Parts(s);
    var t := DoNetworkStep(s, accepted);
    LifecycleIsQuiet(s, accepted);
    LifecycleRest(s, t);
    if s.network.Ending? {
      EndLog(s, accepted);
    } else {
      QuietLog(s, t);
    }
    Whole(t);
  }

  /** What a change of the stream may touch. */
  predicate LifecycleQuiet(s: State, t: State)
    requires Shaped(s)
  {
    && Quiet(s, t) && !t.network.Staged? && t.queue == s.queue && t.decode == s.decode && t.held == s.held
    && (t.display == s.display || t.display == map[])
    && (forall i | 0 <= i < SLOTS :: t.slots[i].parked == s.slots[i].parked || t.slots[i].parked == None)
    && (forall i | 0 <= i < SLOTS :: t.slots[i].drainActive == s.slots[i].drainActive && t.slots[i].drainIdx == s.slots[i].drainIdx)
  }

  lemma LifecycleIsQuiet(s: State, accepted: bool)
    requires Shaped(s) && (s.network.Starting? || s.network.Ending?)
    ensures var t := DoNetworkStep(s, accepted);
      && LifecycleQuiet(s, t) && Quiet(s, t) && t.main == s.main
      && (s.network.Starting? ==> t.log == s.log && t.ring == s.ring && !t.network.Ending?)
  {
    hide ReopenedAll, Reopened;
    forall i | 0 <= i < SLOTS
      ensures ReopenedAll(s.slots)[i] == s.slots[i].(parked := None, ack := ReopenedAll(s.slots)[i].ack)
    {
      ReopenedKeeps(s.slots[i]);
    }
  }

  lemma ReopenedKeeps(sb: SlotBuffer)
    ensures Reopened(sb) == sb.(parked := None, ack := Reopened(sb).ack)
  {
  }

  /** A step after which no notification is in the network thread's hand. */
  lemma LifecycleRest(s: State, t: State)
    requires Inv(s) && LifecycleQuiet(s, t)
    ensures BuffersOk(t) && NetworkOk(t) && EntriesOk(t) && DecodeOk(t) && QueueOk(t)
  {
    hide Inv, BuffersOk, QueueOk, NetworkOk, DecodeOk, EntriesOk;
    QuietBuffers(s, t);
    QuietNetwork(s, t);
    QuietHolds(s, t);
    QuietDecode(s, t);
    QuietQueue(s, t);
  }

  lemma BeginKeeps(s: State, active: bool, network: Network)
    requires Inv(s) && s.network == NetIdle && (network == Starting(0) || network == Ending(0, 0))
    ensures Inv(s.(active := active, network := network))
  {
    hide Inv, BuffersOk, QueueOk, NetworkOk, DecodeOk, EntriesOk, LogOk, DrainOk, DeliveredOk;
    Parts(s);
    var t := s.(active := active, network := network);
    LifecycleRest(s, t);
    QuietLog(s, t);
    Whole(t);
  }

  // The write of a buffer.

  /** A write leaves the claimed buffer alone, and makes the notifications of the buffer it takes stale. */
  lemma ReceiveNotes(s: State, t: State, slot: nat, payload: seq<Byte>, timestamp: int, format: nat, n: Notification)
    requires Shaped(s) && slot < SLOTS && t == DoReceive(s, slot, payload, timestamp, format)
    ensures NoteOk(s, n) ==> NoteOk(t, n)
    ensures Sent(s, n) ==> Sent(t, n)
  {
  }

  lemma ReceiveBuffers(s: State, slot: nat, payload: seq<Byte>, timestamp: int, format: nat)
    requires Inv(s) && slot < SLOTS
    ensures BuffersOk(DoReceive(s, slot, payload, timestamp, format))
  {
    hide QueueOk, NetworkOk, DecodeOk, EntriesOk, LogOk, DrainOk, DeliveredOk, NoteOk;
  }

  lemma ReceiveQueue(s: State, slot: nat, payload: seq<Byte>, timestamp: int, format: nat)
    requires Inv(s) && slot < SLOTS
    ensures QueueOk(DoReceive(s, slot, payload, timestamp, format))
  {
    hide BuffersOk, NetworkOk, DecodeOk, EntriesOk, LogOk, DrainOk, DeliveredOk, NoteOk;
    var t := DoReceive(s, slot, payload, timestamp, format);
    forall k | 0 <= k < |t.queue| && t.queue[k].Note?
      ensures Sent(t, t.queue[k].n)
    {
      ReceiveNotes(s, t, slot, payload, timestamp, format, s.queue[k].n);
    }
    forall i | 0 <= i < SLOTS && t.slots[i].parked.Some?
      ensures Sent(t, t.slots[i].parked.value)
    {
      ReceiveNotes(s, t, slot, payload, timestamp, format, s.slots[i].parked.value);
    }
  }

  lemma ReceiveNetwork(s: State, slot: nat, payload: seq<Byte>, timestamp: int, format: nat)
    requires Inv(s) && slot < SLOTS
    ensures NetworkOk(DoReceive(s, slot, payload, timestamp, format))
  {
    hide BuffersOk, QueueOk, DecodeOk, EntriesOk, LogOk, DrainOk, DeliveredOk;
  }

  /** The writer keeps off the buffer that is being decoded. */
  lemma ReceiveDecode(s: State, slot: nat, payload: seq<Byte>, timestamp: int, format: nat)
    requires Inv(s) && slot < SLOTS
    ensures DecodeOk(DoReceive(s, slot, payload, timestamp, format))
  {
    hide BuffersOk, QueueOk, NetworkOk, EntriesOk, LogOk, DrainOk, DeliveredOk, NoteOk;
    var t := DoReceive(s, slot, payload, timestamp, format);
    if !s.decode.Waiting? {
      ReceiveNotes(s, t, slot, payload, timestamp, format, s.decode.n);
    }
  }

  lemma ReceiveHolds(s: State, slot: nat, payload: seq<Byte>, timestamp: int, format: nat)
    requires Inv(s) && slot < SLOTS
    ensures EntriesOk(DoReceive(s, slot, payload, timestamp, format))
  {
    hide BuffersOk, QueueOk, NetworkOk, DecodeOk, LogOk, DrainOk, DeliveredOk, NoteOk;
  }

  lemma ReceiveLog(s: State, slot: nat, payload: seq<Byte>, timestamp: int, format: nat)
    requires Inv(s) && slot < SLOTS && s.network == NetIdle
    ensures var t := DoReceive(s, slot, payload, timestamp, format); LogOk(t) && DrainOk(t) && DeliveredOk(t)
  {
    hide BuffersOk, QueueOk, NetworkOk, DecodeOk, EntriesOk, NoteOk, DeliveredOk, EndsLater, Inv;
    Parts(s);
    DeliveredGrows(s, DoReceive(s, slot, payload, timestamp, format));
    EndsReceive(s.log, s.messages, Message(slot, payload, timestamp, format, s.epoch));
    EndsAppend(s.log, s.messages + [Message(slot, payload, timestamp, format, s.epoch)], Received(|s.messages|));
  }

  lemma ReceiveKeeps(s: State, slot: nat, payload: seq<Byte>, timestamp: int, format: nat)
    requires Inv(s) && slot < SLOTS && s.network == NetIdle
    ensures Inv(DoReceive(s, slot, payload, timestamp, format))
  {
    hide Inv, BuffersOk, QueueOk, NetworkOk, DecodeOk, EntriesOk, LogOk, DrainOk, DeliveredOk, DoReceive;
    ReceiveBuffers(s, slot, payload, timestamp, format);
    ReceiveQueue(s, slot, payload, timestamp, format);
    ReceiveNetwork(s, slot, payload, timestamp, format);
    ReceiveDecode(s, slot, payload, timestamp, format);
    ReceiveHolds(s, slot, payload, timestamp, format);
    ReceiveLog(s, slot, payload, timestamp, format);
    ReceiveShaped(s, slot, payload, timestamp, format);
    Whole(DoReceive(s, slot, payload, timestamp, format));
  }

  lemma ReceiveShaped(s: State, slot: nat, payload: seq<Byte>, timestamp: int, format: nat)
    requires Inv(s) && slot < SLOTS
    ensures Shaped(s) && Shaped(DoReceive(s, slot, payload, timestamp, format))
  {
    hide BuffersOk, QueueOk, NetworkOk, DecodeOk, EntriesOk, LogOk, DrainOk, DeliveredOk;
  }

  // The steps of the decode thread.

  /** A step of the decode thread that leaves buffers, entries and log alone. */
  lemma DecodeRest(s: State, t: State)
    requires Inv(s) && Quiet(s, t) && t.network == s.network && t.epoch == s.epoch && t.display == s.display && t.held == s.held
    requires t.log == s.log && t.ring == s.ring && t.main == s.main
    ensures BuffersOk(t) && NetworkOk(t) && EntriesOk(t) && LogOk(t) && DrainOk(t) && DeliveredOk(t)
  {
    hide Inv, BuffersOk, QueueOk, NetworkOk, DecodeOk, EntriesOk, LogOk, DrainOk, DeliveredOk;
    QuietBuffers(s, t);
    QuietNetwork(s, t);
    QuietHolds(s, t);
    EndingEpoch(s);
    QuietLog(s, t);
  }

  lemma EndingEpoch(s: State)
    requires Inv(s)
    ensures s.network.Ending? ==> s.network.epoch <= s.epoch
  {
  }

  lemma DequeueKeeps(c: Config, s: State)
    requires Inv(s) && Named(s) && Enabled(s, Dequeue)
    ensures Inv(Next(c, s, Dequeue))
  {
    hide BuffersOk, NetworkOk, EntriesOk, LogOk, DrainOk, DeliveredOk;
    DecodeRest(s, Next(c, s, Dequeue));
  }

  lemma ReplayKeeps(c: Config, s: State, slot: nat)
    requires Inv(s) && Named(s) && Enabled(s, Replay(slot))
    ensures Inv(Next(c, s, Replay(slot)))
  {
    hide BuffersOk, NetworkOk, EntriesOk, LogOk, DrainOk, DeliveredOk;
    DecodeRest(s, Next(c, s, Replay(slot)));
  }

  /** A claim: the buffer is marked, and holds the message of the notification. */
  lemma ProcessDecode(c: Config, s: State)
    requires Shaped(s) && Named(s) && s.decode.Claiming? && DecodeOk(s)
    ensures DecodeOk(DoProcess(c, s))
  {
  }

  lemma ProcessQuiet(c: Config, s: State)
    requires Shaped(s) && Named(s) && s.decode.Claiming?
    ensures var t := DoProcess(c, s);
      && Quiet(s, t) && t.network == s.network && t.epoch == s.epoch && t.display == s.display && t.held == s.held
      && t.log == s.log && t.ring == s.ring && t.main == s.main && t.queue == s.queue
    ensures var t := DoProcess(c, s);
      forall i | 0 <= i < SLOTS :: t.slots[i].parked == s.slots[i].parked || t.slots[i].parked == Some(s.decode.n)
  {
    hide Judged, Judge;
    JudgedKeeps(s.slots[s.decode.n.slot], s.decode.n, s.epoch, s.decode.n.slot in c.ackSlots);
  }

  lemma JudgedKeeps(sb: SlotBuffer, n: Notification, epoch: nat, ackOn: bool)
    requires |sb.buffers| == 2 && (n.length > 0 ==> n.bufferIdx < 2)
    ensures var t := Judged(sb, n, epoch, ackOn);
      t.buffers == sb.buffers && t.writeIdx == sb.writeIdx && (t.parked == sb.parked || t.parked == Some(n))
  {
  }

  lemma ProcessQueue(c: Config, s: State)
    requires Shaped(s) && Named(s) && s.decode.Claiming? && QueueOk(s) && Sent(s, s.decode.n)
    ensures QueueOk(DoProcess(c, s))
  {
    hide NoteOk, DoProcess;
    ProcessQuiet(c, s);
    var t := DoProcess(c, s);
    QuietNotes(s, t, s.decode.n);
    forall k | 0 <= k < |t.queue| && t.queue[k].Note?
      ensures Sent(t, t.queue[k].n)
    {
      QuietNotes(s, t, s.queue[k].n);
    }
    forall i | 0 <= i < SLOTS && t.slots[i].parked.Some?
      ensures Sent(t, t.slots[i].parked.value)
    {
      QuietNotes(s, t, t.slots[i].parked.value);
    }
  }

  lemma InHand(s: State)
    requires Shaped(s) && DecodeOk(s) && s.decode.Claiming?
    ensures Sent(s, s.decode.n)
  {
  }

  lemma ProcessKeeps(c: Config, s: State)
    requires Inv(s) && Named(s) && s.decode.Claiming?
    ensures Inv(DoProcess(c, s))
  {
    hide Inv, BuffersOk, QueueOk, NetworkOk, DecodeOk, EntriesOk, LogOk, DrainOk, DeliveredOk, DoProcess;
    Parts(s);
    InHand(s);
    ProcessDecode(c, s);
    ProcessQueue(c, s);
    ProcessQuiet(c, s);
    DecodeRest(s, DoProcess(c, s));
    Whole(DoProcess(c, s));
  }

  lemma DoneKeeps(c: Config, s: State)
    requires Inv(s) && Named(s) && Enabled(s, DecodeDone)
    ensures Inv(Next(c, s, DecodeDone))
  {
    hide BuffersOk, NetworkOk, EntriesOk, LogOk, DrainOk, DeliveredOk;
    var t := Next(c, s, DecodeDone);
    QuietBuffers(s, t);
    QuietNetwork(s, t);
    QuietHolds(s, t);
    DoneLog(s, t);
  }

  lemma DoneLog(s: State, t: State)
    requires Inv(s) && Quiet(s, t) && t.ring == s.ring && t.main == s.main && t.network == s.network && t.epoch == s.epoch
    requires exists m :: t.log == s.log + [Decoded(m)]
    ensures LogOk(t) && DrainOk(t) && DeliveredOk(t)
  {
    hide BuffersOk, QueueOk, NetworkOk, DecodeOk, EntriesOk, DeliveredOk, Inv, EndsLater;
    Parts(s);
    DeliveredGrows(s, t);
    var m :| t.log == s.log + [Decoded(m)];
    EndsAppend(s.log, s.messages, Decoded(m));
  }

  lemma CheckKeeps(s: State)
    requires Inv(s) && s.decode.HandingOff?
    ensures Inv(s.(decode := if s.active then Merging(s.decode.n) else Waiting))
  {
    hide BuffersOk, NetworkOk, LogOk, DrainOk, DeliveredOk, QueueOk, EntriesOk;
    var t := s.(decode := if s.active then Merging(s.decode.n) else Waiting);
    DecodeRest(s, t);
    QuietQueue(s, t);
  }

  lemma MergeKeeps(s: State)
    requires Inv(s) && s.decode.Merging?
    ensures Inv(s.(display := s.display + map[s.decode.n.slot := EntryOf(s.decode.n)], decode := Waiting))
  {
    hide BuffersOk, NetworkOk, LogOk, DrainOk, DeliveredOk, QueueOk;
    var t := s.(display := s.display + map[s.decode.n.slot := EntryOf(s.decode.n)], decode := Waiting);
    QuietBuffers(s, t);
    QuietNetwork(s, t);
    QuietQueue(s, t);
    EndingEpoch(s);
    QuietLog(s, t);
  }

  // The steps of the main thread.

  /** What a step of the main thread may change. */
  predicate MainQuiet(s: State, t: State)
    requires Shaped(s)
  {
    && Quiet(s, t) && t.network == s.network && t.epoch == s.epoch && t.decode == s.decode
    && (t.queue == s.queue || t.queue == s.queue + [Recheck])
    && (forall i <- t.display :: i in s.display && t.display[i] == s.display[i])
    && (forall i <- t.held :: (i in s.held && t.held[i] == s.held[i]) || (i in s.display && t.held[i] == s.display[i]))
    && (forall i | 0 <= i < SLOTS :: t.slots[i].parked == s.slots[i].parked || t.slots[i].parked == None)
    && (forall i | 0 <= i < SLOTS :: t.slots[i].drainActive == s.slots[i].drainActive && t.slots[i].drainIdx == s.slots[i].drainIdx)
  }

  /** A step of the main thread, apart from what it writes to the log. */
  lemma MainRest(s: State, t: State)
    requires Inv(s) && MainQuiet(s, t)
    ensures BuffersOk(t) && NetworkOk(t) && EntriesOk(t) && DecodeOk(t) && QueueOk(t)
  {
    hide Inv, BuffersOk, QueueOk, NetworkOk, DecodeOk, EntriesOk;
    QuietBuffers(s, t);
    QuietNetwork(s, t);
    QuietHolds(s, t);
    QuietDecode(s, t);
    QuietQueue(s, t);
  }

  lemma DispatchKeeps(c: Config, s: State)
    requires Inv(s) && Named(s) && Enabled(s, DispatchEnd)
    ensures Inv(Next(c, s, DispatchEnd))
  {
    hide Inv, BuffersOk, QueueOk, NetworkOk, DecodeOk, EntriesOk, LogOk, DrainOk, DeliveredOk;
    Parts(s);
    var t := Next(c, s, DispatchEnd);
    MainRest(s, t);
    DispatchLog(s, t);
    Whole(t);
  }

  lemma DispatchLog(s: State, t: State)
    requires Inv(s) && Quiet(s, t) && t.network == s.network && t.epoch == s.epoch && s.ring != []
    requires t.log == s.log + [Dispatched(s.ring[0])] && t.ring == s.ring[1..] && t.main == Clearing(0)
    ensures LogOk(t) && DrainOk(t) && DeliveredOk(t)
  {
    hide BuffersOk, QueueOk, NetworkOk, DecodeOk, EntriesOk, DeliveredOk, Inv, EndsLater;
    Parts(s);
    DeliveredGrows(s, t);
    EndsAppend(s.log, s.messages, Dispatched(s.ring[0]));
  }

  /** Steps that only go on: the clearing of an end, the epoch at which the deadlines are looked at. */
  lemma MainKeeps(c: Config, s: State)
    requires Inv(s) && (s.main.Clearing? || s.main.Taken?)
    ensures Inv(DoMainStep(c, s))
  {
    hide Inv, BuffersOk, QueueOk, NetworkOk, DecodeOk, EntriesOk, LogOk, DrainOk, DeliveredOk, MainQuiet, DoMainStep;
    Parts(s);
    var t := DoMainStep(c, s);
    MainStepQuiet(c, s);
    MainRest(s, t);
    StillLog(s, t);
    Whole(t);
  }

  lemma MainStepQuiet(c: Config, s: State)
    requires Shaped(s) && (s.main.Clearing? || s.main.Taken?)
    ensures var t := DoMainStep(c, s);
      MainQuiet(s, t) && Quiet(s, t) && t.network == s.network && t.epoch == s.epoch && t.log == s.log && t.ring == s.ring
      && (t.main.Draining? ==> t.main.epoch == s.epoch)
  {
    hide ClearedAll, Cleared;
    forall i | 0 <= i < SLOTS
      ensures ClearedAll(c, s.slots)[i] == s.slots[i].(parked := None, ack := ClearedAll(c, s.slots)[i].ack)
    {
      ClearedKeeps(s.slots[i], i in c.ackSlots);
    }
  }

  lemma ClearedKeeps(sb: SlotBuffer, ackOn: bool)
    ensures Cleared(sb, ackOn) == sb.(parked := None, ack := Cleared(sb, ackOn).ack)
  {
  }

  lemma StillLog(s: State, t: State)
    requires Inv(s) && Quiet(s, t) && t.network == s.network && t.epoch == s.epoch && t.log == s.log && t.ring == s.ring
    requires t.main.Draining? ==> t.main.epoch == s.epoch || (s.main.Draining? && t.main.epoch == s.main.epoch)
    ensures LogOk(t) && DrainOk(t) && DeliveredOk(t)
  {
    hide BuffersOk, QueueOk, NetworkOk, DecodeOk, EntriesOk;
  }

  lemma DrainKeeps(c: Config, s: State)
    requires Inv(s) && Named(s) && Enabled(s, DrainEvents)
    ensures Inv(Next(c, s, DrainEvents))
  {
    hide Inv, BuffersOk, QueueOk, NetworkOk, DecodeOk, EntriesOk, LogOk, DrainOk, DeliveredOk;
    Parts(s);
    var t := Next(c, s, DrainEvents);
    MainRest(s, t);
    StillLog(s, t);
    Whole(t);
  }

  lemma FrameDoneKeeps(s: State, slot: nat, wake: bool)
    requires Inv(s) && slot < |s.slots|
    ensures Inv(DoFrameDone(s, slot, wake))
  {
    hide DoFrameDone, MainQuiet, Quiet, Inv, BuffersOk, QueueOk, NetworkOk, DecodeOk, EntriesOk, LogOk, DrainOk, DeliveredOk;
    Parts(s);
    var t := DoFrameDone(s, slot, wake);
    FrameDoneQuiet(s, slot, wake);
    MainRest(s, t);
    StillLog(s, t);
    Whole(t);
  }

  lemma FrameDoneQuiet(s: State, slot: nat, wake: bool)
    requires Shaped(s) && slot < |s.slots|
    ensures var t := DoFrameDone(s, slot, wake);
      MainQuiet(s, t) && Quiet(s, t) && t.log == s.log && t.ring == s.ring && t.main == s.main
  {
  }

  /** What one slot of the deadline loop does, apart from a delivery. */
  lemma SlotRest(c: Config, s: State, due: bool, wake: bool)
    requires Inv(s) && s.main.Draining?
    ensures Shaped(s) && var t := DoSlotStep(c, s, due, wake);
      Quiet(s, t) && BuffersOk(t) && NetworkOk(t) && EntriesOk(t) && DecodeOk(t) && QueueOk(t)
  {
    hide Inv, BuffersOk, QueueOk, NetworkOk, DecodeOk, EntriesOk, MainQuiet, DoSlotStep;
    Parts(s);
    SlotStepQuiet(c, s, due, wake);
    MainRest(s, DoSlotStep(c, s, due, wake));
  }

  lemma SlotStepQuiet(c: Config, s: State, due: bool, wake: bool)
    requires Shaped(s) && s.main.Draining?
    ensures var t := DoSlotStep(c, s, due, wake); MainQuiet(s, t) && Quiet(s, t)
  {
    hide Gate, Due;
    if s.main.slot < SLOTS {
      GateKeeps(s.slots[s.main.slot], Due(s.held, s.main.slot, s.main.epoch, due), s.main.slot in c.ackSlots);
    }
  }

  lemma GateKeeps(sb: SlotBuffer, v: Verdict, ackOn: bool)
    ensures Gate(sb, v, ackOn) == sb.(ack := Gate(sb, v, ackOn).ack)
  {
  }

  lemma SlotKeeps(c: Config, s: State, due: bool, wake: bool)
    requires Inv(s) && s.main.Draining?
    ensures Shaped(s) && Inv(DoSlotStep(c, s, due, wake))
  {
    hide Inv, BuffersOk, QueueOk, NetworkOk, DecodeOk, EntriesOk, LogOk, DrainOk, DeliveredOk;
    Parts(s);
    SlotRest(c, s, due, wake);
    var t := DoSlotStep(c, s, due, wake);
    if t.log == s.log {
      StillLog(s, t);
    } else {
      FiredLog(s, t, s.main.slot);
    }
    Whole(t);
  }

  /** A delivery: its epoch is the one that the loop has read, so it is no older than any end dispatched before. */
  lemma FiredLog(s: State, t: State, i: nat)
    requires Inv(s) && Quiet(s, t) && t.network == s.network && t.epoch == s.epoch && t.ring == s.ring
    requires s.main.Draining? && t.main.Draining? && t.main.epoch == s.main.epoch && i in s.held && s.held[i].epoch == s.main.epoch
    requires t.log == s.log + [Delivered(i, s.held[i].isClear, s.held[i].msg)]
    ensures LogOk(t) && DrainOk(t) && DeliveredOk(t)
  {
    hide Inv, BuffersOk, QueueOk, NetworkOk, DecodeOk, EntriesOk, DeliveredOk, Quiet, EntryOk, EndsLater;
    Parts(s);
    HeldEntry(s, i);
    EndsAppend(s.log, s.messages, Delivered(i, s.held[i].isClear, s.held[i].msg));
    QuietFacts(s, t);
    FiredLast(s, t, i);
  }

  lemma QuietFacts(s: State, t: State)
    requires Shaped(s) && Quiet(s, t)
    ensures t.messages == s.messages && s.epoch <= t.epoch
  {
  }

  lemma HeldEntry(s: State, i: nat)
    requires EntriesOk(s) && i in s.held
    ensures EntryOk(s, i, s.held[i])
  {
  }

  lemma FiredLast(s: State, t: State, i: nat)
    requires DeliveredOk(s) && DrainOk(s) && t.messages == s.messages
    requires s.main.Draining? && i in s.held && s.held[i].epoch == s.main.epoch && EntryOk(s, i, s.held[i])
    requires t.log == s.log + [Delivered(i, s.held[i].isClear, s.held[i].msg)]
    ensures DeliveredOk(t)
  {
    forall k | 0 <= k < |t.log| && t.log[k].Delivered?
      ensures t.log[..k] == s.log[..k]
    {
    }
    assert s.log[..|s.log|] == s.log;
  }

  // Runs.

  lemma StepKeeps(c: Config, s: State, a: Action)
    requires Inv(s) && Shaped(s) && Named(s) && Enabled(s, a)
    ensures Inv(Next(c, s, a))
  {
    hide Inv, Shaped, Named, DoReceive, DoSend, DoNetworkStep, DoProcess, DoMainStep, DoSlotStep, DoFrameDone;
    match a {
      case Receive(slot, payload, timestamp, format) => ReceiveKeeps(s, slot, payload, timestamp, format);
      case Send(accepted) => SendKeeps(s, accepted);
      case StreamStart => BeginKeeps(s, true, Starting(0));
      case StreamEnd => BeginKeeps(s, false, Ending(0, 0));
      case NetworkStep(accepted) => LifecycleKeeps(s, accepted);
      case Dequeue => DequeueKeeps(c, s);
      case Replay(slot) => ReplayKeeps(c, s, slot);
      case Process => ProcessKeeps(c, s);
      case DecodeDone => DoneKeeps(c, s);
      case CheckActive => CheckKeeps(s);
      case Merge => MergeKeeps(s);
      case DispatchEnd => DispatchKeeps(c, s);
      case MainStep => MainKeeps(c, s);
      case DrainEvents => DrainKeeps(c, s);
      case SlotStep(due, wake) => SlotKeeps(c, s, due, wake);
      case FrameDone(slot, wake) => FrameDoneKeeps(s, slot, wake);
    }
  }

  const EMPTY := SlotBuffer([Buffer([], 0, 0), Buffer([], 0, 0)], 0, false, 0, Idle, None)

  const START := State(false, 0, [EMPTY, EMPTY, EMPTY, EMPTY], [], map[], map[], [], NetIdle, Waiting, MainIdle, [], [])

  /** Any interleaving: the threads take these steps in this order; one that cannot be taken is passed over. */
  function Play(c: Config, s: State, actions: seq<Action>): State
    decreases |actions|
  {
    if actions == [] then s
    else if Shaped(s) && Named(s) && Enabled(s, actions[0]) then Play(c, Next(c, s, actions[0]), actions[1..])
    else Play(c, s, actions[1..])
  }

  lemma {:induction false} PlayKeeps(c: Config, s: State, actions: seq<Action>)
    requires Inv(s)
    ensures Inv(Play(c, s, actions))
    decreases |actions|
  {
    hide Inv, Next, Shaped, Named, Enabled;
    if actions != [] {
      if Shaped(s) && Named(s) && Enabled(s, actions[0]) {
        StepKeeps(c, s, actions[0]);
        PlayKeeps(c, Next(c, s, actions[0]), actions[1..]);
      } else {
        PlayKeeps(c, s, actions[1..]);
      }
    }
  }

  lemma StartInv()
    ensures Inv(START)
  {
  }

  /** The bytes that on_image_decode is given: the data pointer is into the buffer, not into a copy. */
  function Shown(s: State): seq<Byte>
    requires Shaped(s) && s.decode.Decoding? && s.decode.n.slot < SLOTS && s.decode.n.bufferIdx < 2
    requires s.decode.n.length <= |s.slots[s.decode.n.slot].buffers[s.decode.n.bufferIdx].bytes|
  {
    s.slots[s.decode.n.slot].buffers[s.decode.n.bufferIdx].bytes[..s.decode.n.length]
  }

  /** They are the whole payload of one message, and nothing else. */
  predicate ShowsOne(s: State) {
    s.decode.Decoding? ==>
      && Shaped(s)
      && var n := s.decode.n;
      && n.slot < SLOTS && n.bufferIdx < 2 && n.length <= |s.slots[n.slot].buffers[n.bufferIdx].bytes|
      && n.msg < |s.messages| && Shown(s) == s.messages[n.msg].payload
      && s.messages[n.msg].slot == n.slot && s.messages[n.msg].format == n.format
  }

  lemma InvShows(s: State)
    requires Inv(s)
    ensures ShowsOne(s)
  {
    hide QueueOk, NetworkOk, EntriesOk, LogOk, DrainOk, DeliveredOk;
    if s.decode.Decoding? {
      var n := s.decode.n;
      var b := s.slots[n.slot].buffers[n.bufferIdx];
      assert BufferOk(s, b);
      assert b.bytes[..n.length] == s.messages[n.msg].payload;
    }
  }

  /** In every interleaving the callback sees, from beginning to end, the payload of a single message. */
  lemma DecodesOneMessage(c: Config, actions: seq<Action>)
    ensures ShowsOne(Play(c, START, actions))
  {
    hide Inv, Play, ShowsOne;
    StartInv();
    PlayKeeps(c, START, actions);
    InvShows(Play(c, START, actions));
  }

  /** While the callback runs, no step of any thread changes the bytes it looks at. */
  lemma Undisturbed(c: Config, actions: seq<Action>, a: Action)
    ensures var s := Play(c, START, actions);
      Shaped(s) && Named(s) && Enabled(s, a) && s.decode.Decoding? && a != DecodeDone ==>
        var t := Next(c, s, a);
        ShowsOne(s) && ShowsOne(t) && t.decode == s.decode && Shown(t) == Shown(s)
  {
    hide Inv, Play, Shown, Next;
    var s := Play(c, START, actions);
    StartInv();
    PlayKeeps(c, START, actions);
    InvShows(s);
    if Shaped(s) && Named(s) && Enabled(s, a) && s.decode.Decoding? && a != DecodeDone {
      StepKeeps(c, s, a);
      InvShows(Next(c, s, a));
      StillDecoding(c, s, a);
    }
  }

  lemma StillDecoding(c: Config, s: State, a: Action)
    requires Shaped(s) && Named(s) && Enabled(s, a) && s.decode.Decoding? && a != DecodeDone
    ensures Next(c, s, a).decode == s.decode && s.messages <= Next(c, s, a).messages
  {
    hide DoReceive, DoSend, DoNetworkStep, DoMainStep, DoSlotStep, DoFrameDone, DoProcess;
    match a {
      case Receive(slot, payload, timestamp, format) => ReceiveApart(s, slot, payload, timestamp, format);
      case Send(accepted) => SendApart(s, accepted);
      case NetworkStep(accepted) => NetworkApart(s, accepted);
      case MainStep => MainApart(c, s);
      case SlotStep(due, wake) => SlotApart(c, s, due, wake);
      case FrameDone(slot, wake) => FrameApart(s, slot, wake);
      case _ =>
    }
  }

  // The other threads do not touch what the decode thread is at.

  lemma ReceiveApart(s: State, slot: nat, payload: seq<Byte>, timestamp: int, format: nat)
    requires Shaped(s) && slot < SLOTS
    ensures var t := DoReceive(s, slot, payload, timestamp, format); t.decode == s.decode && s.messages <= t.messages
  {
    hide WriteIndex, Stage;
  }

  lemma SendApart(s: State, accepted: bool)
    requires s.network.Staged?
    ensures var t := DoSend(s, accepted); t.decode == s.decode && t.messages == s.messages
  {
  }

  lemma NetworkApart(s: State, accepted: bool)
    requires s.network.Starting? || s.network.Ending?
    ensures var t := DoNetworkStep(s, accepted); t.decode == s.decode && t.messages == s.messages
  {
    hide ReopenedAll;
  }

  lemma MainApart(c: Config, s: State)
    requires s.main.Clearing? || s.main.Taken?
    ensures var t := DoMainStep(c, s); t.decode == s.decode && t.messages == s.messages
  {
    hide ClearedAll;
  }

  lemma SlotApart(c: Config, s: State, due: bool, wake: bool)
    requires Shaped(s) && s.main.Draining?
    ensures var t := DoSlotStep(c, s, due, wake); t.decode == s.decode && t.messages == s.messages
  {
    hide Gate, Due, Wake;
  }

  lemma FrameApart(s: State, slot: nat, wake: bool)
    requires slot < |s.slots|
    ensures var t := DoFrameDone(s, slot, wake); t.decode == s.decode && t.messages == s.messages
  {
    hide Wake;
  }

  /** Once the end of a stream has been dispatched, nothing is delivered that was received before that end: not an image,
      nor a clear, whatever the decode thread merges late. Here k is the place of a delivery in the log, d of the
      dispatch before it, e of that end itself, and r of the message's reception. */
  lemma NothingFromBeforeTheEnd(c: Config, actions: seq<Action>, r: nat, e: nat, d: nat, k: nat)
    requires var log := Play(c, START, actions).log;
      && d < k < |log| && e < |log| && r < |log|
      && log[k].Delivered? && log[d].Dispatched? && log[e] == StreamOver(log[d].epoch) && log[r] == Received(log[k].msg)
    ensures e < r
  {
    hide Play;
    StartInv();
    PlayKeeps(c, START, actions);
    Ordered(Play(c, START, actions), r, e, d, k);
  }

  lemma Ordered(s: State, r: nat, e: nat, d: nat, k: nat)
    requires Inv(s) && d < k < |s.log| && e < |s.log| && r < |s.log|
    requires s.log[k].Delivered? && s.log[d].Dispatched? && s.log[e] == StreamOver(s.log[d].epoch) && s.log[r] == Received(s.log[k].msg)
    ensures e < r
  {
    hide BuffersOk, QueueOk, NetworkOk, DecodeOk, EntriesOk, DrainOk;
    assert s.log[d].epoch <= s.messages[s.log[k].msg].epoch;
  }

  /** An image is displayed on the slot that it was sent for, and only after its decoding has ended; a clear is a clear. */
  lemma DisplayedWasDecoded(c: Config, actions: seq<Action>, k: nat)
    requires k < |Play(c, START, actions).log| && Play(c, START, actions).log[k].Delivered?
    ensures var s := Play(c, START, actions);
      && s.log[k].msg < |s.messages| && s.messages[s.log[k].msg].slot == s.log[k].slot
      && (s.log[k].isClear <==> s.messages[s.log[k].msg].payload == [])
      && (!s.log[k].isClear ==> Decoded(s.log[k].msg) in s.log[..k])
  {
    hide Play;
    StartInv();
    PlayKeeps(c, START, actions);
    DeliveredFacts(Play(c, START, actions));
  }

  lemma DeliveredFacts(s: State)
    requires Inv(s)
    ensures DeliveredOk(s)
  {
  }

  /** Whatever is spoken of in the log is in the log: the reception of each message, the end that is dispatched. */
  predicate Recorded(s: State) {
    && (forall m | 0 <= m < |s.messages| :: Received(m) in s.log)
    && (forall x <- s.ring :: StreamOver(x) in s.log)
    && (s.network.Ending? && s.network.phase > 0 ==> StreamOver(s.network.epoch) in s.log)
    && (forall i | 0 <= i < |s.log| && s.log[i].Dispatched? :: StreamOver(s.log[i].epoch) in s.log[..i])
  }

  lemma {:induction false} RecordedGrows(s: State, t: State)
    requires Recorded(s) && s.log <= t.log
    requires forall i | |s.log| <= i < |t.log| && t.log[i].Dispatched? :: StreamOver(t.log[i].epoch) in s.log
    ensures forall i | 0 <= i < |t.log| && t.log[i].Dispatched? :: StreamOver(t.log[i].epoch) in t.log[..i]
  {
    forall i | 0 <= i < |t.log| && t.log[i].Dispatched?
      ensures StreamOver(t.log[i].epoch) in t.log[..i]
    {
      if i < |s.log| {
        assert t.log[..i] == s.log[..i];
      } else {
        assert s.log <= t.log[..i];
      }
    }
  }

  /** A step that receives nothing, and neither ends a stream nor dispatches an end. */
  lemma RecordsKeep(s: State, t: State)
    requires Recorded(s) && s.log <= t.log && t.messages == s.messages && t.ring == s.ring
    requires forall i | |s.log| <= i < |t.log| :: !t.log[i].Dispatched?
    requires t.network == s.network || !t.network.Ending? || t.network.phase == 0
    ensures Recorded(t)
  {
    RecordedGrows(s, t);
  }

  lemma ReceiveRecords(s: State, slot: nat, payload: seq<Byte>, timestamp: int, format: nat)
    requires Shaped(s) && Recorded(s) && slot < SLOTS
    ensures Recorded(DoReceive(s, slot, payload, timestamp, format))
  {
    hide WriteIndex, Stage;
    RecordedGrows(s, DoReceive(s, slot, payload, timestamp, format));
  }

  lemma LifecycleRecords(s: State, accepted: bool)
    requires Recorded(s) && (s.network.Starting? || s.network.Ending?)
    ensures Recorded(DoNetworkStep(s, accepted))
  {
    hide Reopened;
    RecordedGrows(s, DoNetworkStep(s, accepted));
  }

  lemma DispatchRecords(s: State)
    requires Recorded(s) && s.ring != []
    ensures Recorded(Logged(s.(held := map[], ring := s.ring[1..], main := Clearing(0)), Dispatched(s.ring[0])))
  {
    RecordedGrows(s, Logged(s, Dispatched(s.ring[0])));
  }

  lemma DecodeRecords(c: Config, s: State, a: Action)
    requires Shaped(s) && Named(s) && Enabled(s, a) && Recorded(s)
    requires a.Dequeue? || a.Replay? || a.Process? || a.DecodeDone? || a.CheckActive? || a.Merge?
    ensures Recorded(Next(c, s, a))
  {
    hide Judged, Judge, Recorded;
    RecordsKeep(s, Next(c, s, a));
  }

  lemma MainRecords(c: Config, s: State, a: Action)
    requires Shaped(s) && Named(s) && Enabled(s, a) && Recorded(s)
    requires a.MainStep? || a.DrainEvents? || a.SlotStep? || a.FrameDone? || a.Send? || a.StreamStart? || a.StreamEnd?
    ensures Recorded(Next(c, s, a))
  {
    hide Cleared, Gate, Due, Wake, Recorded;
    RecordsKeep(s, Next(c, s, a));
  }

  lemma StepRecords(c: Config, s: State, a: Action)
    requires Shaped(s) && Named(s) && Enabled(s, a) && Recorded(s)
    ensures Recorded(Next(c, s, a))
  {
    hide Recorded, Shaped, Named, DoReceive, DoSend, DoNetworkStep, DoProcess, DoMainStep, DoSlotStep, DoFrameDone;
    if a.Receive? {
      ReceiveRecords(s, a.slot, a.payload, a.timestamp, a.format);
    } else if a.NetworkStep? {
      LifecycleRecords(s, a.accepted);
    } else if a.DispatchEnd? {
      DispatchRecords(s);
    } else if a.Dequeue? || a.Replay? || a.Process? || a.DecodeDone? || a.CheckActive? || a.Merge? {
      DecodeRecords(c, s, a);
    } else {
      MainRecords(c, s, a);
    }
  }

  lemma {:induction false} PlayRecords(c: Config, s: State, actions: seq<Action>)
    requires Recorded(s)
    ensures Recorded(Play(c, s, actions))
    decreases |actions|
  {
    hide Recorded, Next, Shaped, Named, Enabled;
    if actions != [] {
      if Shaped(s) && Named(s) && Enabled(s, actions[0]) {
        StepRecords(c, s, actions[0]);
        PlayRecords(c, Next(c, s, actions[0]), actions[1..]);
      } else {
        PlayRecords(c, s, actions[1..]);
      }
    }
  }

  /** The same of every delivery after every dispatch of an end: the message was received after that end. */
  lemma DeliveriesAreFresh(c: Config, actions: seq<Action>, d: nat, k: nat)
    requires var log := Play(c, START, actions).log; d < k < |log| && log[k].Delivered? && log[d].Dispatched?
    ensures var log := Play(c, START, actions).log;
      exists e, r :: 0 <= e < r < |log| && e < d && log[e] == StreamOver(log[d].epoch) && log[r] == Received(log[k].msg)
  {
    hide Play, Inv;
    StartInv();
    PlayRecords(c, START, actions);
    PlayKeeps(c, START, actions);
    var s := Play(c, START, actions);
    DeliveredFacts(s);
    assert StreamOver(s.log[d].epoch) in s.log[..d];
    var e :| 0 <= e < d && s.log[..d][e] == StreamOver(s.log[d].epoch);
    assert Received(s.log[k].msg) in s.log;
    var r :| 0 <= r < |s.log| && s.log[r] == Received(s.log[k].msg);
    NothingFromBeforeTheEnd(c, actions, r, e, d, k);
  }
}
