/** The artwork role: network, decode and main thread as atomic steps on one state, in any interleaving. */
module Artwork {
  import opened Bits

  const SLOTS := 4

  /** One call of handle_binary that gets past its guards: what it brought, and the epoch it was received in. */
  datatype Message = Message(slot: nat, payload: seq<Byte>, timestamp: int, format: nat, epoch: nat)

  /** The notification of a message; msg says which one it was, for the proofs alone. */
  datatype Notification = Notification(slot: nat, bufferIdx: nat, length: nat, timestamp: int, format: nat, generation: nat, epoch: nat, msg: nat)

  datatype Item = Recheck | Note(n: Notification)

  datatype Option<T> = None | Some(value: T)

  datatype Ack = Idle | DecodeDelivered | Presented

  /** One of the two buffers of a slot; owner says which message wrote it last, for the proofs alone. */
  datatype Buffer = Buffer(bytes: seq<Byte>, generation: nat, owner: nat)

  datatype SlotBuffer = SlotBuffer(buffers: seq<Buffer>, writeIdx: nat, drainActive: bool, drainIdx: nat, ack: Ack, parked: Option<Notification>)

  /** A delivery that waits for its time. */
  datatype Entry = Entry(timestamp: int, epoch: nat, isClear: bool, msg: nat)

  type Entries = map<nat, Entry>

  datatype Network = NetIdle | Staged(n: Notification) | Starting(phase: nat) | Ending(phase: nat, epoch: nat)

  datatype Decode = Waiting | Claiming(n: Notification) | Decoding(n: Notification) | HandingOff(n: Notification) | Merging(n: Notification)

  datatype Main = MainIdle | Clearing(phase: nat) | Taken | Draining(epoch: nat, slot: nat)

  /** What is seen from outside, in the order in which it happens. */
  datatype Event =
    | Received(msg: nat)
    | StreamOver(epoch: nat)
    | Dispatched(epoch: nat)
    | Decoded(msg: nat)
    | Delivered(slot: nat, isClear: bool, msg: nat)

  datatype State = State(
    active: bool, epoch: nat, slots: seq<SlotBuffer>, queue: seq<Item>, display: Entries, held: Entries, ring: seq<nat>,
    network: Network, decode: Decode, main: Main, messages: seq<Message>, log: seq<Event>)

  /** Which slots wait for frame_done() */
  datatype Config = Config(ackSlots: set<nat>)

  // Critical sections of the slot mutex.

  /** memcpy into a buffer that is as large as it needs to be */
  function Overwritten(was: seq<Byte>, payload: seq<Byte>): (r: seq<Byte>)
    ensures payload <= r
  {
    payload + (if |was| > |payload| then was[|payload|..] else [])
  }

  /** The buffer that the network thread writes: not the one that is being decoded. */
  function WriteIndex(sb: SlotBuffer): (i: nat)
    requires sb.writeIdx < 2
    ensures i < 2 && (sb.drainActive ==> i != sb.drainIdx)
  {
    if sb.drainActive && sb.drainIdx == sb.writeIdx then 1 - sb.writeIdx else sb.writeIdx
  }

  /** handle_binary, with the mutex held */
  function Stage(sb: SlotBuffer, payload: seq<Byte>, msg: nat): SlotBuffer
    requires |sb.buffers| == 2 && sb.writeIdx < 2
  {
    var i := WriteIndex(sb);
    var b := sb.buffers[i];
    sb.(buffers := sb.buffers[i := Buffer(Overwritten(b.bytes, payload), b.generation + 1, msg)], writeIdx := 1 - i)
  }

  datatype Claim = Skip | Park | Take

  /** process_notification, with the mutex held: what becomes of the notification */
  function Judge(sb: SlotBuffer, n: Notification, epoch: nat, ackOn: bool): Claim
    requires |sb.buffers| == 2 && (n.length > 0 ==> n.bufferIdx < 2)
  {
    if n.epoch != epoch then Skip
    else if n.length > 0 && (n.generation != sb.buffers[n.bufferIdx].generation || sb.buffers[n.bufferIdx].bytes == []) then Skip
    else if ackOn && sb.ack != Idle then Park
    else Take
  }

  function Claimed(sb: SlotBuffer, n: Notification, ackOn: bool): SlotBuffer {
    var gated := if ackOn then sb.(ack := DecodeDelivered) else sb;
    if n.length > 0 then gated.(drainIdx := n.bufferIdx, drainActive := true) else gated
  }

  function Judged(sb: SlotBuffer, n: Notification, epoch: nat, ackOn: bool): SlotBuffer
    requires |sb.buffers| == 2 && (n.length > 0 ==> n.bufferIdx < 2)
  {
    match Judge(sb, n, epoch, ackOn)
    case Skip => sb
    case Park => sb.(parked := Some(n))
    case Take => Claimed(sb, n, ackOn)
  }

  // Steps.

  datatype Action =
    | Receive(slot: nat, payload: seq<Byte>, timestamp: int, format: nat)
    | Send(accepted: bool)
    | StreamStart
    | StreamEnd
    | NetworkStep(accepted: bool)
    | Dequeue
    | Replay(slot: nat)
    | Process
    | DecodeDone
    | CheckActive
    | Merge
    | DispatchEnd
    | MainStep
    | DrainEvents
    | SlotStep(due: bool, wake: bool)
    | FrameDone(slot: nat, wake: bool)

  predicate Enabled(s: State, a: Action) {
    match a
    case Receive(slot, _, _, _) => s.network == NetIdle && s.active && slot < SLOTS
    case Send(_) => s.network.Staged?
    case StreamStart => s.network == NetIdle
    case StreamEnd => s.network == NetIdle
    case NetworkStep(_) => s.network.Starting? || s.network.Ending?
    case Dequeue => s.decode == Waiting && s.queue != []
    case Replay(slot) => s.decode == Waiting && slot < |s.slots| && s.slots[slot].parked.Some? && s.slots[slot].ack == Idle
    case Process => s.decode.Claiming?
    case DecodeDone => s.decode.Decoding?
    case CheckActive => s.decode.HandingOff?
    case Merge => s.decode.Merging?
    case DispatchEnd => s.main == MainIdle && s.ring != []
    case MainStep => s.main.Clearing? || s.main.Taken?
    case DrainEvents => s.main == MainIdle
    case SlotStep(_, _) => s.main.Draining?
    case FrameDone(slot, _) => slot < |s.slots|
  }

  predicate Shaped(s: State) {
    |s.slots| == SLOTS && forall i | 0 <= i < SLOTS :: |s.slots[i].buffers| == 2 && s.slots[i].writeIdx < 2
  }

  function WithSlot(s: State, i: nat, sb: SlotBuffer): State
    requires i < |s.slots|
  {
    s.(slots := s.slots[i := sb])
  }

  function Logged(s: State, e: Event): State {
    s.(log := s.log + [e])
  }

  // The network thread.

  function DoReceive(s: State, slot: nat, payload: seq<Byte>, timestamp: int, format: nat): State
    requires Shaped(s) && slot < SLOTS
  {
    var m := |s.messages|;
    var s1 := Logged(s.(messages := s.messages + [Message(slot, payload, timestamp, format, s.epoch)]), Received(m));
    if payload == [] then s1.(network := Staged(Notification(slot, 0, 0, timestamp, format, 0, 0, m)))
    else
      var i := WriteIndex(s.slots[slot]);
      var sb := Stage(s.slots[slot], payload, m);
      WithSlot(s1, slot, sb).(network := Staged(Notification(slot, i, |payload|, timestamp, format, sb.buffers[i].generation, 0, m)))
  }

  function DoSend(s: State, accepted: bool): State
    requires s.network.Staged?
  {
    var n := s.network.n.(epoch := s.epoch);
    s.(network := NetIdle, queue := if accepted then s.queue + [Note(n)] else s.queue)
  }

  /** handle_stream_start, with the mutex held */
  function Reopened(sb: SlotBuffer): SlotBuffer {
    sb.(parked := None, ack := if sb.ack == DecodeDelivered then Idle else sb.ack)
  }

  function ReopenedAll(slots: seq<SlotBuffer>): (r: seq<SlotBuffer>)
    ensures |r| == |slots| && forall i | 0 <= i < |r| :: r[i] == Reopened(slots[i])
  {
    seq(|slots|, i requires 0 <= i < |slots| => Reopened(slots[i]))
  }

  /** The rest of handle_stream_start, handle_stream_end and handle_stream_clear, one shared access at a time. */
  function DoNetworkStep(s: State, accepted: bool): State
    requires s.network.Starting? || s.network.Ending?
  {
    match s.network
    case Starting(phase) =>
      if phase == 0 then s.(epoch := s.epoch + 1, network := Starting(1))
      else if phase == 1 then s.(display := map[], network := Starting(2))
      else s.(slots := ReopenedAll(s.slots), network := NetIdle)
    case Ending(phase, e) =>
      if phase == 0 then Logged(s.(epoch := s.epoch + 1, network := Ending(1, s.epoch + 1)), StreamOver(s.epoch + 1))
      else s.(ring := if accepted then s.ring + [e] else s.ring, network := NetIdle)
  }

  // The decode thread.

  function DoProcess(c: Config, s: State): State
    requires Shaped(s) && s.decode.Claiming? && s.decode.n.slot < SLOTS && (s.decode.n.length > 0 ==> s.decode.n.bufferIdx < 2)
  {
    var n, sb, ackOn := s.decode.n, s.slots[s.decode.n.slot], s.decode.n.slot in c.ackSlots;
    var taken := Judge(sb, n, s.epoch, ackOn) == Take;
    WithSlot(s, n.slot, Judged(sb, n, s.epoch, ackOn))
      .(decode := if !taken then Waiting else if n.length > 0 then Decoding(n) else HandingOff(n))
  }

  function EntryOf(n: Notification): Entry {
    Entry(n.timestamp, n.epoch, n.length == 0, n.msg)
  }

  // The main thread.

  /** handle_stream_ring_event, with the mutex held */
  function Cleared(sb: SlotBuffer, ackOn: bool): SlotBuffer {
    sb.(parked := None, ack := if ackOn then Presented else sb.ack)
  }

  function ClearedAll(c: Config, slots: seq<SlotBuffer>): (r: seq<SlotBuffer>)
    ensures |r| == |slots| && forall i | 0 <= i < |r| :: r[i] == Cleared(slots[i], i in c.ackSlots)
  {
    seq(|slots|, i requires 0 <= i < |slots| => Cleared(slots[i], i in c.ackSlots))
  }

  function DoMainStep(c: Config, s: State): State
    requires s.main.Clearing? || s.main.Taken?
  {
    match s.main
    case Clearing(phase) =>
      if phase == 0 then s.(display := map[], main := Clearing(1))
      else s.(slots := ClearedAll(c, s.slots), main := MainIdle)
    case Taken => s.(main := Draining(s.epoch, 0))
  }

  function Wake(queue: seq<Item>, wake: bool): seq<Item> {
    if wake then queue + [Recheck] else queue
  }

  datatype Verdict = Pass | Drop | Fire

  /** What becomes of the entry of a slot; whether its time has come is not modelled. */
  function Due(held: Entries, i: nat, epoch: nat, due: bool): Verdict {
    if i !in held then Pass
    else if held[i].epoch != epoch then Drop
    else if due then Fire
    else Pass
  }

  /** drain_events, with the mutex held: the gate of a slot whose entry is dropped or delivered */
  function Gate(sb: SlotBuffer, v: Verdict, ackOn: bool): SlotBuffer {
    if !ackOn then sb
    else
      match v
      case Pass => sb
      case Drop => sb.(ack := if sb.ack == DecodeDelivered then Idle else sb.ack)
      case Fire => sb.(ack := Presented)
  }

  /** One slot of the deadline loop of drain_events. */
  function DoSlotStep(c: Config, s: State, due: bool, wake: bool): State
    requires Shaped(s) && s.main.Draining?
  {
    var i, cur := s.main.slot, s.main.epoch;
    if i >= SLOTS then s.(main := MainIdle)
    else
      var v, sb, ackOn := Due(s.held, i, cur, due), s.slots[i], i in c.ackSlots;
      WithSlot(s, i, Gate(sb, v, ackOn))
        .(main := Draining(cur, i + 1), held := if v == Pass then s.held else s.held - {i},
          queue := Wake(s.queue, v == Drop && ackOn && wake && sb.parked.Some?),
          log := if v == Fire then s.log + [Delivered(i, s.held[i].isClear, s.held[i].msg)] else s.log)
  }

  function DoFrameDone(s: State, slot: nat, wake: bool): State
    requires slot < |s.slots|
  {
    var sb := s.slots[slot];
    if sb.ack == Idle then s
    else WithSlot(s, slot, sb.(ack := Idle)).(queue := Wake(s.queue, wake && sb.parked.Some?))
  }

  /** The notification that the decode thread holds names a slot and a buffer. */
  predicate Named(s: State) {
    match s.decode
    case Waiting => true
    case Claiming(n) => n.slot < SLOTS && (n.length > 0 ==> n.bufferIdx < 2)
    case Decoding(n) => n.slot < SLOTS
    case HandingOff(_) => true
    case Merging(_) => true
  }

  function Next(c: Config, s: State, a: Action): State
    requires Shaped(s) && Named(s) && Enabled(s, a)
  {
    match a
    case Receive(slot, payload, timestamp, format) => DoReceive(s, slot, payload, timestamp, format)
    case Send(accepted) => DoSend(s, accepted)
    case StreamStart => s.(active := true, network := Starting(0))
    case StreamEnd => s.(active := false, network := Ending(0, 0))
    case NetworkStep(accepted) => DoNetworkStep(s, accepted)
    case Dequeue => s.(queue := s.queue[1..], decode := if s.queue[0].Note? then Claiming(s.queue[0].n) else Waiting)
    case Replay(slot) =>
      WithSlot(s, slot, s.slots[slot].(parked := None)).(decode := Claiming(s.slots[slot].parked.value))
    case Process => DoProcess(c, s)
    case DecodeDone =>
      var n := s.decode.n;
      Logged(WithSlot(s, n.slot, s.slots[n.slot].(drainActive := false)).(decode := HandingOff(n)), Decoded(n.msg))
    case CheckActive => s.(decode := if s.active then Merging(s.decode.n) else Waiting)
    case Merge => s.(display := s.display + map[s.decode.n.slot := EntryOf(s.decode.n)], decode := Waiting)
    case DispatchEnd =>
      Logged(s.(held := map[], ring := s.ring[1..], main := Clearing(0)), Dispatched(s.ring[0]))
    case MainStep => DoMainStep(c, s)
    case DrainEvents => s.(held := s.held + s.display, display := map[], main := Taken)
    case SlotStep(due, wake) => DoSlotStep(c, s, due, wake)
    case FrameDone(slot, wake) => DoFrameDone(s, slot, wake)
  }
}
