/** The shared data of the artwork role as its threads change it in place: the slots behind the mutex, and the
    display updates with their masks. Every critical section does what the step of the protocol says. */
module ArtworkSlots {
  import opened Bits
  import opened Artwork

  class ImageSlot {
    var first: array<Byte>
    var second: array<Byte>
    var firstGeneration: nat
    var secondGeneration: nat
    var writeIdx: nat
    var drainActive: bool
    var drainIdx: nat
    var ack: Ack
    var hasParked: bool
    var parked: Notification
    /** Which messages the buffers hold. */
    ghost var firstOwner: nat
    ghost var secondOwner: nat

    ghost predicate Valid()
      reads this
    {
      writeIdx < 2 && first != second
    }

    ghost function Model(): SlotBuffer
      reads this, first, second
    {
      SlotBuffer([Buffer(first[..], firstGeneration, firstOwner), Buffer(second[..], secondGeneration, secondOwner)],
                 writeIdx, drainActive, drainIdx, ack, if hasParked then Some(parked) else None)
    }

    constructor ()
      ensures Valid() && Model() == SlotBuffer([Buffer([], 0, 0), Buffer([], 0, 0)], 0, false, 0, Idle, None)
      ensures fresh(first) && fresh(second)
    {
      first, second := new Byte[0], new Byte[0];
      firstGeneration, secondGeneration, firstOwner, secondOwner := 0, 0, 0, 0;
      writeIdx, drainActive, drainIdx, ack := 0, false, 0, Idle;
      hasParked, parked := false, Notification(0, 0, 0, 0, 0, 0, 0, 0);
      new;
      assert first[..] == [] && second[..] == [];
    }

    /** realloc if the buffer is too small, then memcpy */
    static method Write(was: array<Byte>, image: seq<Byte>) returns (now: array<Byte>)
      modifies was
      ensures now[..] == Overwritten(old(was[..]), image) && (now == was || fresh(now))
      ensures now != was ==> was[..] == old(was[..])
    {
      now := was;
      if was.Length < |image| {
        now := new Byte[|image|];
      }
      forall i | 0 <= i < |image| {
        now[i] := image[i];
      }
      assert now[..] == Overwritten(old(was[..]), image);
    }

    /** handle_binary, with the mutex held */
    method StageImage(image: seq<Byte>, ghost msg: nat) returns (idx: nat, generation: nat)
      requires Valid()
      modifies this, first, second
      ensures Valid() && Model() == Stage(old(Model()), image, msg)
      ensures idx == WriteIndex(old(Model())) && generation == Model().buffers[idx].generation
      ensures (first == old(first) || fresh(first)) && (second == old(second) || fresh(second))
    {
      hide Overwritten;
      idx := writeIdx;
      if drainActive && drainIdx == idx {
        idx := 1 - idx;
      }
      if idx == 0 {
        first := Write(first, image);
        firstGeneration := firstGeneration + 1;
        firstOwner := msg;
        generation := firstGeneration;
      } else {
        second := Write(second, image);
        secondGeneration := secondGeneration + 1;
        secondOwner := msg;
        generation := secondGeneration;
      }
      writeIdx := 1 - idx;
    }

    /** process_notification, with the mutex held; data is where the decoder will look */
    method TryClaim(n: Notification, epoch: nat, ackOn: bool) returns (claim: Claim, data: array<Byte>)
      requires Valid() && (n.length > 0 ==> n.bufferIdx < 2)
      modifies this
      ensures Valid() && claim == Judge(old(Model()), n, epoch, ackOn) && Model() == Judged(old(Model()), n, epoch, ackOn)
      ensures first == old(first) && second == old(second)
      ensures n.length > 0 ==> data[..] == Model().buffers[n.bufferIdx].bytes
    {
      data := if n.bufferIdx == 0 then first else second;
      var generation := if n.bufferIdx == 0 then firstGeneration else secondGeneration;
      if n.epoch != epoch {
        return Skip, data;
      }
      if n.length > 0 && (n.generation != generation || data.Length == 0) {
        return Skip, data;
      }
      if ackOn && ack != Idle {
        parked := n;
        hasParked := true;
        return Park, data;
      }
      if ackOn {
        ack := DecodeDelivered;
      }
      if n.length > 0 {
        drainIdx := n.bufferIdx;
        drainActive := true;
      }
      return Take, data;
    }

    /** process_notification, behind the callback */
    method Release()
      modifies this
      ensures Model() == old(Model()).(drainActive := false) && first == old(first) && second == old(second) && writeIdx == old(writeIdx)
    {
      drainActive := false;
    }

    /** The sweep of drain_thread_func takes a parked notification whose gate is open. */
    method TakeParked() returns (n: Option<Notification>)
      modifies this
      ensures n.Some? <==> old(Model()).parked.Some? && old(ack) == Idle
      ensures if n.Some? then n == old(Model()).parked && Model() == old(Model()).(parked := None) else Model() == old(Model())
      ensures first == old(first) && second == old(second) && writeIdx == old(writeIdx)
    {
      n := None;
      if hasParked && ack == Idle {
        n := Some(parked);
        hasParked := false;
      }
    }

    /** handle_stream_start */
    method Reopen()
      modifies this
      ensures Model() == Reopened(old(Model())) && first == old(first) && second == old(second) && writeIdx == old(writeIdx)
    {
      hasParked := false;
      if ack == DecodeDelivered {
        ack := Idle;
      }
    }

    /** handle_stream_ring_event */
    method ClearGate(ackOn: bool)
      modifies this
      ensures Model() == Cleared(old(Model()), ackOn) && first == old(first) && second == old(second) && writeIdx == old(writeIdx)
    {
      hasParked := false;
      if ackOn {
        ack := Presented;
      }
    }

    /** drain_events: the gate of a slot whose entry is dropped, or delivered */
    method PassGate(v: Verdict, ackOn: bool) returns (wake: bool)
      modifies this
      ensures Model() == Gate(old(Model()), v, ackOn) && first == old(first) && second == old(second) && writeIdx == old(writeIdx)
      ensures wake == (v == Drop && ackOn && Model().parked.Some?)
    {
      wake := false;
      if ackOn {
        if v == Drop {
          if ack == DecodeDelivered {
            ack := Idle;
          }
          wake := hasParked;
        } else if v == Fire {
          ack := Presented;
        }
      }
    }

    /** frame_done */
    method Acknowledge() returns (wake: bool)
      modifies this
      ensures Model() == old(Model()).(ack := Idle) && first == old(first) && second == old(second) && writeIdx == old(writeIdx)
      ensures wake == (old(ack) != Idle && Model().parked.Some?)
    {
      wake := false;
      if ack != Idle {
        ack := Idle;
        wake := hasParked;
      }
    }
  }

  // Masks.

  function SlotBit(slot: nat): bv8
    requires slot < SLOTS
  {
    match slot
    case 0 => 1
    case 1 => 2
    case 2 => 4
    case _ => 8
  }

  predicate Has(mask: bv8, slot: nat)
    requires slot < SLOTS
  {
    mask & SlotBit(slot) != 0
  }

  lemma OrBit(mask: bv8, slot: nat, other: nat)
    requires slot < SLOTS && other < SLOTS
    ensures Has(mask | SlotBit(slot), other) == (Has(mask, other) || other == slot)
  {
  }

  lemma AndNotBit(mask: bv8, slot: nat, other: nat)
    requires slot < SLOTS && other < SLOTS
    ensures Has(mask & !SlotBit(slot), other) == (Has(mask, other) && other != slot)
  {
  }

  function Either(a: bv8, b: bv8): bv8 {
    a | b
  }

  lemma OrMask(a: bv8, b: bv8, slot: nat)
    requires slot < SLOTS
    ensures Has(Either(a, b), slot) == (Has(a, slot) || Has(b, slot))
  {
  }

  /** The entries whose bits are set. */
  function EntriesOf(mask: bv8, es: seq<Entry>): Entries
    requires |es| == SLOTS
  {
    map i: nat | i < SLOTS && Has(mask, i) :: es[i]
  }

  lemma MergedEntries(was: bv8, mask: bv8, es: seq<Entry>, delta: seq<Entry>, merged: seq<Entry>)
    requires |es| == |delta| == |merged| == SLOTS
    requires forall i: nat | i < SLOTS :: merged[i] == if Has(mask, i) then delta[i] else es[i]
    ensures EntriesOf(Either(was, mask), merged) == EntriesOf(was, es) + EntriesOf(mask, delta)
  {
    hide Has, SlotBit, Either;
    forall i: nat | i < SLOTS
      ensures Has(Either(was, mask), i) == (Has(was, i) || Has(mask, i))
    {
      OrMask(was, mask, i);
    }
  }

  /** Display times of several slots, each with its epoch and its kind. */
  class DisplayUpdate {
    const timestamps: array<int>
    const epochs: array<nat>
    var validMask: bv8
    var clearMask: bv8
    /** Which messages they are of. */
    ghost var msgs: seq<nat>

    ghost predicate Valid()
      reads `msgs
    {
      timestamps.Length == SLOTS && epochs.Length == SLOTS && |msgs| == SLOTS
    }

    /** What the fields say of a slot. */
    ghost function At(i: nat): Entry
      requires Valid() && i < SLOTS
      reads `clearMask, `msgs, timestamps, epochs
    {
      Entry(timestamps[i], epochs[i], Has(clearMask, i), msgs[i])
    }

    ghost function Slots(): (es: seq<Entry>)
      requires Valid()
      reads `clearMask, `msgs, timestamps, epochs
      ensures |es| == SLOTS
    {
      [At(0), At(1), At(2), At(3)]
    }

    ghost function Pending(): Entries
      requires Valid()
      reads this, timestamps, epochs
    {
      EntriesOf(validMask, Slots())
    }

    constructor ()
      ensures Valid() && Pending() == map[] && fresh(timestamps) && fresh(epochs)
    {
      timestamps, epochs := new int[SLOTS], new nat[SLOTS];
      validMask, clearMask, msgs := 0, 0, [0, 0, 0, 0];
      new;
      assert forall i: nat | i < SLOTS :: !Has(0, i);
      assert Pending() == map[];
    }

    /** The kind of a slot's delivery is assigned, whatever it was before. */
    method TakeKind(slot: nat, isClear: bool)
      requires slot < SLOTS
      modifies `clearMask
      ensures Has(clearMask, slot) == isClear
      ensures forall i: nat | i < SLOTS && i != slot :: Has(clearMask, i) == Has(old(clearMask), i)
    {
      hide Has, SlotBit;
      var mask := clearMask;
      forall i: nat | i < SLOTS
        ensures Has(mask | SlotBit(slot), i) == (Has(mask, i) || i == slot)
        ensures Has(mask & !SlotBit(slot), i) == (Has(mask, i) && i != slot)
      {
        OrBit(mask, slot, i);
        AndNotBit(mask, slot, i);
      }
      clearMask := if isClear then mask | SlotBit(slot) else mask & !SlotBit(slot);
      OrBit(mask, slot, slot);
      AndNotBit(mask, slot, slot);
    }

    /** One slot is replaced wholesale. */
    method TakeSlot(delta: DisplayUpdate, slot: nat)
      requires Valid() && delta.Valid() && delta != this && timestamps != delta.timestamps && epochs != delta.epochs && slot < SLOTS
      modifies `clearMask, `msgs, timestamps, epochs
      ensures Valid() && delta.Slots() == old(delta.Slots())
      ensures Slots() == old(Slots())[slot := old(delta.Slots())[slot]]
    {
      hide Has, SlotBit;
      timestamps[slot] := delta.timestamps[slot];
      epochs[slot] := delta.epochs[slot];
      msgs := msgs[slot := delta.msgs[slot]];
      TakeKind(slot, Has(delta.clearMask, slot));
    }

    /** merge_artwork_display_update, and the fold of drain_events: latest wins, slot by slot. */
    method Merge(delta: DisplayUpdate)
      requires Valid() && delta.Valid() && delta != this && timestamps != delta.timestamps && epochs != delta.epochs
      modifies this, timestamps, epochs
      ensures Valid() && Pending() == old(Pending()) + old(delta.Pending())
    {
      hide Has, SlotBit, Either, At, Slots, EntriesOf;
      ghost var was, mask, es, ds := validMask, delta.validMask, Slots(), delta.Slots();
      validMask := Either(validMask, delta.validMask);
      var slot := 0;
      while slot < SLOTS
        invariant 0 <= slot <= SLOTS && Valid() && validMask == Either(was, mask) && delta.validMask == mask && delta.Valid()
        invariant delta.Slots() == ds
        invariant forall i: nat | i < SLOTS :: Slots()[i] == if i < slot && Has(mask, i) then ds[i] else es[i]
      {
        if Has(delta.validMask, slot) {
          TakeSlot(delta, slot);
        }
        slot := slot + 1;
      }
      MergedEntries(was, mask, es, ds, Slots());
    }
  }

  /** The decode thread's updates merged one after the other. */
  function MergeAll(updates: seq<Entries>): Entries {
    if updates == [] then map[] else MergeAll(updates[..|updates| - 1]) + updates[|updates| - 1]
  }

  /** Wherever the main thread takes what has been merged so far and folds it into what it holds, the outcome is that
      of folding every update by itself. */
  lemma {:induction false} FoldsAnywhere(held: Entries, updates: seq<Entries>, cut: nat)
    requires cut <= |updates|
    ensures held + MergeAll(updates[..cut]) + MergeAll(updates[cut..]) == held + MergeAll(updates)
    decreases |updates|
  {
    hide MergeAll;
    if cut == |updates| {
      assert updates[..cut] == updates && updates[cut..] == [];
      NoUpdates(held + MergeAll(updates));
    } else {
      OneMore(updates);
      OneMore(updates[cut..]);
      var n := |updates| - 1;
      FoldsAnywhere(held, updates[..n], cut);
      assert updates[..n][..cut] == updates[..cut] && updates[..n][cut..] == updates[cut..][..n - cut];
      assert updates[cut..][n - cut] == updates[n];
      var before, after, last := MergeAll(updates[..cut]), MergeAll(updates[..n][cut..]), updates[n];
      InTurn(held + before, after, last);
      InTurn(held, MergeAll(updates[..n]), last);
    }
  }

  lemma NoUpdates(a: Entries)
    ensures a + MergeAll([]) == a
  {
  }

  lemma OneMore(updates: seq<Entries>)
    requires updates != []
    ensures MergeAll(updates) == MergeAll(updates[..|updates| - 1]) + updates[|updates| - 1]
  {
  }

  lemma InTurn(a: Entries, b: Entries, c: Entries)
    ensures a + (b + c) == a + b + c
  {
  }
}
