/** FLAC in Ogg: the loop that feeds the slices of the demuxer to the frame decoder. It ends on every input. */
module OggFlac {
  import opened Bits
  import opened OggFormat
  import opened OggSteps
  import opened OggAccounts
  import opened OggRuns
  import opened OggDemuxing
  import Crc32

  // A slice is a part of the input, for any input whatever.

  predicate Within(r: Reply, input: seq<Byte>, head: nat) {
    && head + |r.data| == r.used && r.data <= input
    && (r.code != OggSteps.Ok ==> r.data == [])
  }

  lemma SliceWithin(c: Config, s: State, span: Span, left: nat, body: seq<Byte>, head: nat)
    ensures var r := Slice(c, s, span, left, body, head).1; !r.code.IsError() ==> Within(r, body, head)
  {
    hide Crc32.ByTable, Sum;
  }

  lemma {:induction false} SettleWithin(c: Config, s: State, body: seq<Byte>, head: nat)
    ensures var r := Settle(c, s, body, head).1; !r.code.IsError() ==> Within(r, body, head)
    decreases |s.cur.page.table| - s.cur.index
  {
    hide Scan, Slice;
    if !s.cur.AtEnd() {
      var span := Scan(s.cur.page.table, s.cur.index);
      if span.size > 0 {
        SliceWithin(c, s, span, span.size, body, head);
      } else if !(s.cur.index == 0 && s.link.prevContinued) {
        SettleWithin(c, s.(cur := s.cur.Advance(span)), body, head);
      }
    }
  }

  /** The slice that a call returns is the last of the bytes that it takes. */
  lemma DataWithin(c: Config, s: State, input: seq<Byte>)
    requires Inv(c, s)
    ensures var r := NextData(c, s, input).1;
      !r.code.IsError() ==> |r.data| <= r.used <= |input| && r.data == input[r.used - |r.data|..r.used] && (r.code != OggSteps.Ok ==> r.data == [])
  {
    hide Settle, Slice, Inv, Conflicts, HeaderStage;
    var s1 := s.(mode := DataMode);
    SameInv(c, s);
    if s.stage == Processing {
      OfferWithin(c, s1, input, 0);
    } else if !Conflicts(s, DataMode) {
      HeaderAccounts(c, s1, input);
      HeaderNothing(c, s1, input);
      var h := HeaderStage(c, s1, input);
      if h.Entered? && h.used < |input| {
        OfferWithin(c, h.state, input[h.used..], h.used);
        var r := NextData(c, s, input).1;
        if !r.code.IsError() {
          assert input[h.used..][..|r.data|] == input[h.used..h.used + |r.data|];
        }
      }
    }
  }

  lemma HeaderNothing(c: Config, s: State, input: seq<Byte>)
    ensures var h := HeaderStage(c, s, input); h.Stop? ==> h.reply == Nothing(h.reply.code, h.reply.used)
  {
    hide ParseHeader, Consistency, Crc32.ByTable, StagedCount;
  }

  lemma SameInv(c: Config, s: State)
    ensures Inv(c, s.(mode := DataMode)) == Inv(c, s)
  {
    hide InPage;
  }

  lemma OfferWithin(c: Config, s: State, body: seq<Byte>, head: nat)
    ensures var r := Offer(c, s, body, head).1; !r.code.IsError() ==> Within(r, body, head)
  {
    hide Settle, Slice;
    if s.cur.spanActive {
      SliceWithin(c, s, s.cur.span, s.cur.spanLeft, body, head);
    } else {
      SettleWithin(c, s, body, head);
    }
  }

  /** Once in use, the streaming interface stays usable. */
  lemma NoConflict(c: Config, s: State, input: seq<Byte>)
    ensures !Conflicts(s, DataMode) ==> !Conflicts(NextData(c, s, input).0, DataMode)
  {
    hide NextData, BetweenPackets;
    DataModeSet(c, s, input);
  }

  /** The four bytes of the detection, or none, are never answered with a slice. */
  lemma DetectionYieldsNothing(c: Config, s: State, input: seq<Byte>)
    requires Inv(c, s) && (input == [] || (s == RESET && |input| == 4))
    ensures var r := NextData(c, s, input).1; !r.code.IsError() ==> r.data == []
  {
    hide Settle, Slice, InPage;
    if input == [] {
      DataWithin(c, s, input);
    }
  }

  /** No call takes more than it is given, not even one that fails. */
  lemma UsedWithin(c: Config, s: State, input: seq<Byte>)
    requires Inv(c, s)
    ensures NextData(c, s, input).1.used <= |input|
  {
    hide Offer, Inv, Conflicts, HeaderStage;
    var s1 := s.(mode := DataMode);
    SameInv(c, s);
    if s.stage == Processing {
      OfferAccounts(c, s1, input, 0);
    } else if !Conflicts(s, DataMode) {
      HeaderUsed(c, s1, input);
      HeaderAccounts(c, s1, input);
      var h := HeaderStage(c, s1, input);
      if h.Entered? {
        EnteredReady(c, s1, input, h.state, h.used);
        if h.used < |input| {
          OfferAccounts(c, h.state, input[h.used..], h.used);
        }
      }
    }
  }

  lemma HeaderUsed(c: Config, s: State, input: seq<Byte>)
    ensures var h := HeaderStage(c, s, input); h.Stop? ==> h.reply.used <= |input|
  {
    hide Consistency, Crc32.ByTable, Little, Signed64, StagedCount;
  }

  // Every call comes closer to the end.

  lemma {:induction false} SettleStill(c: Config, s: State, head: nat)
    requires s.stage == Processing
    ensures Pending(Settle(c, s, [], head).0) <= Pending(s)
    decreases |s.cur.page.table| - s.cur.index
  {
    hide Scan, Sum, Crc32.ByTable;
    if !s.cur.AtEnd() {
      SettleStill(c, s.(cur := s.cur.Advance(Scan(s.cur.page.table, s.cur.index))), head);
    }
  }

  /** A call without input moves at most the cursor. */
  lemma EmptyStill(c: Config, s: State)
    requires Inv(c, s)
    ensures Pending(NextData(c, s, []).0) <= Pending(s)
  {
    hide Settle, InPage, Scan, Sum, Conflicts;
    if s.stage == Processing {
      SettleStill(c, s.(mode := DataMode), 0);
    } else {
      var none: seq<Byte> := [];
      assert none[..0] == none && s.staged + none == s.staged;
    }
  }

  lemma PendingBound(c: Config, s: State)
    requires Inv(c, s)
    ensures Pending(s) <= 256
  {
  }

  lemma ComesCloser(c: Config, run: Run, input: seq<Byte>)
    requires Inv(c, run.state) && Owned(run.state) && input <= run.rest
    ensures var (t, r) := NextData(c, run.state, input);
      !r.code.IsError() ==>
        && r.used <= |input| && 257 * (|run.rest| - r.used) + Pending(t) <= Left(run)
        && (input != [] ==> 257 * (|run.rest| - r.used) + Pending(t) < Left(run))
  {
    hide NextData, Inv, Owned, Pending;
    UsedWithin(c, run.state, input);
    DataKeeps(c, run.state, input);
    var (t, r) := NextData(c, run.state, input);
    if !r.code.IsError() {
      PendingBound(c, t);
      if input == [] {
        EmptyStill(c, run.state);
      } else {
        DataProgress(c, run.state, input);
      }
    }
  }

  // A call of the object is a call of a run.

  /** The bytes that a caller has got */
  function Taken(got: Got): seq<Byte> {
    Flat(got.packets) + got.part
  }

  lemma TakenNone()
    ensures Taken(BEGIN) == []
  {
  }

  lemma TakenGrows(got: Got, call: Call, r: Reply)
    requires call.AskData?
    ensures Taken(Collect(got, call, r)) == Taken(got) + if r.code == OggSteps.Ok then r.data else []
  {
    hide Flat;
    FlatEnd(got.packets, got.part + r.data);
    assert Flat(got.packets) + (got.part + r.data) + [] == Flat(got.packets) + got.part + r.data;
  }

  function ReplyTo(c: Config, run: Run, call: Call): Reply {
    Make(c, run.state, call, run.rest[..Min(call.size, |run.rest|)]).1
  }

  /** The last slice of a page that is marked as the last one */
  predicate EndsStream(r: Reply) {
    r.code == OggSteps.Ok && r.isEos && r.isLast
  }

  /** One of the calls was answered with the end of the stream. */
  predicate SawEnd(c: Config, run: Run, calls: seq<Call>) {
    exists k | 0 <= k < |calls| :: EndsStream(ReplyTo(c, Play(c, run, calls[..k]), calls[k]))
  }

  /** The last bytes of a page that is marked as the last one */
  predicate EndSlice(r: Reply) {
    EndsStream(r) && r.data != []
  }

  predicate SawEndSlice(c: Config, run: Run, calls: seq<Call>) {
    exists k | 0 <= k < |calls| :: EndSlice(ReplyTo(c, Play(c, run, calls[..k]), calls[k]))
  }

  lemma NothingSeen(c: Config, run: Run)
    ensures !SawEnd(c, run, []) && !SawEndSlice(c, run, []) && OnlyData([])
  {
  }

  /** A call of one list or of the other */
  lemma CallAt(c: Config, run: Run, a: seq<Call>, b: seq<Call>, k: nat)
    requires k < |a + b|
    ensures (a + b)[k] == if k < |a| then a[k] else b[k - |a|]
    ensures Play(c, run, (a + b)[..k]) == if k < |a| then Play(c, run, a[..k]) else Play(c, Play(c, run, a), b[..k - |a|])
  {
    hide Play;
    if k < |a| {
      assert (a + b)[..k] == a[..k];
    } else {
      assert (a + b)[..k] == a + b[..k - |a|];
      PlayOn(c, run, a, b[..k - |a|]);
    }
  }

  /** What calls after others have seen, or these */
  lemma SawJoins(c: Config, run: Run, a: seq<Call>, b: seq<Call>)
    ensures SawEnd(c, run, a + b) <==> SawEnd(c, run, a) || SawEnd(c, Play(c, run, a), b)
    ensures SawEndSlice(c, run, a + b) <==> SawEndSlice(c, run, a) || SawEndSlice(c, Play(c, run, a), b)
  {
    hide Play, ReplyTo, EndsStream, EndSlice;
    forall k: nat | k < |a + b|
      ensures (a + b)[k] == if k < |a| then a[k] else b[k - |a|]
      ensures Play(c, run, (a + b)[..k]) == if k < |a| then Play(c, run, a[..k]) else Play(c, Play(c, run, a), b[..k - |a|])
    {
      CallAt(c, run, a, b, k);
    }
    if k :| 0 <= k < |a| && EndsStream(ReplyTo(c, Play(c, run, a[..k]), a[k])) {
      assert EndsStream(ReplyTo(c, Play(c, run, (a + b)[..k]), (a + b)[k]));
    }
    if k :| 0 <= k < |b| && EndsStream(ReplyTo(c, Play(c, Play(c, run, a), b[..k]), b[k])) {
      assert EndsStream(ReplyTo(c, Play(c, run, (a + b)[..|a| + k]), (a + b)[|a| + k]));
    }
    if k :| 0 <= k < |a| && EndSlice(ReplyTo(c, Play(c, run, a[..k]), a[k])) {
      assert EndSlice(ReplyTo(c, Play(c, run, (a + b)[..k]), (a + b)[k]));
    }
    if k :| 0 <= k < |b| && EndSlice(ReplyTo(c, Play(c, Play(c, run, a), b[..k]), b[k])) {
      assert EndSlice(ReplyTo(c, Play(c, run, (a + b)[..|a| + k]), (a + b)[|a| + k]));
    }
  }

  lemma SawOne(c: Config, run: Run, call: Call)
    ensures SawEnd(c, run, [call]) == EndsStream(ReplyTo(c, run, call)) && SawEndSlice(c, run, [call]) == EndSlice(ReplyTo(c, run, call))
  {
    hide Play, ReplyTo, EndsStream, EndSlice;
    assert [call][..0] == [];
    PlayFirst(c, run, []);
    if EndsStream(ReplyTo(c, run, call)) {
      assert EndsStream(ReplyTo(c, Play(c, run, [call][..0]), [call][0]));
    }
    if EndSlice(ReplyTo(c, run, call)) {
      assert EndSlice(ReplyTo(c, Play(c, run, [call][..0]), [call][0]));
    }
  }

  lemma {:induction false} SawSliceEnds(c: Config, run: Run, calls: seq<Call>)
    ensures SawEndSlice(c, run, calls) ==> SawEnd(c, run, calls)
  {
    hide Play, ReplyTo, EndsStream;
  }

  lemma OneMore(c: Config, run: Run, calls: seq<Call>, size: nat)
    ensures var all := calls + [AskData(size)];
      && Play(c, run, all) == One(c, Play(c, run, calls), AskData(size))
      && (SawEnd(c, run, all) <==> SawEnd(c, run, calls) || EndsStream(ReplyTo(c, Play(c, run, calls), AskData(size))))
      && (OnlyData(calls) ==> OnlyData(all))
  {
    hide Play, One, SawEnd, SawEndSlice, EndsStream, EndSlice, ReplyTo;
    PlayEnd(c, run, calls, AskData(size));
    SawJoins(c, run, calls, [AskData(size)]);
    SawOne(c, Play(c, run, calls), AskData(size));
  }

  /** A streaming call with this input, in a run that has it ahead */
  lemma OneData(c: Config, run: Run, input: seq<Byte>)
    requires input <= run.rest && NextData(c, run.state, input).1.used <= |input|
    ensures var (t, r) := NextData(c, run.state, input);
      var next := One(c, run, AskData(|input|));
      && next.state == t && next.rest == run.rest[r.used..] && next.codes == run.codes + [r.code] && r == ReplyTo(c, run, AskData(|input|))
      && Taken(next.got) == Taken(run.got) + (if r.code == OggSteps.Ok then r.data else [])
      && (Inv(c, run.state) && Owned(run.state) && !r.code.IsError() ==> Left(next) <= Left(run) && (input != [] ==> Left(next) < Left(run)))
  {
    hide NextData, Collect, Taken, Pending, Inv, Owned;
    assert run.rest[..|input|] == input;
    if Inv(c, run.state) && Owned(run.state) {
      ComesCloser(c, run, input);
    }
    TakenGrows(run.got, AskData(|input|), NextData(c, run.state, input).1);
  }

  lemma AheadOf(first: seq<Byte>, input: seq<Byte>, rest: seq<Byte>)
    requires first + input <= rest
    ensures first <= rest && input <= rest[|first|..] && rest[0..] == rest
  {
    assert (first + input)[|first|..] == input;
  }

  lemma {:induction false} PlayEnd(c: Config, run: Run, calls: seq<Call>, call: Call)
    ensures Play(c, run, calls + [call]) == One(c, Play(c, run, calls), call)
    decreases |calls|
  {
    hide Play, One;
    PlayFirst(c, run, calls);
    PlayFirst(c, run, calls + [call]);
    if calls == [] {
      assert [] + [call] == [call] && [call][1..] == [];
      PlayFirst(c, One(c, run, call), []);
    } else {
      assert (calls + [call])[1..] == calls[1..] + [call];
      PlayEnd(c, One(c, run, calls[0]), calls[1..], call);
    }
  }

  lemma {:induction false} PlayOn(c: Config, run: Run, a: seq<Call>, b: seq<Call>)
    ensures Play(c, run, a + b) == Play(c, Play(c, run, a), b)
    decreases |a|
  {
    hide Play, One;
    PlayFirst(c, run, a);
    PlayFirst(c, run, a + b);
    if a == [] {
      assert [] + b == b;
    } else {
      assert (a + b)[1..] == a[1..] + b;
      PlayOn(c, One(c, run, a[0]), a[1..], b);
    }
  }

  lemma Behind(input: seq<Byte>, rest: seq<Byte>, used: nat, n: nat)
    requires used + n <= |input| && used <= |rest| && input[used..] <= rest[used..]
    ensures rest[used..][n..] == rest[used + n..] && input[used + n..] <= rest[used + n..]
  {
    assert input[used..][n..] == input[used + n..];
  }

  /** The answer to the last call */
  function Last(codes: seq<Code>): Code {
    if codes == [] then NeedMoreData else codes[|codes| - 1]
  }

  predicate Refuses(codes: seq<Code>) {
    codes != [] && codes[|codes| - 1] != OggSteps.Ok && codes[|codes| - 1] != NeedMoreData
  }

  /** The four bytes of the detection are taken. */
  lemma DetectionTaken(c: Config, s: State, input: seq<Byte>)
    requires Inv(c, s) && (input == [] || (s == RESET && |input| == 4))
    ensures var r := NextData(c, s, input).1; r.used == |input| && (!r.code.IsError() ==> r.data == [])
  {
    hide Settle, Slice, InPage;
    DetectionYieldsNothing(c, s, input);
    if input == [] {
      UsedWithin(c, s, input);
    }
  }

  // The decoder behind the demuxer.

  datatype Result = NeedMore | HeaderReady | Success | EndOfStream | DemuxError | BadHeader | NativeError {
    predicate Failed() {
      DemuxError? || BadHeader? || NativeError?
    }
  }

  /** What the native decoder answers, and how many of the bytes it took. */
  datatype Native = Native(result: Result, consumed: nat)

  const PREFIX: seq<Byte> := [0x7F, 0x46, 0x4C, 0x41, 0x43, 0x01]
  const PREFIX_LEN := 9

  /** The mark of the mapping: 0x7F, "FLAC", and the major version 1 */
  const MARK: seq<Byte> := [127, 70, 76, 65, 67, 1]

  /** Where there is one of the first six bytes, it is that of the mark. */
  predicate Marked(bytes: seq<Byte>) {
    forall i | 0 <= i < |bytes| && i < 6 :: bytes[i] == MARK[i]
  }

  /** The bytes before the native stream: the mark, a minor version and a count of header packets. */
  predicate GoodPrefix(p: seq<Byte>) {
    |p| <= PREFIX_LEN && Marked(p)
  }

  /** The native decoder takes all that it is given. */
  ghost predicate TakesAll(native: seq<seq<Byte>> -> Native) {
    forall given: seq<seq<Byte>>, body: seq<Byte> :: native(given + [body]).consumed == |body|
  }

  /** The answer to the last piece, all of which was taken */
  predicate Says(native: seq<seq<Byte>> -> Native, given: seq<seq<Byte>>, result: Result) {
    given != [] && native(given) == Native(result, |given[|given| - 1]|)
  }

  /** From this many pieces on, the native decoder has always asked for more. */
  predicate AsksOn(native: seq<seq<Byte>> -> Native, from: nat, given: seq<seq<Byte>>) {
    from <= |given| && forall k | from < k <= |given| :: Says(native, given[..k], NeedMore)
  }

  /** A call that has not failed ends with the first answer of the native decoder that asks for no more, or without one. */
  predicate Ends(native: seq<seq<Byte>> -> Native, from: nat, given: seq<seq<Byte>>, result: Result) {
    if AsksOn(native, from, given) then result.NeedMore? || result.EndOfStream?
    else from < |given| && AsksOn(native, from, given[..|given| - 1]) && Says(native, given, result)
  }

  /** One more piece was passed on, and this was the answer. */
  predicate Passed(native: seq<seq<Byte>> -> Native, before: seq<seq<Byte>>, given: seq<seq<Byte>>, result: Result) {
    |given| == |before| + 1 && before <= given && Says(native, given, result)
  }

  lemma AsksMore(native: seq<seq<Byte>> -> Native, from: nat, before: seq<seq<Byte>>, given: seq<seq<Byte>>)
    requires AsksOn(native, from, before) && (given == before || Passed(native, before, given, NeedMore))
    ensures AsksOn(native, from, given)
  {
    hide Says;
    forall k | from < k <= |given|
      ensures Says(native, given[..k], NeedMore)
    {
      assert given[..k] == if k <= |before| then before[..k] else given;
    }
  }

  lemma AsksNothing(native: seq<seq<Byte>> -> Native, given: seq<seq<Byte>>)
    ensures AsksOn(native, |given|, given)
  {
  }

  lemma EndsHere(native: seq<seq<Byte>> -> Native, from: nat, before: seq<seq<Byte>>, given: seq<seq<Byte>>, result: Result)
    requires AsksOn(native, from, before)
    requires if given == before then result.NeedMore? || result.EndOfStream? else Passed(native, before, given, result) && !result.NeedMore?
    ensures Ends(native, from, given, result)
  {
    if given != before {
      assert given[..|given| - 1] == before && given[..|given|] == given;
      assert !Says(native, given[..|given|], NeedMore);
    }
  }

  /** What a turn of the loop does for the account of the answers */
  lemma TurnOver(native: seq<seq<Byte>> -> Native, from: nat, before: seq<seq<Byte>>, given: seq<seq<Byte>>, on: bool, result: Result)
    requires AsksOn(native, from, before) && (on ==> given == before || Passed(native, before, given, NeedMore))
    requires !on && !result.Failed() ==>
      if given == before then result.NeedMore? || result.EndOfStream? else Passed(native, before, given, result) && !result.NeedMore?
    ensures if on then AsksOn(native, from, given) else result.Failed() || Ends(native, from, given, result)
  {
    hide AsksOn, Ends, Passed;
    if on {
      AsksMore(native, from, before, given);
    } else if !result.Failed() {
      EndsHere(native, from, before, given, result);
    }
  }

  class OggFlacDecoder {
    const demuxer: OggDemuxer
    var detect: seq<Byte>
    var prefixConsumed: nat
    var prefixDone: bool
    var eosSeen: bool
    /** What the native decoder was given, call by call: all that its answers depend on. */
    var given: seq<seq<Byte>>
    /** The bytes of all slices, and the prefix that was taken off. */
    ghost var slices: seq<Byte>
    ghost var prefix: seq<Byte>

    ghost predicate Valid()
      reads this, demuxer, demuxer.staging, demuxer.Buffers()
    {
      && demuxer.Valid() && Conforms() && !Conflicts(demuxer.Model(), DataMode)
      && (detect != [] ==> demuxer.Model() == RESET && |detect| == 4 && prefixConsumed == 0)
    }

    /** The bytes are accounted for. */
    ghost predicate Conforms()
      reads this
    {
      && slices == prefix + Flat(given) && GoodPrefix(prefix) && |prefix| == prefixConsumed
      && (prefixDone <==> prefixConsumed == PREFIX_LEN) && (!prefixDone ==> given == [])
    }

    /** The bytes of the slices in order: the prefix first, whole when anything is given on. */
    ghost predicate Split()
      reads `slices, `prefix, `given
    {
      prefix + Flat(given) <= slices && |prefix| <= PREFIX_LEN && (given != [] ==> |prefix| == PREFIX_LEN)
    }

    /** The detection of the container has taken the first four bytes. */
    constructor (d: OggDemuxer, first: seq<Byte>)
      requires d.Valid() && d.Model() == RESET && |first| == 4
      ensures Valid() && slices == [] && prefix == [] && given == [] && detect == first && demuxer == d && d.Model() == RESET
      ensures !eosSeen
    {
      demuxer := d;
      detect := first;
      prefixConsumed, prefixDone, eosSeen := 0, false, false;
      slices, prefix, given := [], [], [];
    }

    /** The run of which this is the demuxer, with the slices that the decoder has got and this input ahead. */
    ghost predicate Stands(run: Run, input: seq<Byte>)
      reads this, demuxer, demuxer.staging, demuxer.Buffers()
      requires demuxer.Shape()
    {
      demuxer.Model() == run.state && slices == Taken(run.got) && detect + input <= run.rest
    }

    /** The demuxer is not touched when the detected bytes are forgotten. */
    method ForgetDetected()
      modifies `detect
      ensures detect == []
      ensures old(demuxer.Valid()) ==> demuxer.Valid() && demuxer.Shape() && demuxer.Model() == old(demuxer.Model())
    {
      hide Inv, Owned, OggDemuxer.PageSet;
      detect := [];
    }

    /** The first four bytes go to the demuxer once. */
    method FeedDetected(input: seq<Byte>, ghost run: Run) returns (ok: bool, ghost calls: seq<Call>)
      requires Valid() && demuxer.Shape() && Stands(run, input)
      modifies `detect, demuxer, demuxer.staging
      ensures OnlyData(calls) && |calls| <= 1 && (prefixConsumed > 0 ==> calls == []) && Taken(Play(demuxer.Settings(), run, calls).got) == slices
      ensures ok ==> Valid() && demuxer.Shape() && detect == [] && Stands(Play(demuxer.Settings(), run, calls), input)
      ensures ok ==> Play(demuxer.Settings(), run, calls).rest == run.rest[|old(detect)|..]
      ensures ok ==> Left(Play(demuxer.Settings(), run, calls)) <= Left(run)
      ensures ok && old(detect) != [] ==> Left(Play(demuxer.Settings(), run, calls)) < Left(run)
      ensures !ok ==> Refuses(Play(demuxer.Settings(), run, calls).codes)
      ensures ok ==> !SawEndSlice(demuxer.Settings(), run, calls)
      ensures demuxer.buffer == old(demuxer.buffer)
    {
      hide Inv, Owned, NextData, OggDemuxer.PageSet, OggDemuxer.Model, Conflicts, Play, One, Taken, Left, ReplyTo, SawEndSlice;
      NothingSeen(demuxer.Settings(), run);
      ok, calls := true, [];
      ghost var c := demuxer.Settings();
      PlayFirst(c, run, []);
      AheadOf(detect, input, run.rest);
      if prefixConsumed == 0 && !prefixDone {
        NoConflict(c, demuxer.Model(), detect);
        DetectionTaken(c, demuxer.Model(), detect);
        OneData(c, run, detect);
        var r := demuxer.GetNextData(detect);
        calls := [AskData(|detect|)];
        PlayFirst(c, run, calls);
        PlayFirst(c, One(c, run, calls[0]), []);
        SawOne(c, run, calls[0]);
        assert calls[1..] == [] && slices + [] == slices && [] + input == input;
        ok := r.code == NeedMoreData || r.code == OggSteps.Ok;
        ForgetDetected();
      }
    }

    /** Takes the prefix off, byte by byte, as far as the slice goes. */
    method StripPrefix(body: seq<Byte>) returns (ok: bool, rest: seq<Byte>)
      requires slices == prefix + body && GoodPrefix(prefix) && |prefix| == prefixConsumed && prefixConsumed < PREFIX_LEN && given == []
      modifies `prefixConsumed, `prefix
      ensures GoodPrefix(prefix) && |prefix| == prefixConsumed && slices == prefix + rest
      ensures if ok then prefixConsumed < PREFIX_LEN ==> rest == [] else !Marked(slices)
    {
      ok, rest := true, body;
      while prefixConsumed < PREFIX_LEN && |rest| > 0
        invariant slices == prefix + rest && GoodPrefix(prefix) && |prefix| == prefixConsumed
      {
        if prefixConsumed < 6 && rest[0] != PREFIX[prefixConsumed] {
          assert slices[prefixConsumed] == rest[0];
          return false, rest;
        }
        assert prefix + rest == prefix + [rest[0]] + rest[1..];
        prefix := prefix + [rest[0]];
        prefixConsumed := prefixConsumed + 1;
        rest := rest[1..];
      }
    }

    /** A slice is stripped of what it has of the prefix. */
    method Enter(data: seq<Byte>) returns (ok: bool, body: seq<Byte>)
      requires Conforms()
      modifies `slices, `prefixConsumed, `prefix, `prefixDone
      ensures slices == old(slices) + data && Split()
      ensures !ok ==> !Marked(slices)
      ensures ok ==>
        && slices == prefix + Flat(given) + body && GoodPrefix(prefix) && |prefix| == prefixConsumed
        && (prefixDone <==> prefixConsumed == PREFIX_LEN) && (!prefixDone ==> given == [] && body == [])
    {
      ok, body := true, data;
      slices := slices + data;
      if !prefixDone {
        assert prefix + [] == prefix;
        ok, body := StripPrefix(data);
        prefixDone := ok && prefixConsumed == PREFIX_LEN;
        assert ok ==> prefix + Flat(given) + body == prefix + body;
      }
    }

    /** decode_native, which may be anything that depends on what it was given */
    method Give(body: seq<Byte>, native: seq<seq<Byte>> -> Native) returns (reply: Native)
      requires slices == prefix + Flat(given) + body && GoodPrefix(prefix) && |prefix| == prefixConsumed && prefixDone
      requires prefixConsumed == PREFIX_LEN
      modifies `given
      ensures Conforms() && given == old(given) + [body] && reply == native(given)
    {
      FlatEnd(given, body);
      given := given + [body];
      assert slices == prefix + (Flat(old(given)) + body);
      reply := native(given);
    }

    /** One slice, or the news that there is none: whether to go on, and otherwise the answer. */
    method Handle(r: Reply, native: seq<seq<Byte>> -> Native, atEnd: bool) returns (on: bool, result: Result)
      requires Conforms()
      requires r.code != OggSteps.Ok ==> r.data == []
      modifies `eosSeen, `slices, `prefixConsumed, `prefix, `prefixDone, `given
      ensures on ==> Conforms() && (r.data == [] ==> !atEnd)
      ensures !on && !result.Failed() ==> Conforms()
      ensures !on && result.NeedMore? ==> atEnd
      ensures slices == old(slices) + r.data && Split()
      ensures result.BadHeader? ==> !Marked(slices)
      ensures result.DemuxError? && TakesAll(native) ==> r.code != OggSteps.Ok && r.code != NeedMoreData
      ensures result.NativeError? ==> given != [] && native(given).result.Failed()
      ensures eosSeen == (old(eosSeen) || EndsStream(r)) && (!on && result.EndOfStream? ==> eosSeen || Says(native, given, EndOfStream))
      ensures !on && result.NeedMore? && r.code == NeedMoreData ==> !eosSeen
      ensures old(given) <= given
      ensures on ==> given == old(given) || Passed(native, old(given), given, NeedMore)
      ensures !on && !result.Failed() ==>
        if given == old(given) then result.NeedMore? || result.EndOfStream?
        else Passed(native, old(given), given, result) && !result.NeedMore?
    {
      on, result := true, NeedMore;
      if r.code == NeedMoreData {
        assert slices + [] == slices;
        if eosSeen {
          return false, EndOfStream;
        }
        return !atEnd, NeedMore;
      }
      if r.code != OggSteps.Ok {
        return false, DemuxError;
      }
      if r.isEos && r.isLast {
        eosSeen := true;
      }
      if |r.data| == 0 {
        assert slices + [] == slices;
        return !atEnd, NeedMore;
      }
      var ok, body := Enter(r.data);
      if !ok {
        return false, BadHeader;
      }
      if |body| == 0 {
        assert slices == prefix + Flat(given);
        return true, NeedMore;
      }
      var reply := Give(body, native);
      if reply.consumed != |body| {
        return false, DemuxError;
      }
      on, result := reply.result.NeedMore?, if reply.result.Failed() then NativeError else reply.result;
    }

    /** The next slice of what is left of the input: the next call of the run. */
    method NextSlice(rest: seq<Byte>, ghost run: Run) returns (r: Reply)
      requires Valid() && demuxer.Shape() && detect == [] && Stands(run, rest)
      modifies demuxer, demuxer.staging
      ensures r.used <= |rest|
      ensures !r.code.IsError() ==> Valid() && demuxer.Shape() && |r.data| <= r.used && (r.code != OggSteps.Ok ==> r.data == [])
      ensures var next := One(demuxer.Settings(), run, AskData(|rest|));
        && next.codes == run.codes + [r.code]
        && if r.code.IsError() then Taken(next.got) == slices
           else
             && r == ReplyTo(demuxer.Settings(), run, AskData(|rest|))
             && demuxer.Model() == next.state && next.rest == run.rest[r.used..] && Taken(next.got) == slices + r.data
             && Left(next) <= Left(run) && (rest != [] ==> Left(next) < Left(run))
    {
      hide Inv, Owned, NextData, OggDemuxer.PageSet, Conflicts, Left, OggDemuxer.Model, One, Taken,
           ReplyTo;
      ghost var c := demuxer.Settings();
      UsedWithin(c, demuxer.Model(), rest);
      DataWithin(c, demuxer.Model(), rest);
      NoConflict(c, demuxer.Model(), rest);
      OneData(c, run, rest);
      r := demuxer.GetNextData(rest);
      assert slices + [] == slices;
    }

    lemma Shaped()
      requires Valid()
      ensures demuxer.Shape()
    {
    }

    /** The demuxer is not touched when a slice is handled. */
    method Process(r: Reply, native: seq<seq<Byte>> -> Native, atEnd: bool) returns (on: bool, result: Result)
      requires Valid() && detect == [] && (r.code != OggSteps.Ok ==> r.data == [])
      modifies `eosSeen, `slices, `prefixConsumed, `prefix, `prefixDone, `given
      ensures on || !result.Failed() ==> Valid()
      ensures demuxer.Shape() && demuxer.Model() == old(demuxer.Model())
      ensures on ==> r.data == [] ==> !atEnd
      ensures !on && result.NeedMore? ==> atEnd
      ensures slices == old(slices) + r.data && Split()
      ensures result.BadHeader? ==> !Marked(slices)
      ensures result.DemuxError? && TakesAll(native) ==> r.code != OggSteps.Ok && r.code != NeedMoreData
      ensures result.NativeError? ==> given != [] && native(given).result.Failed()
      ensures eosSeen == (old(eosSeen) || EndsStream(r)) && (!on && result.EndOfStream? ==> eosSeen || Says(native, given, EndOfStream))
      ensures !on && result.NeedMore? && r.code == NeedMoreData ==> !eosSeen
      ensures old(given) <= given
      ensures on ==> given == old(given) || Passed(native, old(given), given, NeedMore)
      ensures !on && !result.Failed() ==>
        if given == old(given) then result.NeedMore? || result.EndOfStream?
        else Passed(native, old(given), given, result) && !result.NeedMore?
    {
      hide Inv, Owned, Conflicts, OggDemuxer.PageSet, OggFlacDecoder.Conforms, TakesAll, Marked, Passed;
      on, result := Handle(r, native, atEnd);
    }

    /** One turn of the loop of decode_ogg: one call of the demuxer, and what it answers. */
    method Turn(rest: seq<Byte>, native: seq<seq<Byte>> -> Native, ghost run: Run) returns (on: bool, result: Result, used: nat)
      requires Valid() && demuxer.Shape() && detect == [] && Stands(run, rest) && Split()
      modifies this, demuxer, demuxer.staging
      ensures used <= |rest| && detect == [] && (on ==> rest != []) && (!on && result.NeedMore? ==> used == |rest|)
      ensures old(given) <= given
      ensures on ==> given == old(given) || Passed(native, old(given), given, NeedMore)
      ensures !on && !result.Failed() ==>
        if given == old(given) then result.NeedMore? || result.EndOfStream?
        else Passed(native, old(given), given, result) && !result.NeedMore?
      ensures var next := One(demuxer.Settings(), run, AskData(|rest|));
        && slices == Taken(next.got) && Split()
        && (on || !result.Failed() ==>
             && Valid() && demuxer.Shape() && demuxer.Model() == next.state && next.rest == run.rest[used..] && slices == prefix + Flat(given)
             && Left(next) <= Left(run) && (rest != [] ==> Left(next) < Left(run)))
        && (!on && result.BadHeader? ==> !Marked(slices))
        && (!on && result.DemuxError? && TakesAll(native) ==> Refuses(next.codes))
      ensures !on && result.NativeError? ==> given != [] && native(given).result.Failed()
      ensures !on && result.EndOfStream? ==> eosSeen || Says(native, given, EndOfStream)
      ensures on || !result.Failed() ==> eosSeen == (old(eosSeen) || EndsStream(ReplyTo(demuxer.Settings(), run, AskData(|rest|))))
      ensures !on && result.NeedMore? && eosSeen ==> Last(One(demuxer.Settings(), run, AskData(|rest|)).codes) != NeedMoreData
    {
      hide Inv, Owned, NextData, OggDemuxer.PageSet, OggDemuxer.Model, Conflicts, Left, Conforms, Valid, One, Taken, TakesAll, Marked,
           Passed, OggDemuxer.Shape, Split, EndsStream, ReplyTo, Says;
      var r := NextSlice(rest, run);
      used := r.used;
      if r.code.IsError() {
        return false, DemuxError, used;
      }
      on, result := Process(r, native, used >= |rest|);
      Accounted();
    }

    /** The loop of decode_ogg */
    method Turns(input: seq<Byte>, native: seq<seq<Byte>> -> Native, ghost run: Run)
        returns (result: Result, used: nat, ghost calls: seq<Call>)
      requires Valid() && demuxer.Shape() && detect == [] && Stands(run, input) && Split()
      modifies this, demuxer, demuxer.staging
      ensures used <= |input| && detect == [] && (result.NeedMore? ==> used == |input|) && OnlyData(calls)
      ensures old(given) <= given && (!result.Failed() ==> Ends(native, |old(given)|, given, result))
      ensures var next := Play(demuxer.Settings(), run, calls);
        && slices == Taken(next.got) && Split()
        && (!result.Failed() ==>
             && Valid() && demuxer.Shape() && demuxer.Model() == next.state && next.rest == run.rest[used..] && slices == prefix + Flat(given)
             && Left(next) <= Left(run) && (input != [] ==> Left(next) < Left(run)))
        && (result.BadHeader? ==> !Marked(slices))
        && (result.DemuxError? && TakesAll(native) ==> Refuses(next.codes))
      ensures result.NativeError? ==> given != [] && native(given).result.Failed()
      ensures result.EndOfStream? ==> eosSeen || Says(native, given, EndOfStream)
      ensures !result.Failed() ==> eosSeen == (old(eosSeen) || SawEnd(demuxer.Settings(), run, calls))
      ensures result.NeedMore? && eosSeen ==> Last(Play(demuxer.Settings(), run, calls).codes) != NeedMoreData
    {
      hide Inv, Owned, NextData, OggDemuxer.PageSet, OggDemuxer.Model, Conflicts, Left, Conforms, Valid, Play, One, Taken, TakesAll, Marked,
           AsksOn, Ends, Passed, OggDemuxer.Shape, Split, Refuses, SawEnd, SawEndSlice, EndsStream, ReplyTo, Says, OnlyData;
      ghost var c, now := demuxer.Settings(), run;
      used, calls := 0, [];
      PlayFirst(c, run, []);
      NothingSeen(c, run);
      AsksNothing(native, given);
      while true
        invariant Valid() && demuxer.Shape() && detect == [] && used <= |input| && old(given) <= given && AsksOn(native, |old(given)|, given)
        invariant OnlyData(calls) && now == Play(c, run, calls) && Stands(now, input[used..]) && Split()
        invariant eosSeen == (old(eosSeen) || SawEnd(c, run, calls))
        invariant now.rest == run.rest[used..] && Left(now) <= Left(run) && (calls != [] ==> Left(now) < Left(run))
        decreases Left(now)
      {
        ghost var before := given;
        OneMore(c, run, calls, |input| - used);
        var on, n;
        on, result, n := Turn(input[used..], native, now);
        TurnOver(native, |old(given)|, before, given, on, result);
        calls := calls + [AskData(|input| - used)];
        now := Play(c, run, calls);
        Behind(input, run.rest, used, n);
        used := used + n;
        if !on {
          return;
        }
      }
    }

    /** decode_ogg, in any run whose state is that of the demuxer: it makes the next calls of the run, and the native
        decoder has got, behind the prefix and in order, just the bytes of the slices that they return. It ends on every
        input, and where it asks for more it has taken all that there was. */
    method DecodeOgg(input: seq<Byte>, native: seq<seq<Byte>> -> Native, ghost run: Run)
        returns (result: Result, used: nat, ghost calls: seq<Call>)
      requires Valid() && demuxer.Shape() && Stands(run, input)
      modifies this, demuxer, demuxer.staging
      ensures used <= |input| && (result.NeedMore? ==> used == |input|)
      ensures old(given) <= given && (!result.Failed() ==> Ends(native, |old(given)|, given, result))
      ensures var next := Play(demuxer.Settings(), run, calls);
        && OnlyData(calls) && slices == Taken(next.got) && Split()
        && (!result.Failed() ==>
             && Valid() && demuxer.Shape() && detect == [] && demuxer.Model() == next.state
             && next.rest == run.rest[|old(detect)| + used..] && slices == prefix + Flat(given)
             && (old(detect) + input != [] ==> Left(next) < Left(run)))
        && (result.BadHeader? ==> !Marked(slices))
        && (result.DemuxError? && TakesAll(native) ==> Refuses(next.codes))
      ensures result.NativeError? ==> given != [] && native(given).result.Failed()
      ensures result.EndOfStream? ==> eosSeen || Says(native, given, EndOfStream)
      ensures !result.Failed() && eosSeen ==> old(eosSeen) || SawEnd(demuxer.Settings(), run, calls)
      ensures !result.Failed() && (old(eosSeen) || (old(prefixConsumed) > 0 && SawEnd(demuxer.Settings(), run, calls))) ==> eosSeen
      ensures !result.Failed() && SawEndSlice(demuxer.Settings(), run, calls) ==> eosSeen
      ensures result.NeedMore? && eosSeen ==> Last(Play(demuxer.Settings(), run, calls).codes) != NeedMoreData
    {
      hide Inv, Owned, NextData, OggDemuxer.PageSet, OggDemuxer.Model, Conflicts, Left, Conforms, Valid, Play, One, Taken, TakesAll, Marked,
           AsksOn, Ends, Passed, OggDemuxer.Shape, Split, Refuses, SawEnd, SawEndSlice, EndsStream, ReplyTo, Says;
      ghost var c := demuxer.Settings();
      Accounted();
      var ok;
      ok, calls := FeedDetected(input, run);
      if !ok {
        return DemuxError, 0, calls;
      }
      ghost var more;
      result, used, more := Turns(input, native, Play(c, run, calls));
      PlayOn(c, run, calls, more);
      NothingSeen(c, run);
      SawJoins(c, run, calls, more);
      SawSliceEnds(c, Play(c, run, calls), more);
      calls := calls + more;
    }

    lemma Divided()
      requires Split()
      ensures prefix + Flat(given) <= slices && |prefix| <= PREFIX_LEN && (given != [] ==> |prefix| == PREFIX_LEN)
    {
    }

    lemma Accounted()
      ensures Valid() ==> slices == prefix + Flat(given) && Split()
    {
    }
  }
}
