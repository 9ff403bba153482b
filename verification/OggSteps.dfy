/** One call of the Ogg demuxer as a step on plain values: what it returns and the state it leaves. */
module OggSteps {
  import opened Bits
  import opened OggFormat
  import Crc32

  datatype Code =
    | Ok | NeedMoreData | PacketSkipped
    | InvalidCapture | InvalidVersion | CrcFailed | SequenceError | BosError | EosError | SerialMismatch
    | ContinuationError | InvalidModeSwitch
  {
    predicate IsError() {
      !Ok? && !NeedMoreData? && !PacketSkipped?
    }
  }

  datatype Mode = Unset | PacketMode | DataMode

  datatype Stage = ExpectHeader | AccumulatingHeader | Processing

  /** The bytes of a packet on a page: how many, whether it ends there, and how many lacing values. */
  datatype Span = Span(size: nat, complete: bool, count: nat)

  const NO_SPAN := Span(0, false, 0)

  datatype PageHeader = PageHeader(flags: Byte, granule: int, serial: nat, sequence: nat, checksum: nat, table: seq<Byte>) {
    predicate Has(flag: Byte) {
      flags & flag != 0
    }

    predicate EndsOpen() {
      table != [] && table[|table| - 1] == 255
    }
  }

  const NO_PAGE := PageHeader(0, 0, 0, 0, 0, [])

  datatype Config = Config(maxBuffer: nat, crcOn: bool)

  /** A page being consumed: its header, the lacing value at the cursor, the body bytes consumed, the open span,
      and what the CRC covers so far, which is the header with its checksum zeroed and those body bytes. */
  datatype Cursor = Cursor(page: PageHeader, index: nat, consumed: nat, span: Span, spanLeft: nat, spanActive: bool,
                           crc: bv32, seen: seq<Byte>)
  {
    /** The cursor is past every lacing value. */
    predicate AtEnd() {
      index >= |page.table|
    }

    /** close_packet_span */
    function Advance(over: Span): Cursor {
      Cursor(page, index + over.count, consumed, NO_SPAN, 0, false, crc, seen)
    }

    /** Takes body bytes: the CRC and the count of consumed bytes. */
    function Eat(c: Config, d: seq<Byte>): Cursor {
      Cursor(page, index, consumed + |d|, span, spanLeft, spanActive,
             if c.crcOn then Crc32.ByTable(Crc32.Table, crc, d) else crc, seen + d)
    }

    /** A span with this many bytes left. */
    function Open(s: Span, left: nat): Cursor {
      Cursor(page, index, consumed, s, left, true, crc, seen)
    }

    /** The open span, or the one that starts at the cursor. */
    function Resumed(): Cursor {
      if spanActive then this
      else Open(Scan(page.table, index), Scan(page.table, index).size)
    }

    predicate CrcMatches(c: Config) {
      c.crcOn ==> crc as nat == page.checksum
    }
  }

  const NO_CURSOR := Cursor(NO_PAGE, 0, 0, NO_SPAN, 0, false, 0, [])

  /** A packet on its way: what is assembled of it, whether it is skipped, and the first-page mark for the next one. */
  datatype Job = Job(assembly: seq<Byte>, assembling: bool, skipping: bool, isBos: bool, bosUsed: bool)

  /** What the next page must agree with. */
  datatype Link = Link(prevContinued: bool, serial: nat, expected: nat, initialized: bool)

  datatype State = State(stage: Stage, staged: seq<Byte>, cur: Cursor, job: Job, link: Link, mode: Mode)

  /** reset */
  const RESET := State(ExpectHeader, [], NO_CURSOR, Job([], false, false, false, false), Link(false, 0, 0, false), Unset)

  const INVALID_GRANULE := -1

  datatype Reply = Reply(code: Code, used: nat, data: seq<Byte>, granule: int, isBos: bool, isEos: bool, isLast: bool, isEnd: bool)

  function Nothing(code: Code, used: nat): Reply {
    Reply(code, used, [], INVALID_GRANULE, false, false, false, false)
  }

  // Spans and pages.

  /** scan_for_next_packet: the span that starts at lacing value i. */
  function Scan(table: seq<Byte>, i: nat): (s: Span)
    ensures i < |table| ==> 1 <= s.count <= |table| - i
    decreases |table| - i
  {
    if i >= |table| then NO_SPAN
    else if table[i] < 255 then Span(table[i] as nat, true, 1)
    else
      var rest := Scan(table, i + 1);
      Span(255 + rest.size, rest.complete, 1 + rest.count)
  }

  /** finalize_page, where the checksum matches */
  function Finalized(s: State): State {
    s.(stage := ExpectHeader, cur := NO_CURSOR, link := s.link.(prevContinued := s.cur.page.EndsOpen()))
  }

  /** Finalizes the page and answers, or reports the mismatch. */
  function Finish(c: Config, s: State, reply: Reply): (State, Reply) {
    if s.cur.CrcMatches(c) then (Finalized(s), reply) else (s, Nothing(CrcFailed, reply.used))
  }

  /** Answers, after the page if the cursor is past its end. */
  function Answer(c: Config, s: State, reply: Reply): (State, Reply) {
    if s.cur.AtEnd() then Finish(c, s, reply) else (s, reply)
  }

  // Modes.

  predicate BetweenPackets(s: State) {
    if s.job.assembling || s.job.skipping || s.cur.spanActive then false
    else if s.stage != Processing || s.cur.index == 0 then !s.link.prevContinued
    else true
  }

  /** enforce_mode refuses. */
  predicate Conflicts(s: State, mode: Mode) {
    s.mode != Unset && s.mode != mode && !BetweenPackets(s)
  }

  // Headers.

  datatype Parsed = Incomplete | Bad(code: Code) | Parsed(header: PageHeader, size: nat)

  /** parse_page_header */
  function ParseHeader(h: seq<Byte>): (r: Parsed)
    ensures r.Parsed? ==> r.size <= |h|
    ensures r.Bad? ==> r.code.IsError()
  {
    if |h| < HEADER_SIZE then Incomplete
    else if h[..4] != [0x4F, 0x67, 0x67, 0x53] then Bad(InvalidCapture)
    else if h[4] != 0 then Bad(InvalidVersion)
    else
      var size := HEADER_SIZE + h[COUNT_AT] as nat;
      if |h| < size then Incomplete
      else Parsed(PageHeader(h[5], Signed64(Little(h[6..14])), Little(h[14..18]), Little(h[18..22]), Little(h[22..26]),
                             h[HEADER_SIZE..size]), size)
  }

  /** validate_stream_consistency, for a page that has been parsed; the error, or Ok. */
  function Consistency(l: Link, h: PageHeader): (code: Code)
    ensures code == Ok || code.IsError()
  {
    if !l.initialized && !h.Has(FIRST) then BosError
    else if l.initialized && h.Has(FIRST) then BosError
    else if l.initialized && h.serial != l.serial then SerialMismatch
    else if l.initialized && h.sequence != l.expected then SequenceError
    else if h.Has(CONTINUED) != l.prevContinued then ContinuationError
    else if h.Has(LAST) && h.EndsOpen() then EosError
    else Ok
  }

  datatype HeaderStep = Stop(state: State, reply: Reply) | Entered(state: State, used: nat)

  function Zeroed(h: seq<Byte>): (z: seq<Byte>)
    requires HEADER_SIZE <= |h|
    ensures |z| == |h|
  {
    h[..CHECKSUM_AT] + [0, 0, 0, 0] + h[CHECKSUM_AT + 4..]
  }

  /** The part of handle_page_header that has a whole header, of these bytes. */
  function Accept(c: Config, s: State, h: PageHeader, bytes: seq<Byte>, used: nat): HeaderStep
    requires HEADER_SIZE <= |bytes|
  {
    var code := Consistency(s.link, h);
    if !code.Ok? then Stop(s, Nothing(code, 0))
    else
      var crc := if c.crcOn then Crc32.ByTable(Crc32.Table, 0, Zeroed(bytes)) else 0;
      var s1 := s.(link := Link(s.link.prevContinued, h.serial, Sequel(h.sequence), true), staged := []);
      if h.table == [] then
        if c.crcOn && crc as nat != h.checksum then Stop(s1, Nothing(CrcFailed, 0))
        else Stop(s1.(stage := ExpectHeader), Nothing(NeedMoreData, used))
      else
        var first := h.Has(FIRST) && !s.job.bosUsed;
        Entered(s1.(stage := Processing, cur := Cursor(h, 0, 0, NO_SPAN, 0, false, crc, Zeroed(bytes)),
                    job := s.job.(isBos := first, bosUsed := s.job.bosUsed || first)), used)
  }

  function Min(a: nat, b: nat): nat {
    if a < b then a else b
  }

  /** How many input bytes the staging takes: up to the fixed part of the header, then up to its end. */
  function StagedCount(staged: seq<Byte>, input: seq<Byte>): (n: nat)
    ensures n <= |input|
  {
    var a := if |staged| < HEADER_SIZE then Min(|input|, HEADER_SIZE - |staged|) else 0;
    var first := staged + input[..a];
    if |first| < HEADER_SIZE then a
    else
      var full := HEADER_SIZE + first[COUNT_AT] as nat;
      a + if |first| < full then Min(|input| - a, full - |first|) else 0
  }

  predicate WholeHeader(h: seq<Byte>) {
    HEADER_SIZE <= |h| && HEADER_SIZE + h[COUNT_AT] as nat <= |h|
  }

  /** handle_page_header, without its zero-copy attempt */
  function HeaderStage(c: Config, s: State, input: seq<Byte>): HeaderStep {
    if s.staged == [] then
      match ParseHeader(input)
      case Incomplete =>
        var n := Min(|input|, MAX_HEADER);
        Stop(s.(stage := AccumulatingHeader, staged := input[..n]), Nothing(NeedMoreData, n))
      case Bad(code) => Stop(s, Nothing(code, 0))
      case Parsed(h, size) => Accept(c, s, h, input[..size], size)
    else
      var n := StagedCount(s.staged, input);
      var staged := s.staged + input[..n];
      if !WholeHeader(staged) then Stop(s.(staged := staged), Nothing(NeedMoreData, n))
      else
        match ParseHeader(staged)
        case Incomplete => Stop(s.(staged := staged), Nothing(NeedMoreData, n))
        case Bad(code) => Stop(s.(staged := staged), Nothing(code, 0))
        case Parsed(h, size) => Accept(c, s, h, staged, n)
  }

  // Streaming.

  function NextData(c: Config, s: State, input: seq<Byte>): (State, Reply) {
    if Conflicts(s, DataMode) then (s, Nothing(InvalidModeSwitch, 0))
    else
      var s1 := s.(mode := DataMode);
      if s.stage == Processing then Offer(c, s1, input, 0)
      else
        match HeaderStage(c, s1, input)
        case Stop(s2, reply) => (s2, reply)
        case Entered(s2, used) =>
          if used >= |input| then (s2, Nothing(NeedMoreData, used)) else Offer(c, s2, input[used..], used)
  }

  /** offer_body_data */
  function Offer(c: Config, s: State, body: seq<Byte>, head: nat): (State, Reply) {
    if s.cur.spanActive then Slice(c, s, s.cur.span, s.cur.spanLeft, body, head) else Settle(c, s, body, head)
  }

  /** Rests the cursor on the next span that has bytes. */
  function Settle(c: Config, s: State, body: seq<Byte>, head: nat): (State, Reply)
    decreases |s.cur.page.table| - s.cur.index
  {
    if s.cur.AtEnd() then Finish(c, s, Nothing(NeedMoreData, head))
    else
      var span := Scan(s.cur.page.table, s.cur.index);
      if span.size > 0 then Slice(c, s, span, span.size, body, head)
      else
        var next := s.(cur := s.cur.Advance(span));
        if s.cur.index == 0 && s.link.prevContinued then
          Answer(c, next.(job := s.job.(isBos := false)),
                 Reply(Ok, head, [], s.cur.page.granule, s.job.isBos, s.cur.page.Has(LAST), next.cur.AtEnd(), true))
        else Settle(c, next, body, head)
  }

  /** Offers bytes of a span of which this many are left. */
  function Slice(c: Config, s: State, span: Span, left: nat, body: seq<Byte>, head: nat): (State, Reply) {
    var n := Min(|body|, left);
    if n == 0 then (s, Nothing(NeedMoreData, head))
    else
      var eaten := s.cur.Eat(c, body[..n]);
      var next := s.(cur := if n == left then eaten.Advance(span) else eaten.Open(span, left - n), job := s.job.(isBos := false));
      var last := next.cur.consumed >= Sum(s.cur.page.table);
      var reply := Reply(Ok, head + n, body[..n], s.cur.page.granule, s.job.isBos, s.cur.page.Has(LAST), last, span.complete && n == left);
      if last then Finish(c, next, reply) else (next, reply)
  }

  // Packets.

  function NextPacket(c: Config, s: State, input: seq<Byte>): (State, Reply) {
    if Conflicts(s, PacketMode) then (s, Nothing(InvalidModeSwitch, 0))
    else
      var s1 := s.(mode := PacketMode);
      if s.stage == Processing then
        if s.job.skipping then Skip(c, s1, input)
        else if s.job.assembling then Assemble(c, s1, input)
        else Extract(c, s1, input)
      else
        match HeaderStage(c, s1, input)
        case Stop(s2, reply) => (s2, reply)
        case Entered(s2, used) => FirstPacket(c, s2, input, used)
  }

  /** The zero-copy attempt of handle_page_header */
  function FirstPacket(c: Config, s: State, input: seq<Byte>, used: nat): (State, Reply) {
    var first := Scan(s.cur.page.table, 0);
    if used < |input| && !s.job.assembling && !s.job.skipping && first.complete && |input| - used >= first.size then
      ZeroCopy(c, s, first, input[used..], used)
    else (s, Nothing(NeedMoreData, used))
  }

  /** handle_skipping_packet */
  function Skip(c: Config, s: State, input: seq<Byte>): (State, Reply) {
    var cur := s.cur.Resumed();
    var n := Min(|input|, cur.spanLeft);
    var eaten := cur.Eat(c, input[..n]);
    if n < cur.spanLeft then (s.(cur := eaten.Open(cur.span, cur.spanLeft - n)), Nothing(NeedMoreData, n))
    else
      var next := s.(cur := eaten.Advance(cur.span));
      if !cur.span.complete then Finish(c, next, Nothing(NeedMoreData, n))
      else Answer(c, next.(job := s.job.(skipping := false)), Nothing(PacketSkipped, n).(isLast := next.cur.AtEnd()))
  }

  /** handle_assembling_packet */
  function Assemble(c: Config, s: State, input: seq<Byte>): (State, Reply) {
    var cur := s.cur.Resumed();
    var n := Min(|input|, cur.spanLeft);
    if cur.spanLeft == 0 then Flush(c, s.(cur := cur.Advance(cur.span)), 0)
    else if n == 0 then (s.(cur := cur), Nothing(NeedMoreData, 0))
    else if |s.job.assembly| + n > c.maxBuffer then
      Skip(c, s.(cur := cur, job := s.job.(skipping := true, assembling := false, assembly := [])), input)
    else
      var eaten := cur.Eat(c, input[..n]);
      var job := s.job.(assembly := s.job.assembly + input[..n]);
      if n < cur.spanLeft then (s.(cur := eaten.Open(cur.span, cur.spanLeft - n), job := job), Nothing(NeedMoreData, n))
      else
        var next := s.(cur := eaten.Advance(cur.span), job := job);
        if cur.span.complete then Flush(c, next, n) else Finish(c, next, Nothing(NeedMoreData, n))
  }

  /** return_assembled_packet */
  function Flush(c: Config, s: State, used: nat): (State, Reply) {
    var last := s.cur.AtEnd();
    Answer(c, s.(job := s.job.(isBos := false, assembling := false, assembly := [])),
           Reply(Ok, used, s.job.assembly, if last then s.cur.page.granule else INVALID_GRANULE, s.job.isBos,
                 last && s.cur.page.Has(LAST), last, true))
  }

  /** handle_zero_copy_path */
  function Extract(c: Config, s: State, input: seq<Byte>): (State, Reply) {
    var next := Scan(s.cur.page.table, s.cur.index);
    if next.complete && |input| >= next.size then ZeroCopy(c, s, next, input, 0)
    else if input == [] then (s, Nothing(NeedMoreData, 0))
    else Assemble(c, s.(cur := s.cur.Open(next, next.size), job := s.job.(assembling := true)), input)
  }

  /** handle_zero_copy_return */
  function ZeroCopy(c: Config, s: State, span: Span, body: seq<Byte>, head: nat): (State, Reply)
    requires span.size <= |body|
  {
    var next := s.(cur := s.cur.Eat(c, body[..span.size]).Advance(span), job := s.job.(isBos := false));
    var last := next.cur.AtEnd();
    Answer(c, next,
           Reply(Ok, head + span.size, body[..span.size], if last then s.cur.page.granule else INVALID_GRANULE, s.job.isBos,
                 last && s.cur.page.Has(LAST), last, true))
  }
}
