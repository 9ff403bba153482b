/** The Ogg demuxer itself: its fields, its staging and assembly buffers, and its loops. Every call does to them
    what the step functions do to values. */
module OggDemuxing {
  import opened Bits
  import opened OggFormat
  import opened OggSteps
  import opened OggAccounts
  import Crc32

  /** The fixed part of a page header, as OggPageHeader keeps it. */
  datatype Fixed = Fixed(flags: Byte, granule: int, serial: nat, sequence: nat, checksum: nat, segmentCount: nat)

  const NO_HEADER := Fixed(0, 0, 0, 0, 0, 0)

  lemma SumNext(table: seq<Byte>, i: nat)
    requires i < |table|
    ensures Sum(table[..i + 1]) == Sum(table[..i]) + table[i] as nat
  {
    assert table[..i + 1] == table[..i] + [table[i]];
    SumConcat(table[..i], [table[i]]);
    assert Sum([table[i]]) == table[i] as nat + Sum([]);
  }

  /** The same answer; after an error only its code and the bytes taken are looked at. */
  predicate Agrees(r: Reply, m: Reply) {
    r.code == m.code && r.used == m.used && (!m.code.IsError() ==> r == m)
  }

  /** The state of a slice before the page may be finished. */
  ghost function Offered(c: Config, s: State, span: Span, left: nat, d: seq<Byte>): State
    requires |d| <= left
  {
    var eaten := s.cur.Eat(c, d);
    s.(cur := if |d| == left then eaten.Advance(span) else eaten.Open(span, left - |d|), job := s.job.(isBos := false))
  }

  /** A slice of these bytes. */
  ghost function Sliced(c: Config, s: State, span: Span, left: nat, d: seq<Byte>, head: nat): (State, Reply)
    requires |d| <= left
  {
    var next := Offered(c, s, span, left, d);
    var last := next.cur.consumed >= Sum(s.cur.page.table);
    var reply := Reply(OggSteps.Ok, head + |d|, d, s.cur.page.granule, s.job.isBos, s.cur.page.Has(LAST), last, span.complete && |d| == left);
    if last then OggSteps.Finish(c, next, reply) else (next, reply)
  }

  lemma SliceIs(c: Config, s: State, span: Span, left: nat, body: seq<Byte>, head: nat)
    ensures var n := Min(|body|, left);
      Slice(c, s, span, left, body, head) ==
        if n == 0 then (s, Nothing(NeedMoreData, head)) else Sliced(c, s, span, left, body[..n], head)
  {
    hide Crc32.ByTable, Sum, OggSteps.Finish;
  }

  /** The terminator of a packet from earlier pages. */
  ghost function Terminated(c: Config, s: State, head: nat): (State, Reply) {
    var next := s.(cur := s.cur.Advance(Scan(s.cur.page.table, s.cur.index)));
    Answer(c, next.(job := s.job.(isBos := false)),
           Reply(OggSteps.Ok, head, [], s.cur.page.granule, s.job.isBos, s.cur.page.Has(LAST), next.cur.AtEnd(), true))
  }

  lemma SettleIs(c: Config, s: State, body: seq<Byte>, head: nat)
    ensures s.cur.AtEnd() ==> Settle(c, s, body, head) == OggSteps.Finish(c, s, Nothing(NeedMoreData, head))
    ensures !s.cur.AtEnd() ==>
      var span := Scan(s.cur.page.table, s.cur.index);
      && (span.size > 0 ==> Settle(c, s, body, head) == Slice(c, s, span, span.size, body, head))
      && (span.size == 0 && s.cur.index == 0 && s.link.prevContinued ==> Settle(c, s, body, head) == Terminated(c, s, head))
  {
    hide Scan, Slice, OggSteps.Finish, Answer;
  }

  /** The two steps of the staging. */
  lemma TakenIs(staged: seq<Byte>, input: seq<Byte>)
    requires !WholeHeader(staged) && |staged| <= MAX_HEADER
    ensures var a: nat := if |staged| < HEADER_SIZE then Min(|input|, HEADER_SIZE - |staged|) else 0;
      var first, n := staged + input[..a], StagedCount(staged, input);
      if |first| < HEADER_SIZE then n == a && !WholeHeader(first)
      else
        var full := HEADER_SIZE + first[COUNT_AT] as nat;
        && n == (if |first| < full then a + Min(|input| - a, full - |first|) else a)
        && a <= n && first + input[a..n] == staged + input[..n] && full <= MAX_HEADER
        && WholeHeader(staged + input[..n]) == (|staged| + n >= full)
  {
    var a: nat := if |staged| < HEADER_SIZE then Min(|input|, HEADER_SIZE - |staged|) else 0;
    var first, n := staged + input[..a], StagedCount(staged, input);
    if |first| >= HEADER_SIZE {
      assert first + input[a..n] == staged + input[..n];
      assert (staged + input[..n])[COUNT_AT] == first[COUNT_AT];
    }
  }

  lemma ParsedTable(h: seq<Byte>)
    requires ParseHeader(h).Parsed?
    ensures ParseHeader(h).header.table == h[HEADER_SIZE..ParseHeader(h).size]
  {
    hide Little, Signed64;
  }

  /** The cursor before the first lacing value. */
  ghost function FirstAt(p: PageHeader, crc: bv32, h: seq<Byte>): Cursor
    requires HEADER_SIZE <= |h|
  {
    Cursor(p, 0, 0, NO_SPAN, 0, false, crc, Zeroed(h))
  }

  /** The state in which a page is entered. */
  ghost function Begun(c: Config, s: State, p: PageHeader, h: seq<Byte>): State
    requires HEADER_SIZE <= |h|
  {
    var first := p.Has(FIRST) && !s.job.bosUsed;
    State(Processing, [], FirstAt(p, if c.crcOn then Crc32.ByTable(Crc32.Table, 0, Zeroed(h)) else 0, h),
          s.job.(isBos := first, bosUsed := s.job.bosUsed || first), Link(s.link.prevContinued, p.serial, Sequel(p.sequence), true), s.mode)
  }

  lemma AcceptIs(c: Config, s: State, p: PageHeader, h: seq<Byte>, used: nat)
    requires HEADER_SIZE <= |h|
    ensures var code, a := Consistency(s.link, p), Accept(c, s, p, h, used);
      && (code != OggSteps.Ok ==> a == Stop(s, Nothing(code, 0)))
      && (code == OggSteps.Ok && p.table != [] ==> a == Entered(Begun(c, s, p, h), used))
      && (code == OggSteps.Ok && p.table == [] ==>
            if c.crcOn && Crc32.ByTable(Crc32.Table, 0, Zeroed(h)) as nat != p.checksum then a.Stop? && a.reply == Nothing(CrcFailed, 0)
            else a == Stop(s.(link := Link(s.link.prevContinued, p.serial, Sequel(p.sequence), true), staged := [], stage := ExpectHeader),
                           Nothing(NeedMoreData, used)))
  {
    hide Consistency, Crc32.ByTable, Zeroed;
  }

  /** How a header is answered: what an error leaves behind is not looked at. */
  predicate HeaderAgrees(h: HeaderStep, g: HeaderStep) {
    match h
    case Stop(t, m) => g.Stop? && Agrees(g.reply, m) && (!m.code.IsError() ==> g == h)
    case Entered(_, _) => g == h
  }

  /** Accepting a header does not depend on what is staged. */
  lemma AcceptStaged(c: Config, s: State, staged: seq<Byte>, p: PageHeader, h: seq<Byte>, used: nat)
    requires HEADER_SIZE <= |h|
    ensures HeaderAgrees(Accept(c, s, p, h, used), Accept(c, s.(staged := staged), p, h, used))
  {
    hide Accept, Crc32.ByTable, Consistency, Zeroed;
    AcceptIs(c, s, p, h, used);
    AcceptIs(c, s.(staged := staged), p, h, used);
  }

  /** A step of the assembly: these bytes of the span that is open. */
  ghost function TakenIn(c: Config, s: State, d: seq<Byte>): (State, Reply)
    requires |d| <= s.cur.spanLeft
  {
    var eaten, job := s.cur.Eat(c, d), s.job.(assembly := s.job.assembly + d);
    if |d| < s.cur.spanLeft then (s.(cur := eaten.Open(s.cur.span, s.cur.spanLeft - |d|), job := job), Nothing(NeedMoreData, |d|))
    else
      var next := s.(cur := eaten.Advance(s.cur.span), job := job);
      if s.cur.span.complete then Flush(c, next, |d|) else OggSteps.Finish(c, next, Nothing(NeedMoreData, |d|))
  }

  lemma AssembleIs(c: Config, s: State, input: seq<Byte>)
    ensures var t := s.(cur := s.cur.Resumed());
      var n := Min(|input|, t.cur.spanLeft);
      Assemble(c, s, input) ==
        if t.cur.spanLeft == 0 then Flush(c, s.(cur := t.cur.Advance(t.cur.span)), 0)
        else if n == 0 then (t, Nothing(NeedMoreData, 0))
        else if |s.job.assembly| + n > c.maxBuffer then
          Skip(c, t.(job := s.job.(skipping := true, assembling := false, assembly := [])), input)
        else TakenIn(c, t, input[..n])
  {
    hide Cursor.Resumed, Cursor.Eat, Cursor.Advance, Cursor.Open, Flush, Skip, OggSteps.Finish;
  }

  /** A span that is open when the packet interface is called belongs to the packet in work. */
  lemma FreeSpan(s: State)
    requires Owned(s)
    ensures !Conflicts(s, PacketMode) && !s.job.assembling && !s.job.skipping ==> !s.cur.spanActive
  {
  }

  lemma ResetInv(c: Config)
    ensures Inv(c, RESET) && Owned(RESET)
  {
    hide InPage;
  }

  lemma ScanCounts(table: seq<Byte>, i: nat)
    requires i < |table|
    ensures 1 <= Scan(table, i).count <= |table| - i
  {
  }

  /** Settle goes on behind an empty span, unless it ends a packet of earlier pages. */
  lemma SettleSkips(c: Config, s: State, body: seq<Byte>, head: nat)
    requires !s.cur.AtEnd() && Scan(s.cur.page.table, s.cur.index).size == 0 && !(s.cur.index == 0 && s.link.prevContinued)
    ensures Settle(c, s, body, head) == Settle(c, s.(cur := s.cur.Advance(Scan(s.cur.page.table, s.cur.index))), body, head)
  {
    hide Scan, Slice, Finish;
  }

  class OggDemuxer {
    const maxBuffer: nat
    const minBuffer: nat
    const crcOn: bool
    const staging: array<Byte>
    var stagingSize: nat
    var buffer: array?<Byte>
    var assemblySize: nat
    var stage: Stage
    var mode: Mode
    var page: Fixed
    var granule: int
    var bodySize: nat
    var consumed: nat
    var index: nat
    var span: Span
    var spanRemaining: nat
    var spanActive: bool
    var crc: bv32
    var assembling: bool
    var skipping: bool
    var isBos: bool
    var bosUsed: bool
    var prevContinued: bool
    var serial: nat
    var expected: nat
    var initialized: bool
    /** What the CRC covers so far. */
    ghost var seen: seq<Byte>

    // The values that the fields stand for.

    ghost function Settings(): Config {
      Config(maxBuffer, crcOn)
    }

    ghost function Buffers(): set<object>
      reads `buffer
    {
      if buffer == null then {} else {buffer}
    }

    ghost function Capacity(): nat
      reads `buffer
    {
      if buffer == null then 0 else buffer.Length
    }

    /** The memory is laid out as the constructor and the growth of the buffer leave it. */
    ghost predicate Shape()
      reads `stagingSize, `buffer, `assemblySize, `page
    {
      && staging.Length == MAX_HEADER && 1 <= minBuffer <= maxBuffer && stagingSize <= MAX_HEADER
      && (buffer != null ==> buffer != staging && minBuffer <= buffer.Length <= maxBuffer)
      && assemblySize <= Capacity() && page.segmentCount <= 255
    }

    /** The segment table lies in the staging buffer, behind the fixed part of the header. */
    ghost function Table(): (t: seq<Byte>)
      requires staging.Length == MAX_HEADER && page.segmentCount <= 255
      reads `page, staging
      ensures |t| == page.segmentCount
    {
      staging[HEADER_SIZE..HEADER_SIZE + page.segmentCount]
    }

    ghost function Header(): PageHeader
      requires staging.Length == MAX_HEADER && page.segmentCount <= 255
      reads `page, staging
    {
      PageHeader(page.flags, page.granule, page.serial, page.sequence, page.checksum, Table())
    }

    ghost function At(): Cursor
      requires staging.Length == MAX_HEADER && page.segmentCount <= 255
      reads `page, staging, `index, `consumed, `span, `spanRemaining, `spanActive, `crc, `seen
    {
      Cursor(Header(), index, consumed, if spanActive then span else NO_SPAN, if spanActive then spanRemaining else 0, spanActive,
             if crcOn then crc else 0, seen)
    }

    ghost function Work(): Job
      requires assemblySize <= Capacity()
      reads `buffer, Buffers(), `assemblySize, `assembling, `skipping, `isBos, `bosUsed
    {
      Job(if buffer == null then [] else buffer[..assemblySize], assembling, skipping, isBos, bosUsed)
    }

    ghost function Ties(): Link
      reads `prevContinued, `serial, `expected, `initialized
    {
      Link(prevContinued, serial, expected, initialized)
    }

    ghost function Staged(): seq<Byte>
      requires stagingSize <= staging.Length
      reads `stagingSize, staging
    {
      staging[..stagingSize]
    }

    ghost function Model(): State
      requires Shape()
      reads this, staging, Buffers()
    {
      State(stage, Staged(), if stage == Processing then At() else NO_CURSOR, Work(), Ties(), mode)
    }

    /** The page in work, in its fields. */
    ghost predicate PageSet()
      requires staging.Length == MAX_HEADER && page.segmentCount <= 255
      reads `stage, `stagingSize, `granule, `page, `bodySize, staging
    {
      stage == Processing ==> stagingSize == 0 && granule == page.granule && bodySize == Sum(Table())
    }

    /** What the fields say of the page in work. */
    lemma InModel()
      requires Shape() && stage == Processing && PageSet()
      ensures var s := Model();
        && s.stage == Processing && s.staged == [] && s.job.isBos == isBos && s.link.prevContinued == prevContinued
        && s.cur.page.table == Table() && s.cur.page.flags == page.flags && s.cur.page.granule == granule
        && s.cur.index == index && s.cur.consumed == consumed && s.cur.spanActive == spanActive
        && s.cur.AtEnd() == (index >= page.segmentCount) && bodySize == Sum(s.cur.page.table)
    {
    }

    ghost predicate Valid()
      reads this, staging, Buffers()
    {
      Shape() && PageSet() && Inv(Settings(), Model()) && Owned(Model()) && (spanActive ==> stage == Processing)
    }

    /** The buffer sizes are put right: at least one byte to start with, and no maximum below that. */
    constructor (maxSize: nat, minSize: nat, checkCrc: bool)
      ensures Valid() && Model() == RESET && fresh(staging) && buffer == null
      ensures minBuffer == (if minSize == 0 then 1024 else minSize) && crcOn == checkCrc
      ensures maxBuffer == (if maxSize < minBuffer then minBuffer else maxSize)
    {
      minBuffer := if minSize == 0 then 1024 else minSize;
      maxBuffer := if maxSize < (if minSize == 0 then 1024 else minSize) then (if minSize == 0 then 1024 else minSize) else maxSize;
      crcOn := checkCrc;
      staging := new Byte[MAX_HEADER];
      stagingSize, assemblySize, buffer, page := 0, 0, null, NO_HEADER;
      new;
      Reset();
    }

    /** reset: whatever happened before, errors included */
    method Reset()
      requires Shape()
      modifies this
      ensures Valid() && Model() == RESET && buffer == old(buffer)
    {
      hide Model, Inv, Owned, PageSet, InPage;
      ResetCursor();
      ResetWork();
      prevContinued, serial, expected, initialized, mode := false, 0, 0, false, Unset;
      IsReset();
      ResetInv(Settings());
    }

    method ResetCursor()
      modifies `index, `consumed, `bodySize, `span, `spanRemaining, `spanActive, `granule, `crc
      ensures !spanActive
    {
      index, consumed, bodySize, granule, crc := 0, 0, 0, 0, 0;
      span, spanRemaining, spanActive := NO_SPAN, 0, false;
    }

    method ResetWork()
      modifies `stage, `stagingSize, `assemblySize, `assembling, `skipping, `isBos, `bosUsed
      ensures stage == ExpectHeader && stagingSize == 0 && assemblySize == 0 && !assembling && !skipping && !isBos && !bosUsed
    {
      stage, stagingSize, assemblySize := ExpectHeader, 0, 0;
      assembling, skipping, isBos, bosUsed := false, false, false, false;
    }

    lemma IsReset()
      requires Shape() && stage == ExpectHeader && stagingSize == 0 && assemblySize == 0 && !assembling && !skipping && !isBos && !bosUsed
      requires !prevContinued && serial == 0 && expected == 0 && !initialized && mode == Unset
      ensures Model() == RESET && PageSet()
    {
      hide At, Table;
    }

    lemma Shaped()
      requires Valid()
      ensures Shape() && Model().stage == stage
    {
      hide Inv, Owned;
    }

    // Segments.

    /** scan_for_next_packet */
    method ScanForNextPacket(start: nat) returns (s: Span)
      requires Shape()
      ensures s == Scan(Table(), start) && Model() == old(Model())
    {
      var size: nat, count: nat, complete, i := 0, 0, false, start;
      while i < page.segmentCount && !complete
        invariant start <= i
        invariant complete ==> Scan(Table(), start) == Span(size, true, count)
        invariant !complete ==> var rest := Scan(Table(), i); Scan(Table(), start) == Span(size + rest.size, rest.complete, count + rest.count)
        decreases page.segmentCount - i, !complete
      {
        var lacing := staging[HEADER_SIZE + i];
        assert lacing == Table()[i];
        size := size + lacing as nat;
        count := count + 1;
        if lacing < 255 {
          complete := true;
        }
        i := i + 1;
      }
      s := Span(size, complete, count);
    }

    /** calculate_body_size */
    method CalculateBodySize() returns (total: nat)
      requires Shape()
      ensures total == Sum(Table())
    {
      total := 0;
      var i := 0;
      while i < page.segmentCount
        invariant i <= page.segmentCount && total == Sum(Table()[..i])
      {
        SumNext(Table(), i);
        total := total + staging[HEADER_SIZE + i] as nat;
        i := i + 1;
      }
      assert Table()[..i] == Table();
    }

    /** begin_packet_span */
    method BeginPacketSpan()
      requires Shape()
      modifies `span, `spanRemaining
      ensures span == Scan(Table(), index) && spanRemaining == span.size
      ensures !spanActive ==> Model() == old(Model())
    {
      hide Scan, Table, Staged;
      span := ScanForNextPacket(index);
      spanRemaining := span.size;
    }

    /** close_packet_span */
    method ClosePacketSpan()
      requires Shape()
      modifies `index, `spanActive
      ensures At() == old(At()).Advance(span) && index == old(index) + span.count && !spanActive
      ensures stage == Processing ==> Model() == old(Model()).(cur := old(Model()).cur.Advance(span))
    {
      index := index + span.count;
      spanActive := false;
    }

    /** Takes body bytes: the CRC and the count of consumed bytes. */
    method Consume(d: seq<Byte>)
      requires Shape()
      modifies `crc, `consumed, `seen
      ensures At() == old(At()).Eat(Settings(), d) && consumed == old(consumed) + |d|
      ensures stage == Processing ==> Model() == old(Model()).(cur := old(Model()).cur.Eat(Settings(), d))
    {
      hide Crc32.ByTable, Table, Staged, Header, Model;
      OnPage();
      if crcOn {
        crc := Crc32.Calculate(Crc32.Table, d, crc);
      }
      consumed := consumed + |d|;
      seen := seen + d;
      OnPage();
    }

    lemma OnPage()
      requires Shape()
      ensures stage == Processing ==> Model() == State(stage, Staged(), At(), Work(), Ties(), mode)
    {
    }

    /** current_page_ends_with_continued_packet */
    predicate EndsContinued()
      requires Shape()
      reads this, staging
    {
      page.segmentCount > 0 && staging[HEADER_SIZE + page.segmentCount - 1] == 255
    }

    lemma EndsContinuedIsEndsOpen()
      requires Shape()
      ensures EndsContinued() == Header().EndsOpen()
    {
    }

    /** finalize_page */
    method FinalizePage() returns (ok: bool)
      requires Shape()
      modifies `prevContinued, `stage
      ensures ok == At().CrcMatches(Settings())
      ensures ok ==> prevContinued == Header().EndsOpen() && stage == ExpectHeader
      ensures !ok ==> unchanged(this)
    {
      ok := !crcOn || crc as nat == page.checksum;
      if ok {
        EndsContinuedIsEndsOpen();
        prevContinued := EndsContinued();
        stage := ExpectHeader;
      }
    }

    // Streaming.

    /** The page is finished, or its checksum is wrong. */
    method Finish(reply: Reply) returns (r: Reply)
      requires Shape() && stage == Processing && PageSet()
      modifies `prevContinued, `stage
      ensures PageSet() && (stage == Processing || stage == ExpectHeader)
      ensures Agrees(r, OggSteps.Finish(Settings(), old(Model()), reply).1)
      ensures !r.code.IsError() ==> Model() == OggSteps.Finish(Settings(), old(Model()), reply).0
    {
      var ok := FinalizePage();
      r := if ok then reply else Nothing(CrcFailed, reply.used);
    }

    /** Rests the cursor on the next span that has bytes; or says that the packet of earlier pages ends here. */
    method RestOnSpan(ghost body: seq<Byte>, ghost head: nat) returns (terminator: bool)
      requires Shape() && stage == Processing && !spanActive && PageSet() && InPage(Settings(), Model().cur)
      modifies `index, `spanActive, `span, `spanRemaining
      ensures InPage(Settings(), Model().cur)
      ensures !spanActive && Settle(Settings(), Model(), body, head) == Settle(Settings(), old(Model()), body, head)
      ensures terminator ==> index == 0 < page.segmentCount && prevContinued && Scan(Table(), 0).size == 0 && span == Scan(Table(), 0)
      ensures !terminator && index < page.segmentCount ==> span == Scan(Table(), index) && spanRemaining == span.size > 0
    {
      hide Settle, Scan, Table, Staged, Model, At, Header, Work, PageSet, InPage;
      terminator := false;
      ghost var s := Model();
      while index < page.segmentCount
        invariant InPage(Settings(), s.cur)
        invariant !spanActive && s == Model() && Settle(Settings(), s, body, head) == Settle(Settings(), old(Model()), body, head)
        decreases page.segmentCount - index
      {
        InModel();
        BeginPacketSpan();
        if spanRemaining > 0 {
          break;
        }
        if index == 0 && prevContinued {
          terminator := true;
          break;
        }
        SettleSkips(Settings(), s, body, head);
        Stepped(Settings(), s.cur, span);
        ScanCounts(Table(), index);
        ClosePacketSpan();
        s := s.(cur := s.cur.Advance(span));
      }
    }

    /** That many bytes of the span are taken, perhaps all. */
    method TakeOfSpan(n: nat)
      requires Shape() && n <= spanRemaining && span.count <= page.segmentCount - index
      modifies `spanRemaining, `spanActive, `index
      ensures var s := old(Model());
        stage == Processing ==>
          Model() == s.(cur := if n == old(spanRemaining) then s.cur.Advance(span) else s.cur.Open(span, old(spanRemaining) - n))
      ensures n == old(spanRemaining) ==> !spanActive
    {
      hide Table, Staged;
      spanRemaining := spanRemaining - n;
      if spanRemaining == 0 {
        ClosePacketSpan();
      } else {
        spanActive := true;
      }
    }

    method ClearBos()
      requires Shape()
      modifies `isBos
      ensures Model() == old(Model()).(job := old(Model()).job.(isBos := false))
    {
      hide Table, Staged;
      isBos := false;
    }

    /** Some bytes of the span are given out. */
    method TakeSlice(d: seq<Byte>)
      requires Shape() && stage == Processing && |d| <= spanRemaining && span.count <= page.segmentCount - index
      modifies `crc, `consumed, `seen, `index, `spanActive, `spanRemaining, `isBos
      ensures Model() == Offered(Settings(), old(Model()), span, old(spanRemaining), d) && consumed == old(consumed) + |d|
      ensures |d| == old(spanRemaining) ==> !spanActive
    {
      hide Scan, Table, Staged, Model, At, Header, Work, Crc32.ByTable, Cursor.Eat, Cursor.Advance, Cursor.Open;
      Consume(d);
      TakeOfSpan(|d|);
      ClearBos();
    }

    /** These bytes of the span at the cursor are offered. */
    method OfferSome(d: seq<Byte>, head: nat) returns (r: Reply)
      requires Shape() && stage == Processing && PageSet() && 0 < |d| <= spanRemaining && span.count <= page.segmentCount - index
      requires InPage(Settings(), Model().cur) && HasSpan(Model().cur, span, spanRemaining)
      modifies `crc, `consumed, `seen, `index, `spanActive, `spanRemaining, `isBos, `prevContinued, `stage
      ensures var (t, m) := Sliced(Settings(), old(Model()), span, old(spanRemaining), d, head);
        Agrees(r, m) && (!m.code.IsError() ==> Model() == t)
      ensures PageSet() && (stage == Processing || (stage == ExpectHeader && !spanActive))
    {
      hide Scan, Table, Staged, Model, At, Header, Work, OggSteps.Finish, Crc32.ByTable, Sum, Offered, InPage, PageSet, HasSpan;
      InModel();
      if |d| < spanRemaining {
        PartlyLess(Settings(), Model().cur, span, spanRemaining, d);
      }
      var bos, whole := isBos, |d| == spanRemaining;
      TakeSlice(d);
      InModel();
      var last := consumed >= bodySize;
      r := Reply(OggSteps.Ok, head + |d|, d, granule, bos, page.flags & LAST != 0, last, span.complete && whole);
      if last {
        r := Finish(r);
      }
    }

    /** Offers bytes of the span at the cursor, no more than it has left. */
    method OfferSpan(body: seq<Byte>, head: nat) returns (r: Reply)
      requires Shape() && stage == Processing && PageSet() && 0 < spanRemaining && span.count <= page.segmentCount - index
      requires InPage(Settings(), Model().cur) && HasSpan(Model().cur, span, spanRemaining)
      modifies `crc, `consumed, `seen, `index, `spanActive, `spanRemaining, `isBos, `prevContinued, `stage
      ensures var (t, m) := Slice(Settings(), old(Model()), span, old(spanRemaining), body, head);
        Agrees(r, m) && (!m.code.IsError() ==> Model() == t)
      ensures PageSet() && (stage == Processing || (stage == ExpectHeader && !spanActive))
    {
      hide Scan, Table, Staged, Model, At, Header, Work, Slice, Sliced, InPage, PageSet, HasSpan;
      SliceIs(Settings(), Model(), span, spanRemaining, body, head);
      var n := Min(|body|, spanRemaining);
      if n == 0 {
        r := Nothing(NeedMoreData, head);
      } else {
        r := OfferSome(body[..n], head);
      }
    }

    /** The packet of earlier pages ends here, with no more bytes. */
    method EndContinued(head: nat) returns (r: Reply)
      requires Shape() && stage == Processing && PageSet() && index < page.segmentCount && span == Scan(Table(), index)
      modifies `index, `spanActive, `isBos, `prevContinued, `stage
      ensures var (t, m) := Terminated(Settings(), old(Model()), head);
        Agrees(r, m) && (!m.code.IsError() ==> Model() == t)
      ensures PageSet() && (stage == Processing || (stage == ExpectHeader && !spanActive))
    {
      hide Scan, Table, Staged, Model, At, Header, Work, OggSteps.Finish, Sum;
      InModel();
      ScanCounts(Table(), index);
      var bos := isBos;
      ClosePacketSpan();
      ClearBos();
      InModel();
      r := Reply(OggSteps.Ok, head, [], granule, bos, page.flags & LAST != 0, index >= page.segmentCount, true);
      if index >= page.segmentCount {
        r := Finish(r);
      }
    }

    /** The span that is open, as the account has it. */
    lemma OpenSpan()
      requires Shape() && stage == Processing && PageSet() && InPage(Settings(), Model().cur)
      ensures index <= page.segmentCount
      ensures spanActive ==> index < page.segmentCount && span == Scan(Table(), index) == Model().cur.span && spanRemaining == Model().cur.spanLeft
    {
      hide Scan, Sum, Crc32.ByTable;
    }

    /** offer_body_data */
    method OfferBodyData(body: seq<Byte>, head: nat) returns (r: Reply)
      requires Shape() && stage == Processing && PageSet() && InPage(Settings(), Model().cur) && (spanActive ==> 0 < spanRemaining)
      modifies `crc, `consumed, `seen, `index, `spanActive, `span, `spanRemaining, `isBos, `prevContinued, `stage
      ensures var (t, m) := Offer(Settings(), old(Model()), body, head);
        Agrees(r, m) && (!m.code.IsError() ==> Model() == t)
      ensures PageSet() && (stage == Processing || (stage == ExpectHeader && !spanActive))
    {
      hide Scan, Table, Staged, Model, At, Header, Work, OggSteps.Finish, Slice, Settle, Terminated, Sum, PageSet, InPage;
      InModel();
      OpenSpan();
      if !spanActive {
        var terminator := RestOnSpan(body, head);
        InModel();
        SettleIs(Settings(), Model(), body, head);
        if terminator {
          r := EndContinued(head);
          return;
        }
        if index >= page.segmentCount {
          r := Finish(Nothing(NeedMoreData, head));
          return;
        }
      }
      ScanCounts(Table(), index);
      r := OfferSpan(body, head);
    }

    // Headers.

    /** Copies bytes behind those that are staged. */
    method Stash(d: seq<Byte>)
      requires Shape() && stagingSize + |d| <= MAX_HEADER
      modifies `stagingSize, staging
      ensures Shape() && Staged() == old(Staged()) + d && stagingSize == old(stagingSize) + |d|
    {
      var i := 0;
      while i < |d|
        invariant 0 <= i <= |d| && stagingSize == old(stagingSize)
        invariant staging[..stagingSize + i] == old(Staged()) + d[..i]
      {
        staging[stagingSize + i] := d[i];
        i := i + 1;
        assert d[..i] == d[..i - 1] + [d[i - 1]];
        assert staging[..stagingSize + i] == staging[..stagingSize + i - 1] + [d[i - 1]];
      }
      stagingSize := stagingSize + |d|;
      assert d[..i] == d;
    }

    /** accumulate_header */
    method AccumulateHeader(input: seq<Byte>) returns (added: nat, whole: bool)
      requires Shape() && !WholeHeader(Staged())
      modifies `stagingSize, staging
      ensures Shape() && added == StagedCount(old(Staged()), input) && Staged() == old(Staged()) + input[..added]
      ensures whole == WholeHeader(Staged())
    {
      hide StagedCount, WholeHeader, Staged;
      StagedBytes();
      TakenIs(Staged(), input);
      added, whole := 0, false;
      if stagingSize < HEADER_SIZE {
        added := Min(|input|, HEADER_SIZE - stagingSize);
        Stash(input[..added]);
        if stagingSize < HEADER_SIZE {
          return;
        }
      } else {
        assert Staged() + input[..0] == Staged();
      }
      added, whole := AccumulateTable(input, added);
    }

    /** The part of accumulate_header that knows how long the header is */
    method AccumulateTable(input: seq<Byte>, from: nat) returns (added: nat, whole: bool)
      requires Shape() && HEADER_SIZE <= stagingSize && from <= |input|
      requires HEADER_SIZE + Staged()[COUNT_AT] as nat <= MAX_HEADER
      modifies `stagingSize, staging
      ensures var first := old(Staged());
        var full := HEADER_SIZE + first[COUNT_AT] as nat;
        && Shape() && from <= added <= |input| && Staged() == first + input[from..added]
        && added == (if |first| < full then from + Min(|input| - from, full - |first|) else from)
        && whole == (|first| + (added - from) >= full)
    {
      hide Staged;
      StagedBytes();
      added := from;
      var full := HEADER_SIZE + staging[COUNT_AT] as nat;
      if stagingSize < full {
        var n := Min(|input| - added, full - stagingSize);
        Stash(input[added..added + n]);
        added := added + n;
      } else {
        assert Staged() + input[from..from] == Staged();
      }
      whole := stagingSize >= full;
    }

    lemma StagedBytes()
      requires Shape()
      ensures |Staged()| == stagingSize <= MAX_HEADER && (COUNT_AT < stagingSize ==> Staged()[COUNT_AT] == staging[COUNT_AT])
    {
    }

    /** validate_stream_consistency */
    method ValidateStreamConsistency() returns (code: Code)
      requires Shape()
      modifies `serial, `expected, `initialized
      ensures code == Consistency(old(Ties()), Header())
      ensures code == OggSteps.Ok ==> Ties() == Link(prevContinued, page.serial, Sequel(page.sequence), true)
    {
      hide Table, Staged, At;
      EndsContinuedIsEndsOpen();
      if !initialized {
        if page.flags & FIRST == 0 {
          return BosError;
        }
        serial := page.serial;
        expected := page.sequence;
        initialized := true;
      } else {
        if page.flags & FIRST != 0 {
          return BosError;
        }
        if page.serial != serial {
          return SerialMismatch;
        }
        if page.sequence != expected {
          return SequenceError;
        }
      }
      expected := Sequel(expected);
      if (page.flags & CONTINUED != 0) != prevContinued {
        return ContinuationError;
      }
      if page.flags & LAST != 0 && EndsContinued() {
        return EosError;
      }
      return OggSteps.Ok;
    }

    /** The header lies in the staging buffer. */
    ghost predicate HasHeader(h: seq<Byte>)
      reads staging
    {
      |h| <= staging.Length && staging[..|h|] == h
    }

    /** seed_page_crc, for a header of these bytes, whose segment table at least lies in the staging buffer */
    method SeedPageCrc(h: seq<Byte>)
      requires Shape() && HEADER_SIZE <= |h| <= MAX_HEADER && staging[HEADER_SIZE..|h|] == h[HEADER_SIZE..]
      requires stagingSize > 0 ==> stagingSize == |h| && HasHeader(h)
      modifies `crc, staging
      ensures staging[HEADER_SIZE..|h|] == h[HEADER_SIZE..] && Staged() == old(Staged())
      ensures crcOn ==> crc == Crc32.ByTable(Crc32.Table, 0, Zeroed(h))
    {
      hide Crc32.ByTable;
      if crcOn {
        if stagingSize == 0 {
          CopyIn(h);
        }
        crc := CrcZeroed(h);
        BehindFixed(h);
      }
    }

    lemma BehindFixed(h: seq<Byte>)
      requires HasHeader(h) && HEADER_SIZE <= |h|
      ensures staging[HEADER_SIZE..|h|] == h[HEADER_SIZE..]
    {
      assert staging[..|h|][HEADER_SIZE..] == staging[HEADER_SIZE..|h|];
    }

    /** The CRC of the staged header with its checksum field zeroed; the field is restored. */
    method CrcZeroed(h: seq<Byte>) returns (r: bv32)
      requires HasHeader(h) && HEADER_SIZE <= |h|
      modifies staging
      ensures r == Crc32.ByTable(Crc32.Table, 0, Zeroed(h)) && HasHeader(h)
    {
      hide Crc32.ByTable;
      ghost var before := staging[..];
      assert before[..|h|] == h;
      var saved := staging[CHECKSUM_AT..CHECKSUM_AT + 4];
      Overwrite(CHECKSUM_AT, [0, 0, 0, 0]);
      ghost var middle := staging[..];
      ZeroedAt(h, before, middle);
      assert middle[..|h|] == staging[..|h|];
      r := Crc32.Calculate(Crc32.Table, staging[..|h|], 0);
      Overwrite(CHECKSUM_AT, saved);
      RestoredAt(h, before, middle, staging[..]);
      assert staging[..][..|h|] == staging[..|h|];
    }

    lemma RestoredAt(h: seq<Byte>, before: seq<Byte>, middle: seq<Byte>, after: seq<Byte>)
      requires HEADER_SIZE <= |h| <= |before| == |middle| == |after| && before[..|h|] == h
      requires middle[..CHECKSUM_AT] == before[..CHECKSUM_AT] && middle[CHECKSUM_AT + 4..] == before[CHECKSUM_AT + 4..]
      requires after[..CHECKSUM_AT] == middle[..CHECKSUM_AT] && after[CHECKSUM_AT + 4..] == middle[CHECKSUM_AT + 4..]
      requires after[CHECKSUM_AT..CHECKSUM_AT + 4] == before[CHECKSUM_AT..CHECKSUM_AT + 4]
      ensures after[..|h|] == h
    {
      assert after == after[..CHECKSUM_AT] + after[CHECKSUM_AT..CHECKSUM_AT + 4] + after[CHECKSUM_AT + 4..];
      assert before == before[..CHECKSUM_AT] + before[CHECKSUM_AT..CHECKSUM_AT + 4] + before[CHECKSUM_AT + 4..];
    }

    lemma ZeroedAt(h: seq<Byte>, before: seq<Byte>, after: seq<Byte>)
      requires HEADER_SIZE <= |h| <= |before| == |after| && before[..|h|] == h
      requires after[CHECKSUM_AT..CHECKSUM_AT + 4] == [0, 0, 0, 0]
      requires after[..CHECKSUM_AT] == before[..CHECKSUM_AT] && after[CHECKSUM_AT + 4..] == before[CHECKSUM_AT + 4..]
      ensures after[..|h|] == Zeroed(h)
    {
      forall i | 0 <= i < |h|
        ensures after[i] == Zeroed(h)[i]
      {
        if i < CHECKSUM_AT {
          assert after[i] == after[..CHECKSUM_AT][i] == before[..CHECKSUM_AT][i] == before[..|h|][i];
        } else if i < CHECKSUM_AT + 4 {
          assert after[i] == after[CHECKSUM_AT..CHECKSUM_AT + 4][i - CHECKSUM_AT];
        } else {
          assert after[i] == after[CHECKSUM_AT + 4..][i - CHECKSUM_AT - 4] == before[i] == before[..|h|][i];
        }
      }
    }

    /** Four bytes of the staging buffer. */
    method Overwrite(at: nat, d: seq<Byte>)
      requires at + 4 <= staging.Length && |d| == 4
      modifies staging
      ensures staging[at..at + 4] == d && staging[..][..at] == old(staging[..])[..at] && staging[..][at + 4..] == old(staging[..])[at + 4..]
    {
      staging[at], staging[at + 1], staging[at + 2], staging[at + 3] := d[0], d[1], d[2], d[3];
    }

    /** Copies a whole header. */
    method CopyIn(h: seq<Byte>)
      requires |h| <= staging.Length
      modifies staging
      ensures HasHeader(h) && staging[|h|..] == old(staging[|h|..])
    {
      forall i | 0 <= i < |h| {
        staging[i] := h[i];
      }
    }

    /** Copies a segment table behind the fixed part of the header. */
    method CopyTable(table: seq<Byte>)
      requires Shape() && |table| == page.segmentCount
      modifies staging
      ensures Table() == table
    {
      forall i | 0 <= i < |table| {
        staging[HEADER_SIZE + i] := table[i];
      }
    }

    /** The bytes behind the fixed part of a header are its segment table. */
    lemma TableOf(h: seq<Byte>)
      requires Shape() && |h| == HEADER_SIZE + page.segmentCount
      ensures Table() == staging[HEADER_SIZE..|h|] && Header().table == Table()
    {
    }

    /** Takes over a header that has been parsed: its fields, and its segment table if that is not staged yet. */
    method TakeHeader(h: seq<Byte>, p: PageHeader)
      requires Shape() && ParseHeader(h) == Parsed(p, |h|) && (stagingSize > 0 ==> stagingSize == |h| && HasHeader(h))
      modifies `page, `bodySize, `granule, staging
      ensures Shape() && Header() == p && granule == page.granule && bodySize == Sum(p.table)
      ensures staging[HEADER_SIZE..|h|] == h[HEADER_SIZE..] && |h| == HEADER_SIZE + page.segmentCount
      ensures stagingSize > 0 ==> HasHeader(h)
      ensures stage != Processing ==> Model() == old(Model())
    {
      hide Sum, ParseHeader;
      ParsedPrefix(h);
      ParsedTable(h);
      page := Fixed(p.flags, p.granule, p.serial, p.sequence, p.checksum, |p.table|);
      TableOf(h);
      if stagingSize == 0 {
        CopyTable(p.table);
      } else {
        assert staging[..|h|][HEADER_SIZE..] == staging[HEADER_SIZE..|h|];
      }
      assert p.table == h[HEADER_SIZE..|h|] == h[HEADER_SIZE..];
      TableOf(h);
      bodySize := CalculateBodySize();
      granule := page.granule;
    }

    /** The first-page mark is used once. */
    method MarkBos()
      requires Shape()
      modifies `isBos, `bosUsed
      ensures var s, first := old(Model()), page.flags & FIRST != 0 && !old(bosUsed);
        Model() == s.(job := s.job.(isBos := first, bosUsed := s.job.bosUsed || first))
    {
      hide Table, Staged, At;
      isBos := page.flags & FIRST != 0 && !bosUsed;
      if isBos {
        bosUsed := true;
      }
    }

    /** The cursor before the first lacing value. */
    method StartCursor(ghost h: seq<Byte>)
      requires Shape() && stage != Processing && HEADER_SIZE <= |h| && granule == page.granule && bodySize == Sum(Table())
      modifies `index, `consumed, `spanActive, `seen, `stagingSize, `stage
      ensures Shape() && PageSet() && stage == Processing && !spanActive
      ensures var s := old(Model()); Model() == State(Processing, [], FirstAt(Header(), if crcOn then crc else 0, h), s.job, s.link, s.mode)
    {
      hide Zeroed, Table, Sum, Header, PageSet, Model, At, FirstAt, Staged;
      Between();
      index := 0;
      consumed := 0;
      spanActive := false;
      seen := Zeroed(h);
      stagingSize := 0;
      stage := Processing;
      SetPage();
      AtFirst(h);
      Within();
    }

    lemma AtFirst(h: seq<Byte>)
      requires Shape() && HEADER_SIZE <= |h| && index == consumed == 0 && !spanActive && seen == Zeroed(h)
      ensures At() == FirstAt(Header(), if crcOn then crc else 0, h)
    {
    }

    lemma Within()
      requires Shape() && stage == Processing && stagingSize == 0
      ensures Model() == State(Processing, [], At(), Work(), Ties(), mode)
    {
    }

    lemma Between()
      requires Shape() && stage != Processing
      ensures Model() == State(stage, Staged(), NO_CURSOR, Work(), Ties(), mode)
    {
    }

    lemma SetPage()
      requires Shape() && stagingSize == 0 && granule == page.granule && bodySize == Sum(Table())
      ensures PageSet()
    {
    }

    /** The header is dropped: the page had no lacing value. */
    method DropHeader()
      requires Shape() && stage != Processing
      modifies `stagingSize, `stage
      ensures Shape() && stage == ExpectHeader && Model() == old(Model()).(stage := ExpectHeader, staged := [])
    {
      hide Table;
      stagingSize := 0;
      stage := ExpectHeader;
    }

    method Validate() returns (code: Code)
      requires Shape()
      modifies `serial, `expected, `initialized
      ensures code == Consistency(old(Ties()), Header())
      ensures code == OggSteps.Ok ==> Ties() == Link(prevContinued, page.serial, Sequel(page.sequence), true)
      ensures Model() == old(Model()).(link := Ties())
    {
      hide Table, Staged, At, Ties, Consistency;
      code := ValidateStreamConsistency();
    }

    /** The header is taken over, checked against the stream, and its CRC computed. */
    method CheckHeader(h: seq<Byte>, p: PageHeader) returns (code: Code)
      requires Shape() && stage != Processing && ParseHeader(h) == Parsed(p, |h|) && HEADER_SIZE <= |h| <= MAX_HEADER
      requires stagingSize > 0 ==> stagingSize == |h| && HasHeader(h)
      modifies `page, `bodySize, `granule, `serial, `expected, `initialized, `crc, staging
      ensures Shape() && code == Consistency(old(Model()).link, p)
      ensures code == OggSteps.Ok ==>
        && Model() == old(Model()).(link := Link(prevContinued, p.serial, Sequel(p.sequence), true))
        && Header() == p && page.segmentCount == |p.table| && page.checksum == p.checksum
        && granule == page.granule && bodySize == Sum(p.table)
        && (crcOn ==> crc == Crc32.ByTable(Crc32.Table, 0, Zeroed(h)))
    {
      hide Crc32.ByTable, ParseHeader, Zeroed, Consistency, Sum, Table, Staged, Header, Model, At;
      ModelLink();
      TakeHeader(h, p);
      HeaderIs();
      code := Validate();
      if code == OggSteps.Ok {
        SeedPage(h);
      }
    }

    /** A page with lacing values is entered. */
    method BeginPage(ghost h: seq<Byte>)
      requires Shape() && stage != Processing && HEADER_SIZE <= |h| && granule == page.granule && bodySize == Sum(Header().table)
      modifies `index, `consumed, `spanActive, `isBos, `bosUsed, `seen, `stagingSize, `stage
      ensures Shape() && PageSet() && stage == Processing && !spanActive
      ensures var s, first := old(Model()), Header().Has(FIRST) && !old(Model()).job.bosUsed;
        Model() == State(Processing, [], FirstAt(Header(), if crcOn then crc else 0, h),
                         s.job.(isBos := first, bosUsed := s.job.bosUsed || first), s.link, s.mode)
    {
      hide Zeroed, Sum, Table, Staged, Header, Model, At, FirstAt;
      ModelLink();
      HeaderIs();
      MarkBos();
      StartCursor(h);
    }

    /** A header of these bytes has been parsed: checks it against the stream, seeds the CRC and enters the page. */
    method EnterPage(h: seq<Byte>, p: PageHeader, used: nat) returns (r: Reply, entered: bool)
      requires Shape() && stage != Processing && ParseHeader(h) == Parsed(p, |h|) && HEADER_SIZE <= |h| <= MAX_HEADER
      requires stagingSize > 0 ==> stagingSize == |h| && HasHeader(h)
      requires !spanActive
      modifies `page, `bodySize, `granule, `serial, `expected, `initialized, `crc, `index, `consumed, `spanActive, `isBos, `bosUsed,
               `seen, `stagingSize, `stage, staging
      ensures Shape() && !spanActive
      ensures match Accept(Settings(), old(Model()), p, h, used)
        case Stop(t, m) => !entered && Agrees(r, m) && (!m.code.IsError() ==> stage != Processing && Model() == t)
        case Entered(t, n) => entered && r.used == n && PageSet() && stage == Processing && Model() == t
    {
      hide Crc32.ByTable, ParseHeader, Zeroed, Consistency, Sum, Table, Staged, Header, Model, Accept, At, FirstAt, Work, Shape, PageSet;
      AcceptIs(Settings(), Model(), p, h, used);
      ModelLink();
      var code := CheckHeader(h, p);
      entered := false;
      r := Nothing(code, 0);
      if code == OggSteps.Ok {
        r := Nothing(NeedMoreData, used);
        if page.segmentCount == 0 {
          if crcOn && crc as nat != page.checksum {
            r := Nothing(CrcFailed, 0);
          } else {
            DropHeader();
          }
        } else {
          BeginPage(h);
          entered := true;
        }
      }
    }

    method SeedPage(h: seq<Byte>)
      requires Shape() && stage != Processing && HEADER_SIZE <= |h| == HEADER_SIZE + page.segmentCount
      requires staging[HEADER_SIZE..|h|] == h[HEADER_SIZE..] && (stagingSize > 0 ==> stagingSize == |h| && HasHeader(h))
      modifies `crc, staging
      ensures Table() == old(Table()) && Header() == old(Header()) && Model() == old(Model())
      ensures crcOn ==> crc == Crc32.ByTable(Crc32.Table, 0, Zeroed(h))
    {
      hide Crc32.ByTable, Zeroed, Staged;
      TableOf(h);
      SeedPageCrc(h);
      TableOf(h);
    }

    lemma ModelLink()
      requires Shape()
      ensures Model().link == Ties() && Model().job.bosUsed == bosUsed && Model().link.prevContinued == prevContinued
    {
    }

    lemma HeaderIs()
      requires Shape()
      ensures var p := Header();
        p.flags == page.flags && p.serial == page.serial && p.sequence == page.sequence && p.checksum == page.checksum
        && p.granule == page.granule && p.table == Table()
    {
    }

    /** The part of a header that is there is staged. */
    method StageInput(input: seq<Byte>) returns (r: Reply)
      requires Shape() && stage != Processing && stagingSize == 0
      modifies `stagingSize, `stage, staging
      ensures var n := Min(|input|, MAX_HEADER);
        Shape() && stage == AccumulatingHeader && r == Nothing(NeedMoreData, n)
        && Model() == old(Model()).(stage := AccumulatingHeader, staged := input[..n])
    {
      hide Table;
      var n := Min(|input|, MAX_HEADER);
      if |input| > 0 {
        Stash(input[..n]);
      }
      stage := AccumulatingHeader;
      r := Nothing(NeedMoreData, n);
      assert old(Staged()) + input[..n] == input[..n];
    }

    /** A call whose header bytes come from the input alone. */
    method ReadDirect(input: seq<Byte>) returns (r: Reply, entered: bool)
      requires Shape() && stage != Processing && stagingSize == 0
      requires !spanActive
      modifies `page, `bodySize, `granule, `serial, `expected, `initialized, `crc, `index, `consumed, `spanActive, `isBos, `bosUsed,
               `seen, `stagingSize, `stage, staging
      ensures Shape() && !spanActive
      ensures match HeaderStage(Settings(), old(Model()), input)
        case Stop(t, m) => !entered && Agrees(r, m) && (!m.code.IsError() ==> stage != Processing && Model() == t)
        case Entered(t, n) => entered && r.used == n && PageSet() && stage == Processing && Model() == t
    {
      hide Crc32.ByTable, ParseHeader, Zeroed, Consistency, Sum, Table, Header, Model, Accept, At, PageSet;
      NothingStaged();
      entered := false;
      match ParseHeader(input) {
        case Incomplete =>
          r := StageInput(input);
        case Bad(code) =>
          r := Nothing(code, 0);
        case Parsed(p, size) =>
          ParsedPrefix(input);
          r, entered := EnterPage(input[..size], p, size);
      }
    }

    lemma NothingStaged()
      requires Shape() && stage != Processing
      ensures Model().staged == Staged() && (stagingSize == 0 <==> Staged() == [])
    {
    }

    /** A call that adds to a staged header. */
    method ReadStaged(input: seq<Byte>) returns (r: Reply, entered: bool)
      requires Shape() && stage == AccumulatingHeader && 0 < stagingSize && !WholeHeader(Staged())
      requires !spanActive
      modifies `page, `bodySize, `granule, `serial, `expected, `initialized, `crc, `index, `consumed, `spanActive, `isBos, `bosUsed,
               `seen, `stagingSize, `stage, staging
      ensures Shape() && !spanActive
      ensures match HeaderStage(Settings(), old(Model()), input)
        case Stop(t, m) => !entered && Agrees(r, m) && (!m.code.IsError() ==> stage != Processing && Model() == t)
        case Entered(t, n) => entered && r.used == n && PageSet() && stage == Processing && Model() == t
    {
      hide Crc32.ByTable, ParseHeader, Zeroed, Consistency, Sum, Table, Header, Model, Accept, At, PageSet, StagedCount, WholeHeader;
      NothingStaged();
      TakenSome(Staged(), input);
      entered := false;
      var added, whole := Accumulate(input);
      r := Nothing(NeedMoreData, added);
      if whole {
        var h := staging[..stagingSize];
        NotIncomplete(h);
        match ParseHeader(h) {
          case Incomplete =>
            assert false;
          case Bad(code) =>
            r := Nothing(code, 0);
          case Parsed(p, size) =>
            ParsedPrefix(h);
            ParsedAll(h);
            AcceptStaged(Settings(), old(Model()), h, p, h, added);
            r, entered := EnterPage(h, p, added);
        }
      }
    }

    method Accumulate(input: seq<Byte>) returns (added: nat, whole: bool)
      requires Shape() && stage != Processing && !WholeHeader(Staged())
      modifies `stagingSize, staging
      ensures Shape() && added == StagedCount(old(Staged()), input) && Staged() == old(Staged()) + input[..added]
      ensures whole == WholeHeader(Staged()) && Model() == old(Model()).(staged := Staged())
    {
      hide StagedCount, WholeHeader, Table;
      added, whole := AccumulateHeader(input);
    }

    // Calls.

    /** between_packets */
    predicate AtBoundary()
      reads this
    {
      if assembling || skipping || spanActive then false
      else if stage != Processing || index == 0 then !prevContinued
      else true
    }

    /** enforce_mode */
    method EnforceMode(requested: Mode) returns (ok: bool)
      requires Shape() && (spanActive ==> stage == Processing)
      modifies `mode
      ensures ok == !Conflicts(old(Model()), requested)
      ensures Model() == if ok then old(Model()).(mode := requested) else old(Model())
    {
      hide Table, Staged;
      ok := mode == Unset || mode == requested || AtBoundary();
      if ok {
        mode := requested;
      }
    }

    /** The bookkeeping of the page in work, in the fields. */
    lemma Standing()
      requires Shape() && PageSet() && Inv(Settings(), Model()) && stage == Processing
      ensures InPage(Settings(), Model().cur) && (spanActive ==> 0 < spanRemaining) && !Model().cur.AtEnd()
      ensures Model().cur.spanActive == spanActive
    {
      hide InPage, Table;
    }

    lemma StageOf()
      requires Shape()
      ensures Model().stage == stage && Model().mode == mode
      ensures stage != Processing ==> PageSet()
      ensures forall s: State, m: Mode {:trigger Inv(Settings(), s.(mode := m))} :: Inv(Settings(), s.(mode := m)) == Inv(Settings(), s)
    {
      hide InPage;
    }

    /** get_next_data */
    method GetNextData(input: seq<Byte>) returns (r: Reply)
      requires Valid()
      modifies this, staging
      ensures var (t, m) := NextData(Settings(), old(Model()), input);
        Agrees(r, m) && (!m.code.IsError() ==> Valid() && Model() == t)
      ensures Conflicts(old(Model()), DataMode) ==> Valid() && Model() == old(Model())
      ensures buffer == old(buffer)
    {
      hide HeaderStage, Offer, Model, PageSet, Inv, Owned, InPage, Conflicts, Accounted;
      DataKeeps(Settings(), Model(), input);
      StageOf();
      var ok := EnforceMode(DataMode);
      if !ok {
        return Nothing(InvalidModeSwitch, 0);
      }
      StageOf();
      if stage == Processing {
        Standing();
        r := OfferBodyData(input, 0);
      } else {
        HeaderAccounts(Settings(), Model(), input);
        var entered;
        r, entered := ReadHeader(input);
        StageOf();
        if entered {
          var used := r.used;
          if used >= |input| {
            r := Nothing(NeedMoreData, used);
          } else {
            r := OfferBodyData(input[used..], used);
          }
        }
      }
    }

    /** handle_page_header, up to its zero-copy attempt */
    method ReadHeader(input: seq<Byte>) returns (r: Reply, entered: bool)
      requires Shape() && Inv(Settings(), Model()) && stage != Processing
      requires !spanActive
      modifies `page, `bodySize, `granule, `serial, `expected, `initialized, `crc, `index, `consumed, `spanActive, `isBos, `bosUsed,
               `seen, `stagingSize, `stage, staging
      ensures Shape() && !spanActive
      ensures match HeaderStage(Settings(), old(Model()), input)
        case Stop(t, m) => !entered && Agrees(r, m) && (!m.code.IsError() ==> stage != Processing && Model() == t)
        case Entered(t, n) => entered && r.used == n && PageSet() && stage == Processing && Model() == t
    {
      hide HeaderStage, Table, WholeHeader;
      if stagingSize == 0 {
        r, entered := ReadDirect(input);
      } else {
        r, entered := ReadStaged(input);
      }
    }

    // Packets.

    /** Opens the span at the cursor unless it is open. */
    method ResumeSpan()
      requires Shape() && stage == Processing
      modifies `span, `spanRemaining, `spanActive
      ensures spanActive && Model() == old(Model()).(cur := old(Model()).cur.Resumed())
      ensures span == Model().cur.span && spanRemaining == Model().cur.spanLeft
    {
      hide Scan, Table, Staged;
      if !spanActive {
        BeginPacketSpan();
        spanActive := true;
      }
    }

    method StopSkipping()
      requires Shape()
      modifies `skipping
      ensures Model() == old(Model()).(job := old(Model()).job.(skipping := false))
    {
      hide Table, Staged, At;
      skipping := false;
    }

    /** The span that is worked on lies in the page. */
    lemma SpanFits()
      requires Shape() && stage == Processing && PageSet() && InPage(Settings(), Model().cur) && !Model().cur.AtEnd() && spanActive
      ensures span.count <= page.segmentCount - index && spanRemaining == Model().cur.spanLeft && span == Model().cur.span
    {
      hide Scan, Sum, Crc32.ByTable;
      ScanCounts(Table(), index);
    }

    /** The bytes of a span that are taken without being given out. */
    method TakeBytes(d: seq<Byte>)
      requires Shape() && stage == Processing && |d| <= spanRemaining && span.count <= page.segmentCount - index
      modifies `crc, `consumed, `seen, `index, `spanActive, `spanRemaining
      ensures var s := old(Model()); var eaten := s.cur.Eat(Settings(), d);
        Model() == s.(cur := if |d| == old(spanRemaining) then eaten.Advance(span) else eaten.Open(span, old(spanRemaining) - |d|))
      ensures |d| == old(spanRemaining) ==> !spanActive
    {
      hide Scan, Table, Staged, Model, At, Header, Work, Crc32.ByTable, Cursor.Eat, Cursor.Advance, Cursor.Open;
      Consume(d);
      TakeOfSpan(|d|);
    }

    /** handle_skipping_packet */
    method HandleSkipping(input: seq<Byte>) returns (r: Reply)
      requires Shape() && stage == Processing && PageSet() && InPage(Settings(), Model().cur) && !Model().cur.AtEnd()
      modifies `span, `crc, `consumed, `seen, `index, `spanActive, `spanRemaining, `skipping, `prevContinued, `stage
      ensures var (t, m) := Skip(Settings(), old(Model()), input);
        Agrees(r, m) && (!m.code.IsError() ==> Model() == t)
      ensures PageSet() && (stage == Processing || (stage == ExpectHeader && !spanActive))
    {
      hide Scan, Table, Staged, Model, At, Header, Work, OggSteps.Finish, Sum, InPage, Cursor.Eat, Cursor.Advance, Cursor.Open, Cursor.Resumed, PageSet;
      ResumedAccounts(Settings(), Model().cur);
      ResumeSpan();
      SpanFits();
      var n := Min(|input|, spanRemaining);
      var whole := n == spanRemaining;
      TakeBytes(input[..n]);
      r := Nothing(NeedMoreData, n);
      InModel();
      if whole {
        if !span.complete {
          r := Finish(r);
        } else {
          StopSkipping();
          var last := index >= page.segmentCount;
          r := Nothing(PacketSkipped, n).(isLast := last);
          if last {
            r := Finish(r);
          }
        }
      }
    }

    /** ensure_buffers_allocated */
    method EnsureBuffer()
      requires Shape()
      modifies `buffer
      ensures Shape() && buffer != null && Model() == old(Model()) && (buffer == old(buffer) || fresh(buffer))
    {
      hide Table, Staged, At;
      if buffer == null {
        buffer := new Byte[minBuffer];
      }
    }

    /** grow_buffer: false where the size is beyond the maximum */
    method GrowBuffer(needed: nat) returns (ok: bool)
      requires Shape() && buffer != null
      modifies `buffer
      ensures Shape() && buffer != null && Model() == old(Model()) && (buffer == old(buffer) || fresh(buffer))
      ensures ok == (needed <= maxBuffer) && (ok ==> needed <= buffer.Length)
    {
      hide Table, Staged, At;
      if needed <= buffer.Length {
        return true;
      }
      if needed > maxBuffer {
        return false;
      }
      var capacity := buffer.Length * 2;
      if capacity < needed {
        capacity := needed;
      }
      if capacity > maxBuffer {
        capacity := maxBuffer;
      }
      var grown := new Byte[capacity];
      forall i | 0 <= i < buffer.Length {
        grown[i] := buffer[i];
      }
      assert grown[..assemblySize] == buffer[..assemblySize];
      buffer := grown;
      return true;
    }

    /** Copies bytes behind those that are assembled. */
    method Append(d: seq<Byte>)
      requires Shape() && buffer != null && assemblySize + |d| <= buffer.Length
      modifies buffer, `assemblySize
      ensures Shape() && Model() == old(Model()).(job := old(Model()).job.(assembly := old(Model()).job.assembly + d))
    {
      hide Table, Staged, At;
      forall i | 0 <= i < |d| {
        buffer[assemblySize + i] := d[i];
      }
      assemblySize := assemblySize + |d|;
      assert buffer[..assemblySize] == old(buffer[..assemblySize]) + d;
    }

    /** The assembled packet is given out. */
    method EndAssembly() returns (packet: seq<Byte>)
      requires Shape() && buffer != null
      modifies `isBos, `assembling, `assemblySize
      ensures Shape() && packet == old(Model()).job.assembly
      ensures Model() == old(Model()).(job := old(Model()).job.(isBos := false, assembling := false, assembly := []))
    {
      hide Table, Staged, At;
      packet := buffer[..assemblySize];
      isBos := false;
      assembling := false;
      assemblySize := 0;
    }

    /** What is assembled is discarded, and the rest of the packet skipped. */
    method GiveUp()
      requires Shape()
      modifies `skipping, `assembling, `assemblySize
      ensures Shape() && Model() == old(Model()).(job := old(Model()).job.(skipping := true, assembling := false, assembly := []))
    {
      hide Table, Staged, At;
      skipping := true;
      assembling := false;
      assemblySize := 0;
    }

    /** return_assembled_packet */
    method ReturnAssembled(used: nat) returns (r: Reply)
      requires Shape() && buffer != null && stage == Processing && PageSet() && !spanActive
      modifies `isBos, `assembling, `assemblySize, `prevContinued, `stage
      ensures Shape()
      ensures var (t, m) := Flush(Settings(), old(Model()), used);
        Agrees(r, m) && (!m.code.IsError() ==> Model() == t)
      ensures PageSet() && (stage == Processing || (stage == ExpectHeader && !spanActive))
    {
      hide Table, Staged, Model, At, Header, Work, OggSteps.Finish, Sum;
      InModel();
      var bos := isBos;
      var packet := EndAssembly();
      InModel();
      var last := index >= page.segmentCount;
      r := Reply(OggSteps.Ok, used, packet, if last then granule else INVALID_GRANULE, bos, last && page.flags & LAST != 0, last, true);
      if last {
        r := Finish(r);
      }
    }

    /** Bytes of the open span are assembled. */
    method TakeIn(d: seq<Byte>) returns (r: Reply)
      requires Shape() && buffer != null && assemblySize + |d| <= buffer.Length && stage == Processing && PageSet() && spanActive
      requires |d| <= spanRemaining == Model().cur.spanLeft && span == Model().cur.span && span.count <= page.segmentCount - index
      modifies buffer, `assemblySize, `crc, `consumed, `seen, `index, `spanActive, `spanRemaining, `assembling, `isBos, `prevContinued, `stage
      ensures Shape()
      ensures var (t, m) := TakenIn(Settings(), old(Model()), d);
        Agrees(r, m) && (!m.code.IsError() ==> Model() == t)
      ensures PageSet() && (stage == Processing || (stage == ExpectHeader && !spanActive))
    {
      hide Scan, Table, Staged, Model, At, Header, Work, OggSteps.Finish, Sum, Cursor.Eat, Cursor.Advance, Cursor.Open, PageSet, Flush;
      var whole := |d| == spanRemaining;
      Append(d);
      TakeBytes(d);
      r := Nothing(NeedMoreData, |d|);
      if whole {
        if span.complete {
          r := ReturnAssembled(|d|);
        } else {
          r := Finish(r);
        }
      }
    }

    /** handle_assembling_packet */
    method HandleAssembling(input: seq<Byte>) returns (r: Reply)
      requires Shape() && buffer != null && stage == Processing && PageSet() && InPage(Settings(), Model().cur) && !Model().cur.AtEnd()
      modifies `buffer, buffer, `assemblySize, `span, `crc, `consumed, `seen, `index, `spanActive, `spanRemaining, `skipping, `assembling,
               `isBos, `prevContinued, `stage
      ensures Shape()
      ensures var (t, m) := Assemble(Settings(), old(Model()), input);
        Agrees(r, m) && (!m.code.IsError() ==> Model() == t)
      ensures PageSet() && (stage == Processing || (stage == ExpectHeader && !spanActive))
      ensures buffer == old(buffer) || fresh(buffer)
    {
      hide Scan, Table, Staged, Model, At, Header, Work, OggSteps.Finish, Sum, InPage, Cursor.Eat, Cursor.Advance, Cursor.Open, Cursor.Resumed,
           PageSet, Skip, Flush, Assemble, TakenIn;
      AssembleIs(Settings(), Model(), input);
      ResumedAccounts(Settings(), Model().cur);
      ResumeSpan();
      SpanFits();
      AssemblySize();
      if spanRemaining == 0 {
        ClosePacketSpan();
        r := ReturnAssembled(0);
        return;
      }
      var n := Min(|input|, spanRemaining);
      if n == 0 {
        return Nothing(NeedMoreData, 0);
      }
      var ok := GrowBuffer(assemblySize + n);
      if ok {
        r := TakeIn(input[..n]);
      } else {
        GiveUp();
        r := HandleSkipping(input);
      }
    }

    lemma AssemblySize()
      requires Shape() && buffer != null
      ensures |Model().job.assembly| == assemblySize
    {
    }

    /** The cursor moves past the segments of a packet that lies whole in the input. */
    method PassSegments(over: Span)
      requires Shape() && stage == Processing && !spanActive && over.count <= page.segmentCount - index
      modifies `index
      ensures index == old(index) + over.count && Model() == old(Model()).(cur := old(Model()).cur.Advance(over))
    {
      hide Table, Staged;
      index := index + over.count;
    }

    /** handle_zero_copy_return */
    method HandleZeroCopyReturn(over: Span, body: seq<Byte>, head: nat) returns (r: Reply)
      requires Shape() && stage == Processing && PageSet() && !spanActive && over.size <= |body| && over.count <= page.segmentCount - index
      modifies `crc, `consumed, `seen, `index, `isBos, `prevContinued, `stage
      ensures var (t, m) := ZeroCopy(Settings(), old(Model()), over, body, head);
        Agrees(r, m) && (!m.code.IsError() ==> Model() == t)
      ensures PageSet() && (stage == Processing || (stage == ExpectHeader && !spanActive))
    {
      hide Table, Staged, Model, At, Header, Work, OggSteps.Finish, Sum, Cursor.Eat, Cursor.Advance, PageSet;
      InModel();
      var bos := isBos;
      Consume(body[..over.size]);
      PassSegments(over);
      ClearBos();
      InModel();
      var last := index >= page.segmentCount;
      r := Reply(OggSteps.Ok, head + over.size, body[..over.size], if last then granule else INVALID_GRANULE, bos,
                 last && page.flags & LAST != 0, last, true);
      if last {
        r := Finish(r);
      }
    }

    method BeginAssembly(next: Span)
      requires Shape() && stage == Processing
      modifies `span, `spanRemaining, `spanActive, `assembling
      ensures spanActive && Model() == old(Model()).(cur := old(Model()).cur.Open(next, next.size), job := old(Model()).job.(assembling := true))
    {
      hide Table, Staged, Header, Model;
      Parts();
      span := next;
      spanRemaining := next.size;
      spanActive := true;
      assembling := true;
      Parts();
    }

    lemma Parts()
      requires Shape() && stage == Processing
      ensures Model() == State(stage, Staged(), At(), Work(), Ties(), mode)
    {
    }

    /** Where the cursor is, in the fields. */
    lemma CursorIn()
      requires Shape() && stage == Processing && PageSet() && InPage(Settings(), Model().cur) && !Model().cur.AtEnd()
      ensures index < page.segmentCount && 1 <= Scan(Table(), index).count <= page.segmentCount - index
      ensures !spanActive ==>
        var next := Scan(Table(), index); var t := Model().cur.Open(next, next.size);
        InPage(Settings(), t) && !t.AtEnd()
    {
      hide Scan, Sum, Crc32.ByTable, PageSet;
      ScanCounts(Table(), index);
    }

    /** handle_zero_copy_path */
    method HandleZeroCopyPath(input: seq<Byte>) returns (r: Reply)
      requires Shape() && buffer != null && stage == Processing && PageSet() && InPage(Settings(), Model().cur) && !Model().cur.AtEnd()
      requires !spanActive
      modifies `buffer, buffer, `assemblySize, `span, `crc, `consumed, `seen, `index, `spanActive, `spanRemaining, `skipping, `assembling,
               `isBos, `prevContinued, `stage
      ensures Shape()
      ensures var (t, m) := Extract(Settings(), old(Model()), input);
        Agrees(r, m) && (!m.code.IsError() ==> Model() == t)
      ensures PageSet() && (stage == Processing || (stage == ExpectHeader && !spanActive))
      ensures buffer == old(buffer) || fresh(buffer)
    {
      hide Scan, Table, Staged, Model, At, Header, Work, OggSteps.Finish, Sum, InPage, Cursor.Eat, Cursor.Advance, Cursor.Open, Assemble, ZeroCopy;
      InModel();
      CursorIn();
      var next := ScanForNextPacket(index);
      if next.complete && |input| >= next.size {
        r := HandleZeroCopyReturn(next, input, 0);
      } else if |input| == 0 {
        r := Nothing(NeedMoreData, 0);
      } else {
        BeginAssembly(next);
        r := HandleAssembling(input);
      }
    }

    /** The zero-copy attempt of handle_page_header */
    method AttemptZeroCopy(input: seq<Byte>, used: nat) returns (r: Reply)
      requires Shape() && stage == Processing && PageSet() && InPage(Settings(), Model().cur) && !Model().cur.AtEnd()
      requires !spanActive && Model().cur.index == 0
      modifies `crc, `consumed, `seen, `index, `isBos, `prevContinued, `stage
      ensures var (t, m) := FirstPacket(Settings(), old(Model()), input, used);
        Agrees(r, m) && (!m.code.IsError() ==> Model() == t)
      ensures PageSet() && (stage == Processing || (stage == ExpectHeader && !spanActive))
    {
      hide Scan, Table, Staged, Model, At, Header, Sum, InPage, Cursor.Eat, Cursor.Advance, ZeroCopy;
      InModel();
      InJob();
      CursorIn();
      r := Nothing(NeedMoreData, used);
      if used < |input| && !assembling && !skipping {
        var first := ScanForNextPacket(0);
        if first.complete && |input| - used >= first.size {
          r := HandleZeroCopyReturn(first, input[used..], used);
        }
      }
    }

    lemma InJob()
      requires Shape()
      ensures Model().job.assembling == assembling && Model().job.skipping == skipping
    {
    }

    /** The part of get_next_packet that reads a header, and with it the first packet if that is all there */
    method PacketFromHeader(input: seq<Byte>) returns (r: Reply)
      requires Shape() && Inv(Settings(), Model()) && stage != Processing && !spanActive
      modifies `page, `bodySize, `granule, `serial, `expected, `initialized, `crc, `index, `consumed, `spanActive, `isBos, `bosUsed,
               `seen, `stagingSize, `stage, `prevContinued, staging
      ensures Shape() && (!r.code.IsError() ==> PageSet() && (spanActive ==> stage == Processing))
      ensures var (t, m) := match HeaderStage(Settings(), old(Model()), input)
          case Stop(t, m) => (t, m)
          case Entered(t, n) => FirstPacket(Settings(), t, input, n);
        Agrees(r, m) && (!m.code.IsError() ==> Model() == t)
    {
      hide HeaderStage, Model, PageSet, Inv, InPage, FirstPacket;
      StageOf();
      HeaderAccounts(Settings(), Model(), input);
      var entered;
      r, entered := ReadHeader(input);
      StageOf();
      if entered {
        AtStart();
        r := AttemptZeroCopy(input, r.used);
      }
    }

    lemma AtStart()
      requires Shape() && stage == Processing && Ready(Settings(), Model())
      ensures InPage(Settings(), Model().cur) && Model().cur.spanActive == spanActive
    {
      hide InPage, Table;
    }

    /** The part of get_next_packet inside a page */
    method PacketInPage(input: seq<Byte>) returns (r: Reply)
      requires Shape() && buffer != null && PageSet() && Inv(Settings(), Model()) && stage == Processing
      requires !assembling && !skipping ==> !spanActive
      modifies `buffer, buffer, `assemblySize, `span, `crc, `consumed, `seen, `index, `spanActive, `spanRemaining, `skipping, `assembling,
               `isBos, `prevContinued, `stage
      ensures Shape() && PageSet() && (stage == Processing || (stage == ExpectHeader && !spanActive))
      ensures var s := old(Model());
        var (t, m) := if s.job.skipping then Skip(Settings(), s, input)
          else if s.job.assembling then Assemble(Settings(), s, input)
          else Extract(Settings(), s, input);
        Agrees(r, m) && (!m.code.IsError() ==> Model() == t)
      ensures buffer == old(buffer) || fresh(buffer)
    {
      hide Model, PageSet, Inv, InPage, Skip, Assemble, Extract;
      InJob();
      Standing();
      if skipping {
        r := HandleSkipping(input);
      } else if assembling {
        r := HandleAssembling(input);
      } else {
        r := HandleZeroCopyPath(input);
      }
    }

    /** get_next_packet */
    method GetNextPacket(input: seq<Byte>) returns (r: Reply)
      requires Valid()
      modifies this, staging, Buffers()
      ensures var (t, m) := NextPacket(Settings(), old(Model()), input);
        Agrees(r, m) && (!m.code.IsError() ==> Valid() && Model() == t)
      ensures Conflicts(old(Model()), PacketMode) ==> Valid() && Model() == old(Model())
      ensures buffer == old(buffer) || fresh(buffer)
    {
      hide HeaderStage, Model, PageSet, Inv, Owned, InPage, Conflicts, Accounted, Skip, Assemble, Extract, FirstPacket;
      PacketKeeps(Settings(), Model(), input);
      FreeSpan(Model());
      StageOf();
      var ok := EnforceMode(PacketMode);
      if !ok {
        return Nothing(InvalidModeSwitch, 0);
      }
      EnsureBuffer();
      StageOf();
      if stage != Processing {
        r := PacketFromHeader(input);
      } else {
        InJob();
        Standing();
        r := PacketInPage(input);
      }
    }
  }
}
