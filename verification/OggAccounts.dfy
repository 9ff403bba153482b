/** The demuxer's bookkeeping, for any input whatever: what it has consumed of a page is what its cursor says,
    and the CRC it compares is the CRC of the whole page. */
module OggAccounts {
  import opened Bits
  import opened OggFormat
  import opened OggSteps
  import Crc32

  /** A span is a run of lacing values, the last of them below 255 exactly when the packet ends on the page. */
  lemma {:induction false} ScanSpan(table: seq<Byte>, i: nat)
    requires i < |table|
    ensures var s := Scan(table, i);
      && s.size == Sum(table[i..i + s.count])
      && (forall k | i <= k < i + s.count - 1 :: table[k] == 255)
      && s.complete == (table[i + s.count - 1] < 255)
      && (!s.complete ==> i + s.count == |table|)
    decreases |table| - i
  {
    var s := Scan(table, i);
    if table[i] < 255 {
      assert table[i..i + 1] == [table[i]];
      assert Sum([table[i]]) == table[i] as nat + Sum([]);
    } else if i + 1 < |table| {
      ScanSpan(table, i + 1);
      assert table[i..i + s.count] == [table[i]] + table[i + 1..i + s.count];
    } else {
      assert table[i..i + 1] == [table[i]];
      assert Sum([table[i]]) == table[i] as nat + Sum([]);
    }
  }

  /** The cursor's account of a page. */
  predicate InPage(c: Config, cur: Cursor) {
    && 0 < |cur.page.table| <= 255 && cur.index <= |cur.page.table|
    && (cur.spanActive ==> cur.index < |cur.page.table| && cur.span == Scan(cur.page.table, cur.index) && cur.spanLeft <= cur.span.size)
    && (!cur.spanActive ==> cur.span == NO_SPAN && cur.spanLeft == 0)
    && cur.consumed == Sum(cur.page.table[..cur.index]) + (cur.span.size - cur.spanLeft)
    && |cur.seen| == HEADER_SIZE + |cur.page.table| + cur.consumed
    && (c.crcOn ==> cur.crc == Crc32.ByTable(Crc32.Table, 0, cur.seen))
  }

  predicate Inv(c: Config, s: State) {
    if s.stage == Processing then s.staged == [] && InPage(c, s.cur) && !s.cur.AtEnd() && (s.cur.spanActive ==> 0 < s.cur.spanLeft)
    else s.cur == NO_CURSOR && |s.staged| <= MAX_HEADER && !WholeHeader(s.staged) && (s.stage == ExpectHeader ==> s.staged == [])
  }

  /** The page is consumed, and its CRC is the one its header holds. */
  predicate Complete(c: Config, page: PageHeader, seen: seq<Byte>) {
    && |seen| == HEADER_SIZE + |page.table| + Sum(page.table)
    && (c.crcOn ==> Crc32.ByTable(Crc32.Table, 0, seen) as nat == page.checksum)
  }

  /** What a step within a page does with the bytes d that it consumes. */
  predicate Accounted(c: Config, cur: Cursor, d: seq<Byte>, next: State) {
    OfPage(c, cur.page, cur.seen, d, next)
  }

  /** The same, for a page of which these bytes have been seen. */
  predicate OfPage(c: Config, page: PageHeader, seen: seq<Byte>, d: seq<Byte>, next: State) {
    && Inv(c, next)
    && if next.stage == Processing then next.cur.page == page && next.cur.seen == seen + d
       else next.stage == ExpectHeader && Complete(c, page, seen + d) && next.link.prevContinued == page.EndsOpen()
  }

  /** The span at the cursor, of which this many bytes are left. */
  predicate HasSpan(cur: Cursor, span: Span, left: nat) {
    && cur.index < |cur.page.table| && span == Scan(cur.page.table, cur.index)
    && if cur.spanActive then span == cur.span && left == cur.spanLeft else left == span.size
  }

  /** The span at i ends inside the page. */
  lemma SpanEnd(table: seq<Byte>, i: nat)
    requires i < |table|
    ensures var s := Scan(table, i);
      && Sum(table[..i + s.count]) == Sum(table[..i]) + s.size <= Sum(table)
      && (!s.complete ==> i + s.count == |table|)
  {
    hide Scan, Sum;
    ScanSpan(table, i);
    var k := i + Scan(table, i).count;
    assert table[..k] == table[..i] + table[i..k];
    SumConcat(table[..i], table[i..k]);
    SumSplit(table, k);
  }

  lemma Eaten(c: Config, cur: Cursor, d: seq<Byte>)
    requires c.crcOn ==> cur.crc == Crc32.ByTable(Crc32.Table, 0, cur.seen)
    ensures c.crcOn ==> cur.Eat(c, d).crc == Crc32.ByTable(Crc32.Table, 0, cur.seen + d)
  {
    hide Crc32.ByTable;
    Crc32.ByTableConcat(Crc32.Table, 0, cur.seen, d);
  }

  lemma Partly(c: Config, cur: Cursor, span: Span, left: nat, d: seq<Byte>)
    requires InPage(c, cur) && HasSpan(cur, span, left) && |d| < left
    ensures var next := cur.Eat(c, d).Open(span, left - |d|);
      InPage(c, next) && next.consumed < Sum(cur.page.table) && !next.AtEnd()
  {
    hide Crc32.ByTable, Scan, Sum;
    Eaten(c, cur, d);
    SpanEnd(cur.page.table, cur.index);
  }

  lemma PartlyLess(c: Config, cur: Cursor, span: Span, left: nat, d: seq<Byte>)
    requires InPage(c, cur) && HasSpan(cur, span, left) && |d| < left
    ensures cur.consumed + |d| < Sum(cur.page.table)
  {
    hide InPage, Scan, Sum;
    Partly(c, cur, span, left, d);
  }

  lemma Wholly(c: Config, cur: Cursor, span: Span, left: nat, d: seq<Byte>)
    requires InPage(c, cur) && HasSpan(cur, span, left) && |d| == left
    ensures var next := cur.Eat(c, d).Advance(span);
      && InPage(c, next) && next.consumed <= Sum(cur.page.table)
      && (!span.complete ==> next.AtEnd())
  {
    hide Crc32.ByTable, Scan, Sum;
    Eaten(c, cur, d);
    SpanEnd(cur.page.table, cur.index);
  }

  lemma AtTheEnd(c: Config, cur: Cursor)
    requires InPage(c, cur) && cur.AtEnd()
    ensures cur.consumed == Sum(cur.page.table)
  {
    assert cur.page.table[..cur.index] == cur.page.table;
  }

  /** A used-up page may be finished. */
  lemma Finishes(c: Config, cur: Cursor, s: State, d: seq<Byte>, reply: Reply)
    requires s.stage == Processing && s.staged == [] && InPage(c, s.cur) && s.cur.consumed == Sum(s.cur.page.table)
    requires s.cur.page == cur.page && s.cur.seen == cur.seen + d
    ensures var (next, r) := Finish(c, s, reply);
      r.used == reply.used && (!r.code.IsError() ==> Accounted(c, cur, d, next))
  {
    hide Crc32.ByTable;
  }

  lemma Answers(c: Config, cur: Cursor, s: State, d: seq<Byte>, reply: Reply)
    requires s.stage == Processing && s.staged == [] && InPage(c, s.cur) && !s.cur.spanActive
    requires s.cur.page == cur.page && s.cur.seen == cur.seen + d
    ensures var (next, r) := Answer(c, s, reply);
      r.used == reply.used && (!r.code.IsError() ==> Accounted(c, cur, d, next))
  {
    hide InPage, Finish, Complete;
    if s.cur.AtEnd() {
      AtTheEnd(c, s.cur);
      Finishes(c, cur, s, d, reply);
    }
  }

  /** The state of a page being consumed. */
  predicate Ready(c: Config, s: State) {
    s.stage == Processing && s.staged == [] && InPage(c, s.cur)
  }

  /** A page that is not used up */
  lemma StillOn(c: Config, cur: Cursor, next: State, d: seq<Byte>)
    requires Ready(c, next) && !next.cur.AtEnd() && (next.cur.spanActive ==> 0 < next.cur.spanLeft)
    requires next.cur.page == cur.page && next.cur.seen == cur.seen + d
    ensures Accounted(c, cur, d, next)
  {
    hide InPage, Complete;
  }

  lemma SpanOpen(cur: Cursor, span: Span, left: nat)
    requires HasSpan(cur, span, left) && 0 < left
    ensures !cur.AtEnd() && (cur.spanActive ==> 0 < cur.spanLeft) && cur.seen + [] == cur.seen
  {
    hide Scan;
  }

  lemma SliceAccounts(c: Config, s: State, span: Span, left: nat, body: seq<Byte>, head: nat)
    requires Ready(c, s) && HasSpan(s.cur, span, left) && 0 < left
    ensures var (next, r) := Slice(c, s, span, left, body, head);
      && head <= r.used <= head + |body|
      && (!r.code.IsError() ==> Accounted(c, s.cur, body[..r.used - head], next))
  {
    hide InPage, Scan, Sum, Finish, Accounted;
    var n := Min(|body|, left);
    if n == 0 {
      SpanOpen(s.cur, span, left);
      StillOn(c, s.cur, s, body[..0]);
    } else {
      var eaten := s.cur.Eat(c, body[..n]);
      var next := s.(cur := if n == left then eaten.Advance(span) else eaten.Open(span, left - n), job := s.job.(isBos := false));
      if n == left {
        Wholly(c, s.cur, span, left, body[..n]);
        if next.cur.AtEnd() {
          AtTheEnd(c, next.cur);
        }
        if next.cur.consumed >= Sum(s.cur.page.table) {
          var reply := Reply(Ok, head + n, body[..n], s.cur.page.granule, s.job.isBos, s.cur.page.Has(LAST), true, span.complete && n == left);
          Finishes(c, s.cur, next, body[..n], reply);
        } else {
          StillOn(c, s.cur, next, body[..n]);
        }
      } else {
        Partly(c, s.cur, span, left, body[..n]);
        StillOn(c, s.cur, next, body[..n]);
      }
    }
  }

  lemma {:induction false} SettleAccounts(c: Config, s: State, body: seq<Byte>, head: nat)
    requires Ready(c, s) && !s.cur.spanActive
    ensures var (next, r) := Settle(c, s, body, head);
      && head <= r.used <= head + |body|
      && (!r.code.IsError() ==> Accounted(c, s.cur, body[..r.used - head], next))
    decreases |s.cur.page.table| - s.cur.index
  {
    hide InPage, Scan, Slice, Sum, Complete, Finish, Answer;
    assert s.cur.seen + body[..0] == s.cur.seen;
    if s.cur.AtEnd() {
      AtTheEnd(c, s.cur);
      Finishes(c, s.cur, s, [], Nothing(NeedMoreData, head));
      assert body[..0] == [];
    } else {
      var span := Scan(s.cur.page.table, s.cur.index);
      if span.size > 0 {
        SliceAccounts(c, s, span, span.size, body, head);
      } else {
        Stepped(c, s.cur, span);
        var next := s.(cur := s.cur.Advance(span));
        if s.cur.index == 0 && s.link.prevContinued {
          Answers(c, s.cur, next.(job := s.job.(isBos := false)), body[..0],
                  Reply(Ok, head, [], s.cur.page.granule, s.job.isBos, s.cur.page.Has(LAST), next.cur.AtEnd(), true));
        } else {
          SettleAccounts(c, next, body, head);
        }
      }
    }
  }

  lemma Stepped(c: Config, cur: Cursor, span: Span)
    requires InPage(c, cur) && !cur.AtEnd() && span == Scan(cur.page.table, cur.index)
    requires if cur.spanActive then cur.spanLeft == 0 else span.size == 0
    ensures InPage(c, cur.Advance(span)) && (!span.complete ==> cur.Advance(span).AtEnd())
  {
    hide Crc32.ByTable, Scan, Sum;
    SpanEnd(cur.page.table, cur.index);
  }

  lemma OfferAccounts(c: Config, s: State, body: seq<Byte>, head: nat)
    requires Inv(c, s) && s.stage == Processing
    ensures var (next, r) := Offer(c, s, body, head);
      && head <= r.used <= head + |body|
      && (!r.code.IsError() ==> Accounted(c, s.cur, body[..r.used - head], next))
  {
    hide Settle, Slice, Accounted, Scan, Sum, Crc32.ByTable;
    if s.cur.spanActive {
      SliceAccounts(c, s, s.cur.span, s.cur.spanLeft, body, head);
    } else {
      SettleAccounts(c, s, body, head);
    }
  }

  /** Opening the span at the cursor changes nothing in the account. */
  lemma ResumedAccounts(c: Config, cur: Cursor)
    requires InPage(c, cur) && !cur.AtEnd()
    ensures var r := cur.Resumed();
      InPage(c, r) && HasSpan(r, r.span, r.spanLeft) && r.page == cur.page && r.seen == cur.seen && !r.AtEnd() && r.spanActive
  {
    hide Crc32.ByTable, Scan, Sum;
  }

  lemma SkipAccounts(c: Config, s: State, input: seq<Byte>)
    requires Ready(c, s) && !s.cur.AtEnd()
    ensures var (next, r) := Skip(c, s, input);
      && r.used <= |input|
      && (!r.code.IsError() ==> Accounted(c, s.cur, input[..r.used], next))
  {
    hide InPage, HasSpan, Scan, Sum, Complete, Finish, Answer, Cursor.Resumed;
    ResumedAccounts(c, s.cur);
    var cur := s.cur.Resumed();
    var n := Min(|input|, cur.spanLeft);
    var eaten := cur.Eat(c, input[..n]);
    if n < cur.spanLeft {
      Partly(c, cur, cur.span, cur.spanLeft, input[..n]);
    } else {
      Wholly(c, cur, cur.span, cur.spanLeft, input[..n]);
      var next := s.(cur := eaten.Advance(cur.span));
      if !cur.span.complete {
        AtTheEnd(c, next.cur);
        Finishes(c, s.cur, next, input[..n], Nothing(NeedMoreData, n));
      } else {
        Answers(c, s.cur, next.(job := s.job.(skipping := false)), input[..n], Nothing(PacketSkipped, n).(isLast := next.cur.AtEnd()));
      }
    }
  }

  lemma FlushAccounts(c: Config, cur: Cursor, s: State, d: seq<Byte>, used: nat)
    requires Ready(c, s) && !s.cur.spanActive && s.cur.page == cur.page && s.cur.seen == cur.seen + d
    ensures var (next, r) := Flush(c, s, used);
      r.used == used && (!r.code.IsError() ==> Accounted(c, cur, d, next))
  {
    hide InPage, Accounted, Answer;
    var last := s.cur.AtEnd();
    Answers(c, cur, s.(job := s.job.(isBos := false, assembling := false, assembly := [])), d,
            Reply(Ok, used, s.job.assembly, if last then s.cur.page.granule else INVALID_GRANULE, s.job.isBos,
                  last && s.cur.page.Has(LAST), last, true));
  }

  lemma AssembleAccounts(c: Config, s: State, input: seq<Byte>)
    requires Ready(c, s) && !s.cur.AtEnd()
    ensures var (next, r) := Assemble(c, s, input);
      && r.used <= |input|
      && (!r.code.IsError() ==> Accounted(c, s.cur, input[..r.used], next))
  {
    hide InPage, HasSpan, Scan, Sum, Complete, Finish, Answer, Skip, Flush, Cursor.Resumed, Cursor.Advance;
    ResumedAccounts(c, s.cur);
    var cur := s.cur.Resumed();
    var n := Min(|input|, cur.spanLeft);
    assert s.cur.seen + input[..0] == s.cur.seen;
    if cur.spanLeft == 0 {
      Closing(c, cur);
      FlushAccounts(c, s.cur, s.(cur := cur.Advance(cur.span)), input[..0], 0);
    } else if n == 0 {
    } else if |s.job.assembly| + n > c.maxBuffer {
      Twice(cur);
      SkipAccounts(c, s.(cur := cur, job := s.job.(skipping := true, assembling := false, assembly := [])), input);
    } else {
      var eaten := cur.Eat(c, input[..n]);
      var job := s.job.(assembly := s.job.assembly + input[..n]);
      if n < cur.spanLeft {
        Partly(c, cur, cur.span, cur.spanLeft, input[..n]);
      } else {
        Wholly(c, cur, cur.span, cur.spanLeft, input[..n]);
        AdvanceKeeps(eaten, cur.span);
        var next := s.(cur := eaten.Advance(cur.span), job := job);
        if cur.span.complete {
          FlushAccounts(c, s.cur, next, input[..n], n);
        } else {
          AtTheEnd(c, next.cur);
          Finishes(c, s.cur, next, input[..n], Nothing(NeedMoreData, n));
        }
      }
    }
  }

  lemma AdvanceKeeps(cur: Cursor, span: Span)
    ensures cur.Advance(span).page == cur.page && cur.Advance(span).seen == cur.seen && !cur.Advance(span).spanActive
  {
  }

  lemma Twice(cur: Cursor)
    requires cur.spanActive
    ensures cur.Resumed() == cur
  {
  }

  lemma Closing(c: Config, cur: Cursor)
    requires InPage(c, cur) && cur.spanActive && cur.spanLeft == 0
    ensures InPage(c, cur.Advance(cur.span)) && cur.Advance(cur.span).page == cur.page && cur.Advance(cur.span).seen == cur.seen
    ensures !cur.Advance(cur.span).spanActive
  {
    hide Crc32.ByTable, Scan, Sum;
    Stepped(c, cur, cur.span);
  }

  lemma ZeroCopyAccounts(c: Config, s: State, span: Span, body: seq<Byte>, head: nat)
    requires Ready(c, s) && !s.cur.spanActive && HasSpan(s.cur, span, span.size) && span.size <= |body|
    ensures var (next, r) := ZeroCopy(c, s, span, body, head);
      r.used == head + span.size && (!r.code.IsError() ==> Accounted(c, s.cur, body[..span.size], next))
  {
    hide InPage, HasSpan, Scan, Sum, Complete, Answer;
    Wholly(c, s.cur, span, span.size, body[..span.size]);
    var next := s.(cur := s.cur.Eat(c, body[..span.size]).Advance(span), job := s.job.(isBos := false));
    var last := next.cur.AtEnd();
    Answers(c, s.cur, next, body[..span.size],
            Reply(Ok, head + span.size, body[..span.size], if last then s.cur.page.granule else INVALID_GRANULE, s.job.isBos,
                  last && s.cur.page.Has(LAST), last, true));
  }

  lemma ExtractAccounts(c: Config, s: State, input: seq<Byte>)
    requires Ready(c, s) && !s.cur.AtEnd() && !s.cur.spanActive
    ensures var (next, r) := Extract(c, s, input);
      && r.used <= |input|
      && (!r.code.IsError() ==> Accounted(c, s.cur, input[..r.used], next))
  {
    hide Crc32.ByTable, Scan, Sum, ZeroCopy, Assemble;
    var next := Scan(s.cur.page.table, s.cur.index);
    assert s.cur.seen + input[..0] == s.cur.seen;
    if next.complete && |input| >= next.size {
      ZeroCopyAccounts(c, s, next, input, 0);
    } else if input != [] {
      AssembleAccounts(c, s.(cur := s.cur.Open(next, next.size), job := s.job.(assembling := true)), input);
    }
  }

  // Headers.

  /** Staging takes bytes as long as the header is not whole, and no more than its length. */
  lemma TakenSome(staged: seq<Byte>, input: seq<Byte>)
    requires !WholeHeader(staged) && |staged| <= MAX_HEADER
    ensures var n := StagedCount(staged, input);
      && (input != [] ==> 0 < n)
      && |staged + input[..n]| <= MAX_HEADER
      && (WholeHeader(staged + input[..n]) ==> |staged + input[..n]| == HEADER_SIZE + (staged + input[..n])[COUNT_AT] as nat)
  {
    hide StagedCount, WholeHeader;
    TakenLength(staged, input);
    TakenWhole(staged, input);
  }

  lemma TakenLength(staged: seq<Byte>, input: seq<Byte>)
    requires !WholeHeader(staged) && |staged| <= MAX_HEADER
    ensures var n := StagedCount(staged, input); (input != [] ==> 0 < n) && |staged| + n <= MAX_HEADER
  {
    var a := if |staged| < HEADER_SIZE then Min(|input|, HEADER_SIZE - |staged|) else 0;
    if a == 0 {
      assert staged + input[..a] == staged;
    }
  }

  lemma TakenWhole(staged: seq<Byte>, input: seq<Byte>)
    requires !WholeHeader(staged)
    ensures var h := staged + input[..StagedCount(staged, input)];
      WholeHeader(h) ==> |h| == HEADER_SIZE + h[COUNT_AT] as nat
  {
    var a := if |staged| < HEADER_SIZE then Min(|input|, HEADER_SIZE - |staged|) else 0;
    var n := StagedCount(staged, input);
    if |staged + input[..a]| >= HEADER_SIZE {
      CountStays(staged, input, a, n);
    }
  }

  lemma CountStays(staged: seq<Byte>, input: seq<Byte>, a: nat, n: nat)
    requires a <= n <= |input| && |staged + input[..a]| >= HEADER_SIZE
    ensures (staged + input[..n])[COUNT_AT] == (staged + input[..a])[COUNT_AT]
  {
    assert input[..n][..a] == input[..a];
  }

  /** What the next page must agree with, once this header has been accepted. */
  function Linked(l: Link, h: PageHeader): Link {
    Link(l.prevContinued, h.serial, Sequel(h.sequence), true)
  }

  /** A header that is entered: these are its bytes. */
  predicate EnteredOn(c: Config, s: State, input: seq<Byte>, next: State, used: nat) {
    && used <= |input| && HEADER_SIZE <= |s.staged + input[..used]|
    && Ready(c, next) && !next.cur.AtEnd() && next.cur.index == 0 && !next.cur.spanActive
    && ParseHeader(s.staged + input[..used]) == Parsed(next.cur.page, |s.staged + input[..used]|)
    && next.cur.seen == Zeroed(s.staged + input[..used])
    && Consistency(s.link, next.cur.page) == Ok && next.link == Linked(s.link, next.cur.page) && next.mode == s.mode
    && next.job.assembling == s.job.assembling && next.job.skipping == s.job.skipping && next.job.assembly == s.job.assembly
  }

  lemma ParsedPrefix(h: seq<Byte>)
    requires ParseHeader(h).Parsed?
    ensures HEADER_SIZE <= ParseHeader(h).size == HEADER_SIZE + |ParseHeader(h).header.table| && |ParseHeader(h).header.table| <= 255
    ensures ParseHeader(h[..ParseHeader(h).size]) == ParseHeader(h)
  {
    var n := ParseHeader(h).size;
    assert h[..n][..4] == h[..4] && h[..n][6..14] == h[6..14] && h[..n][14..18] == h[14..18];
    assert h[..n][18..22] == h[18..22] && h[..n][22..26] == h[22..26] && h[..n][HEADER_SIZE..n] == h[HEADER_SIZE..n];
  }

  lemma AcceptAccounts(c: Config, s: State, h: PageHeader, bytes: seq<Byte>, used: nat)
    requires Inv(c, s.(staged := [])) && s.stage != Processing && HEADER_SIZE <= |bytes| == HEADER_SIZE + |h.table| && |h.table| <= 255
    ensures match Accept(c, s, h, bytes, used)
      case Stop(next, r) =>
        !r.code.IsError() ==>
          && r.code == NeedMoreData && r.used == used && Inv(c, next) && next.stage == ExpectHeader
          && h.table == [] && Consistency(s.link, h) == Ok && next.link == Linked(s.link, h) && Complete(c, h, Zeroed(bytes))
      case Entered(next, n) =>
        n == used && Ready(c, next) && !next.cur.AtEnd() && next.cur.index == 0 && !next.cur.spanActive
        && next.cur.page == h && next.cur.seen == Zeroed(bytes)
        && Consistency(s.link, h) == Ok && next.link == Linked(s.link, h) && next.mode == s.mode
        && next.job.assembling == s.job.assembling && next.job.skipping == s.job.skipping && next.job.assembly == s.job.assembly
  {
    hide Crc32.ByTable, Scan, Zeroed, Consistency;
    assert h.table[..0] == [];
    assert Sum([]) == 0;
  }

  /** Bytes that belong to a header that is not complete yet */
  predicate Gathers(s: State, d: seq<Byte>, next: State) {
    next.stage != Processing && next.link == s.link && next.staged == s.staged + d
  }

  /** The first n of the bytes complete a header, which follows the pages before: if the page has no lacing value it is
      over and its CRC matched, and otherwise the rest of the bytes are of its body. */
  predicate TakesPage(c: Config, s: State, d: seq<Byte>, next: State, n: nat) {
    n <= |d| && HEADER_SIZE <= |s.staged + d[..n]| &&
    var h := s.staged + d[..n];
    var p := ParseHeader(h);
    p.Parsed? && p.size == |h| && Consistency(s.link, p.header) == Ok &&
    if p.header.table == [] then
      n == |d| && next.stage == ExpectHeader && next.link == Linked(s.link, p.header) && Complete(c, p.header, Zeroed(h))
    else OfPage(c, p.header, Zeroed(h), d[n..], next) && LinkedAfter(Linked(s.link, p.header), p.header, next)
  }

  /** The link changes when the page is over. */
  predicate LinkedAfter(l: Link, page: PageHeader, next: State) {
    next.link == if next.stage == Processing then l else l.(prevContinued := page.EndsOpen())
  }

  lemma HeaderAccounts(c: Config, s: State, input: seq<Byte>)
    requires Inv(c, s) && s.stage != Processing
    ensures match HeaderStage(c, s, input)
      case Stop(next, r) =>
        !r.code.IsError() ==>
          && r.code == NeedMoreData && r.used <= |input| && Inv(c, next) && next.stage != Processing && (input != [] ==> 0 < r.used)
          && (Gathers(s, input[..r.used], next) || TakesPage(c, s, input[..r.used], next, r.used))
      case Entered(next, used) => 0 < used && EnteredOn(c, s, input, next, used)
  {
    hide Accept, ParseHeader, StagedCount, Zeroed, Ready, Complete, Consistency, OfPage;
    if s.staged == [] {
      assert [] + input[..0] == [];
      var p := ParseHeader(input);
      if p.Parsed? {
        ParsedPrefix(input);
        AcceptAccounts(c, s, p.header, input[..p.size], p.size);
        assert s.staged + input[..p.size] == input[..p.size];
        assert input[..p.size][..p.size] == input[..p.size];
      } else if p.Incomplete? {
        IncompleteHeader(input);
        assert input[..|input|] == input;
      }
    } else {
      var n := StagedCount(s.staged, input);
      var staged := s.staged + input[..n];
      TakenSome(s.staged, input);
      if WholeHeader(staged) {
        NotIncomplete(staged);
        var p := ParseHeader(staged);
        if p.Parsed? {
          ParsedPrefix(staged);
          ParsedAll(staged);
          assert staged[..|staged|] == staged;
          assert input[..n][..n] == input[..n];
          AcceptAccounts(c, s, p.header, staged, n);
        }
      }
    }
  }

  lemma IncompleteHeader(h: seq<Byte>)
    requires ParseHeader(h) == Incomplete
    ensures |h| < MAX_HEADER && !WholeHeader(h)
  {
  }

  lemma NotIncomplete(h: seq<Byte>)
    requires WholeHeader(h)
    ensures ParseHeader(h) != Incomplete
  {
  }

  lemma ParsedAll(h: seq<Byte>)
    requires WholeHeader(h) && |h| == HEADER_SIZE + h[COUNT_AT] as nat && ParseHeader(h).Parsed?
    ensures ParseHeader(h).size == |h|
  {
  }

  // Calls.

  /** What is left to do on the page, so that no call stands still. */
  function Pending(s: State): nat {
    if s.stage == Processing && s.cur.index <= |s.cur.page.table| then 1 + |s.cur.page.table| - s.cur.index else 0
  }

  /** An open span belongs to the streaming interface, or to a packet that is assembled or skipped. */
  predicate Owned(s: State) {
    s.cur.spanActive ==> s.mode == DataMode || s.job.assembling || s.job.skipping
  }

  lemma DataOwned(c: Config, s: State, input: seq<Byte>)
    requires Owned(s)
    ensures Owned(NextData(c, s, input).0)
  {
    hide Settle, Slice, Conflicts, ParseHeader, Accept;
    DataModeSet(c, s, input);
  }

  lemma {:induction false} SettleMode(c: Config, s: State, body: seq<Byte>, head: nat)
    ensures Settle(c, s, body, head).0.mode == s.mode
    decreases |s.cur.page.table| - s.cur.index
  {
    hide Scan, Sum;
    if !s.cur.AtEnd() {
      SettleMode(c, s.(cur := s.cur.Advance(Scan(s.cur.page.table, s.cur.index))), body, head);
    }
  }

  lemma DataModeSet(c: Config, s: State, input: seq<Byte>)
    ensures !Conflicts(s, DataMode) ==> NextData(c, s, input).0.mode == DataMode
  {
    hide Settle, Scan, Sum, ParseHeader, Conflicts, Consistency;
    var s1 := s.(mode := DataMode);
    if s.stage == Processing {
      SettleMode(c, s1, input, 0);
    } else {
      var h := HeaderStage(c, s1, input);
      if h.Entered? && h.used < |input| {
        SettleMode(c, h.state, input[h.used..], h.used);
      }
    }
  }

  /** What a call that takes the bytes d keeps: within a page the account of the page; between pages the bytes go on with
      a header, or complete it and go on with its page. Where a page is over, the CRC that was compared is that of the
      header with its checksum zeroed and of the whole body. */
  ghost predicate Kept(c: Config, s: State, d: seq<Byte>, next: State) {
    && Inv(c, next) && Owned(next)
    && if s.stage == Processing then Accounted(c, s.cur, d, next) && LinkedAfter(s.link, s.cur.page, next)
       else Gathers(s, d, next) || exists n: nat :: TakesPage(c, s, d, next, n)
  }

  /** Every call of the streaming interface, on any input, keeps the account and takes no more than it is given.
      It never ends on a page whose CRC or length is not what its header says. */
  lemma DataKeeps(c: Config, s: State, input: seq<Byte>)
    requires Inv(c, s) && Owned(s)
    ensures var (next, r) := NextData(c, s, input);
      !r.code.IsError() ==> r.used <= |input| && Kept(c, s, input[..r.used], next)
  {
    hide InPage, Complete, Offer, HeaderStage, Conflicts, Consistency, ParseHeader, Zeroed, OfPage, EnteredOn, TakesPage;
    DataOwned(c, s, input);
    if !Conflicts(s, DataMode) {
      var s1 := s.(mode := DataMode);
      SameBase(c, s, s1);
      if s.stage == Processing {
        OfferAccounts(c, s1, input, 0);
        OfferLink(c, s1, input, 0);
        var (next, r) := Offer(c, s1, input, 0);
        if !r.code.IsError() {
          InvKept(c, s1.cur, input[..r.used], next);
        }
      } else {
        HeaderAccounts(c, s1, input);
        var h := HeaderStage(c, s1, input);
        if h.Stop? && !h.reply.code.IsError() {
          SameTakes(c, s, s1, input[..h.reply.used], h.state, h.reply.used);
        } else if h.Entered? {
          EnteredReady(c, s1, input, h.state, h.used);
          EnteredTakes(c, s, s1, input, h.state, h.used);
          if h.used < |input| {
            OfferAccounts(c, h.state, input[h.used..], h.used);
            OfferLink(c, h.state, input[h.used..], h.used);
            var (next, r) := NextData(c, s, input);
            if !r.code.IsError() {
              InvKept(c, h.state.cur, input[h.used..][..r.used - h.used], next);
              PageTakes(c, s, s1, input, h.state, h.used, next, r.used);
            }
          }
        }
      }
    }
  }

  /** The same for the packet interface. */
  lemma PacketKeeps(c: Config, s: State, input: seq<Byte>)
    requires Inv(c, s) && Owned(s)
    ensures var (next, r) := NextPacket(c, s, input);
      !r.code.IsError() ==> r.used <= |input| && Kept(c, s, input[..r.used], next)
  {
    hide InPage, Complete, Skip, Assemble, Extract, ZeroCopy, HeaderStage, Scan, Consistency, ParseHeader, Zeroed, OfPage, EnteredOn, TakesPage;
    if !Conflicts(s, PacketMode) {
      var s1 := s.(mode := PacketMode);
      SameBase(c, s, s1);
      if s.stage == Processing {
        PacketInPageKeeps(c, s1, input);
      } else {
        HeaderAccounts(c, s1, input);
        var h := HeaderStage(c, s1, input);
        if h.Stop? {
          StopOwned(c, s1, input);
          if !h.reply.code.IsError() {
            SameTakes(c, s, s1, input[..h.reply.used], h.state, h.reply.used);
          }
        } else {
          EnteredReady(c, s1, input, h.state, h.used);
          EnteredTakes(c, s, s1, input, h.state, h.used);
          FirstKeeps(c, s, s1, input, h.state, h.used);
        }
      }
    }
  }

  lemma PacketInPageKeeps(c: Config, s: State, input: seq<Byte>)
    requires Inv(c, s) && Owned(s) && s.stage == Processing && (!s.job.assembling && !s.job.skipping ==> !s.cur.spanActive)
    ensures var (next, r) := if s.job.skipping then Skip(c, s, input) else if s.job.assembling then Assemble(c, s, input) else Extract(c, s, input);
      !r.code.IsError() ==>
        r.used <= |input| && Inv(c, next) && Owned(next) && Accounted(c, s.cur, input[..r.used], next) && LinkedAfter(s.link, s.cur.page, next)
  {
    hide InPage, Complete, Skip, Assemble, Extract;
    if s.job.skipping {
      SkipAccounts(c, s, input);
      SkipOwned(c, s, input);
      SkipLink(c, s, input);
    } else if s.job.assembling {
      AssembleAccounts(c, s, input);
      AssembleOwned(c, s, input);
      AssembleLink(c, s, input);
    } else {
      ExtractAccounts(c, s, input);
      ExtractOwned(c, s, input);
      ExtractLink(c, s, input);
    }
  }

  lemma FirstKeeps(c: Config, s: State, s1: State, input: seq<Byte>, t: State, used: nat)
    requires s1 == s.(mode := s1.mode) && EnteredOn(c, s1, input, t, used) && TakesPage(c, s, input[..used], t, used)
    requires Inv(c, t) && Ready(c, t) && !t.cur.AtEnd() && t.cur.index == 0 && !t.cur.spanActive && used <= |input|
    ensures var (next, r) := FirstPacket(c, t, input, used);
      !r.code.IsError() ==> r.used <= |input| && Inv(c, next) && Owned(next) && exists n: nat :: TakesPage(c, s, input[..r.used], next, n)
  {
    hide InPage, Complete, ZeroCopy, Scan, OfPage, EnteredOn, TakesPage;
    var first := Scan(t.cur.page.table, 0);
    if used < |input| && !t.job.assembling && !t.job.skipping && first.complete && |input| - used >= first.size {
      ZeroCopyAccounts(c, t, first, input[used..], used);
      ZeroCopyOwned(c, t, first, input[used..], used);
      ZeroCopyLink(c, t, first, input[used..], used);
      var (next, r) := ZeroCopy(c, t, first, input[used..], used);
      if !r.code.IsError() {
        InvKept(c, t.cur, input[used..][..first.size], next);
        PageTakes(c, s, s1, input, t, used, next, r.used);
      }
    }
  }

  lemma InvKept(c: Config, cur: Cursor, d: seq<Byte>, next: State)
    requires Accounted(c, cur, d, next)
    ensures Inv(c, next)
  {
    hide InPage;
  }

  lemma SameBase(c: Config, s: State, t: State)
    requires t == s.(mode := t.mode)
    ensures Inv(c, t) == Inv(c, s)
  {
    hide InPage;
  }

  lemma EnteredReady(c: Config, s: State, input: seq<Byte>, t: State, used: nat)
    requires EnteredOn(c, s, input, t, used)
    ensures used <= |input| && Ready(c, t) && Inv(c, t) && Owned(t) && !t.cur.AtEnd() && t.cur.index == 0 && !t.cur.spanActive
  {
    hide InPage, Consistency, ParseHeader, Zeroed;
  }

  lemma SameTakes(c: Config, s: State, s1: State, d: seq<Byte>, next: State, n: nat)
    requires s1 == s.(mode := s1.mode)
    ensures TakesPage(c, s1, d, next, n) == TakesPage(c, s, d, next, n) && Gathers(s1, d, next) == Gathers(s, d, next)
  {
    hide Complete, Consistency, ParseHeader, Zeroed, OfPage;
  }

  /** A header that has been entered takes a page, of which nothing has been consumed. */
  lemma EnteredTakes(c: Config, s: State, s1: State, input: seq<Byte>, t: State, used: nat)
    requires s1 == s.(mode := s1.mode) && EnteredOn(c, s1, input, t, used) && Inv(c, t)
    ensures TakesPage(c, s, input[..used], t, used)
  {
    hide InPage, Complete, Consistency, ParseHeader, Zeroed, Inv;
    assert input[..used][..used] == input[..used] && input[..used][used..] == [];
    assert t.cur.seen + [] == t.cur.seen;
    NotAtEnd(c, t);
  }

  lemma NotAtEnd(c: Config, t: State)
    requires t.stage == Processing && !t.cur.AtEnd()
    ensures t.cur.page.table != []
  {
  }

  /** What is then consumed is of that page. */
  lemma PageTakes(c: Config, s: State, s1: State, input: seq<Byte>, t: State, used: nat, next: State, all: nat)
    requires s1 == s.(mode := s1.mode) && EnteredOn(c, s1, input, t, used) && used <= all <= |input|
    requires Accounted(c, t.cur, input[used..][..all - used], next) && LinkedAfter(t.link, t.cur.page, next)
    ensures TakesPage(c, s, input[..all], next, used)
  {
    hide InPage, Complete, Consistency, ParseHeader, Zeroed, OfPage;
    assert input[..all][..used] == input[..used] && input[..all][used..] == input[used..][..all - used];
    NotAtEnd(c, t);
  }

  // What a step within a page makes of the link.

  lemma FinishLink(c: Config, s: State, reply: Reply)
    requires s.stage == Processing
    ensures LinkedAfter(s.link, s.cur.page, Finish(c, s, reply).0) && LinkedAfter(s.link, s.cur.page, Answer(c, s, reply).0)
  {
  }

  lemma SliceLink(c: Config, s: State, span: Span, left: nat, body: seq<Byte>, head: nat)
    requires s.stage == Processing
    ensures LinkedAfter(s.link, s.cur.page, Slice(c, s, span, left, body, head).0)
  {
    hide Crc32.ByTable, Sum;
  }

  lemma {:induction false} SettleLink(c: Config, s: State, body: seq<Byte>, head: nat)
    requires s.stage == Processing
    ensures LinkedAfter(s.link, s.cur.page, Settle(c, s, body, head).0)
    decreases |s.cur.page.table| - s.cur.index
  {
    hide Scan, Slice;
    if !s.cur.AtEnd() {
      var span := Scan(s.cur.page.table, s.cur.index);
      SliceLink(c, s, span, span.size, body, head);
      if span.size == 0 {
        SettleLink(c, s.(cur := s.cur.Advance(span)), body, head);
      }
    }
  }

  lemma OfferLink(c: Config, s: State, body: seq<Byte>, head: nat)
    requires s.stage == Processing
    ensures LinkedAfter(s.link, s.cur.page, Offer(c, s, body, head).0)
  {
    hide Slice, Settle;
    SliceLink(c, s, s.cur.span, s.cur.spanLeft, body, head);
    SettleLink(c, s, body, head);
  }

  lemma SkipLink(c: Config, s: State, input: seq<Byte>)
    requires s.stage == Processing
    ensures LinkedAfter(s.link, s.cur.page, Skip(c, s, input).0)
  {
    hide Scan, Finish, Answer, Crc32.ByTable;
    var cur := s.cur.Resumed();
    var n := Min(|input|, cur.spanLeft);
    var next := s.(cur := cur.Eat(c, input[..n]).Advance(cur.span));
    FinishLink(c, next, Nothing(NeedMoreData, n));
    FinishLink(c, next.(job := s.job.(skipping := false)), Nothing(PacketSkipped, n).(isLast := next.cur.AtEnd()));
  }

  lemma FlushLink(c: Config, s: State, used: nat)
    requires s.stage == Processing
    ensures LinkedAfter(s.link, s.cur.page, Flush(c, s, used).0)
  {
  }

  lemma AssembleLink(c: Config, s: State, input: seq<Byte>)
    requires s.stage == Processing
    ensures LinkedAfter(s.link, s.cur.page, Assemble(c, s, input).0)
  {
    hide Scan, Skip, Finish, Flush, Crc32.ByTable;
    var cur := s.cur.Resumed();
    var n := Min(|input|, cur.spanLeft);
    var next := s.(cur := cur.Eat(c, input[..n]).Advance(cur.span), job := s.job.(assembly := s.job.assembly + input[..n]));
    FlushLink(c, s.(cur := cur.Advance(cur.span)), 0);
    FlushLink(c, next, n);
    FinishLink(c, next, Nothing(NeedMoreData, n));
    SkipLink(c, s.(cur := s.cur.Resumed(), job := s.job.(skipping := true, assembling := false, assembly := [])), input);
  }

  lemma ZeroCopyLink(c: Config, s: State, span: Span, body: seq<Byte>, head: nat)
    requires s.stage == Processing && span.size <= |body|
    ensures LinkedAfter(s.link, s.cur.page, ZeroCopy(c, s, span, body, head).0)
  {
  }

  lemma ExtractLink(c: Config, s: State, input: seq<Byte>)
    requires s.stage == Processing
    ensures LinkedAfter(s.link, s.cur.page, Extract(c, s, input).0)
  {
    hide Scan, Assemble, ZeroCopy;
    var next := Scan(s.cur.page.table, s.cur.index);
    if next.complete && |input| >= next.size {
      ZeroCopyLink(c, s, next, input, 0);
    }
    AssembleLink(c, s.(cur := s.cur.Open(next, next.size), job := s.job.(assembling := true)), input);
  }

  lemma SkipOwned(c: Config, s: State, input: seq<Byte>)
    requires s.job.skipping
    ensures Owned(Skip(c, s, input).0)
  {
    hide Scan;
  }

  lemma AssembleOwned(c: Config, s: State, input: seq<Byte>)
    requires s.job.assembling
    ensures Owned(Assemble(c, s, input).0)
  {
    hide Scan, Skip;
    var cur := s.cur.Resumed();
    SkipOwned(c, s.(cur := cur, job := s.job.(skipping := true, assembling := false, assembly := [])), input);
  }

  lemma ZeroCopyOwned(c: Config, s: State, span: Span, body: seq<Byte>, head: nat)
    requires span.size <= |body|
    ensures Owned(ZeroCopy(c, s, span, body, head).0)
  {
  }

  lemma ExtractOwned(c: Config, s: State, input: seq<Byte>)
    requires !s.cur.spanActive
    ensures Owned(Extract(c, s, input).0)
  {
    hide Scan, Assemble, ZeroCopy;
    var next := Scan(s.cur.page.table, s.cur.index);
    if next.complete && |input| >= next.size {
      ZeroCopyOwned(c, s, next, input, 0);
    } else {
      AssembleOwned(c, s.(cur := s.cur.Open(next, next.size), job := s.job.(assembling := true)), input);
    }
  }

  lemma StopOwned(c: Config, s: State, input: seq<Byte>)
    requires !s.cur.spanActive && HeaderStage(c, s, input).Stop?
    ensures Owned(HeaderStage(c, s, input).state)
  {
    hide ParseHeader, Consistency;
  }

  lemma {:induction false} SettleProgress(c: Config, s: State, input: seq<Byte>)
    requires Ready(c, s) && !s.cur.spanActive && input != []
    ensures var (next, r) := Settle(c, s, input, 0);
      !r.code.IsError() ==> 0 < r.used || next.stage != Processing || next.cur.index > s.cur.index
    decreases |s.cur.page.table| - s.cur.index
  {
    hide InPage, Scan, Sum;
    if !s.cur.AtEnd() {
      var span := Scan(s.cur.page.table, s.cur.index);
      if span.size == 0 && !(s.cur.index == 0 && s.link.prevContinued) {
        Stepped(c, s.cur, span);
        SettleProgress(c, s.(cur := s.cur.Advance(span)), input);
      }
    }
  }

  lemma OfferProgress(c: Config, s: State, input: seq<Byte>)
    requires Inv(c, s) && s.stage == Processing && input != []
    ensures var (next, r) := Offer(c, s, input, 0);
      !r.code.IsError() ==> 0 < r.used || Pending(next) < Pending(s)
  {
    hide InPage, Settle, Sum;
    OfferAccounts(c, s, input, 0);
    Indexed(c, s);
    if !s.cur.spanActive {
      SettleProgress(c, s, input);
      var (next, r) := Offer(c, s, input, 0);
      if !r.code.IsError() && next.stage == Processing {
        Indexed(c, next);
      }
    }
  }

  lemma Indexed(c: Config, s: State)
    requires Inv(c, s) && s.stage == Processing
    ensures s.cur.index < |s.cur.page.table|
  {
  }

  /** No call of the streaming interface stands still: it takes bytes, or it comes closer to the end of the page. */
  lemma DataProgress(c: Config, s: State, input: seq<Byte>)
    requires Inv(c, s) && input != []
    ensures var (next, r) := NextData(c, s, input);
      !r.code.IsError() ==> 0 < r.used || Pending(next) < Pending(s)
  {
    hide InPage, Offer, HeaderStage, Conflicts, ParseHeader;
    if !Conflicts(s, DataMode) {
      var s1 := s.(mode := DataMode);
      if s.stage == Processing {
        OfferProgress(c, s1, input);
      } else {
        HeaderAccounts(c, s1, input);
        var h := HeaderStage(c, s1, input);
        if h.Entered? && h.used < |input| {
          OfferAccounts(c, h.state, input[h.used..], h.used);
        }
      }
    }
  }

  /** Behind the last byte of a page a step only needs to move the cursor. */
  predicate NoBytes(s: State) {
    s.stage == Processing && !s.cur.spanActive && forall j | s.cur.index <= j < |s.cur.page.table| :: s.cur.page.table[j] == 0
  }

  /** A step over the span at the cursor comes closer to the end of the page. */
  lemma StepsOn(s: State, cur: Cursor, next: State, reply: Reply, c: Config)
    requires s.stage == Processing && s.cur.index < |s.cur.page.table| && next.stage == Processing
    requires cur.page == s.cur.page && next.cur.page == cur.page && next.cur.index > s.cur.index
    ensures !Answer(c, next, reply).1.code.IsError() ==> Pending(Answer(c, next, reply).0) < Pending(s)
    ensures !Finish(c, next, reply).1.code.IsError() ==> Pending(Finish(c, next, reply).0) < Pending(s)
  {
  }

  /** An answer that is not an error takes what it says. */
  lemma AnswerUses(c: Config, s: State, reply: Reply)
    ensures !Answer(c, s, reply).1.code.IsError() ==> Answer(c, s, reply).1.used == reply.used
    ensures !Finish(c, s, reply).1.code.IsError() ==> Finish(c, s, reply).1.used == reply.used
  {
  }

  lemma SkipTakes(c: Config, s: State, input: seq<Byte>)
    ensures var (next, r) := Skip(c, s, input);
      !r.code.IsError() ==> r.used == Min(|input|, s.cur.Resumed().spanLeft)
  {
    hide Scan, Cursor.Resumed, Answer, Finish;
    var cur := s.cur.Resumed();
    var n := Min(|input|, cur.spanLeft);
    var t := s.(cur := cur.Eat(c, input[..n]).Advance(cur.span));
    AnswerUses(c, t, Nothing(NeedMoreData, n));
    AnswerUses(c, t.(job := s.job.(skipping := false)), Nothing(PacketSkipped, n).(isLast := t.cur.AtEnd()));
  }

  lemma FlushTakes(c: Config, s: State, used: nat)
    ensures var (next, r) := Flush(c, s, used); !r.code.IsError() ==> r.used == used
  {
    hide Answer;
    var last := s.cur.AtEnd();
    AnswerUses(c, s.(job := s.job.(isBos := false, assembling := false, assembly := [])),
           Reply(Ok, used, s.job.assembly, if last then s.cur.page.granule else INVALID_GRANULE, s.job.isBos,
                 last && s.cur.page.Has(LAST), last, true));
  }

  /** What is assembled or given up is taken. */
  lemma AssembleTakes(c: Config, s: State, input: seq<Byte>)
    ensures var (next, r) := Assemble(c, s, input);
      !r.code.IsError() ==> r.used == Min(|input|, s.cur.Resumed().spanLeft)
  {
    hide Scan, Cursor.Resumed, Answer, Finish, Skip, Flush;
    var cur := s.cur.Resumed();
    var n := Min(|input|, cur.spanLeft);
    FlushTakes(c, s.(cur := cur.Advance(cur.span)), 0);
    if n > 0 {
      ResumedTwice(s.cur);
      SkipTakes(c, s.(cur := cur, job := s.job.(skipping := true, assembling := false, assembly := [])), input);
      var next := s.(cur := cur.Eat(c, input[..n]).Advance(cur.span), job := s.job.(assembly := s.job.assembly + input[..n]));
      FlushTakes(c, next, n);
      AnswerUses(c, next, Nothing(NeedMoreData, n));
    }
  }

  lemma ResumedTwice(cur: Cursor)
    ensures cur.Resumed().Resumed() == cur.Resumed()
  {
    hide Scan;
  }

  lemma SkipProgress(c: Config, s: State, input: seq<Byte>)
    requires Inv(c, s) && s.stage == Processing && (input != [] || NoBytes(s))
    ensures var (next, r) := Skip(c, s, input);
      !r.code.IsError() ==> 0 < r.used || Pending(next) < Pending(s)
  {
    hide InPage, Answer, Finish, Pending;
    var cur := s.cur.Resumed();
    var n := Min(|input|, cur.spanLeft);
    SkipTakes(c, s, input);
    if n == 0 {
      var t := s.(cur := cur.Eat(c, input[..n]).Advance(cur.span));
      StepsOn(s, cur, t, Nothing(NeedMoreData, n), c);
      StepsOn(s, cur, t.(job := s.job.(skipping := false)), Nothing(PacketSkipped, n).(isLast := t.cur.AtEnd()), c);
    }
  }

  lemma AssembleProgress(c: Config, s: State, input: seq<Byte>)
    requires Inv(c, s) && s.stage == Processing && (input != [] || NoBytes(s))
    ensures var (next, r) := Assemble(c, s, input);
      !r.code.IsError() ==> 0 < r.used || Pending(next) < Pending(s)
  {
    hide InPage, Answer, Finish, Pending;
    var cur := s.cur.Resumed();
    AssembleTakes(c, s, input);
    if cur.spanLeft == 0 {
      FlushProgress(c, s, s.(cur := cur.Advance(cur.span)));
    }
  }

  lemma FlushProgress(c: Config, s: State, next: State)
    requires s.stage == Processing && s.cur.index < |s.cur.page.table| && next.stage == Processing
    requires next.cur.page == s.cur.page && next.cur.index > s.cur.index
    ensures var (t, r) := Flush(c, next, 0); !r.code.IsError() ==> Pending(t) < Pending(s)
  {
    hide Answer, Finish, Pending;
    var last := next.cur.AtEnd();
    StepsOn(s, s.cur, next.(job := next.job.(isBos := false, assembling := false, assembly := [])),
            Reply(Ok, 0, next.job.assembly, if last then next.cur.page.granule else INVALID_GRANULE, next.job.isBos,
                  last && next.cur.page.Has(LAST), last, true), c);
  }

  lemma ExtractProgress(c: Config, s: State, input: seq<Byte>)
    requires Inv(c, s) && s.stage == Processing && (input != [] || NoBytes(s))
    ensures var (next, r) := Extract(c, s, input);
      !r.code.IsError() ==> 0 < r.used || Pending(next) < Pending(s)
  {
    hide InPage, Assemble, Pending, ZeroCopy;
    var span := Scan(s.cur.page.table, s.cur.index);
    if span.complete && |input| >= span.size {
      ZeroCopyProgress(c, s, span, input);
    } else if input != [] {
      var t := s.(cur := s.cur.Open(span, span.size), job := s.job.(assembling := true));
      OpenedAssembles(c, s, t, span, input);
    }
  }

  lemma ZeroCopyProgress(c: Config, s: State, span: Span, body: seq<Byte>)
    requires s.stage == Processing && s.cur.index < |s.cur.page.table| && 0 < span.count && span.size <= |body|
    ensures var (next, r) := ZeroCopy(c, s, span, body, 0);
      !r.code.IsError() ==> 0 < r.used || Pending(next) < Pending(s)
  {
    hide Answer, Finish, Pending;
    var next := s.(cur := s.cur.Eat(c, body[..span.size]).Advance(span), job := s.job.(isBos := false));
    var last := next.cur.AtEnd();
    StepsOn(s, s.cur, next,
            Reply(Ok, 0 + span.size, body[..span.size], if last then s.cur.page.granule else INVALID_GRANULE, s.job.isBos,
                  last && s.cur.page.Has(LAST), last, true), c);
  }

  lemma OpenedAssembles(c: Config, s: State, t: State, span: Span, input: seq<Byte>)
    requires s.stage == Processing && s.cur.index < |s.cur.page.table| && 0 < span.count && input != []
    requires t == s.(cur := s.cur.Open(span, span.size), job := s.job.(assembling := true))
    ensures var (next, r) := Assemble(c, t, input);
      !r.code.IsError() ==> 0 < r.used || Pending(next) < Pending(s)
  {
    hide Answer, Finish, Pending;
    AssembleTakes(c, t, input);
    if span.size == 0 {
      FlushProgress(c, s, t.(cur := t.cur.Advance(span)));
    }
  }

  /** Nor does a call of the packet interface; behind the last byte of a page it needs no input for that. */
  lemma PacketProgress(c: Config, s: State, input: seq<Byte>)
    requires Inv(c, s) && (input != [] || NoBytes(s))
    ensures var (next, r) := NextPacket(c, s, input);
      !r.code.IsError() ==> 0 < r.used || Pending(next) < Pending(s)
  {
    hide InPage, Skip, Assemble, Extract, ZeroCopy, HeaderStage, Scan, Conflicts, ParseHeader, Pending;
    if !Conflicts(s, PacketMode) {
      var s1 := s.(mode := PacketMode);
      SamePending(c, s, s1);
      if s.stage == Processing {
        SkipProgress(c, s1, input);
        AssembleProgress(c, s1, input);
        ExtractProgress(c, s1, input);
      } else {
        HeaderAccounts(c, s1, input);
        var h := HeaderStage(c, s1, input);
        if h.Entered? {
          FirstUsed(c, h.state, input, h.used);
        }
      }
    }
  }

  lemma SamePending(c: Config, s: State, t: State)
    requires t == s.(mode := t.mode)
    ensures Pending(t) == Pending(s) && (Inv(c, t) <==> Inv(c, s)) && (NoBytes(t) <==> NoBytes(s))
  {
    hide InPage;
  }

  lemma FirstUsed(c: Config, s: State, input: seq<Byte>, used: nat)
    ensures var r := FirstPacket(c, s, input, used).1; !r.code.IsError() ==> used <= r.used
  {
    hide Scan;
  }

  lemma {:induction false} SettleEmpty(c: Config, s: State)
    requires Ready(c, s) && NoBytes(s)
    ensures var (next, r) := Settle(c, s, [], 0);
      !r.code.IsError() ==> next.stage != Processing || (next.cur.index > s.cur.index && next.cur.page == s.cur.page)
    decreases |s.cur.page.table| - s.cur.index
  {
    hide InPage, Sum;
    if !s.cur.AtEnd() {
      var span := Scan(s.cur.page.table, s.cur.index);
      if !(s.cur.index == 0 && s.link.prevContinued) {
        Stepped(c, s.cur, span);
        SettleEmpty(c, s.(cur := s.cur.Advance(span)));
      }
    }
  }

  /** Behind the last byte of a page the streaming interface needs no input either. */
  lemma EmptyDataProgress(c: Config, s: State)
    requires Inv(c, s) && NoBytes(s)
    ensures var (next, r) := NextData(c, s, []);
      !r.code.IsError() ==> Pending(next) < Pending(s)
  {
    hide InPage, Settle, Sum, Conflicts;
    if !Conflicts(s, DataMode) {
      SettleEmpty(c, s.(mode := DataMode));
    }
  }
}
