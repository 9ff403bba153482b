/** Any input whatever: what the demuxer takes without an error is a stream of pages, and the start of one more. */
module OggPages {
  import opened Bits
  import opened OggFormat
  import opened OggSteps
  import opened OggAccounts
  import opened OggStreams
  import opened OggHeaders
  import opened OggMarks
  import opened OggRuns
  import Crc32

  /** The page of these header bytes and this body */
  function PageOf(h: seq<Byte>, body: seq<Byte>): Page
    requires HEADER_SIZE <= |h|
  {
    Page(h[5], h[6..14], h[14..18], h[18..22], h[22..26], h[HEADER_SIZE..], body)
  }

  predicate WholeParsed(h: seq<Byte>) {
    ParseHeader(h).Parsed? && ParseHeader(h).size == |h|
  }

  lemma ByteBack(b: Byte, n: nat)
    requires n < 256 && b as nat == n
    ensures ByteOf(n) == b
  {
  }

  lemma ParsedFields(h: seq<Byte>)
    requires WholeParsed(h)
    ensures HEADER_SIZE <= |h| && h[..4] == [0x4F, 0x67, 0x67, 0x53] && h[4] == 0
    ensures |h| - HEADER_SIZE == h[COUNT_AT] as nat < 256
    ensures ParseHeader(h).header ==
      PageHeader(h[5], Signed64(Little(h[6..14])), Little(h[14..18]), Little(h[18..22]), Little(h[22..26]), h[HEADER_SIZE..])
  {
    hide Little, Signed64;
    assert h[HEADER_SIZE..|h|] == h[HEADER_SIZE..];
  }

  /** The fields of a header, one after the other */
  lemma FieldsInRow(h: seq<Byte>)
    requires HEADER_SIZE <= |h|
    ensures h == h[..4] + [h[4], h[5]] + h[6..14] + h[14..18] + h[18..22] + h[22..26] + [h[COUNT_AT]] + h[HEADER_SIZE..]
  {
    Rejoin(h, 4, 6);
    assert h[4..6] == [h[4], h[5]];
    Rejoin(h, 6, 14);
    Rejoin(h, 14, 18);
    Rejoin(h, 18, 22);
    Rejoin(h, 22, 26);
    Rejoin(h, 26, 27);
    assert h[26..27] == [h[COUNT_AT]];
    assert h == h[..27] + h[27..];
  }

  lemma Rejoin(h: seq<Byte>, i: nat, j: nat)
    requires i <= j <= |h|
    ensures h[..j] == h[..i] + h[i..j]
  {
  }

  /** It is a page, with just that header. */
  lemma PageIs(h: seq<Byte>, body: seq<Byte>)
    requires WholeParsed(h) && |body| == Sum(ParseHeader(h).header.table)
    ensures HEADER_SIZE <= |h|
    ensures var p := PageOf(h, body);
      p.Ok() && p.Header() == h && HeaderOf(p) == ParseHeader(h).header && Zeroed(h) == p.HeaderWith([0, 0, 0, 0]) && p.Bytes() == h + body
  {
    hide Little, Signed64, ByteOf, Sum, ParseHeader, WholeParsed, Zeroed;
    ParsedFields(h);
    var p := PageOf(h, body);
    ByteBack(h[COUNT_AT], |h| - HEADER_SIZE);
    HeaderIs(h, p);
    ZeroedFields(p);
  }

  lemma HeaderIs(h: seq<Byte>, p: Page)
    requires HEADER_SIZE <= |h| && h[..4] == [0x4F, 0x67, 0x67, 0x53] && h[4] == 0 && p == PageOf(h, p.body) && p.Ok()
    requires ByteOf(|h| - HEADER_SIZE) == h[COUNT_AT]
    ensures p.Header() == h
  {
    hide ByteOf, Sum;
    FieldsInRow(h);
    assert [0x4F, 0x67, 0x67, 0x53, 0, h[5]] == h[..4] + [h[4], h[5]];
  }

  function LinkOf(x: Context): Link {
    Link(x.open, x.serial, x.next, x.started)
  }

  lemma Consistent(x: Context, p: Page)
    requires Consistency(LinkOf(x), HeaderOf(p)) == OggSteps.Ok
    ensures Follows(x, p)
  {
    hide Little;
  }

  /** The context after some pages */
  function ContextAfter(x: Context, pages: seq<Page>): Context
    decreases |pages|
  {
    if pages == [] then x else ContextAfter(After(x, pages[0]), pages[1..])
  }

  lemma {:induction false} StreamGrows(x: Context, pages: seq<Page>, p: Page, crcOn: bool)
    requires AllOk(pages) && Stream(x, pages, crcOn)
    requires p.Ok() && Follows(ContextAfter(x, pages), p) && (crcOn ==> p.Sealed())
    ensures AllOk(pages + [p]) && Stream(x, pages + [p], crcOn)
    ensures ContextAfter(x, pages + [p]) == After(ContextAfter(x, pages), p)
    ensures StreamBytes(pages + [p]) == StreamBytes(pages) + p.Bytes()
    decreases |pages|
  {
    hide After, Follows, Page.Sealed, Page.Bytes, Page.Ok;
    if pages == [] {
      assert pages + [p] == [p] && [p][1..] == [];
      assert p.Bytes() + [] == [] + p.Bytes();
    } else {
      assert (pages + [p])[0] == pages[0] && (pages + [p])[1..] == pages[1..] + [p];
      StreamGrows(After(x, pages[0]), pages[1..], p, crcOn);
      assert pages[0].Bytes() + (StreamBytes(pages[1..]) + p.Bytes()) == (pages[0].Bytes() + StreamBytes(pages[1..])) + p.Bytes();
    }
  }

  /** The pages that are over, and of the page that is not its header and the body so far. */
  datatype Past = Past(pages: seq<Page>, header: seq<Byte>, body: seq<Byte>)

  predicate Whole(c: Config, v: Past) {
    AllOk(v.pages) && Stream(NEW_STREAM, v.pages, c.crcOn)
  }

  /** Inside a page: its header has been read and follows the pages before, and the CRC covers it and the body so far. */
  predicate InsidePage(s: State, v: Past) {
    var l := LinkOf(ContextAfter(NEW_STREAM, v.pages));
    && WholeParsed(v.header) && HEADER_SIZE <= |v.header| && ParseHeader(v.header).header == s.cur.page
    && s.cur.seen == Zeroed(v.header) + v.body
    && Consistency(l, s.cur.page) == OggSteps.Ok && s.link == Linked(l, s.cur.page)
  }

  /** The bytes of the page, or of its header, that is not over */
  function Started(s: State, v: Past): seq<Byte> {
    if s.stage == Processing then v.header + v.body else s.staged
  }

  /** The demuxer has taken these bytes: pages of one stream, and the start of one more. */
  predicate Reached(c: Config, s: State, v: Past, bytes: seq<Byte>) {
    && Whole(c, v) && bytes == StreamBytes(v.pages) + Started(s, v)
    && if s.stage == Processing then InsidePage(s, v) else s.link == LinkOf(ContextAfter(NEW_STREAM, v.pages))
  }

  /** A page that is complete is a page of the stream. */
  lemma PageOver(c: Config, v: Past, h: seq<Byte>, body: seq<Byte>) returns (u: Past)
    requires Whole(c, v) && WholeParsed(h) && HEADER_SIZE <= |h|
    requires Consistency(LinkOf(ContextAfter(NEW_STREAM, v.pages)), ParseHeader(h).header) == OggSteps.Ok
    requires Complete(c, ParseHeader(h).header, Zeroed(h) + body)
    ensures Whole(c, u) && StreamBytes(u.pages) == StreamBytes(v.pages) + (h + body)
    ensures var page, x := ParseHeader(h).header, ContextAfter(NEW_STREAM, v.pages);
      ContextAfter(NEW_STREAM, u.pages) == Context(true, page.serial, Sequel(page.sequence), if page.table == [] then x.open else page.EndsOpen())
  {
    hide ParseHeader, Consistency, Follows, Stream, Zeroed, Crc32.ByTable, Crc32.Crc, Sum, Page.Header, Page.Bytes, ContextAfter, Little;
    ParsedSize(h);
    PageIs(h, body);
    var p := PageOf(h, body);
    Consistent(ContextAfter(NEW_STREAM, v.pages), p);
    Crc32.TableIsCrc(0, Zeroed(h) + body);
    StreamGrows(NEW_STREAM, v.pages, p, c.crcOn);
    u := Past(v.pages + [p], [], []);
  }

  lemma ParsedSize(h: seq<Byte>)
    requires WholeParsed(h)
    ensures |h| == HEADER_SIZE + |ParseHeader(h).header.table|
  {
    ParsedFields(h);
  }

  /** A page that goes on, or ends, with this body */
  lemma PageGoes(c: Config, v: Past, h: seq<Byte>, body: seq<Byte>, next: State) returns (u: Past)
    requires Whole(c, v) && WholeParsed(h) && HEADER_SIZE <= |h| && ParseHeader(h).header.table != []
    requires Consistency(LinkOf(ContextAfter(NEW_STREAM, v.pages)), ParseHeader(h).header) == OggSteps.Ok
    requires OfPage(c, ParseHeader(h).header, Zeroed(h), body, next)
    requires LinkedAfter(Linked(LinkOf(ContextAfter(NEW_STREAM, v.pages)), ParseHeader(h).header), ParseHeader(h).header, next)
    ensures Reached(c, next, u, StreamBytes(v.pages) + (h + body))
  {
    hide ParseHeader, Consistency, Stream, Zeroed, Complete, ContextAfter, StreamBytes, InPage;
    if next.stage == Processing {
      u := Past(v.pages, h, body);
    } else {
      u := PageOver(c, v, h, body);
      assert StreamBytes(u.pages) + [] == StreamBytes(u.pages);
    }
  }

  /** What a call keeps, in terms of pages */
  lemma KeptReaches(c: Config, s: State, v: Past, bytes: seq<Byte>, d: seq<Byte>, next: State) returns (u: Past)
    requires Reached(c, s, v, bytes) && Inv(c, s) && Kept(c, s, d, next)
    ensures Reached(c, next, u, bytes + d)
  {
    hide ParseHeader, Consistency, Stream, Zeroed, Complete, ContextAfter, StreamBytes, InPage, AllOk, WholeParsed, OfPage;
    var all := StreamBytes(v.pages);
    if s.stage == Processing {
      Lacing(c, s);
      MovesOn(c, s.cur.page, Zeroed(v.header), v.body, d, next);
      u := PageGoes(c, v, v.header, v.body + d, next);
      assert all + (v.header + v.body) + d == all + (v.header + (v.body + d));
    } else if Gathers(s, d, next) {
      u := v;
      assert all + s.staged + d == all + (s.staged + d);
    } else {
      var n: nat :| TakesPage(c, s, d, next, n);
      u := PageTaken(c, s, v, d, next, n);
      var h := s.staged + d[..n];
      assert all + s.staged + d == all + (h + d[n..]);
    }
  }

  lemma Lacing(c: Config, s: State)
    requires Inv(c, s) && s.stage == Processing
    ensures s.cur.page.table != []
  {
  }

  lemma MovesOn(c: Config, page: PageHeader, seen: seq<Byte>, body: seq<Byte>, d: seq<Byte>, next: State)
    requires OfPage(c, page, seen + body, d, next)
    ensures OfPage(c, page, seen, body + d, next)
  {
    hide Complete, InPage;
    assert seen + body + d == seen + (body + d);
  }

  lemma PageTaken(c: Config, s: State, v: Past, d: seq<Byte>, next: State, n: nat) returns (u: Past)
    requires Whole(c, v) && s.link == LinkOf(ContextAfter(NEW_STREAM, v.pages)) && TakesPage(c, s, d, next, n) && Inv(c, next)
    ensures n <= |d| && Reached(c, next, u, StreamBytes(v.pages) + ((s.staged + d[..n]) + d[n..]))
  {
    hide ParseHeader, Consistency, Stream, Zeroed, Complete, ContextAfter, StreamBytes, InPage, AllOk, OfPage;
    var h := s.staged + d[..n];
    if ParseHeader(h).header.table == [] {
      assert Zeroed(h) + [] == Zeroed(h) && d[n..] == [];
      u := PageOver(c, v, h, []);
      assert StreamBytes(u.pages) + [] == StreamBytes(u.pages);
    } else {
      u := PageGoes(c, v, h, d[n..], next);
    }
  }

  // Runs.

  /** No call failed; a refused change of the interface changes nothing. */
  predicate Clean(codes: seq<Code>) {
    forall code <- codes :: !code.IsError() || code == InvalidModeSwitch
  }

  lemma {:induction false} CodesGrow(c: Config, run: Run, calls: seq<Call>)
    ensures run.codes <= Play(c, run, calls).codes
    decreases |calls|
  {
    hide Make, Collect;
    if calls != [] {
      CodesGrow(c, One(c, run, calls[0]), calls[1..]);
    }
  }

  predicate Standing(c: Config, run: Run, v: Past, taken: seq<Byte>, all: seq<Byte>) {
    Inv(c, run.state) && Owned(run.state) && Reached(c, run.state, v, taken) && taken + run.rest == all
  }

  lemma OneReaches(c: Config, run: Run, v: Past, taken: seq<Byte>, all: seq<Byte>, call: Call) returns (u: Past, now: seq<Byte>)
    requires Standing(c, run, v, taken, all) && Clean(One(c, run, call).codes)
    ensures Standing(c, One(c, run, call), u, now, all)
  {
    hide NextData, NextPacket, Inv, Owned, Reached, Conflicts, Collect;
    var input := run.rest[..Min(call.size, |run.rest|)];
    var (t, r) := Make(c, run.state, call, input);
    assert One(c, run, call).codes[|run.codes|] == r.code;
    if Conflicts(run.state, if call.AskData? then DataMode else PacketMode) {
      Refused(c, run.state, call, input);
      assert run.rest[0..] == run.rest;
      u, now := v, taken;
    } else {
      NoRefusal(c, run.state, call, input);
      DataKeeps(c, run.state, input);
      PacketKeeps(c, run.state, input);
      KeptIs(c, run.state, input[..r.used], t);
      u := KeptReaches(c, run.state, v, taken, input[..r.used], t);
      now := taken + input[..r.used];
      assert run.rest == input[..r.used] + run.rest[r.used..];
      assert now + run.rest[r.used..] == taken + run.rest;
    }
  }

  lemma KeptIs(c: Config, s: State, d: seq<Byte>, next: State)
    requires Kept(c, s, d, next)
    ensures Inv(c, next) && Owned(next)
  {
    hide Inv, Owned, Accounted, Gathers, TakesPage;
  }

  /** A call that is not refused for its mode does not say so. */
  lemma NoRefusal(c: Config, s: State, call: Call, input: seq<Byte>)
    requires !Conflicts(s, if call.AskData? then DataMode else PacketMode)
    ensures Make(c, s, call, input).1.code != InvalidModeSwitch
  {
    hide HeaderStage, Conflicts, Offer, Skip, Assemble, Extract, FirstPacket;
    var s1 := s.(mode := if call.AskData? then DataMode else PacketMode);
    HeaderRefusal(c, s1, input);
    PageRefusal(c, s1, input, 0);
    var h := HeaderStage(c, s1, input);
    if s.stage != Processing && h.Entered? {
      PageRefusal(c, h.state, if h.used < |input| then input[h.used..] else input, h.used);
      FirstRefusal(c, h.state, input, h.used);
    }
  }

  lemma PageRefusal(c: Config, s: State, body: seq<Byte>, head: nat)
    ensures Offer(c, s, body, head).1.code != InvalidModeSwitch && Skip(c, s, body).1.code != InvalidModeSwitch
    ensures Assemble(c, s, body).1.code != InvalidModeSwitch && Extract(c, s, body).1.code != InvalidModeSwitch
  {
    hide Scan, Sum, Settle, Slice, Skip, Assemble, ZeroCopy;
    SettleRefusal(c, s, body, head);
    SliceRefusal(c, s, s.cur.span, s.cur.spanLeft, body, head);
    AssembleRefusal(c, s, body);
    var next := Scan(s.cur.page.table, s.cur.index);
    AssembleRefusal(c, s.(cur := s.cur.Open(next, next.size), job := s.job.(assembling := true)), body);
    if next.size <= |body| {
      CopyRefusal(c, s, next, body, 0);
    }
  }

  lemma SliceRefusal(c: Config, s: State, span: Span, left: nat, body: seq<Byte>, head: nat)
    ensures Slice(c, s, span, left, body, head).1.code != InvalidModeSwitch
  {
    hide Crc32.ByTable, Sum;
  }

  lemma CopyRefusal(c: Config, s: State, span: Span, body: seq<Byte>, head: nat)
    requires span.size <= |body|
    ensures ZeroCopy(c, s, span, body, head).1.code != InvalidModeSwitch
  {
    hide Crc32.ByTable;
  }

  lemma SkipRefusal(c: Config, s: State, body: seq<Byte>)
    ensures Skip(c, s, body).1.code != InvalidModeSwitch
  {
    hide Scan, Cursor.Resumed, Cursor.Eat;
  }

  lemma AssembleRefusal(c: Config, s: State, body: seq<Byte>)
    ensures Assemble(c, s, body).1.code != InvalidModeSwitch && Skip(c, s, body).1.code != InvalidModeSwitch
  {
    hide Scan, Skip, Cursor.Resumed, Cursor.Eat;
    SkipRefusal(c, s, body);
    var cur := s.cur.Resumed();
    SkipRefusal(c, s.(cur := cur, job := s.job.(skipping := true, assembling := false, assembly := [])), body);
  }

  lemma FirstRefusal(c: Config, s: State, input: seq<Byte>, used: nat)
    ensures FirstPacket(c, s, input, used).1.code != InvalidModeSwitch
  {
    hide Scan, Crc32.ByTable;
  }

  lemma HeaderRefusal(c: Config, s: State, input: seq<Byte>)
    ensures HeaderStage(c, s, input).Stop? ==> HeaderStage(c, s, input).reply.code != InvalidModeSwitch
  {
    hide Crc32.ByTable, Little, Signed64;
  }

  lemma {:induction false} SettleRefusal(c: Config, s: State, body: seq<Byte>, head: nat)
    ensures Settle(c, s, body, head).1.code != InvalidModeSwitch
    decreases |s.cur.page.table| - s.cur.index
  {
    hide Scan, Slice;
    if !s.cur.AtEnd() {
      SliceRefusal(c, s, Scan(s.cur.page.table, s.cur.index), Scan(s.cur.page.table, s.cur.index).size, body, head);
      SettleRefusal(c, s.(cur := s.cur.Advance(Scan(s.cur.page.table, s.cur.index))), body, head);
    }
  }

  lemma {:induction false} PlayReaches(c: Config, run: Run, v: Past, taken: seq<Byte>, all: seq<Byte>, calls: seq<Call>)
      returns (u: Past, now: seq<Byte>)
    requires Standing(c, run, v, taken, all) && Clean(Play(c, run, calls).codes)
    ensures Standing(c, Play(c, run, calls), u, now, all)
    decreases |calls|
  {
    hide Standing, One, Play, Clean;
    u, now := v, taken;
    PlayFirst(c, run, calls);
    if calls != [] {
      var next := One(c, run, calls[0]);
      CodesGrow(c, next, calls[1..]);
      CleanPart(next.codes, Play(c, next, calls[1..]).codes);
      u, now := OneReaches(c, run, v, taken, all, calls[0]);
      u, now := PlayReaches(c, next, u, now, all, calls[1..]);
    }
  }

  lemma CleanPart(a: seq<Code>, b: seq<Code>)
    requires a <= b && Clean(b)
    ensures Clean(a)
  {
    forall code <- a
      ensures !code.IsError() || code == InvalidModeSwitch
    {
      var i :| 0 <= i < |a| && a[i] == code;
      assert b[i] == code;
    }
  }

  /** From the reset on, whatever the input is, whatever calls are made and however it is cut: as long as no call fails,
      the bytes that have been taken are whole pages of one logical stream, in sequence and with matching checksums, and
      the start of one more page. */
  lemma AcceptsOnlyPages(c: Config, input: seq<Byte>, calls: seq<Call>) returns (v: Past)
    requires Clean(Play(c, Run(RESET, input, BEGIN, []), calls).codes)
    ensures var run := Play(c, Run(RESET, input, BEGIN, []), calls);
      && AllOk(v.pages) && Stream(NEW_STREAM, v.pages, c.crcOn)
      && StreamBytes(v.pages) + Started(run.state, v) + run.rest == input
      && (run.state.stage == Processing ==> InsidePage(run.state, v) && |v.body| <= Sum(ParseHeader(v.header).header.table))
      && (run.state.stage != Processing ==> !WholeHeader(run.state.staged))
  {
    hide Play, Clean, Stream, InsidePage, ParseHeader, InPage, Sum;
    var now: seq<Byte>;
    var begin := Run(RESET, input, BEGIN, []);
    v := Past([], [], []);
    Starts(c, input);
    v, now := PlayReaches(c, begin, v, [], input, calls);
    var s := Play(c, begin, calls).state;
    if s.stage == Processing {
      BodyFits(c, s, v);
    }
  }

  lemma Starts(c: Config, input: seq<Byte>)
    ensures Standing(c, Run(RESET, input, BEGIN, []), Past([], [], []), [], input)
  {
    assert [] + input == input;
  }

  lemma BodyFits(c: Config, s: State, v: Past)
    requires Inv(c, s) && s.stage == Processing && InsidePage(s, v)
    ensures |v.body| <= Sum(ParseHeader(v.header).header.table)
  {
    hide Sum, ParseHeader, Consistency, Scan;
    ParsedSize(v.header);
    SpanEnd(s.cur.page.table, s.cur.index);
    SumSplit(s.cur.page.table, s.cur.index);
  }

  // The mark of the first packet.

  predicate Marked(run: Run) {
    FirstMark(run.state, OggSteps.Ok in run.codes)
  }

  /** The next call of a run: its state and answer, and the page that it comes to */
  function AnswerTo(c: Config, run: Run, call: Call): (State, Reply) {
    Make(c, run.state, call, run.rest[..Min(call.size, |run.rest|)])
  }

  function PageOfCall(c: Config, run: Run, call: Call): PageHeader {
    AtBody(c, run.state, run.rest[..Min(call.size, |run.rest|)], if call.AskData? then DataMode else PacketMode).cur.page
  }

  lemma OneMarked(c: Config, run: Run, call: Call)
    requires Marked(run) && Clean(One(c, run, call).codes)
    ensures Marked(One(c, run, call))
    ensures var r := AnswerTo(c, run, call).1;
      r.code == OggSteps.Ok ==> (r.isBos <==> OggSteps.Ok !in run.codes && PageOfCall(c, run, call).flags & 2 != 0)
  {
    hide NextData, NextPacket, FirstMark, Collect, Conflicts, AtBody;
    var input := run.rest[..Min(call.size, |run.rest|)];
    var (t, r) := Make(c, run.state, call, input);
    assert One(c, run, call).codes[|run.codes|] == r.code;
    assert One(c, run, call).codes == run.codes + [r.code];
    if Conflicts(run.state, if call.AskData? then DataMode else PacketMode) {
      Refused(c, run.state, call, input);
    } else {
      NoRefusal(c, run.state, call, input);
      FirstAnswer(c, run.state, input, OggSteps.Ok in run.codes);
    }
  }

  lemma {:induction false} PlayMarked(c: Config, run: Run, calls: seq<Call>)
    requires Marked(run) && Clean(Play(c, run, calls).codes)
    ensures Marked(Play(c, run, calls))
    decreases |calls|
  {
    hide Marked, One, Play, Clean;
    PlayFirst(c, run, calls);
    if calls != [] {
      var next := One(c, run, calls[0]);
      CodesGrow(c, next, calls[1..]);
      CleanPart(next.codes, Play(c, next, calls[1..]).codes);
      OneMarked(c, run, calls[0]);
      PlayMarked(c, next, calls[1..]);
    }
  }

  /** From the reset on, whatever the input and the calls: as long as no call fails, the first answer that returns something
      carries the mark of the first packet, if it comes from the first page, and no other answer does. */
  lemma FirstAnswerIsMarked(c: Config, input: seq<Byte>, calls: seq<Call>, call: Call)
    requires var run := Play(c, Run(RESET, input, BEGIN, []), calls); Clean(run.codes) && Clean(One(c, run, call).codes)
    ensures var run := Play(c, Run(RESET, input, BEGIN, []), calls);
      var r := AnswerTo(c, run, call).1;
      r.code == OggSteps.Ok ==> (r.isBos <==> OggSteps.Ok !in run.codes && PageOfCall(c, run, call).flags & 2 != 0)
  {
    hide Play, Clean, One, Make, AtBody;
    var begin := Run(RESET, input, BEGIN, []);
    PlayMarked(c, begin, calls);
    OneMarked(c, Play(c, begin, calls), call);
  }
}
