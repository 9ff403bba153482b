/** The demuxer on well-formed streams: the packets it delivers, in either mode or in any mixture of the two,
    are the packets of the lacing, however the stream is cut. */
module OggStreams {
  import opened Bits
  import opened OggFormat
  import opened OggSteps
  import opened OggAccounts
  import Crc32

  // Headers.

  function HeaderOf(p: Page): PageHeader {
    PageHeader(p.flags, Signed64(Little(p.granule)), Little(p.serial), Little(p.sequence), Little(p.checksum), p.lacing)
  }

  /** A page's header parses to what it was made from. */
  lemma HeaderParses(p: Page)
    requires p.Ok()
    ensures ParseHeader(p.Header()) == Parsed(HeaderOf(p), |p.Header()|)
    ensures Zeroed(p.Header()) == p.HeaderWith([0, 0, 0, 0])
  {
    hide ByteOf, Little, Signed64, Sum, Page.HeaderWith;
    HeaderFields(p);
    var h := p.Header();
    assert h[HEADER_SIZE..|h|] == h[HEADER_SIZE..];
    ZeroedFields(p);
  }

  lemma FieldAt(a: seq<Byte>, b: seq<Byte>, c: seq<Byte>)
    ensures (a + b + c)[|a|..|a| + |b|] == b
    ensures (a + (b + c))[|a|..|a| + |b|] == b
  {
  }

  lemma HeaderFields(p: Page)
    requires p.Ok()
    ensures var h := p.Header();
      && h[..4] == [0x4F, 0x67, 0x67, 0x53] && h[4] == 0 && h[5] == p.flags
      && h[6..14] == p.granule && h[14..18] == p.serial && h[18..22] == p.sequence && h[22..26] == p.checksum
      && h[COUNT_AT] == ByteOf(|p.lacing|) && h[HEADER_SIZE..] == p.lacing
  {
    hide ByteOf, Sum;
    var first: seq<Byte> := [0x4F, 0x67, 0x67, 0x53, 0, p.flags];
    var tail := [ByteOf(|p.lacing|)] + p.lacing;
    var h := p.Header();
    assert h == first + p.granule + p.serial + p.sequence + p.checksum + tail;
    FieldAt(first + p.granule + p.serial + p.sequence, p.checksum, tail);
    assert h == first + p.granule + p.serial + p.sequence + (p.checksum + tail);
    FieldAt(first + p.granule + p.serial, p.sequence, p.checksum + tail);
    assert h == first + p.granule + p.serial + (p.sequence + (p.checksum + tail));
    FieldAt(first + p.granule, p.serial, p.sequence + (p.checksum + tail));
    assert h == first + p.granule + (p.serial + (p.sequence + (p.checksum + tail)));
    FieldAt(first, p.granule, p.serial + (p.sequence + (p.checksum + tail)));
  }

  lemma ZeroedFields(p: Page)
    requires p.Ok()
    ensures Zeroed(p.Header()) == p.HeaderWith([0, 0, 0, 0])
  {
    hide ByteOf, Sum;
    var before := [0x4F, 0x67, 0x67, 0x53, 0, p.flags] + p.granule + p.serial + p.sequence;
    var tail := [ByteOf(|p.lacing|)] + p.lacing;
    assert p.Header() == before + p.checksum + tail && p.HeaderWith([0, 0, 0, 0]) == before + [0, 0, 0, 0] + tail;
    assert (before + p.checksum + tail)[..CHECKSUM_AT] == before;
    assert (before + p.checksum + tail)[CHECKSUM_AT + 4..] == tail;
  }

  /** A parse looks at no byte after the header. */
  lemma ParsesPrefix(h: seq<Byte>, bytes: seq<Byte>)
    requires h <= bytes && ParseHeader(h).Parsed? && ParseHeader(h).size == |h|
    ensures ParseHeader(bytes) == ParseHeader(h) && bytes[..|h|] == h
  {
    hide Little, Signed64;
    assert bytes[..|h|] == h;
    ParsedPrefix(h);
    assert bytes[..4] == h[..4] && bytes[6..14] == h[6..14] && bytes[14..18] == h[14..18];
    assert bytes[18..22] == h[18..22] && bytes[22..26] == h[22..26] && bytes[HEADER_SIZE..|h|] == h[HEADER_SIZE..|h|];
    assert bytes[COUNT_AT] == h[COUNT_AT];
  }

  lemma PartIsIncomplete(p: Page, part: seq<Byte>)
    requires p.Ok() && part <= p.Header() && |part| < |p.Header()|
    ensures ParseHeader(part) == Incomplete && !WholeHeader(part)
  {
    hide ByteOf, Little, Signed64;
    HeaderParses(p);
    var h := p.Header();
    assert part == h[..|part|];
    if |part| >= HEADER_SIZE {
      assert part[..4] == h[..4] && part[4] == h[4] && part[COUNT_AT] == h[COUNT_AT];
    }
  }

  // Lacing and spans.

  lemma LaceStep(open: seq<Byte>, table: seq<Byte>, i: nat, body: seq<Byte>)
    requires i < |table| && |body| == Sum(table[i..])
    ensures var n := table[i] as nat;
      && n <= |body| && |body[n..]| == Sum(table[i + 1..])
      && Lace(open, table[i..], body) ==
         if n == 255 then Lace(open + body[..n], table[i + 1..], body[n..])
         else
           var rest := Lace([], table[i + 1..], body[n..]);
           Laced([open + body[..n]] + rest.packets, rest.open)
  {
    assert table[i..][0] == table[i] && table[i..][1..] == table[i + 1..];
  }

  lemma {:induction false} LaceSpan(open: seq<Byte>, table: seq<Byte>, i: nat, body: seq<Byte>)
    requires i < |table| && |body| == Sum(table[i..])
    ensures var s := Scan(table, i);
      && s.size <= |body| && |body[s.size..]| == Sum(table[i + s.count..])
      && Lace(open, table[i..], body) ==
         (if s.complete then
            var rest := Lace([], table[i + s.count..], body[s.size..]);
            Laced([open + body[..s.size]] + rest.packets, rest.open)
          else Laced([], open + body))
      && (!s.complete ==> s.size == |body| && i + s.count == |table|)
    decreases |table| - i
  {
    hide Lace, Sum;
    var n := table[i] as nat;
    LaceStep(open, table, i, body);
    if n == 255 {
      LastSpan(table, i);
      if i + 1 < |table| {
        LaceSpan(open + body[..n], table, i + 1, body[n..]);
        var r := Scan(table, i + 1);
        assert body[n..][r.size..] == body[n + r.size..];
        assert open + body[..n] + body[n..][..r.size] == open + body[..n + r.size];
        assert open + body[..n] + body[n..] == open + body;
      } else {
        LaceNone(open + body[..n]);
        assert body[n..] == [] && open + body[..n] == open + body;
      }
    }
  }

  lemma LastSpan(table: seq<Byte>, i: nat)
    requires i < |table|
    ensures i + 1 == |table| ==> table[i + 1..] == [] && Scan(table, i + 1) == NO_SPAN
    ensures table[i] == 255 ==> Scan(table, i) == Span(255 + Scan(table, i + 1).size, Scan(table, i + 1).complete, 1 + Scan(table, i + 1).count)
  {
  }

  lemma LaceNone(open: seq<Byte>)
    ensures Sum([]) == 0 && Lace(open, [], []) == Laced([], open)
  {
  }

  /** Lacing values that are all zero make only empty packets. */
  lemma {:induction false} NothingLeft(table: seq<Byte>)
    requires Sum(table) == 0
    ensures Lace([], table, []).open == [] && NonEmpty(Lace([], table, []).packets) == []
    decreases |table|
  {
    if table != [] {
      NothingLeft(table[1..]);
      var rest := Lace([], table[1..], []);
      var none: seq<Byte> := [];
      assert none[..0] == none && none + none == none && none[0..] == none;
      assert Lace([], table, []) == Laced([[]] + rest.packets, rest.open);
      assert ([[]] + rest.packets)[1..] == rest.packets;
    }
  }

  lemma {:induction false} NonEmptyConcat(a: seq<seq<Byte>>, b: seq<seq<Byte>>)
    ensures NonEmpty(a + b) == NonEmpty(a) + NonEmpty(b)
    decreases |a|
  {
    if a == [] {
      assert a + b == b;
    } else {
      assert (a + b)[1..] == a[1..] + b;
      NonEmptyConcat(a[1..], b);
    }
  }

  // The rest of a page.

  /** Where the span at lacing value i starts in the body. */
  function Start(table: seq<Byte>, i: nat): nat {
    Sum(table[..Min(i, |table|)])
  }

  /** What the lacing values from i on make of the body. */
  function Rest(open: seq<Byte>, table: seq<Byte>, i: nat, body: seq<Byte>): Laced {
    if i <= |table| && Start(table, i) <= |body| && |body| - Start(table, i) == Sum(table[i..])
    then Lace(open, table[i..], body[Start(table, i)..]) else Laced([], open)
  }

  lemma RestHolds(table: seq<Byte>, i: nat, body: seq<Byte>)
    requires i <= |table| && |body| == Sum(table)
    ensures Start(table, i) <= |body| && |body| - Start(table, i) == Sum(table[i..])
  {
    SumSplit(table, i);
  }

  lemma RestSpan(open: seq<Byte>, table: seq<Byte>, i: nat, body: seq<Byte>)
    requires i < |table| && |body| == Sum(table)
    ensures var s, a := Scan(table, i), Start(table, i);
      && a + s.size <= |body| && Start(table, i + s.count) == a + s.size
      && (!s.complete ==> a + s.size == |body| && i + s.count == |table| && Rest(open, table, i, body) == Laced([], open + body[a..]))
      && (s.complete ==>
            var rest := Rest([], table, i + s.count, body);
            Rest(open, table, i, body) == Laced([open + body[a..a + s.size]] + rest.packets, rest.open))
  {
    hide Scan, Sum, Lace;
    SpanEnd(table, i);
    var s, a := Scan(table, i), Start(table, i);
    RestHolds(table, i, body);
    RestHolds(table, i + s.count, body);
    LaceSpan(open, table, i, body[a..]);
    assert body[a..][..s.size] == body[a..a + s.size] && body[a..][s.size..] == body[a + s.size..];
  }

  lemma RestEnds(open: seq<Byte>, table: seq<Byte>, body: seq<Byte>)
    ensures Rest(open, table, |table|, body) == Laced([], open)
  {
  }

  /** Behind the last byte there are only empty packets. */
  lemma RestEmpty(table: seq<Byte>, i: nat, body: seq<Byte>)
    requires i <= |table| && |body| == Sum(table) == Start(table, i)
    ensures Rest([], table, i, body).open == [] && NonEmpty(Rest([], table, i, body).packets) == []
    ensures i < |table| ==> table[|table| - 1] == 0
  {
    hide Lace, Sum;
    RestHolds(table, i, body);
    NothingLeft(table[i..]);
    assert body[Start(table, i)..] == [];
    if i < |table| {
      LastOfNothing(table[i..]);
    }
  }

  lemma LastOfNothing(table: seq<Byte>)
    requires table != [] && Sum(table) == 0
    ensures table[|table| - 1] == 0
  {
    SumSplit(table, |table| - 1);
    assert table[|table| - 1..] == [table[|table| - 1]];
  }

  // Where the demuxer stands in a stream.

  /** The page it is in, the pages to come, and the bytes that earlier pages gave of the packet it is in. */
  datatype Place = Place(page: Page, later: seq<Page>, open: seq<Byte>)

  type World = w: Place | AllOk(w.later) witness Place(Page(0, [], [], [], [], [], []), [], [])

  /** The cursor's page is this one, as far as it has been consumed. */
  predicate OnBody(cur: Cursor, p: Page) {
    && p.Ok() && cur.page == HeaderOf(p) && cur.index <= |p.lacing|
    && Start(p.lacing, cur.index) <= cur.consumed <= |p.body|
    && cur.seen == p.HeaderWith([0, 0, 0, 0]) + p.body[..cur.consumed]
  }

  function ContextOf(l: Link): Context {
    Context(l.initialized, l.serial, l.expected, l.prevContinued)
  }

  /** The context of the pages after the current one. */
  function Coming(s: State, w: World): Context {
    if s.stage == Processing then Context(true, s.link.serial, s.link.expected, w.page.EndsOpen()) else ContextOf(s.link)
  }

  /** A packet is open just when the page, or its end, says so. */
  predicate OpenWell(s: State, w: World) {
    w.open != [] <==>
      if s.stage != Processing then s.link.prevContinued
      else if s.cur.AtEnd() then w.page.EndsOpen()
      else s.cur.index == 0 && s.link.prevContinued
  }

  predicate OnPage(c: Config, s: State, w: World) {
    Ready(c, s) && s.link.initialized && OnBody(s.cur, w.page) && (c.crcOn ==> w.page.Sealed())
  }

  /** These bytes are a part of the next header. */
  predicate PartOfHeader(staged: seq<Byte>, w: World) {
    staged == [] || (w.later != [] && staged <= w.later[0].Header() && |staged| < |w.later[0].Header()|)
  }

  predicate BeforePage(c: Config, s: State, w: World) {
    Inv(c, s) && PartOfHeader(s.staged, w)
  }

  /** It stands at this place of the stream; at the end of a page it has yet to move on. */
  predicate Loose(c: Config, s: State, w: World) {
    && Stream(Coming(s, w), w.later, c.crcOn) && OpenWell(s, w)
    && if s.stage == Processing then OnPage(c, s, w) else BeforePage(c, s, w)
  }

  predicate InStream(c: Config, s: State, w: World) {
    Loose(c, s, w) && Inv(c, s)
  }

  /** The bytes of the stream that it has not taken. */
  function Ahead(s: State, w: World): seq<Byte> {
    if s.stage == Processing then w.page.body[Min(s.cur.consumed, |w.page.body|)..] + StreamBytes(w.later)
    else StreamBytes(w.later)[Min(|s.staged|, |StreamBytes(w.later)|)..]
  }

  /** The bytes of the page bodies that it has not taken. */
  function BodyAhead(s: State, w: World): seq<Byte> {
    (if s.stage == Processing then w.page.body[Min(s.cur.consumed, |w.page.body|)..] else []) + Bodies(w.later)
  }

  /** What of the body belongs to the open span and is consumed. */
  function Inside(cur: Cursor, body: seq<Byte>): seq<Byte> {
    if Start(cur.page.table, cur.index) <= cur.consumed <= |body| then body[Start(cur.page.table, cur.index)..cur.consumed] else []
  }

  /** What it has taken of the packet that it is in. */
  function Part(s: State, w: World): seq<Byte> {
    if s.stage == Processing then w.open + Inside(s.cur, w.page.body) else w.open
  }

  /** The packets of the stream that are not over yet. */
  function Owed(s: State, w: World): seq<seq<Byte>> {
    if s.stage == Processing then
      var l := Rest(w.open, s.cur.page.table, s.cur.index, w.page.body);
      l.packets + PacketsOf(l.open, w.later)
    else PacketsOf(w.open, w.later)
  }

  // The cursor moves.

  /** These bytes are next in the body, and within the span. */
  predicate Next(cur: Cursor, p: Page, span: Span, left: nat, d: seq<Byte>) {
    HasSpan(cur, span, left) && |d| <= left && cur.consumed <= |p.body| && d <= p.body[cur.consumed..]
  }

  lemma Slices(body: seq<Byte>, from: nat, at: nat, d: seq<Byte>)
    requires from <= at <= |body| && d <= body[at..]
    ensures at + |d| <= |body| && body[..at + |d|] == body[..at] + d && body[from..at + |d|] == body[from..at] + d
    ensures body[at + |d|..] == body[at..][|d|..]
  {
    assert d == body[at..][..|d|] == body[at..at + |d|];
  }

  /** How far the cursor is into its span. */
  lemma Depth(c: Config, cur: Cursor, p: Page, span: Span, left: nat)
    requires InPage(c, cur) && OnBody(cur, p) && HasSpan(cur, span, left)
    ensures cur.consumed + left == Start(p.lacing, cur.index) + span.size
  {
    hide Crc32.ByTable, Scan, Sum;
  }

  lemma EatsCursor(c: Config, cur: Cursor, p: Page, span: Span, left: nat, d: seq<Byte>)
    requires InPage(c, cur) && OnBody(cur, p) && Next(cur, p, span, left, d) && |d| < left
    ensures var next := cur.Eat(c, d).Open(span, left - |d|);
      InPage(c, next) && OnBody(next, p) && !next.AtEnd() && Inside(next, p.body) == Inside(cur, p.body) + d
  {
    hide Crc32.ByTable, Scan, Sum, InPage, Page.HeaderWith;
    Partly(c, cur, span, left, d);
    Slices(p.body, Start(p.lacing, cur.index), cur.consumed, d);
  }

  /** The last byte of a span: what lacing makes of it. */
  lemma PassesRest(c: Config, cur: Cursor, p: Page, span: Span, left: nat, d: seq<Byte>, open: seq<Byte>)
    requires InPage(c, cur) && OnBody(cur, p) && Next(cur, p, span, left, d) && |d| == left
    ensures var before := Rest(open, p.lacing, cur.index, p.body);
      if span.complete then
        var after := Rest([], p.lacing, cur.index + span.count, p.body);
        before == Laced([open + Inside(cur, p.body) + d] + after.packets, after.open)
      else before == Laced([], open + Inside(cur, p.body) + d)
  {
    hide Crc32.ByTable, Scan, Sum, Rest, Start;
    Depth(c, cur, p, span, left);
    Slices(p.body, Start(p.lacing, cur.index), cur.consumed, d);
    RestSpan(open, p.lacing, cur.index, p.body);
    var a := Start(p.lacing, cur.index);
    assert open + p.body[a..a + span.size] == open + Inside(cur, p.body) + d;
    assert !span.complete ==> p.body[a..] == p.body[a..a + span.size];
  }

  /** The cursor behind a span, as lacing places it. */
  lemma PassesCursor(c: Config, cur: Cursor, p: Page, span: Span, left: nat, d: seq<Byte>)
    requires InPage(c, cur) && OnBody(cur, p) && Next(cur, p, span, left, d) && |d| == left
    ensures var next := cur.Eat(c, d).Advance(span);
      InPage(c, next) && OnBody(next, p) && Inside(next, p.body) == []
  {
    hide Crc32.ByTable, Scan, Sum, Start, InPage, OnBody, Inside;
    SameTable(cur, p);
    Wholly(c, cur, span, left, d);
    InCursor(c, cur.Eat(c, d).Advance(span));
    Behaves(c, cur, p, span, left, d);
    OnBodyBehind(cur, p, cur.Eat(c, d).Advance(span), d);
  }

  lemma SameTable(cur: Cursor, p: Page)
    requires OnBody(cur, p)
    ensures cur.page.table == p.lacing
  {
    hide Start, Page.HeaderWith;
  }

  lemma Behaves(c: Config, cur: Cursor, p: Page, span: Span, left: nat, d: seq<Byte>)
    requires InPage(c, cur) && OnBody(cur, p) && Next(cur, p, span, left, d) && |d| == left
    ensures cur.consumed + |d| == Start(p.lacing, cur.index + span.count) && d <= p.body[cur.consumed..]
  {
    hide Crc32.ByTable, Scan, Sum, Start, InPage, Page.HeaderWith;
    Depth(c, cur, p, span, left);
    RestSpan([], p.lacing, cur.index, p.body);
  }

  lemma OnBodyBehind(cur: Cursor, p: Page, next: Cursor, d: seq<Byte>)
    requires OnBody(cur, p) && d <= p.body[cur.consumed..]
    requires next.page == cur.page && next.seen == cur.seen + d && next.consumed == cur.consumed + |d|
    requires next.index <= |p.lacing| && next.consumed == Start(p.lacing, next.index)
    ensures OnBody(next, p) && Inside(next, p.body) == []
  {
    hide Start, Page.HeaderWith, Sum;
    Slices(p.body, cur.consumed, cur.consumed, d);
    Glue(p.HeaderWith([0, 0, 0, 0]), p.body[..cur.consumed], d, p.body[..next.consumed]);
  }

  lemma Glue(a: seq<Byte>, b: seq<Byte>, c: seq<Byte>, d: seq<Byte>)
    requires b + c == d
    ensures a + b + c == a + d
  {
  }

  lemma OpenSpan(cur: Cursor, p: Page, span: Span, left: nat)
    requires OnBody(cur, p) && HasSpan(cur, span, left) && !span.complete
    ensures p.EndsOpen() && cur.index + span.count == |p.lacing|
  {
    hide Scan;
    ScanSpan(p.lacing, cur.index);
  }

  lemma InCursor(c: Config, cur: Cursor)
    requires InPage(c, cur)
    ensures cur.index <= |cur.page.table|
  {
    hide Crc32.ByTable, Scan, Sum;
  }

  // The demuxer moves: at a place s, w it takes the next bytes d.

  lemma AheadMoves(s: State, t: State, w: World, v: World, d: seq<Byte>)
    requires s.stage == Processing && t.stage == Processing && v.page == w.page && v.later == w.later
    requires s.cur.consumed <= |w.page.body| && d <= w.page.body[s.cur.consumed..] && t.cur.consumed == s.cur.consumed + |d|
    ensures d <= Ahead(s, w) && Ahead(t, v) == Ahead(s, w)[|d|..] && d + BodyAhead(t, v) == BodyAhead(s, w)
  {
    hide StreamBytes, Bodies;
    var rest := w.page.body[s.cur.consumed..];
    assert d + (rest[|d|..] + Bodies(w.later)) == rest + Bodies(w.later);
    assert rest[|d|..] == w.page.body[t.cur.consumed..];
    assert (rest + StreamBytes(w.later))[|d|..] == rest[|d|..] + StreamBytes(w.later);
  }

  /** It may take these bytes of the span at its cursor. */
  predicate May(c: Config, s: State, w: World, span: Span, left: nat, d: seq<Byte>) {
    Loose(c, s, w) && s.stage == Processing && Next(s.cur, w.page, span, left, d)
  }

  /** A state like s but for its cursor, its job and its mode. */
  predicate Moved(s: State, t: State, cur: Cursor) {
    t.stage == Processing && t.staged == [] && t.link == s.link && t.cur == cur
  }

  /** Some bytes of a packet. */
  lemma Eats(c: Config, s: State, t: State, w: World, span: Span, left: nat, d: seq<Byte>)
    requires May(c, s, w, span, left, d) && |d| < left && Moved(s, t, s.cur.Eat(c, d).Open(span, left - |d|))
    ensures InStream(c, t, w) && d <= Ahead(s, w) && Ahead(t, w) == Ahead(s, w)[|d|..] && d + BodyAhead(t, w) == BodyAhead(s, w)
    ensures Part(t, w) == Part(s, w) + d && Owed(t, w) == Owed(s, w)
  {
    hide InPage, OnBody, Stream, Page.Sealed, Ahead, BodyAhead, Inside, Rest, PacketsOf, Scan;
    EatsCursor(c, s.cur, w.page, span, left, d);
    AheadMoves(s, t, w, w, d);
    assert w.open + Inside(s.cur, w.page.body) + d == w.open + (Inside(s.cur, w.page.body) + d);
  }

  lemma CountedSpan(cur: Cursor, p: Page, span: Span, left: nat)
    requires OnBody(cur, p) && HasSpan(cur, span, left)
    ensures 1 <= span.count <= |p.lacing| - cur.index
    ensures span.complete && cur.index + span.count == |p.lacing| ==> !p.EndsOpen()
  {
    hide Scan;
    ScanSpan(p.lacing, cur.index);
  }

  /** The last bytes of a packet. */
  lemma Closes(c: Config, s: State, t: State, w: World, span: Span, left: nat, d: seq<Byte>)
    requires May(c, s, w, span, left, d) && |d| == left && span.complete && Moved(s, t, s.cur.Eat(c, d).Advance(span))
    ensures var v := w.(open := []);
      && Loose(c, t, v) && d <= Ahead(s, w) && Ahead(t, v) == Ahead(s, w)[|d|..] && d + BodyAhead(t, v) == BodyAhead(s, w)
      && Part(t, v) == [] == Inside(t.cur, w.page.body) && Owed(s, w) == [Part(s, w) + d] + Owed(t, v)
  {
    hide InPage, Stream, Page.Sealed, Ahead, BodyAhead, Inside, Rest, PacketsOf, Scan, Start, Page.HeaderWith;
    PassesCursor(c, s.cur, w.page, span, left, d);
    PassesRest(c, s.cur, w.page, span, left, d, w.open);
    CountedSpan(s.cur, w.page, span, left);
    AheadMoves(s, t, w, w.(open := []), d);
    var after := Rest([], w.page.lacing, s.cur.index + span.count, w.page.body);
    var part := w.open + Inside(s.cur, w.page.body) + d;
    assert [part] + after.packets + PacketsOf(after.open, w.later) == [part] + (after.packets + PacketsOf(after.open, w.later));
  }

  /** The last bytes that the page has of a packet that goes on. */
  lemma RunsOut(c: Config, s: State, t: State, w: World, span: Span, left: nat, d: seq<Byte>)
    requires May(c, s, w, span, left, d) && |d| == left && !span.complete && Moved(s, t, s.cur.Eat(c, d).Advance(span)) && 0 < span.size
    ensures var v := w.(open := Part(s, w) + d);
      && Loose(c, t, v) && t.cur.AtEnd() && d <= Ahead(s, w) && Ahead(t, v) == Ahead(s, w)[|d|..]
      && d + BodyAhead(t, v) == BodyAhead(s, w)
      && Part(t, v) == Part(s, w) + d && Inside(t.cur, w.page.body) == [] && Owed(t, v) == Owed(s, w)
  {
    hide InPage, Stream, Page.Sealed, Ahead, BodyAhead, Inside, Rest, PacketsOf, Scan, Start, Page.HeaderWith;
    var v := w.(open := Part(s, w) + d);
    PassesCursor(c, s.cur, w.page, span, left, d);
    PassesRest(c, s.cur, w.page, span, left, d, w.open);
    OpenSpan(s.cur, w.page, span, left);
    RestEnds(v.open, w.page.lacing, w.page.body);
    AheadMoves(s, t, w, v, d);
    Depth(c, s.cur, w.page, span, left);
    Filled(s.cur, w.page, span, left, d);
    assert v.open + [] == v.open;
    assert [] + PacketsOf(v.open, w.later) == PacketsOf(v.open, w.later);
  }

  lemma Filled(cur: Cursor, p: Page, span: Span, left: nat, d: seq<Byte>)
    requires OnBody(cur, p) && cur.consumed + left == Start(p.lacing, cur.index) + span.size && |d| == left && 0 < span.size
    ensures Inside(cur, p.body) + d != []
  {
    hide Start;
  }

  /** A sealed page that is used up passes its check. */
  lemma SealMatches(c: Config, cur: Cursor, p: Page)
    requires InPage(c, cur) && OnBody(cur, p) && cur.consumed == |p.body| && (c.crcOn ==> p.Sealed())
    ensures cur.CrcMatches(c)
  {
    hide Sum, Scan, Start, Page.HeaderWith, Crc32.ByTable, Crc32.Crc;
    assert p.body[..|p.body|] == p.body;
    Crc32.TableIsCrc(0, p.HeaderWith([0, 0, 0, 0]) + p.body);
  }

  /** Where it stands after the page. */
  function Behind(s: State, w: World): World {
    w.(open := Rest(w.open, s.cur.page.table, s.cur.index, w.page.body).open)
  }

  /** The page is used up: it is finished, and nothing but empty packets is lost. */
  lemma Ends(c: Config, s: State, w: World, reply: Reply)
    requires Loose(c, s, w) && s.stage == Processing && s.cur.consumed == |w.page.body| && Inside(s.cur, w.page.body) == []
    requires Start(w.page.lacing, s.cur.index) == |w.page.body| && (w.open != [] ==> s.cur.AtEnd())
    ensures var (t, r) := Finish(c, s, reply);
      && t == Finalized(s) && r == reply && InStream(c, t, Behind(s, w))
      && Ahead(t, Behind(s, w)) == Ahead(s, w) && Part(t, Behind(s, w)) == Part(s, w)
      && BodyAhead(t, Behind(s, w)) == BodyAhead(s, w)
      && NonEmpty(Owed(t, Behind(s, w))) == NonEmpty(Owed(s, w)) && (s.cur.AtEnd() ==> Owed(t, Behind(s, w)) == Owed(s, w))
  {
    hide InPage, Stream, Page.Sealed, Inside, Rest, PacketsOf, Scan, Start, Page.HeaderWith, StreamBytes, BodyAhead;
    SealMatches(c, s.cur, w.page);
    AheadBehind(s, w);
    if s.cur.AtEnd() {
      RestEnds(w.open, w.page.lacing, w.page.body);
    } else {
      RestEmpty(w.page.lacing, s.cur.index, w.page.body);
    }
    var l := Rest(w.open, w.page.lacing, s.cur.index, w.page.body);
    NonEmptyConcat(l.packets, PacketsOf(l.open, w.later));
    assert [] + NonEmpty(PacketsOf(l.open, w.later)) == NonEmpty(PacketsOf(l.open, w.later));
    assert [] + PacketsOf(l.open, w.later) == PacketsOf(l.open, w.later);
    assert w.open + [] == w.open;
  }

  lemma AheadBehind(s: State, w: World)
    requires s.stage == Processing && s.staged == [] && s.cur.consumed == |w.page.body|
    ensures Ahead(Finalized(s), Behind(s, w)) == Ahead(s, w) && BodyAhead(Finalized(s), Behind(s, w)) == BodyAhead(s, w)
  {
    hide StreamBytes, Rest, Bodies;
    assert w.page.body[|w.page.body|..] == [];
    assert [] + StreamBytes(w.later) == StreamBytes(w.later) == StreamBytes(w.later)[0..];
  }

  lemma EatsNothing(c: Config, cur: Cursor)
    ensures cur.Eat(c, []) == cur
  {
    assert cur.seen + [] == cur.seen;
  }

  lemma EmptySpan(table: seq<Byte>, i: nat)
    requires i < |table| && Scan(table, i).size == 0
    ensures Scan(table, i).complete
  {
  }

  /** Behind a closed span the cursor is where the next one starts. */
  lemma Closed(c: Config, s: State, w: World)
    requires Loose(c, s, w) && s.stage == Processing && !s.cur.spanActive
    ensures s.cur.consumed == Start(w.page.lacing, s.cur.index) && Inside(s.cur, w.page.body) == []
    ensures s.cur.AtEnd() ==> s.cur.consumed == |w.page.body|
  {
    hide Stream, Page.Sealed, Scan, Sum, Page.HeaderWith, Crc32.ByTable;
    if s.cur.AtEnd() {
      AtTheEnd(c, s.cur);
    }
  }

  /** Answers after the page if the cursor is past its end. */
  lemma Answered(c: Config, s: State, w: World, reply: Reply) returns (v: World)
    requires Loose(c, s, w) && s.stage == Processing && !s.cur.spanActive
    ensures var (t, r) := Answer(c, s, reply);
      r == reply && InStream(c, t, v) && Ahead(t, v) == Ahead(s, w) && Part(t, v) == Part(s, w) && Owed(t, v) == Owed(s, w)
      && BodyAhead(t, v) == BodyAhead(s, w) && t.mode == s.mode && t.job == s.job && v.page == w.page && v.later == w.later
  {
    hide InPage, Stream, Inside, Rest, Start, Owed, Part, Ahead, BodyAhead, Finish, OnBody;
    Closed(c, s, w);
    if s.cur.AtEnd() {
      Ends(c, s, w, reply);
      v := Behind(s, w);
    } else {
      v := w;
    }
  }
}
