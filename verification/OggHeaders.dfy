/** The demuxer between pages of a well-formed stream: however the header is cut, it is staged, checked and entered. */
module OggHeaders {
  import opened Bits
  import opened OggFormat
  import opened OggSteps
  import opened OggAccounts
  import opened OggStreams
  import Crc32

  /** Two jobs that differ in the first-page mark only. */
  predicate SameWork(a: Job, b: Job) {
    a.assembly == b.assembly && a.assembling == b.assembling && a.skipping == b.skipping
  }

  /** What reading headers keeps: the stream, the open packet and the packets that are owed. */
  predicate Carried(c: Config, s: State, w: World, t: State, v: World, used: nat) {
    && InStream(c, t, v) && used <= |Ahead(s, w)| && Ahead(t, v) == Ahead(s, w)[used..]
    && Part(t, v) == Part(s, w) && Owed(t, v) == Owed(s, w) && BodyAhead(t, v) == BodyAhead(s, w)
    && t.mode == s.mode && SameWork(s.job, t.job)
    && ((v == w && t.stage != Processing) || (w.later != [] && v == Enter(w) && (t.stage != Processing ==> w.later[0].lacing == [])))
  }

  /** A call stays in its page, waits for the next one, or comes into it. */
  predicate Moves(s: State, w: World, t: State, v: World, r: Reply) {
    if s.stage == Processing then v.page == w.page && v.later == w.later
    else (v == w && t.stage != Processing && r.code != OggSteps.Ok) || (w.later != [] && v.page == w.later[0] && v.later == w.later[1..])
  }

  /** The staging takes what the header needs. */
  lemma TakenOfHeader(p: Page, staged: seq<Byte>, input: seq<Byte>)
    requires p.Ok() && staged <= p.Header() && |staged| < |p.Header()|
    requires input[..Min(|input|, |p.Header()| - |staged|)] <= p.Header()[|staged|..]
    ensures StagedCount(staged, input) == Min(|input|, |p.Header()| - |staged|)
    ensures staged + input[..StagedCount(staged, input)] <= p.Header()
  {
    hide ByteOf, Sum;
    var h := p.Header();
    var m := Min(|input|, |h| - |staged|);
    var a := if |staged| < HEADER_SIZE then Min(|input|, HEADER_SIZE - |staged|) else 0;
    assert input[..m] == h[|staged|..][..m] == h[|staged|..|staged| + m];
    assert staged + input[..m] == h[..|staged| + m];
    assert input[..a] == input[..m][..a];
    assert staged + input[..a] == h[..|staged| + a];
    if |staged| + a >= HEADER_SIZE {
      assert h[COUNT_AT] == ByteOf(|p.lacing|);
      assert (staged + input[..a])[COUNT_AT] == h[COUNT_AT];
      CountByte(|p.lacing|);
    }
  }

  lemma CountByte(n: nat)
    requires n < 256
    ensures ByteOf(n) as nat == n
  {
  }

  /** The first page of the rest follows from where the demuxer is. */
  lemma NextPage(c: Config, s: State, w: World)
    requires InStream(c, s, w) && s.stage != Processing && w.later != []
    ensures var p := w.later[0];
      && p.Ok() && Follows(ContextOf(s.link), p) && (c.crcOn ==> p.Sealed())
      && Stream(After(ContextOf(s.link), p), w.later[1..], c.crcOn) && AllOk(w.later[1..])
      && StreamBytes(w.later) == p.Bytes() + StreamBytes(w.later[1..])
  {
  }

  lemma PageConsistent(l: Link, p: Page)
    requires Follows(ContextOf(l), p)
    ensures Consistency(l, HeaderOf(p)) == OggSteps.Ok
  {
    hide Little;
  }

  lemma Entering(p: Page, rest: seq<Byte>, staged: nat, used: nat)
    requires p.Ok() && staged + used == |p.Header()|
    ensures (p.Bytes() + rest)[staged..][used..] == p.body + rest == p.body[0..] + rest
  {
    hide Page.Header;
    var all := p.Bytes() + rest;
    assert all == p.Header() + (p.body + rest);
    assert all[staged..][used..] == all[staged + used..];
  }

  /** The place in the page whose header has just been read. */
  function Enter(w: World): World
    requires w.later != []
  {
    Place(w.later[0], w.later[1..], w.open)
  }

  lemma PassesPage(c: Config, s: State, w: World, used: nat)
    requires InStream(c, s, w) && s.stage != Processing && w.later != [] && w.later[0].lacing == []
    ensures var p := w.later[0];
      Accept(c, s, HeaderOf(p), p.Header(), used).Stop?
      && var h := Accept(c, s, HeaderOf(p), p.Header(), used);
      && h.reply == Nothing(NeedMoreData, used) && h.state.stage != Processing && h.state.staged == []
      && InStream(c, h.state, Enter(w)) && h.state.mode == s.mode && SameWork(s.job, h.state.job)
  {
    hide Crc32.ByTable, Crc32.Crc, Page.HeaderWith, StreamBytes, Stream, Consistency, Zeroed, Little, OnPage, Page.Sealed, PartOfHeader;
    var p := w.later[0];
    NextPage(c, s, w);
    PageConsistent(s.link, p);
    HeaderParses(p);
    EmptySeal(c, p);
    NoPart(Enter(w));
  }

  lemma NoPart(w: World)
    ensures PartOfHeader([], w)
  {
  }

  lemma EmptyPage(c: Config, s: State, w: World, used: nat)
    requires InStream(c, s, w) && s.stage != Processing && w.later != [] && w.later[0].lacing == []
    requires |s.staged| + used == |w.later[0].Header()|
    ensures var p := w.later[0];
      Accept(c, s, HeaderOf(p), p.Header(), used).Stop?
      && var h := Accept(c, s, HeaderOf(p), p.Header(), used);
      && h.reply == Nothing(NeedMoreData, used) && h.state.stage != Processing && Carried(c, s, w, h.state, Enter(w), used)
  {
    hide StreamBytes, PacketsOf, Loose, Inv, Accept, Page.Header, Ahead, BodyAhead;
    PassesPage(c, s, w, used);
    NextPage(c, s, w);
    PassedAhead(c, s, w, Accept(c, s, HeaderOf(w.later[0]), w.later[0].Header(), used).state, used);
    OwedBefore(w);
  }

  lemma PassedAhead(c: Config, s: State, w: World, t: State, used: nat)
    requires InStream(c, s, w) && s.stage != Processing && w.later != [] && w.later[0].lacing == []
    requires |s.staged| + used == |w.later[0].Header()| && t.stage != Processing && t.staged == []
    ensures used <= |Ahead(s, w)| && Ahead(t, Enter(w)) == Ahead(s, w)[used..] && BodyAhead(t, Enter(w)) == BodyAhead(s, w)
  {
    hide StreamBytes, Loose, Page.Header;
    NextPage(c, s, w);
    EmptySeal(Config(0, false), w.later[0]);
    Entering(w.later[0], StreamBytes(w.later[1..]), |s.staged|, used);
    Waiting(c, s, w);
    assert [] + StreamBytes(w.later[1..]) == StreamBytes(w.later[1..]) == StreamBytes(w.later[1..])[0..];
  }

  lemma EmptySeal(c: Config, p: Page)
    requires p.Ok() && p.lacing == [] && (c.crcOn ==> p.Sealed())
    ensures p.body == []
    ensures c.crcOn ==> Crc32.ByTable(Crc32.Table, 0, p.HeaderWith([0, 0, 0, 0])) as nat == Little(p.checksum)
  {
    hide Crc32.ByTable, Crc32.Crc, Page.HeaderWith, Little;
    Crc32.TableIsCrc(0, p.HeaderWith([0, 0, 0, 0]));
    assert p.HeaderWith([0, 0, 0, 0]) + [] == p.HeaderWith([0, 0, 0, 0]);
  }

  /** Owed packets before and after a page is entered. */
  lemma OwedBefore(w: World)
    requires w.later != []
    ensures var p := w.later[0];
      && Rest(w.open, p.lacing, 0, p.body) == Lace(w.open, p.lacing, p.body)
      && PacketsOf(w.open, w.later) == Lace(w.open, p.lacing, p.body).packets + PacketsOf(Lace(w.open, p.lacing, p.body).open, w.later[1..])
      && (p.lacing == [] ==> PacketsOf(w.open, w.later) == PacketsOf(w.open, w.later[1..]))
  {
    hide Lace, Sum;
    var p := w.later[0];
    RestHolds(p.lacing, 0, p.body);
    StartZero(p.lacing);
    assert p.lacing[0..] == p.lacing && p.body[0..] == p.body;
    LaceNone(w.open);
    assert [] + PacketsOf(w.open, w.later[1..]) == PacketsOf(w.open, w.later[1..]);
    if p.lacing == [] {
      assert p.body == [];
    }
  }

  lemma StartZero(table: seq<Byte>)
    ensures Start(table, 0) == 0
  {
    assert table[..0] == [];
  }

  /** Entering a page that has lacing values. */
  lemma EntersPage(c: Config, s: State, w: World, used: nat)
    requires InStream(c, s, w) && s.stage != Processing && w.later != [] && w.later[0].lacing != []
    requires |s.staged| + used == |w.later[0].Header()|
    ensures var p := w.later[0];
      Accept(c, s, HeaderOf(p), p.Header(), used).Entered?
      && var h := Accept(c, s, HeaderOf(p), p.Header(), used);
      && h.used == used && h.state.stage == Processing && !h.state.cur.spanActive && h.state.cur.index == 0 && h.state.cur.consumed == 0
      && h.state.cur.page.table == p.lacing && InStream(c, h.state, Enter(w)) && h.state.mode == s.mode && SameWork(s.job, h.state.job)
  {
    hide Crc32.ByTable, Page.HeaderWith, StreamBytes, Stream, Zeroed, PacketsOf, Little, InPage, Lace, Sum, Consistency, Page.Sealed, PartOfHeader;
    var p := w.later[0];
    NextPage(c, s, w);
    PageConsistent(s.link, p);
    HeaderParses(p);
    AcceptAccounts(c, s, HeaderOf(p), p.Header(), used);
    FirstCursor(c, Accept(c, s, HeaderOf(p), p.Header(), used).state.cur);
    StartZero(p.lacing);
    assert p.HeaderWith([0, 0, 0, 0]) + p.body[..0] == p.HeaderWith([0, 0, 0, 0]);
  }

  lemma FirstCursor(c: Config, cur: Cursor)
    requires InPage(c, cur) && cur.index == 0 && !cur.spanActive
    ensures cur.consumed == 0
  {
    hide Crc32.ByTable, Scan;
    assert cur.page.table[..0] == [];
  }

  lemma FullPage(c: Config, s: State, w: World, used: nat)
    requires InStream(c, s, w) && s.stage != Processing && w.later != [] && w.later[0].lacing != []
    requires |s.staged| + used == |w.later[0].Header()|
    ensures var p := w.later[0];
      Accept(c, s, HeaderOf(p), p.Header(), used).Entered?
      && var h := Accept(c, s, HeaderOf(p), p.Header(), used);
      && h.used == used && h.state.stage == Processing && !h.state.cur.spanActive && h.state.cur.index == 0
      && Carried(c, s, w, h.state, Enter(w), used)
  {
    hide StreamBytes, PacketsOf, Rest, Lace, Sum, Loose, Inv, Accept, Page.Header, Start, Ahead, BodyAhead, Part, Owed;
    EntersPage(c, s, w, used);
    NextPage(c, s, w);
    EnteredAhead(c, s, w, Accept(c, s, HeaderOf(w.later[0]), w.later[0].Header(), used).state, used);
    EnteredOwed(s, w, Accept(c, s, HeaderOf(w.later[0]), w.later[0].Header(), used).state);
  }

  lemma EnteredAhead(c: Config, s: State, w: World, t: State, used: nat)
    requires InStream(c, s, w) && s.stage != Processing && w.later != [] && |s.staged| + used == |w.later[0].Header()|
    requires t.stage == Processing && t.cur.consumed == 0
    ensures used <= |Ahead(s, w)| && Ahead(t, Enter(w)) == Ahead(s, w)[used..] && BodyAhead(t, Enter(w)) == BodyAhead(s, w)
  {
    hide StreamBytes, Loose, Page.Header;
    NextPage(c, s, w);
    Entering(w.later[0], StreamBytes(w.later[1..]), |s.staged|, used);
    Waiting(c, s, w);
    var p := w.later[0];
    assert p.body[0..] == p.body && [] + Bodies(w.later) == Bodies(w.later) == p.body + Bodies(w.later[1..]);
  }

  lemma EnteredOwed(s: State, w: World, t: State)
    requires s.stage != Processing && w.later != []
    requires t.stage == Processing && t.cur.consumed == 0 && t.cur.index == 0 && t.cur.page.table == w.later[0].lacing
    ensures Part(t, Enter(w)) == Part(s, w) && Owed(t, Enter(w)) == Owed(s, w)
  {
    hide Lace, PacketsOf, Rest, Start;
    OwedBefore(w);
    StartZero(w.later[0].lacing);
    assert w.open + [] == w.open;
  }

  /** Bytes that are taken into the staging. */
  lemma Stages(c: Config, s: State, w: World, t: State, d: seq<Byte>)
    requires InStream(c, s, w) && s.stage != Processing && d <= Ahead(s, w)
    requires t == s.(stage := AccumulatingHeader, staged := s.staged + d)
    requires |t.staged| <= MAX_HEADER && !WholeHeader(t.staged) && PartOfHeader(t.staged, w)
    ensures Carried(c, s, w, t, w, |d|)
  {
    hide PacketsOf, StreamBytes, Rest, Inside, PartOfHeader, Loose, Inv, Page.Header, Page.Bytes, WholeHeader, Ahead, Bodies;
    StaysInStream(c, s, w, t);
    Waiting(c, s, w);
    StagedAhead(s, w, t, d);
  }

  lemma StagedAhead(s: State, w: World, t: State, d: seq<Byte>)
    requires s.stage != Processing && t.stage != Processing && t.staged == s.staged + d
    requires |s.staged| <= |StreamBytes(w.later)| && d <= Ahead(s, w)
    ensures |d| <= |Ahead(s, w)| && Ahead(t, w) == Ahead(s, w)[|d|..]
  {
    hide StreamBytes;
    var all := StreamBytes(w.later);
    assert all[|s.staged|..][|d|..] == all[|s.staged| + |d|..];
  }

  lemma StaysInStream(c: Config, s: State, w: World, t: State)
    requires InStream(c, s, w) && s.stage != Processing
    requires t.stage == AccumulatingHeader && t.cur == s.cur && t.link == s.link
    requires |t.staged| <= MAX_HEADER && !WholeHeader(t.staged) && PartOfHeader(t.staged, w)
    ensures InStream(c, t, w)
  {
    hide Stream, Page.Header, WholeHeader, InPage, OnPage, PartOfHeader;
  }

  /** The input that a header takes. */
  function Needed(s: State, p: Page, input: seq<Byte>): nat
    requires p.Ok() && |s.staged| <= |p.Header()|
  {
    Min(|input|, |p.Header()| - |s.staged|)
  }

  lemma ReadsPart(c: Config, s: State, w: World, input: seq<Byte>)
    requires InStream(c, s, w) && s.stage != Processing && w.later != [] && input <= Ahead(s, w)
    requires |s.staged| <= |w.later[0].Header()| && |s.staged| + Needed(s, w.later[0], input) < |w.later[0].Header()|
    ensures var t := s.(stage := AccumulatingHeader, staged := s.staged + input);
      HeaderStage(c, s, input) == Stop(t, Nothing(NeedMoreData, |input|)) && Carried(c, s, w, t, w, |input|)
  {
    hide Stream, PacketsOf, Accept, ParseHeader, Lace, Carried, StagedCount, Page.HeaderWith, Ahead, StreamBytes;
    var p := w.later[0];
    Waiting(c, s, w);
    NextPage(c, s, w);
    InHeader(p, StreamBytes(w.later[1..]), s.staged, input);
    TakenOfHeader(p, s.staged, input);
    assert input[..|input|] == input;
    assert s.staged == [] ==> s.staged + input == input;
    PartIsIncomplete(p, s.staged + input);
    WholeOne(p);
    Stages(c, s, w, s.(stage := AccumulatingHeader, staged := s.staged + input), input);
  }

  lemma ReadsWhole(c: Config, s: State, w: World, input: seq<Byte>)
    requires InStream(c, s, w) && s.stage != Processing && w.later != [] && input <= Ahead(s, w)
    requires |s.staged| <= |w.later[0].Header()| && |s.staged| + Needed(s, w.later[0], input) == |w.later[0].Header()|
    ensures HeaderStage(c, s, input) == Accept(c, s, HeaderOf(w.later[0]), w.later[0].Header(), Needed(s, w.later[0], input))
  {
    hide Stream, PacketsOf, Accept, ParseHeader, Lace, StagedCount, Page.HeaderWith, Ahead, StreamBytes;
    var p := w.later[0];
    Waiting(c, s, w);
    NextPage(c, s, w);
    InHeader(p, StreamBytes(w.later[1..]), s.staged, input);
    TakenOfHeader(p, s.staged, input);
    HeaderParses(p);
    WholeOne(p);
    if s.staged == [] {
      assert [] + input[..|p.Header()|] == input[..|p.Header()|];
      ParsesPrefix(p.Header(), input);
    }
  }

  /** Whatever part of the stream it is given, the demuxer reads the header that comes next in it: it takes all of
      that part that belongs to the header, refuses nothing, and loses no packet. */
  lemma HeaderTracks(c: Config, s: State, w: World, input: seq<Byte>) returns (v: World)
    requires InStream(c, s, w) && s.stage != Processing && input <= Ahead(s, w)
    ensures match HeaderStage(c, s, input)
      case Stop(t, r) =>
        r == Nothing(NeedMoreData, r.used) && r.used <= |input| && t.stage != Processing && Carried(c, s, w, t, v, r.used)
      case Entered(t, used) =>
        used <= |input| && t.stage == Processing && !t.cur.spanActive && t.cur.index == 0 && Carried(c, s, w, t, v, used)
  {
    hide Stream, PacketsOf, Accept, ParseHeader, Lace, Carried, StagedCount, Page.HeaderWith, Ahead, StreamBytes;
    Waiting(c, s, w);
    if w.later == [] {
      Unparsed();
      Stages(c, s, w, s.(stage := AccumulatingHeader), []);
      v := w;
    } else {
      NextPage(c, s, w);
      var n := Needed(s, w.later[0], input);
      if |s.staged| + n < |w.later[0].Header()| {
        ReadsPart(c, s, w, input);
        v := w;
      } else {
        ReadsWhole(c, s, w, input);
        v := Enter(w);
        if w.later[0].lacing == [] {
          EmptyPage(c, s, w, n);
        } else {
          FullPage(c, s, w, n);
        }
      }
    }
  }

  lemma Waiting(c: Config, s: State, w: World)
    requires InStream(c, s, w) && s.stage != Processing
    ensures |s.staged| <= |StreamBytes(w.later)| && Ahead(s, w) == StreamBytes(w.later)[|s.staged|..]
    ensures s.staged == [] || (s.stage == AccumulatingHeader && w.later != [] && s.staged <= w.later[0].Header() && |s.staged| < |w.later[0].Header()|)
    ensures w.later == [] ==> Ahead(s, w) == []
    ensures |s.staged| <= MAX_HEADER && !WholeHeader(s.staged)
  {
    hide Stream, Page.HeaderWith, WholeHeader;
    if w.later != [] {
      NextPage(c, s, w);
    }
  }

  lemma Unparsed()
    ensures ParseHeader([]) == Incomplete && !WholeHeader([])
  {
  }

  lemma WholeOne(p: Page)
    requires p.Ok()
    ensures WholeHeader(p.Header()) && |p.Header()| <= MAX_HEADER
  {
    hide ByteOf, Sum;
    assert p.Header()[COUNT_AT] == ByteOf(|p.lacing|);
    CountByte(|p.lacing|);
  }

  /** The input is the rest of the header and what follows it. */
  lemma InHeader(p: Page, rest: seq<Byte>, staged: seq<Byte>, input: seq<Byte>)
    requires p.Ok() && staged <= p.Header() && |staged| < |p.Header()| && input <= (p.Bytes() + rest)[|staged|..]
    ensures var n := Min(|input|, |p.Header()| - |staged|);
      && input[..n] <= p.Header()[|staged|..]
      && (n == |p.Header()| - |staged| ==> staged + input[..n] == p.Header())
  {
    hide Page.Header;
    var all, n := p.Bytes() + rest, Min(|input|, |p.Header()| - |staged|);
    assert all == p.Header() + (p.body + rest);
    assert input[..n] == all[|staged|..][..n] == all[|staged|..|staged| + n] == p.Header()[|staged|..|staged| + n];
    assert p.Header()[|staged|..][..n] == p.Header()[|staged|..|staged| + n];
    assert staged == p.Header()[..|staged|];
  }
}
