/** What each call delivers on a well-formed stream: the streaming interface its slices, the packet interface its packets. */
module OggDelivery {
  import opened Bits
  import opened OggFormat
  import opened OggSteps
  import opened OggAccounts
  import opened OggStreams
  import opened OggHeaders
  import opened OggMarks
  import Crc32

  // Slices.

  /** A slice goes on with the packet, and ends it just when it says so; empty packets are passed over. */
  predicate Gives(part: seq<Byte>, owed: seq<seq<Byte>>, r: Reply, part2: seq<Byte>, owed2: seq<seq<Byte>>) {
    if r.isEnd then part + r.data != [] && part2 == [] && NonEmpty(owed) == [part + r.data] + NonEmpty(owed2)
    else part2 == part + r.data && NonEmpty(owed2) == NonEmpty(owed)
  }

  /** A reply of the streaming interface, from a place in a page. */
  predicate Sliced(c: Config, s: State, w: World, t: State, v: World, r: Reply) {
    && (r.code == OggSteps.Ok || (r.code == NeedMoreData && r.data == [] && !r.isEnd))
    && InStream(c, t, v) && r.data <= Ahead(s, w) && Ahead(t, v) == Ahead(s, w)[|r.data|..] && r.data + BodyAhead(t, v) == BodyAhead(s, w)
    && Gives(Part(s, w), Owed(s, w), r, Part(t, v), Owed(t, v))
    && t.mode == s.mode && SameWork(s.job, t.job) && v.page == w.page && v.later == w.later
  }

  lemma InBody(c: Config, s: State, w: World, span: Span, left: nat, d: seq<Byte>)
    requires Loose(c, s, w) && s.stage == Processing && HasSpan(s.cur, span, left) && d <= Ahead(s, w) && |d| <= left
    ensures May(c, s, w, span, left, d)
    ensures s.cur.consumed + left == Start(w.page.lacing, s.cur.index) + span.size == Start(w.page.lacing, s.cur.index + span.count)
    ensures s.cur.consumed + left <= |w.page.body|
  {
    hide Crc32.ByTable, Scan, Sum, StreamBytes, Stream, Page.Sealed, Page.HeaderWith, Start;
    Depth(c, s.cur, w.page, span, left);
    RestSpan([], w.page.lacing, s.cur.index, w.page.body);
    var rest := w.page.body[s.cur.consumed..];
    assert (rest + StreamBytes(w.later))[..|d|] == rest[..|d|];
  }

  lemma SlicePart(c: Config, s: State, w: World, span: Span, left: nat, body: seq<Byte>, head: nat)
    requires Loose(c, s, w) && s.stage == Processing && HasSpan(s.cur, span, left) && |body| < left && body <= Ahead(s, w) && Inv(c, s)
    ensures var (t, r) := Slice(c, s, span, left, body, head);
      r.used == head + |r.data| && r.data <= body && Sliced(c, s, w, t, w, r)
  {
    hide Loose, InPage, Scan, Sum, Part, Owed, Ahead, BodyAhead, Inv, Crc32.ByTable;
    if body == [] {
      assert [] + BodyAhead(s, w) == BodyAhead(s, w);
      assert Ahead(s, w)[0..] == Ahead(s, w) && Part(s, w) + [] == Part(s, w);
    } else {
      InBody(c, s, w, span, left, body);
      Standing(c, s, w);
      PartlyLess(c, s.cur, span, left, body);
      var t := s.(cur := s.cur.Eat(c, body).Open(span, left - |body|), job := s.job.(isBos := false));
      Eats(c, s, t, w, span, left, body);
      assert body[..|body|] == body;
    }
  }

  lemma Standing(c: Config, s: State, w: World)
    requires Loose(c, s, w) && s.stage == Processing
    ensures InPage(c, s.cur) && s.staged == [] && s.cur.page.table == w.page.lacing && |w.page.body| == Sum(w.page.lacing)
    ensures OnBody(s.cur, w.page)
  {
    hide InPage, Sum, Page.HeaderWith, Stream;
  }

  /** The last bytes of a span end a packet, or all that the page has of it. */
  lemma SliceWhole(c: Config, s: State, w: World, span: Span, left: nat, body: seq<Byte>, head: nat) returns (v: World)
    requires Loose(c, s, w) && s.stage == Processing && HasSpan(s.cur, span, left) && 0 < left <= |body| && body <= Ahead(s, w)
    ensures var (t, r) := Slice(c, s, span, left, body, head);
      r.used == head + |r.data| && r.data <= body && Sliced(c, s, w, t, v, r)
  {
    hide Loose, InPage, Scan, Sum, Part, Owed, Ahead, BodyAhead, Inv, Crc32.ByTable, Finish, Start, OnBody;
    var d := body[..left];
    InBody(c, s, w, span, left, d);
    Standing(c, s, w);
    var t := s.(cur := s.cur.Eat(c, d).Advance(span), job := s.job.(isBos := false));
    var last := t.cur.consumed >= Sum(s.cur.page.table);
    var reply := Reply(OggSteps.Ok, head + left, d, s.cur.page.granule, s.job.isBos, s.cur.page.Has(LAST), last, span.complete);
    SpanNotEmpty(c, s.cur, span, left);
    if span.complete {
      v := w.(open := []);
      Closes(c, s, t, w, span, left, d);
      NonEmptyOne(Part(s, w) + d, Owed(t, v));
    } else {
      v := w.(open := Part(s, w) + d);
      RunsOut(c, s, t, w, span, left, d);
      Closed(c, t, v);
    }
    if last {
      Ends(c, t, v, reply);
      v := Behind(t, v);
    } else {
      NotYet(c, t, v);
    }
  }

  lemma SpanNotEmpty(c: Config, cur: Cursor, span: Span, left: nat)
    requires InPage(c, cur) && HasSpan(cur, span, left) && 0 < left
    ensures 0 < span.size
  {
    hide Scan, Sum, Crc32.ByTable;
  }

  lemma NonEmptyOne(p: seq<Byte>, rest: seq<seq<Byte>>)
    ensures NonEmpty([p] + rest) == (if p == [] then [] else [p]) + NonEmpty(rest)
  {
    assert ([p] + rest)[1..] == rest;
  }

  /** A page with body bytes to come is not over. */
  lemma NotYet(c: Config, s: State, w: World)
    requires Loose(c, s, w) && s.stage == Processing && !s.cur.spanActive && s.cur.consumed < |w.page.body|
    ensures InStream(c, s, w)
  {
    hide InPage, Sum, Start, Page.HeaderWith, Stream, Page.Sealed;
    Closed(c, s, w);
  }

  lemma SliceTracks(c: Config, s: State, w: World, span: Span, left: nat, body: seq<Byte>, head: nat) returns (v: World)
    requires InStream(c, s, w) && s.stage == Processing && HasSpan(s.cur, span, left) && 0 < left && body <= Ahead(s, w)
    ensures var (t, r) := Slice(c, s, span, left, body, head);
      r.used == head + |r.data| && r.data <= body && Sliced(c, s, w, t, v, r)
  {
    hide Loose, Slice, Scan, Sliced, HasSpan, Ahead;
    if |body| < left {
      SlicePart(c, s, w, span, left, body, head);
      v := w;
    } else {
      v := SliceWhole(c, s, w, span, left, body, head);
    }
  }

  /** An empty span is stepped over. */
  lemma StepsOver(c: Config, s: State, w: World, t: State)
    requires InStream(c, s, w) && s.stage == Processing && !s.cur.spanActive && Scan(s.cur.page.table, s.cur.index).size == 0
    requires Moved(s, t, s.cur.Advance(Scan(s.cur.page.table, s.cur.index)))
    ensures var v := w.(open := []);
      && Loose(c, t, v) && Ahead(t, v) == Ahead(s, w) && BodyAhead(t, v) == BodyAhead(s, w) && Part(s, w) == w.open && Part(t, v) == []
      && Owed(s, w) == [w.open] + Owed(t, v) && t.cur.index > s.cur.index
      && (w.open != [] <==> s.cur.index == 0 && s.link.prevContinued)
  {
    hide InPage, Scan, Sum, Owed, Ahead, BodyAhead, Crc32.ByTable, Start, OnBody, Stream, Page.Sealed, StreamBytes;
    Standing(c, s, w);
    var span := Scan(s.cur.page.table, s.cur.index);
    EmptySpan(s.cur.page.table, s.cur.index);
    EatsNothing(c, s.cur);
    Closed(c, s, w);
    CountedSpan(s.cur, w.page, span, 0);
    InBody(c, s, w, span, 0, []);
    Closes(c, s, t, w, span, 0, []);
    assert Ahead(s, w)[0..] == Ahead(s, w) && w.open + [] == w.open && w.open + [] + [] == w.open;
    assert [] + BodyAhead(t, w.(open := [])) == BodyAhead(t, w.(open := []));
  }

  /** The cursor comes to rest on the next bytes, or reports the end of a packet that an earlier page has begun. */
  lemma {:induction false} SettleTracks(c: Config, s: State, w: World, body: seq<Byte>, head: nat) returns (v: World)
    requires Loose(c, s, w) && s.stage == Processing && !s.cur.spanActive && body <= Ahead(s, w)
    ensures var (t, r) := Settle(c, s, body, head);
      r.used == head + |r.data| && r.data <= body && Sliced(c, s, w, t, v, r)
    decreases |s.cur.page.table| - s.cur.index
  {
    hide Loose, InPage, Scan, Slice, Part, Owed, Ahead, BodyAhead, Inv, Finish, Answer, Sliced;
    if s.cur.AtEnd() {
      v := SettleEnd(c, s, w, head);
    } else {
      var span := Scan(s.cur.page.table, s.cur.index);
      Within(c, s, w);
      if span.size > 0 {
        v := SliceTracks(c, s, w, span, span.size, body, head);
      } else {
        var next := s.(cur := s.cur.Advance(span));
        StepsOver(c, s, w, next);
        if s.cur.index == 0 && s.link.prevContinued {
          v := TerminatorTracks(c, s, w, next, body, head);
        } else {
          v := SettleTracks(c, next, w.(open := []), body, head);
          var (t, r) := Settle(c, next, body, head);
          SlicedFrom(c, s, w, next, t, v, r);
        }
      }
    }
  }

  lemma SettleEnd(c: Config, s: State, w: World, head: nat) returns (v: World)
    requires Loose(c, s, w) && s.stage == Processing && !s.cur.spanActive && s.cur.AtEnd()
    ensures var (t, r) := Finish(c, s, Nothing(NeedMoreData, head));
      r == Nothing(NeedMoreData, head) && Sliced(c, s, w, t, v, r)
  {
    hide Loose, InPage, Scan, Part, Owed, Ahead, BodyAhead, Inv, Finish;
    Closed(c, s, w);
    assert [] + BodyAhead(s, w) == BodyAhead(s, w);
    assert Ahead(s, w)[0..] == Ahead(s, w) && Part(s, w) + [] == Part(s, w);
    Ends(c, s, w, Nothing(NeedMoreData, head));
    v := Behind(s, w);
  }

  /** An empty packet that is passed over makes no difference to what comes. */
  lemma SlicedFrom(c: Config, s: State, w: World, s2: State, t: State, v: World, r: Reply)
    requires Sliced(c, s2, w.(open := []), t, v, r) && Ahead(s2, w.(open := [])) == Ahead(s, w) && w.open == [] && BodyAhead(s2, w.(open := [])) == BodyAhead(s, w)
    requires Part(s, w) == [] == Part(s2, w.(open := [])) && Owed(s, w) == [w.open] + Owed(s2, w.(open := []))
    requires s2.mode == s.mode && SameWork(s2.job, s.job)
    ensures Sliced(c, s, w, t, v, r)
  {
    hide InStream, Part, Owed, Ahead, BodyAhead;
    NonEmptyOne(w.open, Owed(s2, w.(open := [])));
    assert [] + NonEmpty(Owed(s2, w.(open := []))) == NonEmpty(Owed(s2, w.(open := [])));
  }

  /** The zero-length end of a packet from earlier pages. */
  lemma TerminatorTracks(c: Config, s: State, w: World, next: State, body: seq<Byte>, head: nat) returns (v: World)
    requires InStream(c, s, w) && s.stage == Processing && !s.cur.spanActive && Scan(s.cur.page.table, s.cur.index).size == 0
    requires next == s.(cur := s.cur.Advance(Scan(s.cur.page.table, s.cur.index))) && s.staged == []
    requires s.cur.index == 0 && s.link.prevContinued
    ensures var (t, r) := Answer(c, next.(job := s.job.(isBos := false)),
        Reply(OggSteps.Ok, head, [], s.cur.page.granule, s.job.isBos, s.cur.page.Has(LAST), next.cur.AtEnd(), true));
      r.used == head && r.data == [] && Sliced(c, s, w, t, v, r)
  {
    hide Loose, InPage, Scan, Part, Owed, Ahead, BodyAhead, Inv, Finish, Answer;
    var t := next.(job := s.job.(isBos := false));
    StepsOver(c, s, w, t);
    v := Answered(c, t, w.(open := []),
                  Reply(OggSteps.Ok, head, [], s.cur.page.granule, s.job.isBos, s.cur.page.Has(LAST), next.cur.AtEnd(), true));
    NonEmptyOne(w.open, Owed(t, w.(open := [])));
    assert [] + BodyAhead(t, w.(open := [])) == BodyAhead(t, w.(open := []));
    assert [] + BodyAhead(s, w) == BodyAhead(s, w);
    assert Ahead(s, w)[0..] == Ahead(s, w) && Part(s, w) + [] == Part(s, w);
  }

  lemma Within(c: Config, s: State, w: World)
    requires Loose(c, s, w) && s.stage == Processing && !s.cur.AtEnd() && !s.cur.spanActive
    ensures InStream(c, s, w) && s.staged == [] && s.cur.index < |s.cur.page.table|
  {
    hide InPage, OnBody, Stream, Page.Sealed;
  }

  /** The place does not depend on the job or on the mode. */
  lemma SamePlace(c: Config, s: State, t: State, w: World)
    requires t.stage == s.stage && t.staged == s.staged && t.cur == s.cur && t.link == s.link
    ensures Loose(c, t, w) == Loose(c, s, w) && InStream(c, t, w) == InStream(c, s, w)
    ensures Ahead(t, w) == Ahead(s, w) && Part(t, w) == Part(s, w) && Owed(t, w) == Owed(s, w) && BodyAhead(t, w) == BodyAhead(s, w)
  {
    hide Stream, OnBody, InPage, PartOfHeader, StreamBytes, Rest, PacketsOf, Inside, Page.Sealed;
  }

  lemma OfferTracks(c: Config, s: State, w: World, body: seq<Byte>, head: nat) returns (v: World)
    requires InStream(c, s, w) && s.stage == Processing && body <= Ahead(s, w)
    ensures var (t, r) := Offer(c, s, body, head);
      r.used == head + |r.data| && r.data <= body && Sliced(c, s, w, t, v, r)
  {
    hide Loose, InPage, Scan, Slice, Settle, Sliced, Ahead;
    Standing(c, s, w);
    if s.cur.spanActive {
      ActiveSpan(c, s.cur);
      v := SliceTracks(c, s, w, s.cur.span, s.cur.spanLeft, body, head);
    } else {
      v := SettleTracks(c, s, w, body, head);
    }
  }

  lemma ActiveSpan(c: Config, cur: Cursor)
    requires InPage(c, cur) && cur.spanActive
    ensures HasSpan(cur, cur.span, cur.spanLeft)
  {
    hide Scan, Sum, Crc32.ByTable;
  }

  /** A call of the streaming interface: no error, bytes of the stream and where they belong, nothing else taken. */
  predicate DataDelivered(c: Config, s: State, w: World, input: seq<Byte>, t: State, v: World, r: Reply) {
    && (r.code == OggSteps.Ok || (r.code == NeedMoreData && r.data == [] && !r.isEnd))
    && |r.data| <= r.used <= |input| && r.data == input[r.used - |r.data|..r.used]
    && InStream(c, t, v) && r.used <= |Ahead(s, w)| && Ahead(t, v) == Ahead(s, w)[r.used..] && r.data + BodyAhead(t, v) == BodyAhead(s, w)
    && Gives(Part(s, w), Owed(s, w), r, Part(t, v), Owed(t, v))
    && t.mode == DataMode && SameWork(s.job, t.job) && Moves(s, w, t, v, r)
  }

  /** What an answer says of the page of the stream from which its bytes come: it has the page's granule position, the end
      of the stream just if the page is marked as the last one, and the end of the page just with the last bytes of
      its body, and the demuxer is then at the end of the page. */
  predicate DataTold(s: State, w: World, t: State, r: Reply) {
    r.code == OggSteps.Ok ==>
      && (s.stage == Processing || w.later != [])
      && var p, from := if s.stage == Processing then w.page else w.later[0], if s.stage == Processing then s.cur.consumed else 0;
      && r.granule == Signed64(Little(p.granule)) && (r.isEos <==> p.flags & 4 != 0) && (r.isLast <==> t.stage != Processing)
      && from + |r.data| <= |p.body| && (r.data != [] ==> (r.isLast <==> from + |r.data| == |p.body|))
      && (t.stage == Processing ==> t.cur.consumed == from + |r.data|)
  }

  lemma PageHere(c: Config, s: State, w: World)
    requires InStream(c, s, w) && s.stage == Processing
    ensures s.cur.page == HeaderOf(w.page) && |w.page.body| == Sum(s.cur.page.table) && InPage(c, s.cur) && Inv(c, s)
  {
    hide Stream, InPage, Page.HeaderWith, Page.Sealed, Start, Sum;
  }

  lemma CountedOn(c: Config, cur: Cursor, d: seq<Byte>, t: State)
    requires InPage(c, cur) && Accounted(c, cur, d, t)
    ensures if t.stage == Processing then t.cur.consumed == cur.consumed + |d| <= Sum(cur.page.table) else cur.consumed + |d| == Sum(cur.page.table)
  {
    hide Scan, Sum, Crc32.ByTable;
    if t.stage == Processing {
      SpanEnd(t.cur.page.table, t.cur.index);
      SumSplit(t.cur.page.table, t.cur.index);
    }
  }

  /** From inside a page */
  lemma OfferTells(c: Config, s: State, w: World, body: seq<Byte>, head: nat)
    requires InStream(c, s, w) && s.stage == Processing && body <= Ahead(s, w)
    ensures var (t, r) := Offer(c, s, body, head); DataTold(s, w, t, r)
  {
    hide InStream, Offer, Accounted, Ahead, Little, Signed64, Sum, InPage;
    PageHere(c, s, w);
    OfferMarks(c, s, body, head);
    OfferAccounts(c, s, body, head);
    var v := OfferTracks(c, s, w, body, head);
    var (t, r) := Offer(c, s, body, head);
    SlicedSound(c, s, w, t, v, r);
    CountedOn(c, s.cur, body[..r.used - head], t);
  }

  lemma SlicedSound(c: Config, s: State, w: World, t: State, v: World, r: Reply)
    requires Sliced(c, s, w, t, v, r)
    ensures !r.code.IsError()
  {
    hide InStream, Ahead, BodyAhead, Part, Owed;
  }

  lemma DataTells(c: Config, s: State, w: World, input: seq<Byte>)
    requires InStream(c, s, w) && input <= Ahead(s, w) && !Conflicts(s, DataMode)
    ensures var (t, r) := NextData(c, s, input); DataTold(s, w, t, r)
  {
    hide InStream, Ahead, Offer, HeaderStage, Conflicts, Carried, DataTold;
    var s1 := s.(mode := DataMode);
    SamePlace(c, s, s1, w);
    if s.stage == Processing {
      OfferTells(c, s1, w, input, 0);
      ToldFrom(s, s1, w, w, Offer(c, s1, input, 0).0, Offer(c, s1, input, 0).1);
    } else {
      HeaderAnswers(c, s1, input);
      var u := HeaderTracks(c, s1, w, input);
      var h := HeaderStage(c, s1, input);
      if h.Entered? && h.used < |input| {
        Remaining(c, s1, w, h.state, u, input, h.used);
        OfferTells(c, h.state, u, input[h.used..], h.used);
        EnteredFresh(c, s1, w, h.state, u, h.used);
        ToldFrom(s, h.state, w, u, Offer(c, h.state, input[h.used..], h.used).0, Offer(c, h.state, input[h.used..], h.used).1);
      } else {
        ToldNothing(s, w, NextData(c, s, input).0, NextData(c, s, input).1);
      }
    }
  }

  lemma ToldNothing(s: State, w: World, t: State, r: Reply)
    requires r.code != OggSteps.Ok
    ensures DataTold(s, w, t, r)
  {
  }

  lemma EnteredFresh(c: Config, s: State, w: World, t: State, u: World, used: nat)
    requires Carried(c, s, w, t, u, used) && t.stage == Processing && t.cur.index == 0 && !t.cur.spanActive
    ensures w.later != [] && u == Enter(w) && t.cur.consumed == 0
  {
    hide Ahead, Part, Owed, BodyAhead, Stream, Page.HeaderWith, Page.Sealed, Start;
    assert t.cur.page.table[..0] == [];
    assert Sum([]) == 0;
  }

  lemma ToldFrom(s: State, u: State, w: World, x: World, t: State, r: Reply)
    requires DataTold(u, x, t, r) && u.stage == Processing
    requires if s.stage == Processing then x == w && u.cur == s.cur else w.later != [] && x == Enter(w) && u.cur.consumed == 0
    ensures DataTold(s, w, t, r)
  {
  }

  /** On a well-formed stream every call of the streaming interface, with any part of what comes next, delivers. */
  lemma DataTracks(c: Config, s: State, w: World, input: seq<Byte>) returns (v: World)
    requires InStream(c, s, w) && input <= Ahead(s, w) && !Conflicts(s, DataMode)
    ensures var (t, r) := NextData(c, s, input); DataDelivered(c, s, w, input, t, v, r) && DataTold(s, w, t, r)
  {
    hide InStream, Conflicts, Ahead, BodyAhead, Part, Owed, HeaderStage, Offer, Sliced, Carried, DataTold;
    DataTells(c, s, w, input);
    var s1 := s.(mode := DataMode);
    SamePlace(c, s, s1, w);
    if s.stage == Processing {
      v := OfferTracks(c, s1, w, input, 0);
      var (t, r) := Offer(c, s1, input, 0);
      FromSlice(c, s1, w, s1, w, input, 0, t, v, r);
    } else {
      v := HeaderTracks(c, s1, w, input);
      var h := HeaderStage(c, s1, input);
      if h.Stop? || h.used >= |input| {
        FromHeader(c, s1, w, input, h.state, v, if h.Stop? then h.reply.used else h.used);
      } else {
        var u := v;
        Remaining(c, s1, w, h.state, u, input, h.used);
        v := OfferTracks(c, h.state, u, input[h.used..], h.used);
        var (t, r) := Offer(c, h.state, input[h.used..], h.used);
        FromSlice(c, s1, w, h.state, u, input, h.used, t, v, r);
      }
    }
  }

  lemma Remaining(c: Config, s: State, w: World, t: State, v: World, input: seq<Byte>, used: nat)
    requires Carried(c, s, w, t, v, used) && used <= |input| && input <= Ahead(s, w)
    ensures InStream(c, t, v) && input[used..] <= Ahead(t, v)
  {
    hide InStream, Ahead, Part, Owed;
    assert input == Ahead(s, w)[..|input|];
    assert input[used..] == Ahead(s, w)[used..][..|input| - used];
  }

  /** A call that reads at most a header. */
  lemma FromHeader(c: Config, s: State, w: World, input: seq<Byte>, t: State, v: World, used: nat)
    requires Carried(c, s, w, t, v, used) && used <= |input| && s.mode == DataMode && s.stage != Processing
    ensures DataDelivered(c, s, w, input, t, v, Nothing(NeedMoreData, used))
  {
    hide InStream, Ahead, BodyAhead, Part, Owed;
    assert [] + BodyAhead(t, v) == BodyAhead(t, v);
    assert input[used..used] == [] && Part(s, w) + [] == Part(s, w);
  }

  /** A call that comes to the body, at once or after a header. */
  lemma FromSlice(c: Config, s: State, w: World, s2: State, w2: World, input: seq<Byte>, head: nat, t: State, v: World, r: Reply)
    requires (s == s2 && w == w2 && head == 0 && s.stage == Processing) || (Carried(c, s, w, s2, w2, head) && s.stage != Processing && s2.stage == Processing)
    requires head <= |input| && input <= Ahead(s, w) && s.mode == DataMode
    requires r.used == head + |r.data| && r.data <= input[head..] && Sliced(c, s2, w2, t, v, r)
    ensures DataDelivered(c, s, w, input, t, v, r)
  {
    hide InStream, Ahead, BodyAhead, Part, Owed, NonEmpty;
    assert input[head..][..|r.data|] == input[head..r.used];
    assert Ahead(s, w)[head..][|r.data|..] == Ahead(s, w)[r.used..];
    assert Ahead(s, w)[0..] == Ahead(s, w);
  }
}
