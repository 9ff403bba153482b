/** The end of a stream: an answer says so exactly behind a page that is marked as the last one. */
module OggEnds {
  import opened Bits
  import opened OggFormat
  import opened OggSteps
  import opened OggAccounts
  import opened OggStreams
  import opened OggHeaders
  import opened OggDelivery
  import opened OggRuns
  import opened OggFlac

  /** A page that is marked as the last one of its stream */
  predicate Ending(p: Page) {
    p.flags & 4 != 0
  }

  /** n of the pages have been begun. */
  predicate Begun(s: State, w: World, pages: seq<Page>, n: nat) {
    && n <= |pages| && w.later == pages[n..] && (s.stage == Processing ==> 0 < n && w.page == pages[n - 1])
  }

  /** How many of them are over */
  function Over(s: State, n: nat): nat {
    if s.stage == Processing && 0 < n then n - 1 else n
  }

  /** A page that has a body is left with the last bytes of it. */
  predicate Unspent(s: State, w: World) {
    s.stage == Processing ==> s.cur.consumed < |w.page.body| || w.page.body == []
  }

  lemma BodyLengths(c: Config, s: State, w: World)
    requires InStream(c, s, w)
    ensures |BodyAhead(s, w)| == (if s.stage == Processing then |w.page.body| - s.cur.consumed else 0) + |Bodies(w.later)|
    ensures s.stage == Processing ==> s.cur.consumed <= |w.page.body|
  {
    hide Stream, InPage, Page.HeaderWith, Page.Sealed, Start, Bodies;
  }

  lemma FirstBody(pages: seq<Page>)
    requires pages != []
    ensures Bodies(pages) == pages[0].body + Bodies(pages[1..])
  {
  }

  /** The call comes from a place among the pages to the same place or the next, and says the end of the stream where it
      leaves a page that is marked, and only there. */
  lemma EndStep(c: Config, s: State, w: World, pages: seq<Page>, n: nat, t: State, v: World, r: Reply) returns (m: nat)
    requires InStream(c, s, w) && InStream(c, t, v) && Begun(s, w, pages, n) && Unspent(s, w)
    requires Moves(s, w, t, v, r) && DataTold(s, w, t, r) && r.data + BodyAhead(t, v) == BodyAhead(s, w) && (r.code != OggSteps.Ok ==> r.data == [])
    ensures Begun(t, v, pages, m) && Unspent(t, v) && Over(s, n) <= Over(t, m) <= Over(s, n) + 1
    ensures Over(s, n) < Over(t, m) && Ending(pages[Over(s, n)]) && pages[Over(s, n)].body != [] ==> EndSlice(r)
    ensures EndsStream(r) ==> Over(s, n) < Over(t, m) && Ending(pages[Over(s, n)])
  {
    hide InStream, BodyAhead, Little, Signed64;
    BodyLengths(c, s, w);
    BodyLengths(c, t, v);
    assert |r.data| + |BodyAhead(t, v)| == |BodyAhead(s, w)|;
    if s.stage == Processing {
      m := n;
    } else if v == w && t.stage != Processing {
      m := n;
    } else {
      m := n + 1;
      FirstBody(w.later);
      assert w.later[0] == pages[n] && w.later[1..] == pages[n + 1..];
    }
  }

  /** A run of the streaming interface among the pages of its stream */
  predicate Along(c: Config, run: Run, w: World, all: seq<seq<Byte>>, pages: seq<Page>, n: nat) {
    Reading(c, run, w, all, Bodies(pages)) && Begun(run.state, w, pages, n) && Unspent(run.state, w)
  }

  lemma OneAlong(c: Config, run: Run, w: World, all: seq<seq<Byte>>, pages: seq<Page>, n: nat, call: Call) returns (v: World, m: nat)
    requires Along(c, run, w, all, pages, n) && call.AskData?
    ensures Along(c, One(c, run, call), v, all, pages, m)
    ensures var a, b := Over(run.state, n), Over(One(c, run, call).state, m);
      && a <= b <= a + 1
      && (a < b <= |pages| && Ending(pages[a]) && pages[a].body != [] ==> EndSlice(ReplyTo(c, run, call)))
      && (EndsStream(ReplyTo(c, run, call)) ==> a < b <= |pages| && Ending(pages[a]))
  {
    hide Reading, NextData, BodyAhead, InStream, DataTold, Moves, Unspent, Begun, EndsStream, Ending, Bodies;
    v := ReadingStep(c, run, w, all, Bodies(pages), call);
    var (t, r) := NextData(c, run.state, run.rest[..Min(call.size, |run.rest|)]);
    ReadingPlace(c, run, w, all, Bodies(pages));
    ReadingPlace(c, One(c, run, call), v, all, Bodies(pages));
    OverIn(run.state, w, pages, n);
    m := EndStep(c, run.state, w, pages, n, t, v, r);
    OverIn(t, v, pages, m);
  }

  lemma OverIn(s: State, w: World, pages: seq<Page>, n: nat)
    requires Begun(s, w, pages, n)
    ensures Over(s, n) <= |pages| && n <= |pages|
  {
  }

  lemma ReadingPlace(c: Config, run: Run, w: World, all: seq<seq<Byte>>, bodies: seq<Byte>)
    requires Reading(c, run, w, all, bodies)
    ensures InStream(c, run.state, w)
  {
    hide InStream, Ahead, BodyAhead, Part, Owed, Flat, NonEmpty;
  }

  /** Calls that leave a marked page with a body have seen the end, and calls that have seen it have left a marked page. */
  lemma {:induction false} PlayAlong(c: Config, run: Run, w: World, all: seq<seq<Byte>>, pages: seq<Page>, n: nat, calls: seq<Call>)
      returns (v: World, m: nat)
    requires Along(c, run, w, all, pages, n) && OnlyData(calls)
    ensures Along(c, Play(c, run, calls), v, all, pages, m) && Over(run.state, n) <= Over(Play(c, run, calls).state, m) <= |pages|
    ensures forall j | Over(run.state, n) <= j < Over(Play(c, run, calls).state, m) && Ending(pages[j]) && pages[j].body != [] ::
      SawEndSlice(c, run, calls)
    ensures SawEnd(c, run, calls) ==> exists j :: Over(run.state, n) <= j < Over(Play(c, run, calls).state, m) && Ending(pages[j])
    decreases |calls|
  {
    hide Along, One, Play, OnlyData, SawEnd, SawEndSlice, EndsStream, EndSlice, ReplyTo, Ending;
    v, m := w, n;
    OneKind(calls);
    PlayFirst(c, run, calls);
    AlongIn(c, run, w, all, pages, n);
    if calls == [] {
      NothingSeen(c, run);
    } else {
      var next := One(c, run, calls[0]);
      v, m := OneAlong(c, run, w, all, pages, n, calls[0]);
      AlongIn(c, next, v, all, pages, m);
      v, m := PlayAlong(c, next, v, all, pages, m, calls[1..]);
      assert calls == [calls[0]] + calls[1..];
      SawJoins(c, run, [calls[0]], calls[1..]);
      SawOne(c, run, calls[0]);
      PlayFirst(c, run, [calls[0]]);
      assert [calls[0]][1..] == [];
      PlayFirst(c, next, []);
    }
  }

  lemma AlongIn(c: Config, run: Run, w: World, all: seq<seq<Byte>>, pages: seq<Page>, n: nat)
    requires Along(c, run, w, all, pages, n)
    ensures Over(run.state, n) <= |pages|
  {
    hide Reading, Unspent;
  }

  lemma StartsAlong(c: Config, pages: seq<Page>)
    requires AllOk(pages) && Stream(NEW_STREAM, pages, c.crcOn)
    ensures Along(c, Opening(pages), Before(pages), PacketsOf([], pages), pages, 0) && Over(RESET, 0) == 0
  {
    hide Reading, Stream, StreamBytes, PacketsOf, Bodies;
    StartReads(c, pages);
    assert pages[0..] == pages;
  }

  lemma {:induction false} BodiesJoin(a: seq<Page>, b: seq<Page>)
    ensures Bodies(a + b) == Bodies(a) + Bodies(b)
    decreases |a|
  {
    if a == [] {
      assert a + b == b;
    } else {
      assert (a + b)[1..] == a[1..] + b;
      BodiesJoin(a[1..], b);
    }
  }

  /** The bytes of the bodies that a caller has got are those of the pages that are over, and less than the next body
      where it has one. */
  lemma GotBodies(c: Config, run: Run, w: World, all: seq<seq<Byte>>, pages: seq<Page>, n: nat)
    requires Along(c, run, w, all, pages, n)
    ensures var k := Over(run.state, n);
      && k <= |pages| && Bodies(pages[..k]) <= Taken(run.got) <= Bodies(pages)
      && forall j | k <= j < |pages| && pages[j].body != [] :: |Taken(run.got)| < |Bodies(pages[..j + 1])|
  {
    hide Reading, Stream, Bodies, BodyAhead, InStream, Taken;
    AlongIn(c, run, w, all, pages, n);
    ReadingPlace(c, run, w, all, Bodies(pages));
    BodyLengths(c, run.state, w);
    TakenAhead(c, run, w, all, Bodies(pages));
    var k := Over(run.state, n);
    assert pages == pages[..k] + pages[k..];
    BodiesJoin(pages[..k], pages[k..]);
    if run.state.stage == Processing {
      assert pages[k] == w.page && pages[k..][1..] == pages[n..];
      FirstBody(pages[k..]);
    }
    var taken := Taken(run.got);
    assert |taken| + |BodyAhead(run.state, w)| == |Bodies(pages)|;
    BothFirst(Bodies(pages[..k]), taken, Bodies(pages));
    forall j | k <= j < |pages| && pages[j].body != []
      ensures |taken| < |Bodies(pages[..j + 1])|
    {
      assert pages == pages[..j + 1] + pages[j + 1..];
      BodiesJoin(pages[..j + 1], pages[j + 1..]);
      assert pages[k..] == pages[k..j + 1] + pages[j + 1..];
      BodiesJoin(pages[k..j + 1], pages[j + 1..]);
      LastBody(pages[k..j + 1]);
      if run.state.stage == Processing {
        FirstBody(pages[k..j + 1]);
        if j > k {
          assert pages[k..j + 1][1..] == pages[k + 1..j + 1];
          LastBody(pages[k + 1..j + 1]);
        }
      }
    }
  }

  lemma {:induction false} LastBody(pages: seq<Page>)
    requires pages != []
    ensures |Bodies(pages)| >= |pages[|pages| - 1].body|
  {
    assert pages == pages[..|pages| - 1] + [pages[|pages| - 1]];
    BodiesJoin(pages[..|pages| - 1], [pages[|pages| - 1]]);
    FirstBody([pages[|pages| - 1]]);
    assert [pages[|pages| - 1]][1..] == [];
  }

  lemma BothFirst(a: seq<Byte>, b: seq<Byte>, all: seq<Byte>)
    requires a <= all && b <= all && |a| <= |b|
    ensures a <= b
  {
    assert a == all[..|a|] && b == all[..|b|];
  }

  lemma TakenAhead(c: Config, run: Run, w: World, all: seq<seq<Byte>>, bodies: seq<Byte>)
    requires Reading(c, run, w, all, bodies)
    ensures Taken(run.got) + BodyAhead(run.state, w) == bodies
  {
    hide InStream, Ahead, BodyAhead, Part, Owed, Flat, NonEmpty;
  }
}
