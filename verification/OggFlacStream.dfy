/** A whole Ogg FLAC stream: what the native decoder has got of it, however it is cut. */
module OggFlacStream {
  import opened Bits
  import opened OggFormat
  import opened OggSteps
  import opened OggAccounts
  import opened OggStreams
  import opened OggRuns
  import opened OggDemuxing
  import opened OggFlac
  import opened OggEnds

  lemma ReadingSound(c: Config, run: Run, w: World, all: seq<seq<Byte>>, bodies: seq<Byte>)
    requires Reading(c, run, w, all, bodies)
    ensures !Refuses(run.codes) && Taken(run.got) <= bodies
    ensures run.rest == [] ==> Taken(run.got) == bodies
  {
    hide InStream, Ahead, BodyAhead, Part, Owed, NonEmpty, Flat;
    if run.codes != [] {
      assert run.codes[|run.codes| - 1] in run.codes;
    }
    if run.rest == [] {
      NoBodyLeft(c, run.state, w);
    }
  }

  lemma StillMarked(part: seq<Byte>, all: seq<Byte>)
    requires part <= all && Marked(all)
    ensures Marked(part)
  {
    forall i | 0 <= i < |part| && i < 6
      ensures part[i] == MARK[i]
    {
      assert part[i] == all[i];
    }
  }

  predicate Stops(result: Result) {
    result.Failed() || result.EndOfStream?
  }

  predicate Positive(sizes: seq<nat>) {
    forall i | 0 <= i < |sizes| :: sizes[i] > 0
  }

  /** A decoder that has not failed, at this place of a run, with this left of the stream */
  ghost predicate Keeps(f: OggFlacDecoder, run: Run, rest: seq<Byte>)
    reads f, f.demuxer, f.demuxer.staging, f.demuxer.Buffers()
  {
    f.Valid() && f.demuxer.Shape() && f.Stands(run, rest) && run.rest == f.detect + rest && f.slices == f.prefix + Flat(f.given)
  }

  /** The decoder has noted the end exactly if a page that is marked as the last one is over, as far as it has a body. */
  predicate EndNoted(seen: bool, pages: seq<Page>, over: nat) {
    && over <= |pages| && (seen ==> exists j :: 0 <= j < over && Ending(pages[j]))
    && forall j | 0 <= j < over && Ending(pages[j]) && pages[j].body != [] :: seen
  }

  lemma NotedOn(seen: bool, now: bool, c: Config, run: Run, calls: seq<Call>, pages: seq<Page>, a: nat, b: nat)
    requires EndNoted(seen, pages, a) && a <= b <= |pages|
    requires now ==> seen || SawEnd(c, run, calls)
    requires seen || SawEndSlice(c, run, calls) ==> now
    requires forall j | a <= j < b && Ending(pages[j]) && pages[j].body != [] :: SawEndSlice(c, run, calls)
    requires SawEnd(c, run, calls) ==> exists j :: a <= j < b && Ending(pages[j])
    ensures EndNoted(now, pages, b)
  {
    hide SawEnd, SawEndSlice, Ending;
  }

  /** One call of the caller below */
  method HandOn(f: OggFlacDecoder, rest: seq<Byte>, size: nat, native: seq<seq<Byte>> -> Native,
                ghost run: Run, ghost w: World, ghost all: seq<seq<Byte>>, ghost pages: seq<Page>, ghost n: nat)
      returns (result: Result, now: seq<Byte>, ghost next: Run, ghost v: World, ghost m: nat)
    requires Keeps(f, run, rest) && Along(f.demuxer.Settings(), run, w, all, pages, n) && EndNoted(f.eosSeen, pages, Over(run.state, n))
    modifies f, f.demuxer, f.demuxer.staging
    ensures Along(f.demuxer.Settings(), next, v, all, pages, m) && f.slices == Taken(next.got) && f.Split()
    ensures !result.Failed() ==> Keeps(f, next, now) && f.detect == []
    ensures !result.Failed() && size > 0 ==> if rest == [] then now == [] else Left(next) < Left(run)
    ensures result.BadHeader? ==> !Marked(f.slices)
    ensures TakesAll(native) ==> !result.DemuxError?
    ensures !result.Failed() ==> EndNoted(f.eosSeen, pages, Over(next.state, m))
    ensures result.EndOfStream? ==> f.eosSeen || Says(native, f.given, EndOfStream)
    ensures result.NeedMore? && f.eosSeen ==> Last(next.codes) != NeedMoreData
  {
    hide Along, OggDemuxer.Valid, OggDemuxer.Model, OggDemuxer.Shape, OggFlacDecoder.Valid, OggFlacDecoder.Split, EndNoted,
         Taken, Play, Left, TakesAll, Marked, OnlyData, Refuses, Conflicts, Flat, SawEnd, SawEndSlice, Ending, Over, Says, OggFlac.Ends, Last,
         Keeps, OggFlacDecoder.Stands;
    var used;
    ghost var calls;
    var size1 := Min(size, |rest|);
    ghost var detect := f.detect;
    MayGoOn(f, run, rest, size1);
    result, used, calls := f.DecodeOgg(rest[..size1], native, run);
    v, m := PlayAlong(f.demuxer.Settings(), run, w, all, pages, n, calls);
    next := Play(f.demuxer.Settings(), run, calls);
    AlongSound(f.demuxer.Settings(), next, v, all, pages, m);
    if !result.Failed() {
      NotedOn(old(f.eosSeen), f.eosSeen, f.demuxer.Settings(), run, calls, pages, Over(run.state, n), Over(next.state, m));
    }
    now := rest[used..];
    PartAhead(detect, rest, used, run.rest);
    assert size > 0 && rest != [] ==> detect + rest[..size1] != [];
    if !result.Failed() {
      KeptUp(f, next, now);
    }
  }

  lemma MayGoOn(f: OggFlacDecoder, run: Run, rest: seq<Byte>, n: nat)
    requires Keeps(f, run, rest) && n <= |rest|
    ensures f.Valid() && f.demuxer.Shape() && f.Stands(run, rest[..n]) && run.rest == f.detect + rest
  {
    hide OggFlacDecoder.Valid, OggDemuxer.Model, OggDemuxer.Shape, Taken, Flat;
    PartAhead(f.detect, rest, n, run.rest);
  }

  lemma KeptUp(f: OggFlacDecoder, run: Run, rest: seq<Byte>)
    requires f.Valid() && f.demuxer.Shape() && f.detect == [] && f.demuxer.Model() == run.state && run.rest == rest
    requires f.slices == Taken(run.got) == f.prefix + Flat(f.given)
    ensures Keeps(f, run, rest)
  {
    hide OggFlacDecoder.Valid, OggDemuxer.Model, OggDemuxer.Shape, Taken, Flat;
    assert [] + rest == rest;
  }

  lemma PartAhead(detect: seq<Byte>, rest: seq<Byte>, n: nat, all: seq<Byte>)
    requires all == detect + rest && n <= |rest|
    ensures detect + rest[..n] <= all && all[|detect| + n..] == rest[n..] && [] + rest[n..] == rest[n..]
  {
    assert rest == rest[..n] + rest[n..];
    assert all == (detect + rest[..n]) + rest[n..];
  }

  lemma AlongSound(c: Config, run: Run, w: World, all: seq<seq<Byte>>, pages: seq<Page>, n: nat)
    requires Along(c, run, w, all, pages, n)
    ensures !Refuses(run.codes) && Taken(run.got) <= Bodies(pages)
    ensures run.rest == [] ==> Taken(run.got) == Bodies(pages)
  {
    hide Reading, Taken, Bodies, OggEnds.Begun;
    ReadingSound(c, run, w, all, Bodies(pages));
  }

  lemma FewerBodies(pages: seq<Page>, j: nat, k: nat)
    requires j <= k <= |pages|
    ensures Bodies(pages[..j]) <= Bodies(pages[..k])
  {
    assert pages[..k] == pages[..j] + pages[j..k];
    BodiesJoin(pages[..j], pages[j..k]);
  }

  /** What the decoder has noted, in terms of what has been delivered */
  lemma NotedMeans(c: Config, run: Run, w: World, all: seq<seq<Byte>>, pages: seq<Page>, n: nat, seen: bool)
    requires Along(c, run, w, all, pages, n) && EndNoted(seen, pages, Over(run.state, n))
    ensures seen ==> exists j :: 0 <= j < |pages| && Ending(pages[j]) && Bodies(pages[..j + 1]) <= Taken(run.got)
    ensures !seen ==> forall j | 0 <= j < |pages| && Ending(pages[j]) && pages[j].body != [] :: |Taken(run.got)| < |Bodies(pages[..j + 1])|
  {
    hide Along, Ending, Taken, Bodies;
    GotBodies(c, run, w, all, pages, n);
    if seen {
      var j :| 0 <= j < Over(run.state, n) && Ending(pages[j]);
      FewerBodies(pages, j + 1, Over(run.state, n));
    }
  }

  /** A caller that hands on a stream in pieces of these sizes, offering again what was not taken, until the decoder
      fails or ends; the detection has had the first four bytes. On every well-formed stream, however it is cut, the
      prefix and the pieces given to the native decoder are the first bytes of the page bodies, in order, and all of them
      once all of the stream is taken, to which enough calls come. The container is refused only for a first packet
      without the mark, as long as the native decoder takes all that it is given. The stream is at its end only if the
      native decoder says so or a page that is marked as the last one has been delivered; and after the body of such a
      page no news that there is nothing yet is answered with a wish for more. */
  method DecodeStream(d: OggDemuxer, stream: seq<Byte>, sizes: seq<nat>, native: seq<seq<Byte>> -> Native, ghost pages: seq<Page>)
      returns (f: OggFlacDecoder, result: Result, rest: seq<Byte>, ghost last: Code)
    requires d.Valid() && d.Model() == RESET && |stream| >= 4
    requires AllOk(pages) && Stream(NEW_STREAM, pages, d.crcOn) && stream == StreamBytes(pages)
    modifies d, d.staging
    ensures fresh(f) && f.prefix + Flat(f.given) <= Bodies(pages)
    ensures |f.prefix| <= 9 && (f.given != [] ==> |f.prefix| == 9)
    ensures !result.Failed() && rest == [] && sizes != [] ==> f.prefix + Flat(f.given) == Bodies(pages)
    ensures Positive(sizes) && |sizes| >= 257 * |stream| && !Stops(result) ==> rest == []
    ensures result.BadHeader? ==> !Marked(Bodies(pages))
    ensures TakesAll(native) ==> !result.DemuxError?
    ensures result.EndOfStream? ==>
      || Says(native, f.given, EndOfStream)
      || exists j :: 0 <= j < |pages| && Ending(pages[j]) && Bodies(pages[..j + 1]) <= f.prefix + Flat(f.given)
    ensures result.NeedMore? && last == NeedMoreData ==>
      forall j | 0 <= j < |pages| && Ending(pages[j]) && pages[j].body != [] :: |f.prefix + Flat(f.given)| < |Bodies(pages[..j + 1])|
  {
    hide Along, Stream, StreamBytes, PacketsOf, Bodies, OggDemuxer.Valid, OggDemuxer.Model, OggDemuxer.Shape, OggFlacDecoder.Valid, OggFlacDecoder.Split,
         Taken, Play, Left, TakesAll, Marked, Flat, Ending, Over, EndNoted, Says;
    ghost var c, all, run, w, n := d.Settings(), PacketsOf([], pages), Opening(pages), Before(pages), 0;
    last := NeedMoreData;
    StartsAlong(c, pages);
    NothingNoted(pages);
    AllLeftToDo(pages);
    f := new OggFlacDecoder(d, stream[..4]);
    result, rest := NeedMore, stream[4..];
    Starts(f, stream, run);
    var i := 0;
    while i < |sizes| && !Stops(result)
      invariant 0 <= i <= |sizes| && (i == 0 ==> result == NeedMore) && fresh(f) && f.demuxer == d
      invariant Along(c, run, w, all, pages, n) && f.slices == Taken(run.got) && f.Split()
      invariant !result.Failed() ==> Keeps(f, run, rest) && (i > 0 ==> f.detect == []) && EndNoted(f.eosSeen, pages, Over(run.state, n))
      invariant result.BadHeader? ==> !Marked(f.slices)
      invariant TakesAll(native) ==> !result.DemuxError?
      invariant result.EndOfStream? ==> f.eosSeen || Says(native, f.given, EndOfStream)
      invariant result.NeedMore? && f.eosSeen ==> last != NeedMoreData
      invariant Positive(sizes) && !Stops(result) ==> rest == [] || Left(run) + i <= 257 * |stream|
    {
      result, rest, run, w, n := HandOn(f, rest, sizes[i], native, run, w, all, pages, n);
      last := Last(run.codes);
      i := i + 1;
    }
    AlongSound(c, run, w, all, pages, n);
    AllLeft(run);
    f.Divided();
    if !result.Failed() {
      NotedMeans(c, run, w, all, pages, n, f.eosSeen);
      HasAll(f, run, rest);
      if sizes != [] {
        NoneLeft(f, run, rest);
      }
    }
    if Marked(Bodies(pages)) {
      StillMarked(f.slices, Bodies(pages));
    }
  }

  lemma NothingNoted(pages: seq<Page>)
    ensures EndNoted(false, pages, 0)
  {
  }

  lemma HasAll(f: OggFlacDecoder, run: Run, rest: seq<Byte>)
    requires Keeps(f, run, rest)
    ensures f.slices == f.prefix + Flat(f.given)
  {
  }

  lemma Starts(f: OggFlacDecoder, stream: seq<Byte>, run: Run)
    requires f.Valid() && |stream| >= 4 && f.detect == stream[..4] && f.slices == [] && f.demuxer.Model() == run.state == RESET
    requires run.rest == stream && run.got == BEGIN
    ensures Keeps(f, run, stream[4..]) && f.Split() && f.slices == Taken(run.got)
  {
    hide OggDemuxer.Valid, OggDemuxer.Model, OggDemuxer.Shape, OggFlacDecoder.Valid, OggFlacDecoder.Split, Taken, Flat;
    f.Accounted();
    f.Shaped();
    TakenNone();
    assert stream == stream[..4] + stream[4..];
  }

  lemma NoneLeft(f: OggFlacDecoder, run: Run, rest: seq<Byte>)
    requires Keeps(f, run, rest) && f.detect == []
    ensures run.rest == rest && f.slices == f.prefix + Flat(f.given)
  {
    hide OggDemuxer.Model, OggFlacDecoder.Valid, Flat, Taken;
    assert [] + rest == rest;
  }

  lemma AllLeftToDo(pages: seq<Page>)
    requires AllOk(pages)
    ensures Left(Opening(pages)) == 257 * |StreamBytes(pages)|
  {
  }
}
