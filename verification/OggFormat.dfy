/** Ogg pages and the packets that their lacing makes of their bodies (RFC 3533, sections 5 and 6). */
module OggFormat {
  import opened Bits
  import Crc32

  const HEADER_SIZE := 27
  const MAX_HEADER := 282
  const COUNT_AT := 26
  const CHECKSUM_AT := 22

  /** A little-endian number. */
  function Little(bs: seq<Byte>): nat {
    if bs == [] then 0 else bs[0] as nat + 256 * Little(bs[1..])
  }

  /** Sixty-four bits read as a signed number. */
  function Signed64(v: nat): int {
    if v >= 0x8000_0000_0000_0000 then v - 0x1_0000_0000_0000_0000 else v
  }

  const CONTINUED: Byte := 1
  const FIRST: Byte := 2
  const LAST: Byte := 4

  function Sum(lacing: seq<Byte>): nat {
    if lacing == [] then 0 else lacing[0] as nat + Sum(lacing[1..])
  }

  lemma {:induction false} SumConcat(a: seq<Byte>, b: seq<Byte>)
    ensures Sum(a + b) == Sum(a) + Sum(b)
  {
    if a == [] {
      assert a + b == b;
    } else {
      assert (a + b)[1..] == a[1..] + b;
      SumConcat(a[1..], b);
    }
  }

  lemma SumSplit(a: seq<Byte>, i: nat)
    requires i <= |a|
    ensures Sum(a) == Sum(a[..i]) + Sum(a[i..])
  {
    assert a == a[..i] + a[i..];
    SumConcat(a[..i], a[i..]);
  }

  /** A page, field by field as its bytes. */
  datatype Page = Page(flags: Byte, granule: seq<Byte>, serial: seq<Byte>, sequence: seq<Byte>, checksum: seq<Byte>,
                       lacing: seq<Byte>, body: seq<Byte>)
  {
    predicate Ok() {
      && |granule| == 8 && |serial| == 4 && |sequence| == 4 && |checksum| == 4
      && |lacing| <= 255 && |body| == Sum(lacing)
    }

    function HeaderWith(sum: seq<Byte>): (h: seq<Byte>)
      requires Ok() && |sum| == 4
      ensures |h| == HEADER_SIZE + |lacing|
    {
      [0x4F, 0x67, 0x67, 0x53, 0, flags] + granule + serial + sequence + sum + [ByteOf(|lacing|)] + lacing
    }

    function Header(): (h: seq<Byte>)
      requires Ok()
      ensures |h| == HEADER_SIZE + |lacing|
    {
      HeaderWith(checksum)
    }

    function Bytes(): (bs: seq<Byte>)
      requires Ok()
      ensures |bs| == HEADER_SIZE + |lacing| + |body|
    {
      Header() + body
    }

    /** The CRC over the page with its checksum field zero is what that field holds. */
    predicate Sealed()
      requires Ok()
    {
      Crc32.Crc(0, HeaderWith([0, 0, 0, 0]) + body) as nat == Little(checksum)
    }

    /** The last packet goes on in the next page. */
    predicate EndsOpen() {
      lacing != [] && lacing[|lacing| - 1] == 255
    }
  }

  // Lacing.

  /** The packets that a list of lacing values completes, and the bytes of the one that it leaves open. */
  datatype Laced = Laced(packets: seq<seq<Byte>>, open: seq<Byte>)

  function Lace(open: seq<Byte>, lacing: seq<Byte>, body: seq<Byte>): Laced
    requires |body| == Sum(lacing)
    decreases |lacing|
  {
    if lacing == [] then Laced([], open)
    else
      var n := lacing[0] as nat;
      if n == 255 then Lace(open + body[..n], lacing[1..], body[n..])
      else
        var rest := Lace([], lacing[1..], body[n..]);
        Laced([open + body[..n]] + rest.packets, rest.open)
  }

  predicate AllOk(pages: seq<Page>) {
    forall i | 0 <= i < |pages| :: pages[i].Ok()
  }

  /** The packets that these pages complete. */
  function PacketsOf(open: seq<Byte>, pages: seq<Page>): seq<seq<Byte>>
    requires AllOk(pages)
    decreases |pages|
  {
    if pages == [] then []
    else
      var l := Lace(open, pages[0].lacing, pages[0].body);
      l.packets + PacketsOf(l.open, pages[1..])
  }

  function StreamBytes(pages: seq<Page>): seq<Byte>
    requires AllOk(pages)
  {
    if pages == [] then [] else pages[0].Bytes() + StreamBytes(pages[1..])
  }

  function Bodies(pages: seq<Page>): seq<Byte> {
    if pages == [] then [] else pages[0].body + Bodies(pages[1..])
  }

  function NonEmpty(packets: seq<seq<Byte>>): seq<seq<Byte>> {
    if packets == [] then []
    else (if packets[0] == [] then [] else [packets[0]]) + NonEmpty(packets[1..])
  }

  // One logical stream.

  /** What a page must agree with. */
  datatype Context = Context(started: bool, serial: nat, next: nat, open: bool)

  function After(x: Context, p: Page): Context {
    Context(true, Little(p.serial), (Little(p.sequence) + 1) % 0x1_0000_0000, if p.lacing == [] then x.open else p.EndsOpen())
  }

  /** page_sequence + 1 in 32 bits */
  function Sequel(n: nat): nat {
    (n + 1) % 0x1_0000_0000
  }

  predicate Follows(x: Context, p: Page) {
    && ((p.flags & 2 != 0) <==> !x.started)
    && (x.started ==> Little(p.serial) == x.serial && Little(p.sequence) == x.next)
    && ((p.flags & 1 != 0) <==> x.open)
    && !(p.flags & 4 != 0 && p.EndsOpen())
  }

  /** Pages of one logical stream, in order; sealed where checksums are looked at. */
  predicate Stream(x: Context, pages: seq<Page>, crcOn: bool)
    decreases |pages|
  {
    pages != [] ==>
      && pages[0].Ok() && Follows(x, pages[0]) && (crcOn ==> pages[0].Sealed())
      && Stream(After(x, pages[0]), pages[1..], crcOn)
  }
}
