/** The Ogg page scanner behind the Opus duration: read a 27-byte header, step one
    byte on when it does not start with the sync word, otherwise take the granule
    position and skip the segment table and the page body. */
module OggScanner {
  import opened Bytes
  import opened Files

  const HEADER := 27
  const SYNC: seq<Byte> := [0x4F, 0x67, 0x67, 0x53]  // "OggS"

  // ----- Integers in headers -----

  function Unsigned(bytes: seq<Byte>): (u: nat) {
    if bytes == [] then 0 else bytes[0] + 256 * Unsigned(bytes[1..])
  }

  function LittleEndian(u: nat, width: nat): (bytes: seq<Byte>)
    ensures |bytes| == width
  {
    if width == 0 then [] else [u % 256] + LittleEndian(u / 256, width - 1)
  }

  function Total(sizes: seq<Byte>): (n: nat) {
    if sizes == [] then 0 else sizes[0] + Total(sizes[1..])
  }

  function Max(a: int, b: int): (m: int) {
    if a > b then a else b
  }

  // ----- The scan as a function -----

  predicate SyncAt(data: seq<Byte>, pos: nat) {
    pos + 4 <= |data| && data[pos..pos + 4] == SYNC
  }

  predicate HeaderAt(data: seq<Byte>, pos: nat) {
    pos + HEADER <= |data| && SyncAt(data, pos)
  }

  function GranuleAt(data: seq<Byte>, pos: nat): (g: int)
    requires pos + HEADER <= |data|
  {
    Signed(Unsigned(data[pos + 6..pos + 14]))
  }

  /** Where the scanner goes after accepting the header at `pos`, if the segment
      table is complete. */
  function SkipPage(data: seq<Byte>, pos: nat): (next: int)
    requires pos + HEADER <= |data|
    ensures next == -1 || next >= pos + HEADER
  {
    var n := data[pos + 26];
    if pos + HEADER + n > |data| then -1
    else pos + HEADER + n + Total(data[pos + HEADER..pos + HEADER + n])
  }

  /** The largest granule position the scan meets from `pos` on, starting from `best`. */
  function ScanFrom(data: seq<Byte>, pos: nat, best: int): (g: int)
    ensures g >= best
    decreases |data| - pos
  {
    if pos + HEADER > |data| then best
    else if !HeaderAt(data, pos) then ScanFrom(data, pos + 1, best)
    else
      var next := SkipPage(data, pos);
      var better := Max(best, GranuleAt(data, pos));
      if next == -1 then better else ScanFrom(data, next, better)
  }

  /** The positions whose headers the scan accepts. */
  function Visits(data: seq<Byte>, pos: nat): (v: seq<nat>)
    decreases |data| - pos
  {
    if pos + HEADER > |data| then []
    else if !HeaderAt(data, pos) then Visits(data, pos + 1)
    else
      var next := SkipPage(data, pos);
      [pos] + if next == -1 then [] else Visits(data, next)
  }

  lemma TotalSnoc(sizes: seq<Byte>, x: Byte)
    ensures Total(sizes + [x]) == Total(sizes) + x
  {
    if sizes == [] {
      assert sizes + [x] == [x];
    } else {
      assert (sizes + [x])[1..] == sizes[1..] + [x];
      TotalSnoc(sizes[1..], x);
    }
  }

  lemma Slice<T>(s: seq<T>, from: nat, to: nat, i: nat, j: nat)
    requires from <= to <= |s| && i <= j <= to - from
    ensures s[from..to][i..j] == s[from + i..from + j]
  {
    var inner, outer := s[from..to][i..j], s[from + i..from + j];
    assert |inner| == |outer|;
    assert forall k :: 0 <= k < |inner| ==> inner[k] == outer[k];
  }

  lemma HeaderFields(data: seq<Byte>, pos: nat)
    requires pos + HEADER <= |data|
    ensures var buf := data[pos..pos + HEADER];
            && buf[0..4] == data[pos..pos + 4] && buf[6..14] == data[pos + 6..pos + 14]
            && buf[26] == data[pos + 26]
  {
    Slice(data, pos, pos + HEADER, 0, 4);
    Slice(data, pos, pos + HEADER, 6, 14);
  }

  method PageSize(segmentTable: seq<Byte>) returns (pageSize: nat)
    ensures pageSize == Total(segmentTable)
  {
    pageSize := 0;
    for i := 0 to |segmentTable|
      invariant pageSize == Total(segmentTable[..i])
    {
      assert segmentTable[..i + 1] == segmentTable[..i] + [segmentTable[i]];
      TotalSnoc(segmentTable[..i], segmentTable[i]);
      pageSize := pageSize + segmentTable[i];
    }
    assert segmentTable[..|segmentTable|] == segmentTable;
  }

  /** After a header: read the segment table and seek past the body. */
  method SkipSegments(r: File, ghost start: nat, numSegments: Byte) returns (ok: bool)
    requires r.offset == start + HEADER <= |r.content| && numSegments == r.content[start + 26]
    modifies r
    ensures ok <==> SkipPage(r.content, start) != -1
    ensures ok ==> r.offset == SkipPage(r.content, start)
  {
    var segmentTable := [];
    if numSegments > 0 {
      var eof;
      segmentTable, eof := r.Read(numSegments);
    }
    if |segmentTable| < numSegments {
      return false;
    }
    assert segmentTable == r.content[start + HEADER..start + HEADER + numSegments];
    var pageSize := PageSize(segmentTable);
    ok := r.Seek(pageSize, Current);
  }

  /** The loop of getOpusDuration; it ends on every byte sequence because the bytes
      that remain shrink even when it seeks 26 bytes back. */
  method GetOpusDuration(r: File) returns (seconds: real)
    modifies r
    ensures seconds == ScanFrom(r.content, 0, 0) as real / 48000.0
  {
    var rewound := r.Seek(0, Start);
    var totalGranulePos: int := 0;
    while true
      invariant ScanFrom(r.content, r.offset, totalGranulePos) == ScanFrom(r.content, 0, 0)
      decreases |r.content| - r.offset
    {
      ghost var start := r.offset;
      var buf, eof := r.Read(HEADER);
      if eof {
        break;
      }
      if |buf| < HEADER {
        break;
      }
      HeaderFields(r.content, start);
      if buf[0..4] != SYNC {
        var ok := r.Seek(-26, Current);
        if !ok {
          break;
        }
        continue;
      }
      var granulePos := Signed(Unsigned(buf[6..14]));
      if granulePos > totalGranulePos {
        totalGranulePos := granulePos;
      }
      var ok := SkipSegments(r, start, buf[26]);
      if !ok {
        break;
      }
    }
    seconds := totalGranulePos as real / 48000.0;
  }

  // ----- The result is the maximum over the accepted headers -----

  /** Every accepted header is complete. */
  lemma {:induction false} VisitsAreHeaders(data: seq<Byte>, pos: nat)
    ensures forall i :: 0 <= i < |Visits(data, pos)| ==> Visits(data, pos)[i] + HEADER <= |data|
    decreases |data| - pos
  {
    if pos + HEADER <= |data| {
      if !HeaderAt(data, pos) {
        VisitsAreHeaders(data, pos + 1);
      } else if SkipPage(data, pos) != -1 {
        VisitsAreHeaders(data, SkipPage(data, pos));
      }
    }
  }

  /** `g` is the largest of `best` and the granule positions of the accepted headers. */
  ghost predicate IsMaximum(g: int, best: int, data: seq<Byte>, visits: seq<nat>)
    requires forall i :: 0 <= i < |visits| ==> visits[i] + HEADER <= |data|
  {
    && g >= best
    && (forall i :: 0 <= i < |visits| ==> GranuleAt(data, visits[i]) <= g)
    && (g == best || exists i :: 0 <= i < |visits| && g == GranuleAt(data, visits[i]))
  }

  lemma MaximumCons(g: int, best: int, data: seq<Byte>, pos: nat, rest: seq<nat>)
    requires pos + HEADER <= |data| && forall i :: 0 <= i < |rest| ==> rest[i] + HEADER <= |data|
    requires IsMaximum(g, Max(best, GranuleAt(data, pos)), data, rest)
    ensures forall i :: 0 <= i < |[pos] + rest| ==> ([pos] + rest)[i] + HEADER <= |data|
    ensures IsMaximum(g, best, data, [pos] + rest)
  {
    var v := [pos] + rest;
    assert v[0] == pos && forall i :: 0 <= i < |rest| ==> v[i + 1] == rest[i];
  }

  lemma {:induction false} ScanIsMaximum(data: seq<Byte>, pos: nat, best: int)
    ensures forall i :: 0 <= i < |Visits(data, pos)| ==> Visits(data, pos)[i] + HEADER <= |data|
    ensures IsMaximum(ScanFrom(data, pos, best), best, data, Visits(data, pos))
    decreases |data| - pos
  {
    VisitsAreHeaders(data, pos);
    if pos + HEADER <= |data| {
      if !HeaderAt(data, pos) {
        ScanIsMaximum(data, pos + 1, best);
      } else {
        var next, better := SkipPage(data, pos), Max(best, GranuleAt(data, pos));
        if next == -1 {
          assert Visits(data, pos) == [pos] && Visits(data, pos)[0] == pos;
        } else {
          ScanIsMaximum(data, next, better);
          MaximumCons(ScanFrom(data, next, better), best, data, pos, Visits(data, next));
        }
      }
    }
  }

  // ----- Well-formed streams -----

  /** A page: header fields the scanner does not look at, the granule position, the
      lacing values, and a body as long as they say. */
  datatype Page = Page(flags: seq<Byte>, granule: int, ids: seq<Byte>, segments: seq<Byte>, body: seq<Byte>)

  predicate WellFormed(p: Page) {
    |p.flags| == 2 && |p.ids| == 12 && |p.segments| <= 255
    && -TWO_63 <= p.granule < TWO_63 && |p.body| == Total(p.segments)
  }

  function Header(p: Page): (h: seq<Byte>)
    requires WellFormed(p)
    ensures |h| == HEADER
  {
    SYNC + p.flags + LittleEndian(if p.granule < 0 then p.granule + TWO_64 else p.granule, 8) + p.ids + [|p.segments|]
  }

  function Encode(p: Page): (bytes: seq<Byte>)
    requires WellFormed(p)
  {
    Header(p) + p.segments + p.body
  }

  /** The layout of a page: the capture pattern, two bytes, the granule position with its
      lowest byte first, twelve bytes, the number of lacing values, these, and the body. */
  lemma PageLayout(p: Page)
    requires WellFormed(p)
    ensures var e := Encode(p);
            && |e| == 27 + |p.segments| + |p.body|
            && e[..4] == [0x4F, 0x67, 0x67, 0x53] && e[4..6] == p.flags && e[14..26] == p.ids
            && e[26] == |p.segments| && e[27..27 + |p.segments|] == p.segments && e[27 + |p.segments|..] == p.body
            && e[6] == (if p.granule < 0 then p.granule + 0x1_0000_0000_0000_0000 else p.granule) % 256
  {
    var u := if p.granule < 0 then p.granule + TWO_64 else p.granule;
    var g := LittleEndian(u, 8);
    assert g[0] == u % 256;
    var h := Header(p);
    assert h == SYNC + p.flags + g + p.ids + [|p.segments|];
  }

  /** Pages with junk before, between and after them. */
  datatype Stream = Tail(junk: seq<Byte>) | Chunk(junk: seq<Byte>, page: Page, rest: Stream)

  ghost predicate SyncFree(junk: seq<Byte>) {
    forall i: nat :: !SyncAt(junk, i)
  }

  ghost predicate WellFormedStream(st: Stream) {
    SyncFree(st.junk) && (st.Chunk? ==> WellFormed(st.page) && WellFormedStream(st.rest))
  }

  ghost function EncodeStream(st: Stream): seq<Byte>
    requires WellFormedStream(st)
  {
    match st
    case Tail(junk) => junk
    case Chunk(junk, page, rest) => junk + Encode(page) + EncodeStream(rest)
  }

  ghost function Pages(st: Stream): seq<Page> {
    match st
    case Tail(_) => []
    case Chunk(_, page, rest) => [page] + Pages(rest)
  }

  function Size(p: Page): (n: nat) {
    HEADER + |p.segments| + |p.body|
  }

  /** Where the pages of the stream start, when the stream itself starts at `from`. */
  ghost function PageStarts(st: Stream, from: nat): seq<nat> {
    match st
    case Tail(_) => []
    case Chunk(junk, page, rest) => [from + |junk|] + PageStarts(rest, from + |junk| + Size(page))
  }

  function Power(width: nat): (n: nat) {
    if width == 0 then 1 else 256 * Power(width - 1)
  }

  lemma {:induction false} LittleEndianRoundTrip(u: nat, width: nat, bound: nat)
    requires bound == Power(width) && u < bound
    ensures Unsigned(LittleEndian(u, width)) == u
  {
    if width > 0 {
      LittleEndianRoundTrip(u / 256, width - 1, Power(width - 1));
      var bytes := LittleEndian(u, width);
      assert bytes[1..] == LittleEndian(u / 256, width - 1);
    }
  }

  lemma Power8()
    ensures Power(8) == TWO_64
  {
    assert Power(2) == 0x1_0000;
    assert Power(4) == 0x1_0000_0000;
    assert Power(6) == 0x1_0000_0000_0000;
  }

  /** A granule position written by a page is the one the scanner reads. */
  lemma GranuleRoundTrip(p: Page, data: seq<Byte>, pos: nat)
    requires WellFormed(p) && pos + HEADER <= |data| && data[pos..pos + HEADER] == Header(p)
    ensures HeaderAt(data, pos) && GranuleAt(data, pos) == p.granule && data[pos + 26] == |p.segments|
  {
    var h := Header(p);
    var u := if p.granule < 0 then p.granule + TWO_64 else p.granule;
    HeaderFields(data, pos);
    assert h[0..4] == SYNC && h[6..14] == LittleEndian(u, 8);
    Power8();
    LittleEndianRoundTrip(u, 8, Power(8));
  }

  /** No sync word starts inside junk, even one that would end inside the next page. */
  lemma NoSyncAcross(data: seq<Byte>, pos: nat, junk: seq<Byte>, i: nat)
    requires pos + |junk| <= |data| && data[pos..pos + |junk|] == junk && SyncFree(junk) && i < |junk|
    requires SyncAt(data, pos + |junk|)
    ensures !SyncAt(data, pos + i)
  {
    if i + 4 <= |junk| {
      Slice(data, pos, pos + |junk|, i, i + 4);
      assert !SyncAt(junk, i);
    } else if pos + i + 4 <= |data| {
      var w, next := data[pos + i..pos + i + 4], data[pos + |junk|..pos + |junk| + 4];
      assert w[|junk| - i] == next[0];
    }
  }

  /** Bytes where no sync word starts are walked through one by one. */
  lemma {:induction false} WalkNoSync(data: seq<Byte>, lo: nat, hi: nat, best: int)
    requires lo <= hi && hi + HEADER <= |data|
    requires forall k: nat :: lo <= k < hi ==> !SyncAt(data, k)
    ensures Visits(data, lo) == Visits(data, hi) && ScanFrom(data, lo, best) == ScanFrom(data, hi, best)
    decreases hi - lo
  {
    if lo < hi {
      WalkNoSync(data, lo + 1, hi, best);
    }
  }

  lemma {:induction false} WalkToEnd(data: seq<Byte>, lo: nat, best: int)
    requires forall k: nat :: lo <= k ==> !SyncAt(data, k)
    ensures Visits(data, lo) == [] && ScanFrom(data, lo, best) == best
    decreases |data| - lo
  {
    if lo + HEADER <= |data| {
      WalkToEnd(data, lo + 1, best);
    }
  }

  lemma JunkHasNoSync(data: seq<Byte>, pos: nat, junk: seq<Byte>)
    requires pos + |junk| <= |data| && data[pos..pos + |junk|] == junk && SyncFree(junk)
    requires SyncAt(data, pos + |junk|)
    ensures forall k: nat :: pos <= k < pos + |junk| ==> !SyncAt(data, k)
  {
    forall k: nat | pos <= k < pos + |junk|
      ensures !SyncAt(data, k)
    {
      NoSyncAcross(data, pos, junk, k - pos);
    }
  }

  lemma TailHasNoSync(data: seq<Byte>, pos: nat, tail: seq<Byte>)
    requires pos <= |data| && data[pos..] == tail && SyncFree(tail)
    ensures forall k: nat :: pos <= k ==> !SyncAt(data, k)
  {
    forall k: nat | pos <= k
      ensures !SyncAt(data, k)
    {
      if k + 4 <= |data| {
        Slice(data, pos, |data|, k - pos, k - pos + 4);
        assert data[pos..|data|] == tail && !SyncAt(tail, k - pos);
      }
    }
  }

  /** A page is accepted and skipped as a whole. */
  lemma SkipsWholePage(data: seq<Byte>, pos: nat, p: Page)
    requires WellFormed(p) && pos + |Encode(p)| <= |data| && data[pos..pos + |Encode(p)|] == Encode(p)
    ensures HeaderAt(data, pos) && GranuleAt(data, pos) == p.granule
    ensures SkipPage(data, pos) == pos + |Encode(p)|
  {
    var e, n := Encode(p), |p.segments|;
    Slice(data, pos, pos + |e|, 0, HEADER);
    Slice(data, pos, pos + |e|, HEADER, HEADER + n);
    assert e[0..HEADER] == Header(p) && e[HEADER..HEADER + n] == p.segments;
    GranuleRoundTrip(p, data, pos);
  }

  lemma SplitStream(data: seq<Byte>, pos: nat, junk: seq<Byte>, e: seq<Byte>, rest: seq<Byte>)
    requires pos <= |data| && data[pos..] == junk + e + rest
    ensures var start := pos + |junk|;
            && start + |e| + |rest| == |data| && data[pos..start] == junk
            && data[start..start + |e|] == e && data[start + |e|..] == rest
  {
    var start, stream := pos + |junk|, junk + e + rest;
    Slice(data, pos, |data|, 0, |junk|);
    Slice(data, pos, |data|, |junk|, |junk| + |e|);
    Slice(data, pos, |data|, |junk| + |e|, |stream|);
    assert data[pos..|data|] == stream;
    assert stream[0..|junk|] == junk && stream[|junk|..|junk| + |e|] == e && stream[|junk| + |e|..|stream|] == rest;
  }

  /** Where the page of a chunk lies, and that the scanner would accept it whole. */
  lemma ChunkLayout(data: seq<Byte>, pos: nat, junk: seq<Byte>, p: Page, rest: seq<Byte>)
    requires WellFormed(p) && pos <= |data| && data[pos..] == junk + Encode(p) + rest
    ensures var start := pos + |junk|; var next := start + |Encode(p)|;
            && next <= |data| && data[next..] == rest && data[pos..start] == junk && next == start + Size(p)
            && HeaderAt(data, start) && SkipPage(data, start) == next
            && GranuleAt(data, start) == p.granule
  {
    SplitStream(data, pos, junk, Encode(p), rest);
    SkipsWholePage(data, pos + |junk|, p);
  }

  /** Junk, then a page: one visit, one comparison, then on with the rest. */
  lemma ScanChunk(data: seq<Byte>, pos: nat, junk: seq<Byte>, start: nat, next: nat, best: int)
    requires SyncFree(junk) && start == pos + |junk| && start <= |data| && data[pos..start] == junk
    requires HeaderAt(data, start) && SkipPage(data, start) == next
    ensures Visits(data, pos) == [start] + Visits(data, next)
    ensures ScanFrom(data, pos, best) == ScanFrom(data, next, Max(best, GranuleAt(data, start)))
  {
    JunkHasNoSync(data, pos, junk);
    WalkNoSync(data, pos, start, best);
  }

  lemma ScanEncodedChunk(data: seq<Byte>, pos: nat, junk: seq<Byte>, p: Page, rest: seq<Byte>, best: int)
    requires SyncFree(junk) && WellFormed(p) && pos <= |data| && data[pos..] == junk + Encode(p) + rest
    ensures var start, next := pos + |junk|, pos + |junk| + Size(p);
            && next <= |data| && data[next..] == rest
            && Visits(data, pos) == [start] + Visits(data, next)
            && ScanFrom(data, pos, best) == ScanFrom(data, next, Max(best, p.granule))
  {
    hide Visits, ScanFrom, Encode, SyncFree, SyncAt, SkipPage, GranuleAt;
    ChunkLayout(data, pos, junk, p, rest);
    ScanChunk(data, pos, junk, pos + |junk|, pos + |junk| + Size(p), best);
  }

  ghost function Largest(st: Stream, best: int): int {
    match st
    case Tail(_) => best
    case Chunk(_, page, rest) => Largest(rest, Max(best, page.granule))
  }

  /** On a well-formed stream the scanner accepts exactly the page starts and keeps the
      largest granule position of the pages. */
  lemma {:induction false} ScanStream(st: Stream, data: seq<Byte>, pos: nat, best: int)
    requires WellFormedStream(st)
    requires pos <= |data| && data[pos..] == EncodeStream(st)
    ensures Visits(data, pos) == PageStarts(st, pos)
    ensures ScanFrom(data, pos, best) == Largest(st, best)
    decreases st
  {
    hide Visits, ScanFrom, Encode, SyncFree;
    if st.Tail? {
      TailHasNoSync(data, pos, st.junk);
      WalkToEnd(data, pos, best);
    } else {
      var next := pos + |st.junk| + Size(st.page);
      ScanEncodedChunk(data, pos, st.junk, st.page, EncodeStream(st.rest), best);
      ScanStream(st.rest, data, next, Max(best, st.page.granule));
    }
  }

  lemma {:induction false} LargestIsMaximum(st: Stream, best: int)
    ensures var g := Largest(st, best);
            && g >= best
            && (forall p :: p in Pages(st) ==> p.granule <= g)
            && (g == best || exists p :: p in Pages(st) && p.granule == g)
  {
    if st.Chunk? {
      LargestIsMaximum(st.rest, Max(best, st.page.granule));
      assert st.page in Pages(st);
      assert forall p :: p in Pages(st) <==> p == st.page || p in Pages(st.rest);
    }
  }

  /** Scanning a well-formed stream visits exactly the page starts and yields the largest
      of the pages' granule positions, or 0 if none is positive. */
  lemma StreamMaximum(st: Stream)
    requires WellFormedStream(st)
    ensures Visits(EncodeStream(st), 0) == PageStarts(st, 0)
    ensures var g := ScanFrom(EncodeStream(st), 0, 0);
            && g >= 0
            && (forall p :: p in Pages(st) ==> p.granule <= g)
            && (g == 0 || exists p :: p in Pages(st) && p.granule == g)
  {
    var data := EncodeStream(st);
    assert data[0..] == data;
    ScanStream(st, data, 0, 0);
    LargestIsMaximum(st, 0);
  }
}
