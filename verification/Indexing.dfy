/** What the elements of `Recorder`'s index are in the stream: each goes from the first start code behind a
    video PES header to the next such header, less the padding in front of it, and bears the stamp of the
    header before it. */
module Indexing {
  import opened Bytes
  import opened RingBuffer
  import opened Propack
  import R = Recorder

  const HEADER := R.HEADER

  ghost predicate NoCode(stream: seq<Byte>, from: nat, to: nat) {
    forall q :: from <= q < to ==> !CodeAt(stream, q)
  }

  ghost predicate NoVideoCode(stream: seq<Byte>, from: nat, to: nat) {
    forall q :: from <= q < to ==> !VideoCodeAt(stream, q)
  }

  /** The first video PES header at or after `from`. */
  ghost predicate NextHeader(stream: seq<Byte>, from: nat, q: nat) {
    from <= q && VideoCodeAt(stream, q) && NoVideoCode(stream, from, q)
  }

  /** `[a, b)` is `[a, end)` without its padding: what is cut off is zero, four zeros stay if anything is
      cut off, and nothing is cut off of four zeros or fewer. */
  ghost predicate Trimmed(stream: seq<Byte>, a: nat, b: nat, end: nat) {
    && a <= b <= end <= |stream|
    && (forall k :: b <= k < end ==> stream[k] == 0)
    && (b < end ==> a + 4 <= b && stream[b - 4..b] == [0, 0, 0, 0] && (a + 4 < b ==> stream[b - 5] != 0))
    && (b == end && a + 5 <= b ==> stream[b - 5..b] != [0, 0, 0, 0, 0])
  }

  /** The header at `mark.head` is the last one before the start code at `lptr`, whose kind is marked. */
  ghost predicate Headed(stream: seq<Byte>, mark: R.Mark, lptr: nat) {
    && mark.head < lptr && VideoCodeAt(stream, mark.head) && mark.head + HEADER <= |stream|
    && NoVideoCode(stream, mark.head + 1, lptr)
    && CodeAt(stream, lptr)
    && (mark.flag == StartSeq <==> stream[lptr + 3] == 0xb3)
    && (mark.flag == StartGop <==> stream[lptr + 3] == 0xb8)
  }

  /** The next header is at `end`, and the element reaches up to there but for the padding. */
  ghost predicate Reaches(stream: seq<Byte>, e: R.Element, end: nat) {
    && e.lptr <= end && NextHeader(stream, e.mark.head + 1, end)
    && Trimmed(stream, e.lptr, e.lptr + e.len, end)
  }

  /** The element reaches from a start code to the next video PES header. */
  ghost predicate IsPicture(stream: seq<Byte>, e: R.Element) {
    && Headed(stream, e.mark, e.lptr)
    && exists end :: Reaches(stream, e, end)
  }

  /** A sequence start at `q` behind the stamped header at `h`. */
  ghost predicate StampedStart(stream: seq<Byte>, h: nat, q: nat) {
    && h < q && VideoCodeAt(stream, h) && NoVideoCode(stream, h + 1, q) && h + 7 < |stream| && stream[h + 7] >= 0x80
    && CodeAt(stream, q) && stream[q + 3] == 0xb3
  }

  ghost predicate NoStampedStart(stream: seq<Byte>, to: nat) {
    forall h, q :: 0 <= h < q < to ==> !StampedStart(stream, h, q)
  }

  /** What comes after `es`: the first stamped sequence start, or the first start code behind the header
      that ends the last element. */
  ghost predicate Follows(stream: seq<Byte>, es: seq<R.Element>, head: nat, lptr: nat) {
    if es == [] then StampedStart(stream, head, lptr) && NoStampedStart(stream, lptr)
    else NextHeader(stream, es[|es| - 1].mark.head + 1, head) && NoCode(stream, head + 1, lptr)
  }

  ghost predicate ElementAt(stream: seq<Byte>, es: seq<R.Element>, i: nat)
    requires i < |es|
  {
    IsPicture(stream, es[i]) && Follows(stream, es[..i], es[i].mark.head, es[i].lptr)
  }

  /** The elements are pictures one after the other, none left out. */
  ghost predicate Indexed(stream: seq<Byte>, es: seq<R.Element>) {
    forall i :: 0 <= i < |es| ==> ElementAt(stream, es, i)
  }

  // ---------------------------------------------------------------- the invariant

  /** The search for the first stamped sequence start has come to `to`; `last` is the last header, which
      has been read. */
  ghost predicate Sought(stream: seq<Byte>, to: nat, last: int) {
    && to <= |stream| && NoStampedStart(stream, to)
    && (last < 0 ==> NoVideoCode(stream, 0, to))
    && (last >= 0 ==> last < to && VideoCodeAt(stream, last) && last + HEADER <= |stream|
                      && NoVideoCode(stream, last + 1, to))
  }

  /** An element that begins at `lstart` with these marks is the next one. */
  ghost predicate Next(stream: seq<Byte>, all: seq<R.Element>, mark: R.Mark, lstart: nat) {
    Headed(stream, mark, lstart) && Follows(stream, all, mark.head, lstart)
  }

  ghost predicate Ends(stream: seq<Byte>, mark: R.Mark, lstart: nat, end: nat) {
    lstart <= end && NextHeader(stream, mark.head + 1, end)
  }

  /** The header at `lptr` ends the last element. */
  ghost predicate Ended(stream: seq<Byte>, all: seq<R.Element>, lptr: nat) {
    all != [] && NextHeader(stream, all[|all| - 1].mark.head + 1, lptr)
  }

  /** Where the search for the end of an element begins. */
  ghost predicate Begun(mark: R.Mark, lstart: nat, lptr: nat) {
    lptr == mark.head || (lptr == lstart + 1 && mark.flag == StartSeq)
  }

  ghost predicate Locals(x: R.Indexer, stream: seq<Byte>, all: seq<R.Element>) {
    match x
    case Seeking(from, last) => Sought(stream, from, last) && (from == 0 || from + 2 < |stream|)
    case SeekHeader(at, id, last) =>
      CodeAt(stream, at) && id == stream[at + 3] && VideoCodeAt(stream, at) && Sought(stream, at, last)
    case SeekDiscard(at, id, last) =>
      && CodeAt(stream, at) && id == stream[at + 3]
      && if VideoCodeAt(stream, at) then last == at && at + HEADER <= |stream| && NoStampedStart(stream, at)
         else Sought(stream, at, last)
    case WaitRoom(lstart, lptr, mark) => Next(stream, all, mark, lstart) && Begun(mark, lstart, lptr)
    case FindEnd(lstart, lptr, mark) => Next(stream, all, mark, lstart) && Begun(mark, lstart, lptr)
    case Trim(lstart, end, mark) => Next(stream, all, mark, lstart) && Ends(stream, mark, lstart, end)
    case Append(lstart, len, end, mark) =>
      Next(stream, all, mark, lstart) && Ends(stream, mark, lstart, end) && Trimmed(stream, lstart, lstart + len, end)
    case ReadHeader(lptr) => Ended(stream, all, lptr)
    case FindStart(lptr) => Ended(stream, all, lptr) && lptr + HEADER <= |stream|
    case Peek(lstart, lptr, id) =>
      && Ended(stream, all, lptr) && lptr + HEADER <= |stream| && lptr < lstart
      && CodeAt(stream, lstart) && id == stream[lstart + 3] && NoCode(stream, lptr + 1, lstart)
  }

  ghost function Elements(s: R.State): seq<R.Element> { s.removed + s.list }

  ghost predicate Inv(s: R.State) {
    Indexed(s.stream, Elements(s)) && Locals(s.indexer, s.stream, Elements(s))
  }

  // ---------------------------------------------------------------- growing streams

  lemma CodesGrow(s: seq<Byte>, s': seq<Byte>, q: nat)
    requires s <= s' && q + 3 < |s|
    ensures VideoCodeAt(s', q) <==> VideoCodeAt(s, q)
    ensures CodeAt(s', q) <==> CodeAt(s, q)
  {
    assert s'[q..q + 3] == s[q..q + 3];
  }

  lemma NoCodesGrow(s: seq<Byte>, s': seq<Byte>, from: nat, to: nat)
    requires s <= s' && to + 2 < |s|
    ensures NoVideoCode(s, from, to) ==> NoVideoCode(s', from, to)
    ensures NoCode(s, from, to) ==> NoCode(s', from, to)
  {
    forall q | from <= q < to
      ensures VideoCodeAt(s', q) <==> VideoCodeAt(s, q)
      ensures CodeAt(s', q) <==> CodeAt(s, q)
    {
      CodesGrow(s, s', q);
    }
  }

  lemma NextHeaderGrows(s: seq<Byte>, s': seq<Byte>, from: nat, q: nat)
    requires s <= s' && NextHeader(s, from, q)
    ensures NextHeader(s', from, q)
  {
    hide NoVideoCode;
    CodesGrow(s, s', q);
    NoCodesGrow(s, s', from, q);
  }

  lemma TrimmedGrows(s: seq<Byte>, s': seq<Byte>, a: nat, b: nat, end: nat)
    requires s <= s' && Trimmed(s, a, b, end)
    ensures Trimmed(s', a, b, end)
  {
    if a + 4 <= b { assert s'[b - 4..b] == s[b - 4..b]; }
    if a + 5 <= b { assert s'[b - 5..b] == s[b - 5..b]; }
  }

  lemma HeadedGrows(s: seq<Byte>, s': seq<Byte>, mark: R.Mark, lptr: nat)
    requires s <= s' && Headed(s, mark, lptr)
    ensures Headed(s', mark, lptr)
  {
    hide NoVideoCode, VideoCodeAt;
    CodesGrow(s, s', lptr);
    CodesGrow(s, s', mark.head);
    NoCodesGrow(s, s', mark.head + 1, lptr);
  }

  lemma IsPictureGrows(s: seq<Byte>, s': seq<Byte>, e: R.Element)
    requires s <= s' && IsPicture(s, e)
    ensures IsPicture(s', e)
  {
    hide Headed, NextHeader, Trimmed;
    HeadedGrows(s, s', e.mark, e.lptr);
    var end :| Reaches(s, e, end);
    NextHeaderGrows(s, s', e.mark.head + 1, end);
    TrimmedGrows(s, s', e.lptr, e.lptr + e.len, end);
    assert Reaches(s', e, end);
  }

  lemma StampedStartGrows(s: seq<Byte>, s': seq<Byte>, h: nat, q: nat)
    requires s <= s' && h < q && q + 2 < |s| && h + 7 < |s|
    ensures q + 3 < |s| && StampedStart(s, h, q) ==> StampedStart(s', h, q)
    ensures q + 3 < |s| && StampedStart(s', h, q) ==> StampedStart(s, h, q)
  {
    hide NoVideoCode, VideoCodeAt, CodeAt;
    CodesGrow(s, s', h);
    NoCodesBack(s, s', h + 1, q);
    NoCodesGrow(s, s', h + 1, q);
    if q + 3 < |s| { CodesGrow(s, s', q); }
  }

  lemma NoCodesBack(s: seq<Byte>, s': seq<Byte>, from: nat, to: nat)
    requires s <= s' && to + 2 < |s|
    ensures NoVideoCode(s', from, to) ==> NoVideoCode(s, from, to)
  {
    forall q | from <= q < to
      ensures VideoCodeAt(s', q) <==> VideoCodeAt(s, q)
    {
      CodesGrow(s, s', q);
    }
  }

  lemma HeadersRead(s: seq<Byte>, to: nat, last: int)
    requires Sought(s, to, last)
    ensures forall h :: 0 <= h < to && VideoCodeAt(s, h) ==> h + HEADER <= |s|
  {
    hide VideoCodeAt, NoStampedStart;
  }

  lemma SoughtGrows(s: seq<Byte>, s': seq<Byte>, to: nat, last: int)
    requires s <= s' && Sought(s, to, last) && (to == 0 || to + 2 < |s|)
    ensures Sought(s', to, last)
  {
    if to > 0 {
      hide NoStampedStart, NoVideoCode, VideoCodeAt;
      forall h | 0 <= h < to
        ensures VideoCodeAt(s', h) <==> VideoCodeAt(s, h)
      {
        CodesGrow(s, s', h);
      }
      NoCodesGrow(s, s', if last < 0 then 0 else last + 1, to);
      HeadersRead(s, to, last);
      NoStampedStartGrows(s, s', to);
    }
  }

  lemma NoStampedStartGrows(s: seq<Byte>, s': seq<Byte>, to: nat)
    requires s <= s' && to + 2 < |s| && NoStampedStart(s, to)
    requires forall h :: 0 <= h < to && VideoCodeAt(s, h) ==> h + HEADER <= |s|
    ensures NoStampedStart(s', to)
  {
    forall h, q | 0 <= h < q < to
      ensures !StampedStart(s', h, q)
    {
      CodesGrow(s, s', h);
      if VideoCodeAt(s, h) {
        hide VideoCodeAt, StampedStart;
        StampedStartGrows(s, s', h, q);
      }
    }
  }

  lemma FollowsGrows(s: seq<Byte>, s': seq<Byte>, es: seq<R.Element>, mark: R.Mark, lptr: nat)
    requires s <= s' && Headed(s, mark, lptr) && Follows(s, es, mark.head, lptr)
    ensures Follows(s', es, mark.head, lptr)
  {
    hide VideoCodeAt, NoVideoCode, NoCode, NextHeader, StampedStart, NoStampedStart;
    if es == [] {
      StampedStartGrows(s, s', mark.head, lptr);
      HeadersBefore(s, mark, lptr);
      NoStampedStartGrows(s, s', lptr);
    } else {
      NextHeaderGrows(s, s', es[|es| - 1].mark.head + 1, mark.head);
      NoCodesGrow(s, s', mark.head + 1, lptr);
    }
  }

  lemma HeadersBefore(s: seq<Byte>, mark: R.Mark, lptr: nat)
    requires Headed(s, mark, lptr)
    ensures forall h :: 0 <= h < lptr && VideoCodeAt(s, h) ==> h + HEADER <= |s|
  {
    hide VideoCodeAt;
  }

  lemma IndexedGrows(s: seq<Byte>, s': seq<Byte>, es: seq<R.Element>)
    requires s <= s' && Indexed(s, es)
    ensures Indexed(s', es)
  {
    hide IsPicture, Follows;
    forall i | 0 <= i < |es|
      ensures ElementAt(s', es, i)
    {
      assert ElementAt(s, es, i);
      IsPictureGrows(s, s', es[i]);
      FollowsGrows(s, s', es[..i], es[i].mark, es[i].lptr) by { IsHeaded(s, es[i]); }
    }
  }

  lemma IsHeaded(s: seq<Byte>, e: R.Element)
    requires IsPicture(s, e)
    ensures Headed(s, e.mark, e.lptr)
  {
  }

  lemma NextGrows(s: seq<Byte>, s': seq<Byte>, all: seq<R.Element>, mark: R.Mark, lstart: nat)
    requires s <= s' && Next(s, all, mark, lstart)
    ensures Next(s', all, mark, lstart)
  {
    HeadedGrows(s, s', mark, lstart);
    FollowsGrows(s, s', all, mark, lstart);
  }

  lemma SeekGrows(x: R.Indexer, s: seq<Byte>, s': seq<Byte>, all: seq<R.Element>)
    requires s <= s' && R.Starting(x) && Locals(x, s, all)
    ensures Locals(x, s', all)
  {
    hide Sought, VideoCodeAt, CodeAt, NoStampedStart;
    match x
    case Seeking(from, last) => SoughtGrows(s, s', from, last);
    case SeekHeader(at, id, last) =>
      AtCode(s, at);
      CodesGrow(s, s', at);
      SoughtGrows(s, s', at, last);
    case SeekDiscard(at, id, last) =>
      AtCode(s, at);
      CodesGrow(s, s', at);
      if VideoCodeAt(s, at) {
        NoStampedStartGrows(s, s', at);
      } else {
        SoughtGrows(s, s', at, last);
      }
  }

  lemma AtCode(s: seq<Byte>, q: nat)
    requires CodeAt(s, q)
    ensures q + 3 < |s|
  {
  }

  lemma LocalsGrow(x: R.Indexer, s: seq<Byte>, s': seq<Byte>, all: seq<R.Element>)
    requires s <= s' && Locals(x, s, all)
    ensures Locals(x, s', all)
  {
    hide VideoCodeAt, CodeAt, NextHeader, Next, Trimmed, NoCode, Sought;
    match x
    case Seeking(_, _) => SeekGrows(x, s, s', all);
    case SeekHeader(_, _, _) => SeekGrows(x, s, s', all);
    case SeekDiscard(_, _, _) => SeekGrows(x, s, s', all);
    case WaitRoom(lstart, _, mark) => NextGrows(s, s', all, mark, lstart);
    case FindEnd(lstart, _, mark) => NextGrows(s, s', all, mark, lstart);
    case Trim(lstart, end, mark) =>
      NextGrows(s, s', all, mark, lstart);
      NextHeaderGrows(s, s', mark.head + 1, end);
    case Append(lstart, len, end, mark) =>
      NextGrows(s, s', all, mark, lstart);
      NextHeaderGrows(s, s', mark.head + 1, end);
      TrimmedGrows(s, s', lstart, lstart + len, end);
    case ReadHeader(lptr) => NextHeaderGrows(s, s', all[|all| - 1].mark.head + 1, lptr);
    case FindStart(lptr) => NextHeaderGrows(s, s', all[|all| - 1].mark.head + 1, lptr);
    case Peek(lstart, lptr, id) =>
      NextHeaderGrows(s, s', all[|all| - 1].mark.head + 1, lptr);
      AtCode(s, lstart);
      CodesGrow(s, s', lstart);
      NoCodesGrow(s, s', lptr + 1, lstart);
  }

  // ---------------------------------------------------------------- preservation

  /** What the searches for 0xe0 under 0xf0, and for anything, find. */
  lemma SearchFinds(s: R.State, from: nat, q: nat)
    ensures R.SearchResult(s, from, q, 0xe0, 0xf0) ==> NextHeader(s.stream, from, q)
    ensures R.SearchResult(s, from, q, 0, 0) ==> CodeAt(s.stream, q) && NoCode(s.stream, from, q)
  {
    hide StartCodeAt, VideoCodeAt, CodeAt;
    VideoCodes(s.stream, q);
    AnyCodes(s.stream, q);
    forall p | from <= p < q
      ensures StartCodeAt(s.stream, p, 0xe0, 0xf0) <==> VideoCodeAt(s.stream, p)
      ensures StartCodeAt(s.stream, p, 0, 0) <==> CodeAt(s.stream, p)
    {
      VideoCodes(s.stream, p);
      AnyCodes(s.stream, p);
    }
  }

  /** A video header is a start code. */
  lemma VideoIsCode(s: seq<Byte>, from: nat, to: nat)
    requires NoCode(s, from, to)
    ensures NoVideoCode(s, from, to)
  {
    forall q | from <= q < to
      ensures !VideoCodeAt(s, q)
    {
      assert !CodeAt(s, q);
    }
  }

  /** The search goes on to the start code at `q`. */
  lemma SoughtUpTo(s: seq<Byte>, from: nat, last: int, q: nat)
    requires Sought(s, from, last) && from <= q && CodeAt(s, q) && NoCode(s, from, q)
    ensures Sought(s, q, last)
  {
    VideoIsCode(s, from, q);
    hide VideoCodeAt;
  }

  /** A start code that is not the wanted one is passed. */
  lemma SoughtPast(s: seq<Byte>, at: nat, last: int, last': int)
    requires CodeAt(s, at) && NoStampedStart(s, at)
    requires if VideoCodeAt(s, at) then last' == at && at + HEADER <= |s|
             else last' == last && Sought(s, at, last) && !(s[at + 3] == 0xb3 && R.HasPts(s, last))
    ensures Sought(s, at + 1, last')
  {
    forall h, q | 0 <= h < q < at + 1
      ensures !StampedStart(s, h, q)
    {
      if q == at && StampedStart(s, h, q) {
        SameHeader(s, at, last, h);
        StampFlag(s[h + 7]);
      }
    }
  }

  lemma SameHeader(s: seq<Byte>, at: nat, last: int, h: nat)
    requires Sought(s, at, last) && h < at && VideoCodeAt(s, h) && NoVideoCode(s, h + 1, at)
    ensures h == last
  {
    hide VideoCodeAt, NoStampedStart;
  }

  lemma SeekHitKeeps(s: R.State, q: nat)
    requires R.Shape(s) && !R.Fault(s) && R.IndexerEnabled(s, R.SeekHit(q)) && Locals(s.indexer, s.stream, Elements(s))
    ensures var s' := R.IndexerStep(s, R.SeekHit(q)); Locals(s'.indexer, s.stream, Elements(s))
  {
    var s' := R.IndexerStep(s, R.SeekHit(q));
    var from, last := s.indexer.from, s.indexer.last;
    SearchFinds(s, from, q);
    AtCode(s.stream, q);
    SoughtUpTo(s.stream, from, last, q);
    VideoByMask(s.stream, q);
    hide Sought, CodeAt, VideoCodeAt, R.Fault, Masked;
  }

  lemma VideoByMask(s: seq<Byte>, q: nat)
    requires CodeAt(s, q)
    ensures Masked(s[q + 3], 0xf0) == 0xe0 <==> VideoCodeAt(s, q)
  {
    VideoIds(s[q + 3]);
  }

  lemma SeekNextKeeps(s: R.State)
    requires R.Shape(s) && !R.Fault(s) && R.IndexerEnabled(s, R.SeekNext) && Locals(s.indexer, s.stream, Elements(s))
    requires Elements(s) == []
    ensures var s' := R.IndexerStep(s, R.SeekNext); Locals(s'.indexer, s.stream, Elements(s))
  {
    var s' := R.IndexerStep(s, R.SeekNext);
    hide R.Fault, Masked;
    var stream, at, last := s.stream, s.indexer.at, s.indexer.last;
    if s.indexer.id == 0xb3 && R.HasPts(stream, last) {
      FirstFound(stream, at, last);
    } else {
      hide R.HasPts;
      SoughtPast(stream, at, last, last);
    }
  }

  /** The first stamped sequence start. */
  lemma FirstFound(stream: seq<Byte>, at: nat, last: int)
    requires CodeAt(stream, at) && stream[at + 3] == 0xb3 && R.HasPts(stream, last) && Sought(stream, at, last)
    ensures last >= 0 && Next(stream, [], R.Mark(last, StartSeq), at)
  {
    StampFlag(stream[last + 7]);
    hide VideoCodeAt, NoVideoCode, NoStampedStart, Masked;
  }

  lemma EndHitKeeps(s: R.State, q: nat)
    requires R.Shape(s) && !R.Fault(s) && R.IndexerEnabled(s, R.EndHit(q)) && Locals(s.indexer, s.stream, Elements(s))
    ensures var s' := R.IndexerStep(s, R.EndHit(q)); Locals(s'.indexer, s.stream, Elements(s))
  {
    var x := s.indexer;
    SearchFinds(s, x.lptr + 1, q);
    EndFound(s.stream, Elements(s), x.mark, x.lstart, x.lptr, q);
    hide R.Fault, Next, Ends;
  }

  /** Start codes do not overlap. */
  lemma NoCodeInside(s: seq<Byte>, q: nat)
    requires CodeAt(s, q)
    ensures !VideoCodeAt(s, q + 1)
  {
    assert s[q + 2] == s[q..q + 3][2] == 1;
    assert q + 4 < |s| ==> s[q + 2] == s[q + 1..q + 4][1];
  }

  /** The header behind an element: the first one behind the header before it. */
  lemma EndFound(stream: seq<Byte>, all: seq<R.Element>, mark: R.Mark, lstart: nat, lptr: nat, q: nat)
    requires Next(stream, all, mark, lstart) && Begun(mark, lstart, lptr)
    requires NextHeader(stream, lptr + 1, q)
    ensures Ends(stream, mark, lstart, q)
  {
    hide Follows;
    if lptr == lstart + 1 { NoCodeInside(stream, lstart); }
  }

  lemma TrimmedKeeps(s: R.State)
    requires R.Shape(s) && !R.Fault(s) && R.IndexerEnabled(s, R.Trimmed) && Locals(s.indexer, s.stream, Elements(s))
    ensures var s' := R.IndexerStep(s, R.Trimmed); Locals(s'.indexer, s.stream, Elements(s))
  {
    var x := s.indexer;
    UnpaddedIsTrimmed(s.stream, x.lstart, x.end);
    hide Next, Ends, Unpadded, Trimmed, R.Fault, Masked, R.HasPts;
  }

  /** What the trimmed length means in the stream. */
  lemma UnpaddedIsTrimmed(stream: seq<Byte>, a: nat, end: nat)
    requires a <= end <= |stream|
    ensures Trimmed(stream, a, a + Unpadded(stream[a..end]), end)
  {
    var e := stream[a..end];
    var n := Unpadded(e);
    var b := a + n;
    forall k | b <= k < end
      ensures stream[k] == 0
    {
      assert e[k - a] == 0;
    }
    assert forall k :: a <= k < end ==> stream[k] == e[k - a];
    if n == |e| >= 5 {
      var k :| n - 5 <= k < n && e[k] != 0;
      assert stream[b - 5..b][k - (n - 5)] != 0;
    }
  }

  /** The new element is the next picture. */
  lemma Appends(stream: seq<Byte>, es: seq<R.Element>, e: R.Element, end: nat)
    requires Indexed(stream, es) && Next(stream, es, e.mark, e.lptr)
    requires Ends(stream, e.mark, e.lptr, end) && Trimmed(stream, e.lptr, e.lptr + e.len, end)
    ensures Indexed(stream, es + [e]) && Ended(stream, es + [e], end)
  {
    hide Headed, Follows, NextHeader, Trimmed;
    var all := es + [e];
    assert Reaches(stream, e, end);
    forall i | 0 <= i < |all|
      ensures ElementAt(stream, all, i)
    {
      if i < |es| {
        assert ElementAt(stream, es, i) && all[..i] == es[..i];
      } else {
        assert all[..i] == es;
      }
    }
  }

  lemma AppendKeeps(s: R.State)
    requires R.Shape(s) && !R.Fault(s) && R.IndexerEnabled(s, R.Appended) && Inv(s)
    ensures Inv(R.IndexerStep(s, R.Appended))
  {
    var x := s.indexer;
    var e := R.Element(x.lstart, x.len, x.mark);
    var s' := R.IndexerStep(s, R.Appended);
    assert Elements(s') == Elements(s) + [e];
    hide R.Fault, Indexed, Next, Ends, Trimmed, Ended;
    Appends(s.stream, Elements(s), e, x.end);
  }

  lemma StartHitKeeps(s: R.State, q: nat)
    requires R.Shape(s) && !R.Fault(s) && R.IndexerEnabled(s, R.StartHit(q)) && Locals(s.indexer, s.stream, Elements(s))
    ensures var s' := R.IndexerStep(s, R.StartHit(q)); Locals(s'.indexer, s.stream, Elements(s))
  {
    SearchFinds(s, s.indexer.lptr + 1, q);
    AtCode(s.stream, q);
    hide R.Fault, Ended, NoCode, CodeAt;
  }

  lemma PeekedKeeps(s: R.State)
    requires R.Shape(s) && !R.Fault(s) && R.IndexerEnabled(s, R.Peeked) && Locals(s.indexer, s.stream, Elements(s))
    ensures var s' := R.IndexerStep(s, R.Peeked); Locals(s'.indexer, s.stream, Elements(s))
  {
    var x := s.indexer;
    VideoIsCode(s.stream, x.lptr + 1, x.lstart);
    hide VideoCodeAt, NoCode, NoVideoCode, R.Fault;
    AtCode(s.stream, x.lstart);
    hide CodeAt;
  }

  lemma IndexerKeeps(s: R.State, step: R.Step)
    requires R.Inv(s) && R.Shape(s) && !R.Fault(s) && R.IndexerEnabled(s, step) && Inv(s)
    ensures Inv(R.IndexerStep(s, step))
  {
    hide R.Fault, R.RingInv, R.IndexerInv, R.ConsumerInv, R.Delivered, R.Ascending, Indexed, Locals, R.IndexerStep;
    match step
    case SeekHit(q) => SeekHitKeeps(s, q); OnlyLocals(s, step);
    case SeekRead => SeekReadKeeps(s); OnlyLocals(s, step);
    case SeekNext => SeekNextKeeps(s); OnlyLocals(s, step);
    case HaveRoom => HaveRoomKeeps(s); OnlyLocals(s, step);
    case EndHit(q) => EndHitKeeps(s, q); OnlyLocals(s, step);
    case Trimmed => TrimmedKeeps(s); OnlyLocals(s, step);
    case Appended => AppendKeeps(s);
    case HeaderRead => HeaderReadKeeps(s); OnlyLocals(s, step);
    case StartHit(q) => StartHitKeeps(s, q); OnlyLocals(s, step);
    case Peeked => PeekedKeeps(s); OnlyLocals(s, step);
  }

  lemma OnlyLocals(s: R.State, step: R.Step)
    requires R.Shape(s) && !R.Fault(s) && R.IndexerEnabled(s, step) && !step.Appended? && Inv(s)
    requires Locals(R.IndexerStep(s, step).indexer, s.stream, Elements(s))
    ensures Inv(R.IndexerStep(s, step))
  {
    hide R.Fault, Indexed, Locals, Masked, Unpadded, R.HasPts, R.SearchResult;
  }

  lemma SeekReadKeeps(s: R.State)
    requires R.Shape(s) && !R.Fault(s) && R.IndexerEnabled(s, R.SeekRead) && Locals(s.indexer, s.stream, Elements(s))
    ensures var s' := R.IndexerStep(s, R.SeekRead); Locals(s'.indexer, s.stream, Elements(s))
  {
    hide R.Fault, CodeAt, VideoCodeAt, NoStampedStart, NoVideoCode;
  }

  lemma HaveRoomKeeps(s: R.State)
    requires R.Shape(s) && !R.Fault(s) && R.IndexerEnabled(s, R.HaveRoom) && Locals(s.indexer, s.stream, Elements(s))
    ensures var s' := R.IndexerStep(s, R.HaveRoom); Locals(s'.indexer, s.stream, Elements(s))
  {
    hide R.Fault, Next;
  }

  lemma HeaderReadKeeps(s: R.State)
    requires R.Shape(s) && !R.Fault(s) && R.IndexerEnabled(s, R.HeaderRead) && Locals(s.indexer, s.stream, Elements(s))
    ensures var s' := R.IndexerStep(s, R.HeaderRead); Locals(s'.indexer, s.stream, Elements(s))
  {
    hide R.Fault, Ended;
  }

  // ---------------------------------------------------------------- runs

  lemma ProducerKeeps(s: R.State, step: R.Step)
    requires R.Shape(s) && !R.Fault(s) && R.ProducerEnabled(s, step) && Inv(s)
    ensures Inv(R.ProducerStep(s, step))
  {
    hide R.Fault, Locals, Indexed;
    var s' := R.ProducerStep(s, step);
    LocalsGrow(s.indexer, s.stream, s'.stream, Elements(s));
    IndexedGrows(s.stream, s'.stream, Elements(s));
  }

  lemma ConsumerKeeps(s: R.State, step: R.Step)
    requires R.Inv(s) && R.Shape(s) && !R.Fault(s) && R.ConsumerEnabled(s, step) && Inv(s)
    ensures Inv(R.ConsumerStep(s, step))
  {
    hide R.Fault, R.RingInv, R.ListInv, R.IndexerInv, R.Delivered, Locals, Indexed;
    var s' := R.ConsumerStep(s, step);
    assert Elements(s') == Elements(s) by {
      if step.ShiftList? { assert s.list == [s.consumer.elem] + s.list[1..]; }
    }
  }

  lemma {:induction false} RunKeeps(states: seq<R.State>, k: nat)
    requires R.Run(states) && k < |states|
    ensures R.Inv(states[k]) && Inv(states[k])
  {
    hide R.Inv, Inv;
    R.RunKeeps(states, k);
    if k == 0 {
      InitKeeps(states[0]);
    } else {
      RunKeeps(states, k - 1);
      var s, s' := states[k - 1], states[k];
      assert R.Next(states[k - 1], states[(k - 1) + 1]);
      NextKeeps(s, s');
    }
  }

  lemma InitKeeps(s: R.State)
    requires R.Init(s)
    ensures Inv(s)
  {
  }

  lemma NextKeeps(s: R.State, s': R.State)
    requires R.Inv(s) && Inv(s) && R.Next(s, s')
    ensures Inv(s')
  {
    hide R.Inv, Inv, R.Fault;
    var step :| || (R.ProducerEnabled(s, step) && s' == R.ProducerStep(s, step))
                || (R.IndexerEnabled(s, step) && s' == R.IndexerStep(s, step))
                || (R.ConsumerEnabled(s, step) && s' == R.ConsumerStep(s, step));
    if R.ProducerEnabled(s, step) {
      ProducerKeeps(s, step);
    } else if R.IndexerEnabled(s, step) {
      IndexerKeeps(s, step);
    } else {
      ConsumerKeeps(s, step);
    }
  }

  /** In every reachable state the index is the stream cut at its headers. */
  lemma RunsAreIndexed(states: seq<R.State>, k: nat)
    requires R.Run(states) && k < |states|
    ensures Indexed(states[k].stream, states[k].removed + states[k].list)
  {
    RunKeeps(states, k);
    hide R.Inv, Indexed;
  }
}
