/** Packing indexed pictures into program packs (ggrab's `fill_video_pp`).

    `pics` is every picture the index ever delivers; a picture carries the bytes `CopyBuffer` returns
    for it (see `Index`). A position is a picture number together with a byte offset in the
    concatenation of all pictures. */
module VideoPacks {
  import opened Options
  import opened Bytes
  import opened Timestamps
  import opened Propack

  const VIDEO_FORERUN := 18_000.0
  /** With less room than this, the rest of a pack is filled with zeros. */
  const MIN_ROOM := 30

  datatype Picture = Picture(data: seq<Byte>, pts: real, flag: StartFlag)

  // ---------------------------------------------------------------- the pictures

  /** The bytes of the first `k` pictures. */
  function UpTo(pics: seq<Picture>, k: nat): seq<Byte>
    requires k <= |pics|
  {
    if k == 0 then [] else UpTo(pics, k - 1) + pics[k - 1].data
  }

  /** Where picture `k` begins. */
  function Start(pics: seq<Picture>, k: nat): nat
    requires k <= |pics|
  {
    |UpTo(pics, k)|
  }

  function Stream(pics: seq<Picture>): seq<Byte> { UpTo(pics, |pics|) }

  lemma {:induction false} StartsAscend(pics: seq<Picture>, j: nat, k: nat)
    requires j <= k <= |pics|
    ensures Start(pics, j) <= Start(pics, k)
    ensures UpTo(pics, k)[..Start(pics, j)] == UpTo(pics, j)
  {
    if j < k {
      StartsAscend(pics, j, k - 1);
    }
  }

  /** A picture's bytes are where its start says. */
  lemma PictureInStream(pics: seq<Picture>, k: nat)
    requires k < |pics|
    ensures Start(pics, k + 1) == Start(pics, k) + |pics[k].data| <= |Stream(pics)|
    ensures Stream(pics)[Start(pics, k)..Start(pics, k + 1)] == pics[k].data
  {
    StartsAscend(pics, k, k + 1);
    StartsAscend(pics, k + 1, |pics|);
    assert Stream(pics)[..Start(pics, k + 1)] == UpTo(pics, k) + pics[k].data;
  }

  /** `m_correct` after picture `k` was fetched, from `c` before: stamps that wrapped are brought back. */
  function Offset(pics: seq<Picture>, c: real, k: nat): real
    requires k < |pics|
  {
    if k == 0 then c else
    var o := Offset(pics, c, k - 1);
    if pics[k].pts < 200_000.0 && o > TWO_32 as real then o - TWO_33 as real else o
  }

  /** The stamp picture `k` gets. */
  function Due(pics: seq<Picture>, c: real, k: nat): real
    requires k < |pics|
  {
    pics[k].pts - Offset(pics, c, k)
  }

  // ---------------------------------------------------------------- one pack

  /** What `fill_video_pp` keeps between calls. */
  datatype Place = Place(k: nat, at: nat, setPts: bool, flag: StartFlag, scr: real)

  /** A pack: the bytes from the PES packet on, the wanted clock reference, and the start flag. */
  datatype Pack = Pack(pes: seq<Byte>, scr: real, flag: StartFlag)

  function Initially(pics: seq<Picture>, c: real): Place
    requires |pics| > 0
  {
    Place(0, 0, true, pics[0].flag, Due(pics, c, 0) - VIDEO_FORERUN)
  }

  ghost predicate Fits(pics: seq<Picture>, p: Place) {
    && p.k < |pics| && Start(pics, p.k) <= p.at <= Start(pics, p.k + 1)
    && (p.at == Start(pics, p.k + 1) ==> pics[p.k].data == [])
  }

  ghost predicate AtStart(pics: seq<Picture>, p: Place)
    requires p.k < |pics|
  {
    p.at == Start(pics, p.k)
  }

  /** What holds between calls: the next byte belongs to picture `k`; a sequence start about to begin
      will get its stamp and its flag; only a picture about to begin gets a stamp at the front. */
  ghost predicate PlaceOk(pics: seq<Picture>, p: Place) {
    && Fits(pics, p)
    && (p.flag == StartSeq <==> AtStart(pics, p) && pics[p.k].flag == StartSeq)
    && (p.flag == StartSeq ==> p.setPts)
    && (p.setPts ==> AtStart(pics, p))
  }

  /** Picture `i` begins in the pack from `p` to `q`, after the pack's first byte. */
  ghost predicate BeginsWithin(pics: seq<Picture>, p: Place, q: Place, i: nat)
    requires i < |pics|
  {
    p.k < i && (i < q.k || (i == q.k && Start(pics, i) < q.at))
  }

  /** The PES header of a pack: length, flags, and the stamp if there is one. */
  function VideoHeader(len: nat, stamp: Option<real>): (h: seq<Byte>)
    requires 6 <= len < 0x1_0000
    ensures |h| == if stamp.None? then 9 else 14
  {
    [0, 0, 1, 0xe0, (len - 6) / 0x100, (len - 6) % 0x100, 0x80] +
    (match stamp case None => [0, 0] case Some(t) => [0x80, 5] + PtsBytesG(PtsTicks(t)))
  }

  /** The stamp of a pack from `p` that has reached picture `k`: the picture at its front if that is
      due one, or else the first one to begin within. */
  function Stamp(pics: seq<Picture>, c: real, p: Place, k: nat): Option<real>
    requires p.k <= k < |pics|
  {
    if p.setPts then Some(Due(pics, c, p.k)) else
    if p.k < k then Some(Due(pics, c, p.k + 1)) else None
  }

  function Zeros(n: nat): seq<Byte> { seq(n, _ => 0) }

  /** The bytes of a pack with `fill` bytes of padding. */
  function PackBytes(pics: seq<Picture>, p: Place, at: nat, len: nat, stamp: Option<real>, fill: nat): seq<Byte>
    requires 6 <= len < 0x1_0000 && p.at <= at <= |Stream(pics)|
  {
    VideoHeader(len, stamp) + Stream(pics)[p.at..at] + Zeros(fill)
  }

  ghost predicate Moved(pics: seq<Picture>, p: Place, q: Place) {
    && Fits(pics, p) && Fits(pics, q) && p.k <= q.k && p.at <= q.at <= |Stream(pics)|
    && (forall i :: p.k < i < q.k ==> pics[i].flag != StartSeq)
  }

  /** The last picture of the pack from `p` to `q`: one that has not begun is not part of it. */
  function Last(pics: seq<Picture>, p: Place, q: Place): nat
    requires q.k < |pics|
  {
    if p.k < q.k && Start(pics, q.k) == q.at then q.k - 1 else q.k
  }

  /** The room left in a pack of `len` bytes from `p` when picture `i` is reached. */
  function RoomAt(pics: seq<Picture>, p: Place, len: nat, i: nat): int
    requires p.k < i < |pics|
  {
    len - (if p.setPts || p.k + 1 < i then 14 else 9) - (Start(pics, i) - p.at)
  }

  /** No picture begins within a pack unless there is room for 30 bytes. */
  ghost predicate Roomy(pics: seq<Picture>, p: Place, len: nat, last: nat)
    requires last < |pics|
  {
    forall i :: p.k < i <= last ==> RoomAt(pics, p, len, i) >= MIN_ROOM
  }

  /** What one call does: the pack is filled exactly, from `p` to `q` of the stream; padding stands only
      before a picture about to begin, when that starts a sequence or less than 30 bytes were left; no
      sequence start begins within. */
  ghost predicate Filled(pics: seq<Picture>, c: real, p: Place, pack: Pack, fill: nat, q: Place) {
    && Moved(pics, p, q) && PlaceOk(pics, q) && (p.k < q.k || p.at < q.at)
    && 6 <= |pack.pes| < 0x1_0000
    && pack.pes == PackBytes(pics, p, q.at, |pack.pes|, Stamp(pics, c, p, Last(pics, p, q)), fill)
    && Roomy(pics, p, |pack.pes|, Last(pics, p, q))
    && (fill > 0 ==> AtStart(pics, q) && (pics[q.k].flag == StartSeq || fill < MIN_ROOM))
    && (p.k < q.k && !AtStart(pics, q) ==> pics[q.k].flag != StartSeq)
    && (q.setPts <==> AtStart(pics, q) && (pics[q.k].flag == StartSeq || fill > 0))
    && q.flag != StartGop
    && pack.flag == p.flag && pack.scr == (if p.flag == NoStart then p.scr + TICKS else p.scr)
    && q.scr == (if q.flag == StartSeq then Due(pics, c, q.k) - VIDEO_FORERUN else pack.scr)
  }

  /** The pictures end before a pack of `len` bytes from `p` does: none of those after the current one would
      end the pack in front of it, and the rest of the stream fits in. */
  ghost predicate Exhausted(pics: seq<Picture>, p: Place, len: nat)
    requires |pics| > 0
  {
    var last := |pics| - 1;
    && (forall i :: p.k < i <= last ==> pics[i].flag != StartSeq)
    && Roomy(pics, p, len, last)
    && (if p.setPts || p.k < last then 14 else 9) + (|Stream(pics)| - p.at) <= len
  }

  // ---------------------------------------------------------------- a pack being filled

  /** Copying more of picture `k` continues the stream. */
  lemma CopyContinues(pics: seq<Picture>, k: nat, from: nat, a: nat, b: nat)
    requires k < |pics| && a <= b <= |pics[k].data| && from <= Start(pics, k) + a
    ensures Start(pics, k) + b <= |Stream(pics)|
    ensures Stream(pics)[from..Start(pics, k) + a] + pics[k].data[a..b] == Stream(pics)[from..Start(pics, k) + b]
  {
    hide Stream, Start, UpTo;
    PictureInStream(pics, k);
    var s, o := Stream(pics), Start(pics, k);
    Slices(s, from, o, o + |pics[k].data|, a, b);
  }

  lemma PictureSlice(pics: seq<Picture>, k: nat, a: nat, b: nat)
    requires k < |pics| && a <= b <= |pics[k].data|
    ensures Start(pics, k) + b <= |Stream(pics)|
    ensures pics[k].data[a..b] == Stream(pics)[Start(pics, k) + a..Start(pics, k) + b]
  {
    hide Start, Stream, UpTo;
    CopyContinues(pics, k, Start(pics, k) + a, a, b);
  }

  lemma Slices(s: seq<Byte>, from: nat, o: nat, e: nat, a: nat, b: nat)
    requires from <= o + a && a <= b && o + b <= e <= |s|
    ensures s[from..o + a] + s[o..e][a..b] == s[from..o + b]
  {
    var x, y := s[o..e][a..b], s[o + a..o + b];
    forall i | 0 <= i < b - a
      ensures x[i] == y[i]
    {
      assert x[i] == s[o..e][a + i] == s[o + a + i];
    }
    assert x == y;
  }

  /** A pack of `len` bytes whose bytes so far are `pes`, with room for more. */
  ghost predicate Partial(pics: seq<Picture>, c: real, p: Place, q: Place, pes: seq<Byte>, len: nat) {
    && 15 <= len <= PACK && |pes| < len && Moved(pics, p, q)
    && (p.k < q.k ==> pics[q.k].flag != StartSeq)
    && Roomy(pics, p, len, q.k)
    && pes == VideoHeader(len, Stamp(pics, c, p, q.k)) + Stream(pics)[p.at..q.at]
  }

  /** ... which has just got the last byte of picture `k`, and may be full. */
  ghost predicate Boundary(pics: seq<Picture>, c: real, p: Place, k: nat, pes: seq<Byte>, len: nat) {
    && 15 <= len <= PACK && |pes| <= len && Fits(pics, p) && p.k <= k && k + 1 < |pics|
    && (forall i :: p.k < i <= k ==> pics[i].flag != StartSeq)
    && Roomy(pics, p, len, k)
    && p.at <= Start(pics, k + 1) <= |Stream(pics)|
    && pes == VideoHeader(len, Stamp(pics, c, p, k)) + Stream(pics)[p.at..Start(pics, k + 1)]
  }

  function PackScr(p: Place): real { if p.flag == NoStart then p.scr + TICKS else p.scr }

  /** Where the next pack begins when this one ends before picture `k`. */
  function Resume(pics: seq<Picture>, c: real, k: nat, fill: nat, scr: real): Place
    requires k < |pics|
  {
    if pics[k].flag == StartSeq then Place(k, Start(pics, k), true, StartSeq, Due(pics, c, k) - VIDEO_FORERUN)
    else Place(k, Start(pics, k), fill > 0, NoStart, scr)
  }

  /** A header and a stretch of the stream go on with what follows in the stream. */
  lemma Extended(s: seq<Byte>, h: seq<Byte>, a: nat, b: nat, c: nat)
    requires a <= b <= c <= |s|
    ensures (h + s[a..b]) + s[b..c] == h + s[a..c]
  {
    assert s[a..b] + s[b..c] == s[a..c];
  }

  /** The pack is full within a picture. */
  lemma FullWithin(pics: seq<Picture>, c: real, p: Place, q: Place, pes: seq<Byte>, len: nat)
    requires Partial(pics, c, p, q, pes, len)
    requires q.at + (len - |pes|) < Start(pics, q.k + 1) <= |Stream(pics)|
    requires !q.setPts && q.flag == NoStart && q.scr == PackScr(p)
    ensures var q' := q.(at := q.at + (len - |pes|));
            Filled(pics, c, p, Pack(pes + Stream(pics)[q.at..q'.at], q.scr, p.flag), 0, q')
  {
    var s, h := Stream(pics), VideoHeader(len, Stamp(pics, c, p, q.k));
    hide Stream, Start, UpTo, VideoHeader, Stamp, Roomy, Due;
    var q' := q.(at := q.at + (len - |pes|));
    Extended(s, h, p.at, q.at, q'.at);
    assert h + s[p.at..q'.at] + Zeros(0) == h + s[p.at..q'.at];
  }

  lemma Resumes(pics: seq<Picture>, c: real, p: Place, k: nat, fill: nat, scr: real)
    requires Fits(pics, p) && p.k <= k && k + 1 < |pics| && p.at <= Start(pics, k + 1) <= |Stream(pics)|
    requires forall i :: p.k < i <= k ==> pics[i].flag != StartSeq
    ensures var q := Resume(pics, c, k + 1, fill, scr);
            && q.k == k + 1 && AtStart(pics, q) && Last(pics, p, q) == k && Moved(pics, p, q) && PlaceOk(pics, q)
            && (q.setPts <==> pics[q.k].flag == StartSeq || fill > 0) && q.flag != StartGop
            && q.scr == (if q.flag == StartSeq then Due(pics, c, q.k) - VIDEO_FORERUN else scr)
  {
    PictureInStream(pics, k + 1);
    hide Stream, Start, UpTo, Due;
  }

  /** The pack ends before a picture. */
  lemma FullBefore(pics: seq<Picture>, c: real, p: Place, k: nat, pes: seq<Byte>, len: nat)
    requires Boundary(pics, c, p, k, pes, len)
    requires pics[k + 1].flag == StartSeq || len - |pes| < MIN_ROOM
    ensures var q := Resume(pics, c, k + 1, len - |pes|, PackScr(p));
            Filled(pics, c, p, Pack(pes + Zeros(len - |pes|), PackScr(p), p.flag), len - |pes|, q)
  {
    var fill := len - |pes|;
    Resumes(pics, c, p, k, fill, PackScr(p));
    var q := Resume(pics, c, k + 1, fill, PackScr(p));
    assert pes + Zeros(fill) == PackBytes(pics, p, q.at, len, Stamp(pics, c, p, k), fill);
    assert |pes + Zeros(fill)| == len;
    hide Stream, Start, UpTo, VideoHeader, Stamp, Due, Moved, PlaceOk, Roomy, Last, Resume, PackBytes, Zeros, Fits;
  }

  /** The pack goes on with the next picture. */
  lemma GoesOn(pics: seq<Picture>, c: real, p: Place, k: nat, pes: seq<Byte>, len: nat, q: Place)
    requires Boundary(pics, c, p, k, pes, len)
    requires pics[k + 1].flag != StartSeq && len - |pes| >= MIN_ROOM
    requires q.k == k + 1 && q.at == Start(pics, k + 1)
    ensures Fits(pics, q)
    ensures Stamp(pics, c, p, k).Some? ==> Partial(pics, c, p, q, pes, len)
    ensures Stamp(pics, c, p, k).None? ==>
              var stamp := Some(Due(pics, c, k + 1));
              Partial(pics, c, p, q, VideoHeader(len, stamp) + pes[9..], len)
  {
    PictureInStream(pics, k + 1);
    var h, d := VideoHeader(len, Stamp(pics, c, p, k)), Stream(pics)[p.at..q.at];
    assert |pes| == |h| + |d|;
    if Stamp(pics, c, p, k).None? {
      assert pes[9..] == d;
    }
    hide Stream, Start, UpTo, VideoHeader;
    assert RoomAt(pics, p, len, k + 1) >= MIN_ROOM;
  }

  /** A picture's last byte has been copied. */
  lemma Finishes(pics: seq<Picture>, c: real, p: Place, q: Place, pes: seq<Byte>, len: nat)
    requires Partial(pics, c, p, q, pes, len) && q.k + 1 < |pics|
    requires |pes| + (Start(pics, q.k + 1) - q.at) <= len
    ensures Start(pics, q.k + 1) <= |Stream(pics)|
    ensures Boundary(pics, c, p, q.k, pes + Stream(pics)[q.at..Start(pics, q.k + 1)], len)
  {
    PictureInStream(pics, q.k);
    var s, e := Stream(pics), Start(pics, q.k + 1);
    hide Stream, Start, UpTo, VideoHeader, Stamp, Roomy, Due;
    Extended(s, VideoHeader(len, Stamp(pics, c, p, q.k)), p.at, q.at, e);
    assert |pes + s[q.at..e]| == |pes| + (e - q.at);
  }

  /** The last byte of the last picture has been copied. */
  lemma EndReached(pics: seq<Picture>, c: real, p: Place, q: Place, pes: seq<Byte>, len: nat)
    requires Partial(pics, c, p, q, pes, len) && q.k + 1 == |pics|
    requires |pes| + (Start(pics, q.k + 1) - q.at) <= len
    ensures Exhausted(pics, p, len)
  {
    hide UpTo, VideoHeader, Due, Roomy;
    assert |pes| == |VideoHeader(len, Stamp(pics, c, p, q.k))| + (q.at - p.at);
  }

  /** `fill_pes_pts` turns a header without a stamp into one with it. */
  lemma Stamped(b: seq<Byte>, b': seq<Byte>, pes: nat, len: nat, pts: real)
    requires 6 <= len < 0x1_0000 && pes + 14 <= |b| == |b'|
    requires b[pes..pes + 9] == VideoHeader(len, None)
    requires b'[..pes + 7] == b[..pes + 7] && b'[pes + 7] == 0x80 && b'[pes + 8] == 5
    requires b'[pes + 9..pes + 14] == PtsBytesG(PtsTicks(pts))
    ensures b'[pes..pes + 14] == VideoHeader(len, Some(pts))
  {
    hide PtsBytesG, PtsTicks;
    assert b'[pes..pes + 7] == b'[..pes + 7][pes..] == b[..pes + 7][pes..] == b[pes..pes + 9][..7];
    assert b'[pes..pes + 14] == b'[pes..pes + 7] + [0x80, 5] + b'[pes + 9..pes + 14];
  }

  /** The bytes of a header that say whether there is a stamp. */
  lemma HeaderFlags(len: nat)
    requires 6 <= len < 0x1_0000
    ensures VideoHeader(len, None)[7] == 0 && VideoHeader(len, None)[8] == 0
    ensures forall t: real :: VideoHeader(len, Some(t))[8] == 5
  {
  }

  lemma BoundaryHeader(pics: seq<Picture>, c: real, p: Place, k: nat, pes: seq<Byte>, len: nat)
    requires Boundary(pics, c, p, k, pes, len)
    ensures |pes| >= 9 && (pes[8] == 0 <==> Stamp(pics, c, p, k).None?)
    ensures pes[8] == 0 ==> pes[..9] == VideoHeader(len, None)
  {
    HeaderFlags(len);
    hide Start, UpTo, Stream, Stamp, VideoHeader;
  }

  /** A pack with nothing but its header. */
  lemma Begins(pics: seq<Picture>, c: real, p: Place, q: Place, pes: seq<Byte>, len: nat)
    requires Fits(pics, p) && q.k == p.k && q.at == p.at && 15 <= len <= PACK
    requires pes == VideoHeader(len, if p.setPts then Some(Due(pics, c, p.k)) else None)
    ensures Partial(pics, c, p, q, pes, len)
  {
    PictureInStream(pics, p.k);
    hide Start, UpTo, Stream, VideoHeader;
  }

  lemma FilledFits(pics: seq<Picture>, c: real, p: Place, pack: Pack, fill: nat, q: Place)
    requires Filled(pics, c, p, pack, fill, q)
    ensures PlaceOk(pics, q)
  {
    hide PlaceOk, Moved, PackBytes, Roomy, Stamp, Start, Due;
  }

  lemma PlaceFits(pics: seq<Picture>, p: Place)
    requires PlaceOk(pics, p)
    ensures Fits(pics, p)
  {
  }

  lemma InitiallyFits(pics: seq<Picture>, c: real)
    requires |pics| > 0
    ensures Start(pics, 0) == 0 && PlaceOk(pics, Initially(pics, c))
  {
    PictureInStream(pics, 0);
  }

  /** Bytes put behind what a packet holds so far. */
  lemma Appended(b: seq<Byte>, b': seq<Byte>, pes: nat, at: nat, at': nat, x: seq<Byte>)
    requires pes <= at <= at' <= |b| == |b'| && b'[..at] == b[..at] && b'[at..at'] == x
    ensures b'[..pes] == b[..pes] && b'[pes..at'] == b[pes..at] + x
  {
    assert b'[0..at] == b[0..at];
    Kept(b, b', 0, at, pes, at);
    Kept(b, b', 0, at, 0, pes);
    SlicesJoin(b', pes, at, at', b[pes..at], x);
  }

  /** Packs that agree up to the PES packet have the same pack header. */
  lemma SameHead(b: seq<Byte>, b': seq<Byte>, pes: nat)
    requires 14 <= pes <= |b| == |b'| && b'[..pes] == b[..pes]
    ensures b'[..4] == b[..4] && b'[10..14] == b[10..14]
  {
    assert b'[0..pes] == b[0..pes];
    Kept(b, b', 0, pes, 0, 4);
    Kept(b, b', 0, pes, 10, 14);
  }

  // ---------------------------------------------------------------- the packer

  class VideoStream {
    ghost const pics: seq<Picture>
    ghost const offset: real
    ghost var k: nat
    var list: seq<Picture>
    var first: bool
    var elem: Picture
    var act: nat
    var rest: nat
    var flag: StartFlag
    var scrWanted: real
    var setPts: bool
    var correct: real

    ghost predicate Holds()
      reads this
    {
      && k < |pics| && list == pics[k..] && elem == pics[k]
      && act + rest == |elem.data| && correct == Offset(pics, offset, k)
    }

    ghost function Cursor(): Place
      requires k <= |pics|
      reads this
    {
      Place(k, Start(pics, k) + act, setPts, flag, scrWanted)
    }

    ghost predicate Valid()
      reads this
    {
      if first then k == 0 && list == pics && correct == offset else Holds() && PlaceOk(pics, Cursor())
    }

    ghost function Here(): Place
      requires Valid() && |pics| > 0
      reads this
    {
      if first then Initially(pics, offset) else Cursor()
    }

    /** `get_elem` and what follows it: the picture at the head of the list becomes the current one. */
    method Fetch() returns (ok: bool)
      requires k <= |pics| && list == pics[k..]
      modifies this`elem, this`act, this`rest
      ensures ok <==> list != []
      ensures ok ==> k < |pics| && elem == pics[k] && act == 0 && rest == |elem.data|
    {
      ok := list != [];
      if ok {
        elem := list[0];
        act, rest := 0, |elem.data|;
      }
    }

    /** `discard_elem`, then `get_elem`, and the correction for stamps that wrapped. */
    method NextPicture() returns (ok: bool)
      requires Holds()
      modifies this`k, this`list, this`elem, this`act, this`rest, this`correct
      ensures k == old(k) + 1 && |list| == old(|list|) - 1
      ensures if ok then Holds() && act == 0 else list == []
    {
      list := list[1..];
      k := k + 1;
      ok := Fetch();
      if ok && elem.pts < 200_000.0 && correct > TWO_32 as real {
        correct := correct - TWO_33 as real;
      }
    }

    /** `CopyBuffer` of `n` bytes of the current picture into the pack. */
    method CopyPart(pp: Propack, at: nat, n: nat)
      requires Holds() && n <= rest && at + n <= pp.buffer.Length
      modifies this`act, this`rest, pp.buffer
      ensures Holds() && act == old(act) + n
      ensures pp.buffer[..at] == old(pp.buffer[..at])
      ensures pp.buffer[at..at + n] == elem.data[old(act)..act]
    {
      pp.Store(at, elem.data[act..act + n]);
      act, rest := act + n, rest - n;
    }

    /** The PES header without a stamp. */
    method PutPlainHeader(pp: Propack, pes: nat)
      requires pes + 15 <= pp.buffer.Length == PACK
      modifies pp.buffer
      ensures pp.buffer[..pes] == old(pp.buffer[..pes])
      ensures pp.buffer[pes..pes + 9] == VideoHeader(PACK - pes, None)
    {
      var len := PACK - pes;
      pp.Store(pes, [0, 0, 1, 0xe0, (len - 6) / 0x100, (len - 6) % 0x100, 0x80, 0, 0]);
    }

    /** `fill_pes_pts` with the current picture's stamp on a header without one. */
    method PutStamp(pp: Propack, pes: nat)
      requires Holds() && pes + 15 <= pp.buffer.Length == PACK
      requires pp.buffer[pes..pes + 9] == VideoHeader(PACK - pes, None)
      modifies pp.buffer
      ensures pp.buffer[..pes] == old(pp.buffer[..pes]) && pp.buffer[pes + 14..] == old(pp.buffer[pes + 14..])
      ensures pp.buffer[pes..pes + 14] == VideoHeader(PACK - pes, Some(Due(pics, offset, k)))
    {
      hide VideoHeader, PtsBytesG, PtsTicks;
      ghost var b := pp.buffer[..];
      assert b[pes + 7] == b[pes..pes + 9][7] == 0 by { HeaderFlags(PACK - pes); }
      pp.FillPts(pes, elem.pts - correct);
      ghost var b' := pp.buffer[..];
      Stamped(b, b', pes, PACK - pes, elem.pts - correct);
      assert b'[0..pes + 7] == b[0..pes + 7];
      Kept(b, b', 0, pes + 7, 0, pes);
    }

    /** The PES header, with a stamp if one is due. The data alignment bit is never set: the start flag
        has already been cleared when it is looked at. */
    method PutHeader(pp: Propack, pes: nat) returns (at: nat)
      requires Holds() && pes + 15 <= pp.buffer.Length == PACK
      modifies this`setPts, pp.buffer
      ensures !setPts && at == pes + (if old(setPts) then 14 else 9)
      ensures pp.buffer[..pes] == old(pp.buffer[..pes])
      ensures pp.buffer[pes..at] == VideoHeader(PACK - pes, if old(setPts) then Some(Due(pics, offset, k)) else None)
    {
      hide VideoHeader, Due;
      PutPlainHeader(pp, pes);
      at := pes + 9;
      if setPts {
        setPts := false;
        PutStamp(pp, pes);
        at := at + 5;
      }
    }

    /** The late stamp: what follows the header moves up five bytes. */
    method InsertStamp(pp: Propack, pes: nat, at: nat)
      requires Holds() && pes + 9 <= at && at + 6 <= pp.buffer.Length == PACK
      requires pp.buffer[pes..pes + 9] == VideoHeader(PACK - pes, None)
      modifies pp.buffer
      ensures pp.buffer[..pes] == old(pp.buffer[..pes])
      ensures pp.buffer[pes..at + 5]
           == VideoHeader(PACK - pes, Some(Due(pics, offset, k))) + old(pp.buffer[pes + 9..at])
    {
      hide VideoHeader, Due;
      ghost var b0 := pp.buffer[..];
      pp.MakeRoom(pes + 9, at - (pes + 9));
      ghost var b1 := pp.buffer[..];
      assert b1[0..pes + 9] == b0[0..pes + 9];
      Kept(b0, b1, 0, pes + 9, pes, pes + 9);
      Kept(b0, b1, 0, pes + 9, 0, pes);
      PutStamp(pp, pes);
      ghost var b2 := pp.buffer[..];
      assert b2[pes + 14..PACK] == b1[pes + 14..PACK];
      Kept(b1, b2, pes + 14, PACK, pes + 14, at + 5);
      SlicesJoin(b2, pes, pes + 14, at + 5, VideoHeader(PACK - pes, Some(Due(pics, offset, k))), b0[pes + 9..at]);
    }

    /** The part of the state a pack being filled relies on. */
    ghost predicate Between(pp: Propack, p: Place)
      reads this, pp, pp.buffer
    {
      && Holds() && !first && flag == NoStart && !setPts && scrWanted == PackScr(p)
      && pp.buffer.Length == PACK
    }

    /** The rest of the pack is filled with zeros. */
    method Close(pp: Propack, pes: nat, at: nat, ghost p: Place)
      requires pp.buffer.Length == PACK && 14 <= pes <= at <= PACK
      requires Holds() && k > 0 && act == 0 && !first
      requires Boundary(pics, offset, p, k - 1, pp.buffer[pes..at], PACK - pes)
      requires elem.flag == StartSeq || PACK - at < MIN_ROOM
      requires Cursor() == Resume(pics, offset, k, PACK - at, PackScr(p))
      modifies pp.buffer
      ensures pp.buffer[..pes] == old(pp.buffer[..pes])
      ensures Filled(pics, offset, p, Pack(pp.buffer[pes..], PackScr(p), p.flag), PACK - at, Cursor())
    {
      hide VideoHeader, Filled, Boundary, Start, UpTo, Stream, Resume;
      ghost var b := pp.buffer[..];
      pp.Clear(at, PACK - at);
      ghost var b' := pp.buffer[..];
      assert b'[0..at] == b[0..at];
      Kept(b, b', 0, at, pes, at);
      Kept(b, b', 0, at, 0, pes);
      SlicesJoin(b', pes, at, PACK, b[pes..at], Zeros(PACK - at));
      FullBefore(pics, offset, p, k - 1, b[pes..at], PACK - pes);
      assert PACK - pes - |b[pes..at]| == PACK - at;
      assert pp.buffer[pes..] == b'[pes..PACK];
      assert pp.buffer[..pes] == b'[0..pes];
    }

    /** Lines 176-219: the current picture is finished, and the next one decides how the pack goes on. */
    method AfterPicture(pp: Propack, pes: nat, at: nat, ghost p: Place)
        returns (ok: bool, at': nat, ghost fill: nat)
      requires Between(pp, p) && act == |elem.data|
      requires 14 <= pes <= at <= PACK
      requires k + 1 < |pics| ==> Boundary(pics, offset, p, k, pp.buffer[pes..at], PACK - pes)
      modifies this, pp.buffer
      ensures !ok ==> list == []
      ensures ok <==> old(k) + 1 < |pics|
      ensures ok ==> pes <= at' <= PACK && pp.buffer[..pes] == old(pp.buffer[..pes]) && |list| < old(|list|)
      ensures ok && at' < PACK ==>
                Between(pp, p) && Partial(pics, offset, p, Cursor(), pp.buffer[pes..at'], PACK - pes)
      ensures ok && at' == PACK ==>
                Holds() && !first && Filled(pics, offset, p, Pack(pp.buffer[pes..], PackScr(p), p.flag), fill, Cursor())
    {
      hide VideoHeader, Filled, Partial, Boundary, Start, UpTo, Stream;
      ok := NextPicture();
      if !ok { return false, at, 0; }
      at', fill := PACK, PACK - at;
      if elem.flag == StartSeq {
        flag, setPts := elem.flag, true;
        scrWanted := elem.pts - correct - VIDEO_FORERUN;
        Close(pp, pes, at, p);
      } else if PACK - at < MIN_ROOM {
        if at < PACK { setPts := true; }
        Close(pp, pes, at, p);
      } else {
        ghost var b := pp.buffer[..];
        GoesOn(pics, offset, p, k - 1, b[pes..at], PACK - pes, Cursor());
        BoundaryHeader(pics, offset, p, k - 1, b[pes..at], PACK - pes);
        assert b[pes..at][8] == b[pes + 8];
        at' := at;
        if pp.buffer[pes + 8] == 0 {
          assert b[pes..at][..9] == b[pes..pes + 9] && b[pes..at][9..] == b[pes + 9..at];
          InsertStamp(pp, pes, at);
          at' := at + 5;
        }
      }
    }

    /** Copies as much of the current picture as fits. */
    method CopyMost(pp: Propack, pes: nat, at: nat) returns (at': nat)
      requires 14 <= pes <= at < PACK == pp.buffer.Length && Holds()
      modifies this`act, this`rest, pp.buffer
      ensures Holds() && at <= at' <= PACK && (rest == 0 || at' == PACK)
      ensures pp.buffer[..pes] == old(pp.buffer[..pes])
      ensures act == old(act) + (at' - at) && Start(pics, k) + act <= |Stream(pics)|
      ensures pp.buffer[pes..at'] == old(pp.buffer[pes..at]) + Stream(pics)[old(Cursor().at)..Cursor().at]
    {
      hide Start, UpTo, Stream;
      var n := if rest < PACK - at then rest else PACK - at;
      ghost var b := pp.buffer[..];
      CopyPart(pp, at, n);
      at' := at + n;
      PictureSlice(pics, k, act - n, act);
      Appended(b, pp.buffer[..], pes, at, at', Stream(pics)[Start(pics, k) + (act - n)..Start(pics, k) + act]);
    }

    /** One round of the copy loop. */
    method Round(pp: Propack, pes: nat, at: nat, ghost p: Place) returns (ok: bool, at': nat, ghost fill: nat)
      requires 14 <= pes <= at < PACK && Between(pp, p)
      requires Partial(pics, offset, p, Cursor(), pp.buffer[pes..at], PACK - pes)
      modifies this, pp.buffer
      ensures !ok ==> list == [] && Exhausted(pics, p, PACK - pes)
      ensures ok ==> pes <= at' <= PACK && pp.buffer[..pes] == old(pp.buffer[..pes])
      ensures ok ==> |list| <= old(|list|) && (|list| < old(|list|) || at' == PACK)
      ensures ok && at' < PACK ==>
                Between(pp, p) && Partial(pics, offset, p, Cursor(), pp.buffer[pes..at'], PACK - pes)
      ensures ok && at' == PACK ==>
                Holds() && !first && Filled(pics, offset, p, Pack(pp.buffer[pes..], PackScr(p), p.flag), fill, Cursor())
    {
      hide VideoHeader, Filled, Partial, Boundary, Exhausted, Start, UpTo, Stream;
      ghost var b, q := pp.buffer[pes..at], Cursor();
      at' := CopyMost(pp, pes, at);
      PictureInStream(pics, k);
      if rest == 0 {
        if k + 1 < |pics| {
          Finishes(pics, offset, p, q, b, PACK - pes);
        } else {
          EndReached(pics, offset, p, q, b, PACK - pes);
        }
        ok, at', fill := AfterPicture(pp, pes, at', p);
      } else {
        FullWithin(pics, offset, p, q, b, PACK - pes);
        assert pp.buffer[pes..] == pp.buffer[pes..PACK];
        ok, fill := true, 0;
      }
    }

    /** The first call fetches the first picture. */
    method Prepare() returns (ok: bool)
      requires Valid()
      modifies this
      ensures if ok then |pics| > 0 && !first && Holds() && PlaceOk(pics, Cursor()) && Cursor() == old(Here())
              else list == [] && pics == []
    {
      hide PlaceOk, UpTo;
      ok := true;
      if first {
        if |pics| > 0 { InitiallyFits(pics, offset); }
        first := false;
        ok := Fetch();
        if ok { flag, scrWanted, setPts := elem.flag, elem.pts - correct - VIDEO_FORERUN, true; }
      }
    }

    /** The copy loop. */
    method CopyAll(pp: Propack, pes: nat, start: nat, ghost p: Place) returns (ok: bool, ghost fill: nat)
      requires 14 <= pes <= start < PACK && Between(pp, p)
      requires Partial(pics, offset, p, Cursor(), pp.buffer[pes..start], PACK - pes)
      modifies this, pp.buffer
      ensures !ok ==> list == [] && Exhausted(pics, p, PACK - pes)
      ensures ok ==> pp.buffer[..pes] == old(pp.buffer[..pes])
      ensures ok ==> Holds() && !first && Filled(pics, offset, p, Pack(pp.buffer[pes..], PackScr(p), p.flag), fill, Cursor())
    {
      hide VideoHeader, Filled, Partial, Exhausted, Start, UpTo, Stream;
      var at := start;
      ok, fill := true, 0;
      while at < PACK
        invariant pes <= at <= PACK
        invariant pp.buffer[..pes] == old(pp.buffer[..pes])
        invariant at < PACK ==>
                    Between(pp, p) && Partial(pics, offset, p, Cursor(), pp.buffer[pes..at], PACK - pes)
        invariant at == PACK ==>
                    Holds() && !first && Filled(pics, offset, p, Pack(pp.buffer[pes..], PackScr(p), p.flag), fill, Cursor())
        decreases |list|, PACK - at
      {
        ok, at, fill := Round(pp, pes, at, p);
        if !ok { return; }
      }
      ok := true;
    }

    /** `fill_video_pp`. Running out of pictures is a timeout: it fails exactly if they end before the pack
        does. */
    method FillVideo(pp: Propack) returns (ok: bool, ghost fill: nat)
      requires Valid() && pp.Valid() && pp.act + 15 <= PACK
      modifies this, pp, pp.buffer
      ensures !ok ==> list == []
      ensures ok <==> |pics| > 0 && !Exhausted(pics, old(Here()), PACK - old(pp.act))
      ensures ok ==> pp.Valid() && pp.act == PACK && pp.buffer[..old(pp.act)] == old(pp.buffer[..pp.act])
      ensures ok ==> |pics| > 0 && Valid() && !first
      ensures ok ==> Filled(pics, offset, old(Here()), Pack(pp.buffer[old(pp.act)..], pp.scrWanted, pp.flag), fill, Here())
    {
      hide VideoHeader, Filled, Partial, PlaceOk, Exhausted, Start, UpTo, Stream, Initially, Due;
      fill := 0;
      ghost var b0 := pp.buffer[..];
      ok := Prepare();
      if !ok { return; }
      ghost var p := Cursor();
      if flag == NoStart { scrWanted := scrWanted + TICKS; }
      pp.scrWanted, pp.flag, flag := scrWanted, flag, NoStart;
      var pes := pp.act;
      var at := PutHeader(pp, pes);
      assert Fits(pics, p) by { PlaceFits(pics, p); }
      Begins(pics, offset, p, Cursor(), pp.buffer[pes..at], PACK - pes);
      ok, fill := CopyAll(pp, pes, at, p);
      if !ok { return; }
      ExhaustedFillsNone(pics, offset, p, Pack(pp.buffer[pes..], PackScr(p), p.flag), fill, Cursor());
      pp.act := pp.act + (PACK - pes);
      FilledFits(pics, offset, p, Pack(pp.buffer[pes..], PackScr(p), p.flag), fill, Cursor());
      ghost var b := pp.buffer[..];
      assert b[..pes] == b0[..pes];
      SameHead(b0, b, pes);
    }

    constructor (index: seq<Picture>, startPts: real)
      ensures Valid() && first && pics == index && offset == startPts
    {
      pics, offset, k, list := index, startPts, 0, index;
      first, correct := true, startPts;
      elem, act, rest, flag, scrWanted, setPts := Picture([], 0.0, NoStart), 0, 0, NoStart, 0.0, false;
    }
  }

  // ---------------------------------------------------------------- what determines a pack

  /** The length of a pack in terms of its header, its data and its padding. */
  lemma Lengths(pics: seq<Picture>, c: real, p: Place, pack: Pack, fill: nat, q: Place)
    requires Filled(pics, c, p, pack, fill, q)
    ensures var last := Last(pics, p, q);
            p.k <= last && |pack.pes| == (if p.setPts || p.k < last then 14 else 9) + (q.at - p.at) + fill
  {
    hide Roomy, PlaceOk, UpTo, Stream, Start, Due;
    var last := Last(pics, p, q);
    assert |pack.pes| == |VideoHeader(|pack.pes|, Stamp(pics, c, p, last))| + (q.at - p.at) + fill;
    hide VideoHeader;
  }

  /** How much room there was for the pictures up to the end of a pack, and for the one after it. */
  lemma Rooms(pics: seq<Picture>, c: real, p: Place, pack: Pack, fill: nat, q: Place, i: nat)
    requires Filled(pics, c, p, pack, fill, q) && PlaceOk(pics, p) && p.k < i < |pics|
    ensures var room := RoomAt(pics, p, |pack.pes|, i);
            && (BeginsWithin(pics, p, q, i) ==> room >= MIN_ROOM && pics[i].flag != StartSeq)
            && (i == q.k && AtStart(pics, q) ==> room == fill && (room < MIN_ROOM || pics[i].flag == StartSeq))
            && (i == q.k + 1 && !(p.k < q.k && AtStart(pics, q)) ==> room < 0)
  {
    Lengths(pics, c, p, pack, fill, q);
    PictureInStream(pics, p.k);
    hide PackBytes, UpTo, Stream, Start, Due, Stamp;
  }

  /** `q'` cannot lie beyond `q`. */
  lemma NotBeyond(pics: seq<Picture>, c: real, p: Place, pack: Pack, fill: nat, q: Place,
                  pack': Pack, fill': nat, q': Place)
    requires Filled(pics, c, p, pack, fill, q) && Filled(pics, c, p, pack', fill', q')
    requires |pack.pes| == |pack'.pes| && PlaceOk(pics, p)
    ensures !(q.k < q'.k) && !(q.k == q'.k && q.at < q'.at)
  {
    Lengths(pics, c, p, pack, fill, q);
    Lengths(pics, c, p, pack', fill', q');
    var i := if p.k < q.k && AtStart(pics, q) then q.k else q.k + 1;
    if i < |pics| {
      Rooms(pics, c, p, pack, fill, q, i);
      Rooms(pics, c, p, pack', fill', q', i);
    }
    hide PackBytes, UpTo, Stream, Start, Due, Stamp, RoomAt, Roomy;
  }

  /** `Filled` leaves no choice: where a pack begins and how long it is determine it. */
  lemma FilledIsUnique(pics: seq<Picture>, c: real, p: Place, pack: Pack, fill: nat, q: Place,
                       pack': Pack, fill': nat, q': Place)
    requires Filled(pics, c, p, pack, fill, q) && Filled(pics, c, p, pack', fill', q')
    requires |pack.pes| == |pack'.pes| && PlaceOk(pics, p)
    ensures pack == pack' && fill == fill' && q == q'
  {
    NotBeyond(pics, c, p, pack, fill, q, pack', fill', q');
    NotBeyond(pics, c, p, pack', fill', q', pack, fill, q);
    Lengths(pics, c, p, pack, fill, q);
    Lengths(pics, c, p, pack', fill', q');
    hide PackBytes, UpTo, Stream, Start, Due, Stamp, Roomy;
  }

  /** Pictures that end before a pack does leave no way to fill it. */
  lemma ExhaustedFillsNone(pics: seq<Picture>, c: real, p: Place, pack: Pack, fill: nat, q: Place)
    requires Filled(pics, c, p, pack, fill, q) && PlaceOk(pics, p)
    ensures |pics| > 0 && !Exhausted(pics, p, |pack.pes|)
  {
    if Exhausted(pics, p, |pack.pes|) {
      Lengths(pics, c, p, pack, fill, q);
      PictureInStream(pics, q.k);
      if p.k < q.k { Rooms(pics, c, p, pack, fill, q, q.k); }
      hide PackBytes, UpTo, Stream, Due, Stamp;
    }
  }
}
