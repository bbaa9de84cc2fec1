/** Cutting elementary data into PES packets (grab's `create_audio_pes` and `create_video_pes`). */
module PesCutter {
  import opened Bytes
  import opened Timestamps
  import opened Packs
  import opened Remuxer
  import AudioInput
  import PesParser

  /** Conversion of a `double` to an unsigned integer; of a negative one, which C++ leaves undefined,
      to 0. */
  function ToUnsigned(x: real): nat { if x < 0.0 then 0 else x.Floor }

  /** A PES packet with a time stamp. `mark` is the private "sequence start" bit. */
  function Pes(id: Byte, mark: bool, pts: nat, data: seq<Byte>): (p: seq<Byte>)
    ensures |p| == 14 + |data|
  {
    [0, 0, 1, id, Hi(8 + |data|), Lo(8 + |data|), if mark then 0x81 else 0x80, 0x80, 5] + PtsBytes(pts) + data
  }

  /** What readers of the packet get back. */
  lemma PesIsReadable(id: Byte, mark: bool, pts: nat, data: seq<Byte>)
    requires 14 + |data| <= 0xffff
    ensures var p := Pes(id, mark, pts, data);
            && PesSize(p) == |p| && WellFormed(p) && ElementaryData(p) == data
            && p[7] >= 0x80 && LowPts(p[9..14]) == pts % TWO_32
  {
    var p := Pes(id, mark, pts, data);
    SizeFields(8 + |data|);
    assert p[9..14] == PtsBytes(pts);
    PtsRoundTrip(pts);
    assert p[14..] == data;
  }

  /** The share of `len` bytes that is done when `left` are left. */
  function Done(left: nat, len: nat): real
    requires len > 0
  {
    1.0 - left as real / len as real
  }

  lemma DoneGrows(left: nat, left': nat, len: nat)
    requires left' <= left <= len && len > 0
    ensures 0.0 <= Done(left, len) <= Done(left', len) <= 1.0
    ensures left == len ==> Done(left, len) == 0.0
  {
    ShareInRange(left, len);
    SharesInOrder(left, left', len);
  }

  lemma PositiveTimes(a: real, n: real)
    requires n > 0.0 && a > 0.0
    ensures a * n > 0.0
  {
  }

  /** Factors are in the order of their products. */
  lemma FactorsInOrder(a: real, b: real, n: real)
    requires n > 0.0 && a * n <= b * n
    ensures a <= b
  {
    assert (a - b) * n == a * n - b * n;
    if a > b { PositiveTimes(a - b, n); }
  }

  lemma ShareInRange(x: nat, len: nat)
    requires x <= len && len > 0
    ensures 0.0 <= x as real / len as real <= 1.0
    ensures x == len ==> x as real / len as real == 1.0
  {
    var n := len as real;
    var a := x as real / n;
    assert a * n == x as real;
    FactorsInOrder(0.0, a, n);
    FactorsInOrder(a, 1.0, n);
  }

  lemma SharesInOrder(x: nat, y: nat, len: nat)
    requires y <= x && len > 0
    ensures y as real / len as real <= x as real / len as real
  {
    var n := len as real;
    var a, b := x as real / n, y as real / n;
    assert a * n == x as real && b * n == y as real;
    FactorsInOrder(b, a, n);
  }

  /** `off` of `len` bytes, as a fraction. */
  function Fraction(off: nat, len: nat): real
    requires len > 0
  {
    off as real / len as real
  }

  /** The share that is done when `off` bytes are. */
  lemma DoneIs(off: nat, len: nat)
    requires off <= len && len > 0
    ensures Done(len - off, len) == Fraction(off, len)
  {
    var n := len as real;
    var a, b := (len - off) as real / n, off as real / n;
    assert a * n == (len - off) as real && b * n == off as real;
    assert (len - off) as real + off as real == n;
    assert (a + b) * n == a * n + b * n;
    FactorsInOrder(a + b, 1.0, n);
    FactorsInOrder(1.0, a + b, n);
  }

  lemma ScaleGrows(x: real, y: real, d: real)
    requires 0.0 <= x <= y && d >= 0.0
    ensures 0.0 <= x * d <= y * d
  {
  }

  /** Shares of a duration grow, from 0 to the whole. */
  lemma ShareGrows(left: nat, left': nat, len: nat, d: real)
    requires left' <= left <= len && len > 0 && d >= 0.0
    ensures 0.0 <= Done(left, len) * d <= Done(left', len) * d <= d
    ensures left == len ==> Done(left, len) * d == 0.0
  {
    hide Done;
    DoneGrows(left, left', len);
    ScaleGrows(Done(left, len), Done(left', len), d);
    ScaleGrows(Done(left', len), 1.0, d);
  }

  /** The time stamp of a piece: the time of the whole and the share of its duration already done. */
  function Stamp(pts: real, left: nat, len: nat, d: real): nat
    requires len > 0
  {
    ToUnsigned(pts) + ToUnsigned(Done(left, len) * d)
  }

  lemma StampGrows(pts: real, left: nat, left': nat, len: nat, d: real)
    requires left' <= left <= len && len > 0 && d >= 0.0
    ensures Stamp(pts, left, len, d) <= Stamp(pts, left', len, d)
  {
    hide Done;
    ShareGrows(left, left', len, d);
    FloorGrows(Done(left, len) * d, Done(left', len) * d);
  }

  /** ... and does not exceed the first stamp of what follows. */
  lemma StampNext(pts: real, left: nat, len: nat, d: real, len': nat)
    requires left <= len && len > 0 && len' > 0 && d >= 0.0 && pts >= 0.0
    ensures Stamp(pts, left, len, d) <= Stamp(pts + d, len', len', d)
  {
    hide Done;
    ShareGrows(left, 0, len, d);
    ShareGrows(len', len', len', d);
    FloorsAdd(pts, Done(left, len) * d, d);
  }

  lemma FloorGrows(x: real, y: real)
    requires x <= y
    ensures ToUnsigned(x) <= ToUnsigned(y)
  {
  }

  lemma FloorsAdd(a: real, x: real, d: real)
    requires a >= 0.0 && 0.0 <= x <= d
    ensures ToUnsigned(a) + ToUnsigned(x) <= ToUnsigned(a + d)
  {
  }

  /** One packet to be: its time stamp and its data. */
  datatype Piece = Piece(pts: nat, data: seq<Byte>)

  function Join(ps: seq<Piece>): seq<Byte> {
    if ps == [] then [] else ps[0].data + Join(ps[1..])
  }

  ghost predicate InTimeOrder(ps: seq<Piece>) {
    forall i :: 0 <= i < |ps| - 1 ==> ps[i].pts <= ps[i + 1].pts
  }

  ghost predicate AtMost(ps: seq<Piece>, n: nat) {
    forall i :: 0 <= i < |ps| ==> 0 < |ps[i].data| <= n
  }

  lemma SplitRest(s: seq<Byte>, off: nat, n: nat)
    requires off + n <= |s|
    ensures s[off..off + n] + s[off + n..] == s[off..]
  {
  }

  lemma NoPieces(n: nat)
    ensures Join([]) == [] && AtMost([], n) && InTimeOrder([])
  {
  }

  lemma OnlyOne(p: Piece)
    ensures InTimeOrder([p])
  {
  }

  lemma JoinCons(p: Piece, ps: seq<Piece>)
    ensures Join([p] + ps) == p.data + Join(ps)
  {
    assert ([p] + ps)[1..] == ps;
  }

  lemma AtMostCons(p: Piece, ps: seq<Piece>, n: nat)
    requires 0 < |p.data| <= n && AtMost(ps, n)
    ensures AtMost([p] + ps, n)
  {
  }

  lemma OrderCons(p: Piece, ps: seq<Piece>)
    requires ps != [] && InTimeOrder(ps) && p.pts <= ps[0].pts
    ensures InTimeOrder([p] + ps)
  {
    var all := [p] + ps;
    forall i | 0 <= i < |all| - 1
      ensures all[i].pts <= all[i + 1].pts
    {
      if i > 0 {
        assert all[i] == ps[i - 1] && all[i + 1] == ps[(i - 1) + 1];
      }
    }
  }

  lemma OrderFirst(p: Piece, ps: seq<Piece>)
    requires InTimeOrder(ps) && (ps != [] ==> p.pts <= ps[0].pts)
    ensures InTimeOrder([p] + ps)
  {
    if ps == [] {
      OnlyOne(p);
      assert [p] + [] == [p];
    } else {
      OrderCons(p, ps);
    }
  }

  // ---------------------------------------------------------------- audio

  /** What fits into a pack together with pack header and PES header. */
  const MAX_AUDIO := PACK - 28

  const FRAME_SIZES: seq<nat> := [576, 1792, 167]

  /** The payload size: whole frames of the last known frame size that divides the data. */
  function AudioPayload(n: nat): (r: nat)
    ensures 0 < r <= MAX_AUDIO
    ensures n % 167 == 0 ==> r % 167 == 0 && r + 167 > MAX_AUDIO
    ensures n % 167 != 0 && n % 1792 == 0 ==> r == 1792
    ensures n % 167 != 0 && n % 1792 != 0 && n % 576 == 0 ==> r % 576 == 0 && r + 576 > MAX_AUDIO
    ensures n % 167 != 0 && n % 1792 != 0 && n % 576 != 0 ==> r == MAX_AUDIO
  {
    if n % FRAME_SIZES[2] == 0 then MAX_AUDIO / FRAME_SIZES[2] * FRAME_SIZES[2]
    else if n % FRAME_SIZES[1] == 0 then MAX_AUDIO / FRAME_SIZES[1] * FRAME_SIZES[1]
    else if n % FRAME_SIZES[0] == 0 then MAX_AUDIO / FRAME_SIZES[0] * FRAME_SIZES[0]
    else MAX_AUDIO
  }

  /** The time stamp of the piece that starts at `off` of `n` bytes. */
  function AudioPts(pts: real, duration: real, off: nat, n: nat): nat
    requires off < n
  {
    Stamp(pts, n - off, n, duration)
  }

  function CutAudio(es: seq<Byte>, off: nat, size: nat, pts: real, duration: real): seq<Piece>
    requires off <= |es| && size > 0
    decreases |es| - off
  {
    if off == |es| then [] else
    var n := if |es| - off > size then size else |es| - off;
    [Piece(AudioPts(pts, duration, off, |es|), es[off..off + n])] + CutAudio(es, off + n, size, pts, duration)
  }

  lemma AudioPtsGrows(pts: real, duration: real, off: nat, off': nat, n: nat)
    requires off <= off' < n && duration >= 0.0
    ensures AudioPts(pts, duration, off, n) <= AudioPts(pts, duration, off', n)
  {
    StampGrows(pts, n - off, n - off', n, duration);
  }

  lemma CutAudioUnfold(es: seq<Byte>, off: nat, size: nat, pts: real, duration: real)
    requires off <= |es| && size > 0
    ensures off == |es| ==> CutAudio(es, off, size, pts, duration) == []
    ensures off < |es| ==>
              var n := if |es| - off > size then size else |es| - off;
              var ps := CutAudio(es, off, size, pts, duration);
              && ps != [] && ps[0] == Piece(AudioPts(pts, duration, off, |es|), es[off..off + n])
              && ps[1..] == CutAudio(es, off + n, size, pts, duration)
  {
  }

  /** The pieces are the data, none of it lost or repeated; none is empty or larger than asked; and
      their times do not decrease. */
  lemma {:induction false} CutAudioIsLossless(es: seq<Byte>, off: nat, size: nat, pts: real, duration: real)
    requires off <= |es| && size > 0
    ensures var ps := CutAudio(es, off, size, pts, duration);
            && Join(ps) == es[off..] && AtMost(ps, size)
            && (duration >= 0.0 ==> InTimeOrder(ps))
            && (ps == [] <==> off == |es|)
            && (ps != [] ==> ps[0].pts == AudioPts(pts, duration, off, |es|))
    decreases |es| - off
  {
    hide AudioPts, CutAudio, Join, AtMost, InTimeOrder;
    CutAudioUnfold(es, off, size, pts, duration);
    if off == |es| {
      NoPieces(size);
    } else {
      var n := if |es| - off > size then size else |es| - off;
      var p, rest := Piece(AudioPts(pts, duration, off, |es|), es[off..off + n]), CutAudio(es, off + n, size, pts, duration);
      CutAudioCons(es, off, n, size, pts, duration);
      CutAudioIsLossless(es, off + n, size, pts, duration);
      JoinCons(p, rest);
      SplitRest(es, off, n);
      AtMostCons(p, rest, size);
      if duration >= 0.0 {
        if rest != [] { AudioPtsGrows(pts, duration, off, off + n, |es|); }
        OrderFirst(p, rest);
      }
    }
  }

  lemma CutAudioCons(es: seq<Byte>, off: nat, n: nat, size: nat, pts: real, duration: real)
    requires off < |es| && size > 0 && n == if |es| - off > size then size else |es| - off
    ensures CutAudio(es, off, size, pts, duration)
         == [Piece(AudioPts(pts, duration, off, |es|), es[off..off + n])] + CutAudio(es, off + n, size, pts, duration)
  {
    hide AudioPts;
  }

  // ---------------------------------------------------------------- video

  /** The largest video payload of one PES packet. */
  const MAX_VIDEO := 0xffff - 14

  /** A picture start code at `i`, not too near to the end to be seen. */
  predicate PictureAt(s: seq<Byte>, i: nat) {
    i + 4 < |s| && s[i] == 0 && s[i + 1] == 0 && s[i + 2] == 1 && s[i + 3] == 0
  }

  /** `find_pic_end`: the first picture start from `from` on, or the end. */
  function PictureEnd(s: seq<Byte>, from: nat): (e: nat)
    ensures e == |s| || (from <= e && PictureAt(s, e))
    ensures forall i :: from <= i < e ==> !PictureAt(s, i)
    decreases |s| - from
  {
    if from + 4 >= |s| then |s| else if PictureAt(s, from) then from else PictureEnd(s, from + 1)
  }

  /** Where the cutting of a sequence stands: the current picture is `[start, end)`, `off` of it done,
      and `pts` is its time. */
  datatype Cut = Cut(off: nat, start: nat, end: nat, pts: real)

  predicate CutInv(s: seq<Byte>, c: Cut) { c.start <= c.off < c.end <= |s| }

  /** The end of the first picture: what precedes its start code belongs to it. */
  function FirstEnd(s: seq<Byte>): (e: nat)
    requires |s| >= 4
    ensures 0 < e <= |s|
  {
    var e := PictureEnd(s, 0);
    if e != |s| then PictureEnd(s, e + 1) else e
  }

  /** The piece cut next; `frame` is the duration of a picture. */
  function VideoPiece(s: seq<Byte>, c: Cut, frame: real): (p: Piece)
    requires CutInv(s, c)
    ensures 0 < |p.data| <= MAX_VIDEO && c.off + |p.data| <= c.end && p.data == s[c.off..c.off + |p.data|]
  {
    var n := if c.end - c.off > MAX_VIDEO then MAX_VIDEO else c.end - c.off;
    Piece(Stamp(c.pts, c.end - c.off, c.end - c.start, frame), s[c.off..c.off + n])
  }

  /** The picture time after `n` more bytes. */
  function PtsAfter(c: Cut, n: nat, frame: real): real { if c.off + n == c.end then c.pts + frame else c.pts }

  /** Where the cutting stands after `n` more bytes that are not the last. */
  function Advance(s: seq<Byte>, c: Cut, n: nat, frame: real): (c': Cut)
    requires CutInv(s, c) && 0 < n && c.off + n <= c.end && c.off + n < |s|
    ensures CutInv(s, c') && c'.off == c.off + n
  {
    var off := c.off + n;
    if off == c.end then Cut(off, off, PictureEnd(s, off + 1), PtsAfter(c, n, frame)) else c.(off := off)
  }

  /** All pieces from here on, and the time after the last picture. */
  function CutVideo(s: seq<Byte>, c: Cut, frame: real): (r: (seq<Piece>, real))
    requires CutInv(s, c)
    decreases |s| - c.off
  {
    var p := VideoPiece(s, c, frame);
    var n := |p.data|;
    if c.off + n == |s| then ([p], PtsAfter(c, n, frame))
    else
      var (ps, t) := CutVideo(s, Advance(s, c, n, frame), frame);
      ([p] + ps, t)
  }

  /** The time of the next piece is not earlier. */
  lemma NextPieceIsNotEarlier(s: seq<Byte>, c: Cut, frame: real)
    requires CutInv(s, c) && frame >= 0.0 && c.pts >= 0.0
    requires c.off + |VideoPiece(s, c, frame).data| < |s|
    ensures var p := VideoPiece(s, c, frame);
            var c' := Advance(s, c, |p.data|, frame);
            c'.pts >= 0.0 && p.pts <= VideoPiece(s, c', frame).pts
  {
    var p := VideoPiece(s, c, frame);
    var c' := Advance(s, c, |p.data|, frame);
    hide Stamp;
    if c'.off == c.end {
      StampNext(c.pts, c.end - c.off, c.end - c.start, frame, c'.end - c'.start);
    } else {
      StampGrows(c.pts, c.end - c.off, c.end - c'.off, c.end - c.start, frame);
    }
  }

  lemma CutVideoUnfold(s: seq<Byte>, c: Cut, frame: real)
    requires CutInv(s, c)
    ensures var p := VideoPiece(s, c, frame);
            var n := |p.data|;
            var (ps, t) := CutVideo(s, c, frame);
            && ps != [] && ps[0] == p
            && (c.off + n == |s| ==> ps[1..] == [] && t == PtsAfter(c, n, frame))
            && (c.off + n < |s| ==> (ps[1..], t) == CutVideo(s, Advance(s, c, n, frame), frame))
  {
    hide Stamp, PictureEnd;
  }

  lemma CutVideoCons(s: seq<Byte>, c: Cut, frame: real)
    requires CutInv(s, c)
    ensures var p := VideoPiece(s, c, frame);
            var n := |p.data|;
            CutVideo(s, c, frame).0
            == [p] + if c.off + n == |s| then [] else CutVideo(s, Advance(s, c, n, frame), frame).0
  {
    hide VideoPiece, Advance;
  }

  /** The pieces are the sequence, none of it lost or repeated; each fits into a PES packet; and their
      times do not decrease. */
  lemma {:induction false} CutVideoIsLossless(s: seq<Byte>, c: Cut, frame: real)
    requires CutInv(s, c)
    ensures var ps := CutVideo(s, c, frame).0;
            && ps != [] && ps[0] == VideoPiece(s, c, frame)
            && Join(ps) == s[c.off..] && AtMost(ps, MAX_VIDEO)
            && (frame >= 0.0 && c.pts >= 0.0 ==> InTimeOrder(ps))
    decreases |s| - c.off
  {
    hide VideoPiece, CutVideo, Join, AtMost, InTimeOrder, Advance;
    CutVideoCons(s, c, frame);
    var p := VideoPiece(s, c, frame);
    var n := |p.data|;
    SplitRest(s, c.off, n);
    if c.off + n == |s| {
      NoPieces(MAX_VIDEO);
      JoinCons(p, []);
      AtMostCons(p, [], MAX_VIDEO);
      OrderFirst(p, []);
    } else {
      var c' := Advance(s, c, n, frame);
      CutVideoIsLossless(s, c', frame);
      var rest := CutVideo(s, c', frame).0;
      JoinCons(p, rest);
      AtMostCons(p, rest, MAX_VIDEO);
      if frame >= 0.0 && c.pts >= 0.0 {
        NextPieceIsNotEarlier(s, c, frame);
        OrderFirst(p, rest);
      }
    }
  }

  lemma JoinFront(p: Piece, ps: seq<Piece>, k: nat)
    requires k <= |ps|
    ensures |Join(([p] + ps)[..k + 1])| == |p.data| + |Join(ps[..k])|
  {
    assert ([p] + ps)[..k + 1] == [p] + ps[..k];
    assert ([p] + ps[..k])[1..] == ps[..k];
  }

  /** With `off` bytes before them, piece `k` begins at `i`. */
  predicate BeginsAt(ps: seq<Piece>, off: nat, k: nat, i: nat) {
    0 < k < |ps| && off + |Join(ps[..k])| == i
  }

  /** Every picture from the current one's end on begins a piece of its own. */
  lemma {:induction false} PicturesBeginPieces(s: seq<Byte>, c: Cut, frame: real, i: nat)
    requires CutInv(s, c) && c.end <= i && PictureAt(s, i)
    ensures exists k: nat :: BeginsAt(CutVideo(s, c, frame).0, c.off, k, i)
    decreases |s| - c.off
  {
    hide Stamp, Join;
    var p := VideoPiece(s, c, frame);
    var n := |p.data|;
    var c' := Advance(s, c, n, frame);
    var rest, ps := CutVideo(s, c', frame).0, CutVideo(s, c, frame).0;
    assert ps == [p] + rest;
    CutVideoIsLossless(s, c', frame);
    if i == c'.off {
      JoinFront(p, rest, 0);
      JoinNothing(rest);
      assert BeginsAt(ps, c.off, 1, i);
    } else {
      PicturesBeginPieces(s, c', frame, i);
      var k: nat :| BeginsAt(rest, c'.off, k, i);
      JoinFront(p, rest, k);
      assert BeginsAt(ps, c.off, k + 1, i);
    }
  }

  /** For the cut that `create_video_pes` makes: every picture but the first, which what precedes it belongs
      to, begins a piece. */
  lemma LaterPicturesBeginPieces(s: seq<Byte>, pts: real, frame: real, i: nat)
    requires |s| >= 4 && PictureAt(s, i) && i != PictureEnd(s, 0)
    ensures FirstEnd(s) <= i
    ensures exists k: nat :: BeginsAt(CutVideo(s, Cut(0, 0, FirstEnd(s), pts), frame).0, 0, k, i)
  {
    PicturesBeginPieces(s, Cut(0, 0, FirstEnd(s), pts), frame, i);
  }

  lemma JoinNothing(ps: seq<Piece>)
    ensures Join(ps[..0]) == []
  {
  }

  // ---------------------------------------------------------------- the routines

  const MAX_PACKETS := 200

  /** The newest packets of a list that has run over. */
  function Newest(ps: seq<seq<Byte>>): (r: seq<seq<Byte>>)
    ensures |r| <= MAX_PACKETS
  {
    if |ps| <= MAX_PACKETS then ps else ps[|ps| - MAX_PACKETS..]
  }

  /** The packets of pieces; all of them marked, or only the first. */
  function Packets(id: Byte, ps: seq<Piece>, mark: bool, all: bool): (r: seq<seq<Byte>>)
    ensures |r| == |ps|
  {
    if ps == [] then [] else [Pes(id, mark, ps[0].pts, ps[0].data)] + Packets(id, ps[1..], all, all)
  }

  lemma NewestAppend(a: seq<seq<Byte>>, b: seq<seq<Byte>>)
    ensures Newest(Newest(a) + b) == Newest(a + b)
  {
  }

  /** `audio_packets` or `video_packets`. */
  class PacketList {
    var packets: seq<seq<Byte>>

    constructor ()
      ensures packets == []
    {
      packets := [];
    }

    /** `remove_audio_packets`, `remove_video_packets`: as many as there are, at most `n`. */
    method Remove(n: nat)
      modifies this
      ensures packets == old(packets)[if n < |old(packets)| then n else |old(packets)|..]
    {
      var i := if n < |packets| then n else |packets|;
      packets := packets[i..];
    }

    /** Appends a packet; a full list loses its oldest. */
    method Add(p: seq<Byte>)
      requires |packets| <= MAX_PACKETS
      modifies this
      ensures packets == Newest(old(packets) + [p])
    {
      if |packets| >= MAX_PACKETS {
        Remove(1);
      }
      packets := packets + [p];
    }
  }

  /** The search for a frame size that divides the data. */
  method ChooseAudioPayload(n: nat) returns (size: nat)
    ensures size == AudioPayload(n)
  {
    size := MAX_AUDIO;
    for i := 0 to |FRAME_SIZES|
      invariant i == 0 ==> size == MAX_AUDIO
      invariant i == 1 ==> size == if n % 576 == 0 then MAX_AUDIO / 576 * 576 else MAX_AUDIO
      invariant i == 2 ==> size == if n % 1792 == 0 then MAX_AUDIO / 1792 * 1792
                                   else if n % 576 == 0 then MAX_AUDIO / 576 * 576 else MAX_AUDIO
      invariant i == 3 ==> size == AudioPayload(n)
    {
      if n % FRAME_SIZES[i] == 0 {
        size := MAX_AUDIO / FRAME_SIZES[i] * FRAME_SIZES[i];
      }
    }
  }

  /** The header of a packet, with the extension it announces, reaches beyond the packet: the size of its
      elementary data underflows. */
  predicate Underflows(pes: seq<Byte>)
    requires |pes| >= 6
  {
    PesSize(pes) < 9 || (|pes| >= 9 && PesSize(pes) < 9 + pes[8] as int)
  }

  lemma WholeIsWellFormed(pes: seq<Byte>)
    requires |pes| >= 6 && PesSize(pes) == |pes|
    ensures WellFormed(pes) <==> !Underflows(pes)
  {
  }

  /** Such packets do arrive: the parser checks no more than the length field and two bits, and hands this one
      over, whatever its last byte and whatever follows. */
  lemma UnderflowArrives(y: Byte, t: seq<Byte>)
    ensures var s: seq<Byte> := [0, 0, 1, 0xc0, 0, 4, 0x80, 0x80, 5, y];
            && PesParser.Search(s + t, 0, |s + t|) == PesParser.Result(0, 10)
            && PesParser.Wanted(0, 0xc0) && Underflows(s)
  {
    var s: seq<Byte> := [0, 0, 1, 0xc0, 0, 4, 0x80, 0x80, 5, y];
    var u := s + t;
    assert u[0] == 0 && u[1] == 0 && u[2] == 1 && u[3] == 0xc0 && u[4] == 0 && u[5] == 4 && u[6] == 0x80;
    assert PesParser.Prefix(u, 0) && PesParser.Scan(u, 0, |u| - 3) == 0;
  }

  /** `create_audio_pes` on the packet of `len` bytes at `at` in the audio buffer: every packet made carries the
      private mark. `fault` is the code about to copy from beyond the packet and the buffer. */
  method CreateAudioPes(list: PacketList, mem: seq<Byte>, at: nat, len: nat, duration: real) returns (fault: bool)
    requires 6 <= len && at + len <= |mem| && PesSize(mem[at..at + len]) == len
    requires |list.packets| <= MAX_PACKETS
    modifies list
    ensures fault <==> Underflows(mem[at..at + len])
    ensures !fault ==>
              var pes := mem[at..at + len];
              && WellFormed(pes)
              && var es := ElementaryData(pes);
                 var pieces := CutAudio(es, 0, AudioPayload(|es|), AudioInput.PtsAt(mem, at), duration);
                 list.packets == Newest(old(list.packets) + Packets(pes[3], pieces, true, true))
  {
    hide AudioPayload, Pes, Newest, AudioPts, CutAudio, Packets;
    var pes := mem[at..at + len];
    WholeIsWellFormed(pes);
    fault := len < 9 || len < 9 + pes[8] as int;
    if fault { return; }
    CutPacket(list, pes, AudioInput.PtsAt(mem, at), duration);
  }

  /** The rest of it, for a packet whose data is there. */
  method CutPacket(list: PacketList, pes: seq<Byte>, pts: real, duration: real)
    requires WellFormed(pes) && |list.packets| <= MAX_PACKETS
    modifies list
    ensures var es := ElementaryData(pes);
            var pieces := CutAudio(es, 0, AudioPayload(|es|), pts, duration);
            list.packets == Newest(old(list.packets) + Packets(pes[3], pieces, true, true))
  {
    hide AudioPayload, Pes, Newest, AudioPts, CutAudio, Packets;
    var es := ElementaryData(pes);
    var size := ChooseAudioPayload(|es|);
    ghost var all := Packets(pes[3], CutAudio(es, 0, size, pts, duration), true, true);
    ghost var before, added := list.packets, [];
    NewestOfFew(before);
    assert before + [] == before && [] + all == all;
    var off := 0;
    while off < |es|
      invariant off <= |es| && |list.packets| <= MAX_PACKETS
      invariant list.packets == Newest(before + added)
      invariant all == added + Packets(pes[3], CutAudio(es, off, size, pts, duration), true, true)
      decreases |es| - off
    {
      var n := if |es| - off > size then size else |es| - off;
      CutAudioUnfold(es, off, size, pts, duration);
      PacketsUnfold(pes[3], CutAudio(es, off, size, pts, duration), true, true);
      var p := Pes(pes[3], true, AudioPts(pts, duration, off, |es|), es[off..off + n]);
      AddLast(before, added, p, Packets(pes[3], CutAudio(es, off + n, size, pts, duration), true, true));
      list.Add(p);
      added := added + [p];
      off := off + n;
    }
    CutAudioUnfold(es, off, size, pts, duration);
    PacketsUnfold(pes[3], [], true, true);
    assert added + [] == added;
  }

  lemma AddLast(before: seq<seq<Byte>>, added: seq<seq<Byte>>, p: seq<Byte>, rest: seq<seq<Byte>>)
    ensures Newest(Newest(before + added) + [p]) == Newest(before + (added + [p]))
    ensures added + ([p] + rest) == (added + [p]) + rest
  {
    NewestAppend(before + added, [p]);
    assert before + added + [p] == before + (added + [p]);
  }

  lemma NewestOfFew(a: seq<seq<Byte>>)
    requires |a| <= MAX_PACKETS
    ensures Newest(a) == a
  {
  }

  method FindPicEnd(s: seq<Byte>, from: nat) returns (e: nat)
    requires |s| >= 4
    ensures e == PictureEnd(s, from)
  {
    var i := from;
    while i < |s| - 4
      invariant PictureEnd(s, i) == PictureEnd(s, from)
      decreases |s| - i
    {
      if s[i] == 0 && s[i + 1] == 0 && s[i + 2] == 1 && s[i + 3] == 0 {
        return i;
      }
      i := i + 1;
    }
    return |s|;
  }

  /** `create_video_pes`: only the first packet carries the mark; returns the time after the last
      picture, the new `frame_pts`. */
  method CreateVideoPes(list: PacketList, s: seq<Byte>, framePts: real, frameRate: real) returns (pts: real)
    requires |s| >= 4 && frameRate > 0.0 && |list.packets| <= MAX_PACKETS
    modifies list
    ensures var (pieces, t) := CutVideo(s, Cut(0, 0, FirstEnd(s), framePts), 90000.0 / frameRate);
            list.packets == Newest(old(list.packets) + Packets(0xe0, pieces, true, false)) && pts == t
  {
    hide Pes, Newest, Stamp, Packets, PictureEnd, CutVideo;
    var frame := 90000.0 / frameRate;
    var e := FindPicEnd(s, 0);
    if e != |s| {
      e := FindPicEnd(s, e + 1);
    }
    var c := Cut(0, 0, e, framePts);
    ghost var (pieces, t) := CutVideo(s, c, frame);
    ghost var all := Packets(0xe0, pieces, true, false);
    ghost var before, added := list.packets, [];
    NewestOfFew(before);
    assert before + [] == before && [] + all == all;
    var mark := true;
    while true
      invariant CutInv(s, c) && |list.packets| <= MAX_PACKETS
      invariant list.packets == Newest(before + added)
      invariant all == added + Packets(0xe0, CutVideo(s, c, frame).0, mark, false)
      invariant t == CutVideo(s, c, frame).1
      decreases |s| - c.off
    {
      var piece := VideoPiece(s, c, frame);
      var n := |piece.data|;
      var p := Pes(0xe0, mark, piece.pts, piece.data);
      CutVideoUnfold(s, c, frame);
      PacketsUnfold(0xe0, CutVideo(s, c, frame).0, mark, false);
      AddLast(before, added, p, Packets(0xe0, CutVideo(s, c, frame).0[1..], false, false));
      list.Add(p);
      pts := PtsAfter(c, n, frame);
      added := added + [p];
      mark := false;
      if c.off + n >= |s| {
        PacketsUnfold(0xe0, [], false, false);
        assert added + [] == added;
        return;
      }
      if c.off + n >= c.end {
        e := FindPicEnd(s, c.off + n + 1);
        c := Cut(c.off + n, c.off + n, e, pts);
      } else {
        c := c.(off := c.off + n);
      }
    }
  }

  lemma PacketsUnfold(id: Byte, ps: seq<Piece>, mark: bool, all: bool)
    ensures Packets(id, [], mark, all) == []
    ensures ps != [] ==>
              Packets(id, ps, mark, all) == [Pes(id, mark, ps[0].pts, ps[0].data)] + Packets(id, ps[1..], all, all)
  {
  }
}
