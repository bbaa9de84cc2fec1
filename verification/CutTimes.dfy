/** The times of the packets grab cuts: every piece bears the time of its picture or packet and the share of the
    duration that the data before it makes up. */
module CutTimes {
  import opened Bytes
  import opened Timestamps
  import opened PesCutter
  import Merge

  /** The stamp of the piece at `off` of `len` bytes. */
  lemma StampIsShare(pts: real, off: nat, len: nat, d: real)
    requires off < len
    ensures Stamp(pts, len - off, len, d) == ToUnsigned(pts) + ToUnsigned(Fraction(off, len) * d)
    ensures off == 0 ==> Stamp(pts, len, len, d) == ToUnsigned(pts)
  {
    hide Done, Fraction;
    DoneIs(off, len);
    DoneGrows(len, len, len);
  }

  /** The private mark, as the merge reads it. */
  lemma MarkIsRead(id: Byte, mark: bool, pts: nat, data: seq<Byte>)
    ensures Merge.SequenceStart(Pes(id, mark, pts, data)) <==> mark
  {
    hide PtsBytes;
  }

  /** Of the packets of a sequence only the first is marked, of sound all are. */
  lemma {:induction false} MarksAreRead(id: Byte, ps: seq<Piece>, mark: bool, all: bool, k: nat)
    requires k < |ps|
    ensures |Packets(id, ps, mark, all)[k]| >= 9
    ensures Merge.SequenceStart(Packets(id, ps, mark, all)[k]) <==> if k == 0 then mark else all
  {
    hide Pes, Merge.SequenceStart;
    if k == 0 {
      MarkIsRead(id, mark, ps[0].pts, ps[0].data);
    } else {
      MarksAreRead(id, ps[1..], all, all, k - 1);
    }
  }

  // ---------------------------------------------------------------- audio

  /** Piece `k` of sound: the data from `k` times the size on, and its share of the duration. */
  lemma {:induction false} AudioPieceAt(es: seq<Byte>, off: nat, size: nat, pts: real, duration: real, k: nat)
    requires off <= |es| && size > 0
    requires k < |CutAudio(es, off, size, pts, duration)|
    ensures var at, p := off + k * size, CutAudio(es, off, size, pts, duration)[k];
            && at < |es| && p.data == es[at..if at + size < |es| then at + size else |es|]
            && p.pts == ToUnsigned(pts) + ToUnsigned(Fraction(at, |es|) * duration)
    decreases k
  {
    hide CutAudio, Fraction, AudioPts;
    CutAudioUnfold(es, off, size, pts, duration);
    if k == 0 {
      FirstAudioPts(pts, duration, off, |es|);
    } else {
      if |es| - off <= size { CutAudioUnfold(es, |es|, size, pts, duration); }
      AudioPieceAt(es, off + size, size, pts, duration, k - 1);
      PieceFurther(off, size, k);
      var ps, rest := CutAudio(es, off, size, pts, duration), CutAudio(es, off + size, size, pts, duration);
      assert ps[k] == ps[1..][k - 1] == rest[k - 1];
      hide ToUnsigned;
    }
  }

  lemma PieceFurther(off: nat, size: nat, k: nat)
    requires k > 0
    ensures off + k * size == off + size + (k - 1) * size
  {
  }

  lemma FirstAudioPts(pts: real, duration: real, off: nat, n: nat)
    requires off < n
    ensures AudioPts(pts, duration, off, n) == ToUnsigned(pts) + ToUnsigned(Fraction(off, n) * duration)
  {
    hide Stamp, Fraction;
    StampIsShare(pts, off, n, duration);
  }

  // ---------------------------------------------------------------- video

  /** How many pictures start at `from <= i < to`. */
  function Pictures(s: seq<Byte>, from: nat, to: nat): nat
    decreases to - from
  {
    if from >= to then 0 else (if PictureAt(s, from) then 1 else 0) + Pictures(s, from + 1, to)
  }

  lemma {:induction false} PicturesJoin(s: seq<Byte>, a: nat, b: nat, c: nat)
    requires a <= b <= c
    ensures Pictures(s, a, c) == Pictures(s, a, b) + Pictures(s, b, c)
    decreases b - a
  {
    hide PictureAt;
    if a < b { PicturesJoin(s, a + 1, b, c); }
  }

  lemma {:induction false} NoPictures(s: seq<Byte>, a: nat, b: nat)
    requires forall i :: a <= i < b ==> !PictureAt(s, i)
    ensures Pictures(s, a, b) == 0
    decreases b - a
  {
    hide PictureAt;
    if a < b { NoPictures(s, a + 1, b); }
  }

  /** The current picture ends at a picture start or with the data. */
  ghost predicate AtPictures(s: seq<Byte>, c: Cut) {
    CutInv(s, c) && (c.end == |s| || PictureAt(s, c.end))
  }

  lemma AdvanceAtPictures(s: seq<Byte>, c: Cut, n: nat, frame: real)
    requires AtPictures(s, c) && 0 < n && c.off + n <= c.end && c.off + n < |s|
    ensures AtPictures(s, Advance(s, c, n, frame))
  {
    hide PictureAt;
  }

  /** `n` frames after `t`. */
  function Frames(t: real, n: nat, frame: real): real { t + n as real * frame }

  lemma OneMoreFrame(t: real, n: nat, frame: real)
    ensures Frames(t, 0, frame) == t
    ensures Frames(t + frame, n, frame) == Frames(t, n + 1, frame)
  {
    assert (n + 1) as real == n as real + 1.0;
    assert (n as real + 1.0) * frame == n as real * frame + frame;
  }

  /** Behind the current picture there is the next one, which has no picture start within. */
  lemma NextPicture(s: seq<Byte>, end: nat, to: nat)
    requires end < |s| && PictureAt(s, end) && end < to
    ensures Pictures(s, end, to) == 1 + Pictures(s, end + 1, to)
    ensures PictureEnd(s, end + 1) <= to ==> Pictures(s, end + 1, to) == Pictures(s, PictureEnd(s, end + 1), to)
    ensures to <= PictureEnd(s, end + 1) ==> Pictures(s, end + 1, to) == 0
  {
    var e := PictureEnd(s, end + 1);
    hide PictureAt;
    if e <= to {
      if end + 1 <= e {
        PicturesJoin(s, end + 1, e, to);
        NoPictures(s, end + 1, e);
      }
    } else {
      NoPictures(s, end + 1, to);
    }
  }

  /** The time after a sequence: one frame for the current picture and for every picture start behind it. */
  lemma {:induction false} TimeAfter(s: seq<Byte>, c: Cut, frame: real)
    requires AtPictures(s, c)
    ensures CutVideo(s, c, frame).1 == Frames(c.pts, 1 + Pictures(s, c.end, |s|), frame)
    decreases |s| - c.off
  {
    hide CutVideo, Frames, Pictures, PictureAt, PictureEnd, Stamp;
    var n := |VideoPiece(s, c, frame).data|;
    CutVideoUnfold(s, c, frame);
    OneMoreFrame(c.pts, 0, frame);
    OneMoreFrame(c.pts + frame, 0, frame);
    if c.off + n == |s| {
      NoPictures(s, |s|, |s|);
    } else {
      var c' := Advance(s, c, n, frame);
      AdvanceAtPictures(s, c, n, frame);
      TimeAfter(s, c', frame);
      if c.off + n == c.end {
        NextPicture(s, c.end, |s|);
        OneMoreFrame(c.pts, 1 + Pictures(s, c'.end, |s|), frame);
      }
    }
  }

  /** `[a, b)` is a picture of the sequence from `c` on: the current one, or from a picture start to the next. */
  ghost predicate IsPicture(s: seq<Byte>, c: Cut, a: nat, b: nat) {
    (a == c.start && b == c.end) || (c.end <= a && PictureAt(s, a) && b == PictureEnd(s, a + 1))
  }

  /** The piece at `o` lies in a picture, which it ends unless it is of full size, and bears the time of that
      picture, one frame for every picture start since the current one, and the share of a frame that the part
      of the picture before it makes up. */
  ghost predicate Timely(s: seq<Byte>, c: Cut, frame: real, p: Piece, o: nat, a: nat, b: nat) {
    && a <= o < b <= |s| && IsPicture(s, c, a, b)
    && o + |p.data| <= b && (|p.data| == MAX_VIDEO || o + |p.data| == b)
    && p.pts == ToUnsigned(Frames(c.pts, Pictures(s, c.end, o + 1), frame)) + ToUnsigned(Fraction(o - a, b - a) * frame)
  }

  /** Where piece `k` begins. */
  function Offset(c: Cut, ps: seq<Piece>, k: nat): nat
    requires k <= |ps|
  {
    c.off + |Join(ps[..k])|
  }

  lemma {:induction false} PieceTimes(s: seq<Byte>, c: Cut, frame: real, k: nat) returns (a: nat, b: nat)
    requires AtPictures(s, c) && k < |CutVideo(s, c, frame).0|
    ensures var ps := CutVideo(s, c, frame).0; Timely(s, c, frame, ps[k], Offset(c, ps, k), a, b)
    decreases k
  {
    hide CutVideo, VideoPiece, Advance, Timely, Join;
    var p, ps := VideoPiece(s, c, frame), CutVideo(s, c, frame).0;
    var n := |p.data|;
    CutVideoUnfold(s, c, frame);
    if k == 0 {
      JoinNothing(ps);
      FirstIsTimely(s, c, frame);
      return c.start, c.end;
    }
    var c' := Advance(s, c, n, frame);
    var rest := CutVideo(s, c', frame).0;
    AdvanceAtPictures(s, c, n, frame);
    assert ps == [p] + rest;
    JoinFront(p, rest, k - 1);
    a, b := PieceTimes(s, c', frame, k - 1);
    StillTimely(s, c, frame, n, rest[k - 1], Offset(c', rest, k - 1), a, b);
  }

  lemma FirstIsTimely(s: seq<Byte>, c: Cut, frame: real)
    requires AtPictures(s, c)
    ensures Timely(s, c, frame, VideoPiece(s, c, frame), c.off, c.start, c.end)
  {
    NoPictures(s, c.end, c.off + 1);
    OneMoreFrame(c.pts, 0, frame);
    StampIsShare(c.pts, c.off - c.start, c.end - c.start, frame);
    hide Frames, Pictures, PictureAt, Fraction, Stamp;
  }

  /** What is timely from the next cut on is so from this one on. */
  lemma StillTimely(s: seq<Byte>, c: Cut, frame: real, n: nat, p: Piece, o: nat, a: nat, b: nat)
    requires AtPictures(s, c) && 0 < n && c.off + n <= c.end && c.off + n < |s|
    requires var c' := Advance(s, c, n, frame); c'.off <= o && Timely(s, c', frame, p, o, a, b)
    ensures Timely(s, c, frame, p, o, a, b)
  {
    hide Frames, Pictures, PictureAt, Fraction, Stamp, PictureEnd;
    var c' := Advance(s, c, n, frame);
    if c.off + n == c.end {
      NextPicture(s, c.end, o + 1);
      if o + 1 <= c'.end { NoPictures(s, c'.end, o + 1); }
      OneMoreFrame(c.pts, Pictures(s, c'.end, o + 1), frame);
    }
  }
}
