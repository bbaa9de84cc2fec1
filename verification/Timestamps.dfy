/** 33-bit time stamps as PES headers (section 2.4.3.6 of ISO/IEC 13818-1) and pack headers
    (section 2.5.3.3) carry them. Masks and shifts are written as quotients and remainders. */
module Timestamps {
  import opened Bytes
  import opened Cyclic

  const TWO_31 := 0x8000_0000
  const TWO_32 := 0x1_0000_0000
  const TWO_33 := 0x2_0000_0000

  // ---------------------------------------------------------------- presentation time

  /** The groups of bits a stamp is cut into: 7, 8, 7, 8 and 3 bits, lowest first. */
  datatype PtsFields = PtsFields(f0: nat, f1: nat, f2: nat, f3: nat, f4: nat)

  function Fields(t: nat): (f: PtsFields)
    ensures f.f0 < 128 && f.f1 < 256 && f.f2 < 128 && f.f3 < 256 && f.f4 < 8
    ensures t % TWO_33 == f.f0 + 0x80 * f.f1 + 0x8000 * f.f2 + 0x40_0000 * f.f3 + 0x4000_0000 * f.f4
  {
    var q1 := t / 0x80;
    var q2 := q1 / 0x100;
    var q3 := q2 / 0x80;
    var q4 := q3 / 0x100;
    FieldsAdd(t, q1, q2, q3, q4);
    PtsFields(t % 0x80, q1 % 0x100, q2 % 0x80, q3 % 0x100, q4 % 8)
  }

  lemma FieldsAdd(t: nat, q1: nat, q2: nat, q3: nat, q4: nat)
    requires q1 == t / 0x80 && q2 == q1 / 0x100 && q3 == q2 / 0x80 && q4 == q3 / 0x100
    ensures t % TWO_33 == t % 0x80 + 0x80 * (q1 % 0x100) + 0x8000 * (q2 % 0x80) + 0x40_0000 * (q3 % 0x100)
                          + 0x4000_0000 * (q4 % 8)
  {
    var f0, f1, f2, f3, f4 := t % 0x80, q1 % 0x100, q2 % 0x80, q3 % 0x100, q4 % 8;
    assert t == 0x80 * q1 + f0 && q1 == 0x100 * q2 + f1 && q2 == 0x80 * q3 + f2 && q3 == 0x100 * q4 + f3;
    assert q4 == 8 * (q4 / 8) + f4;
    ModUnique(t, TWO_33, q4 / 8, f0 + 0x80 * f1 + 0x8000 * f2 + 0x40_0000 * f3 + 0x4000_0000 * f4);
  }

  /** The five bytes of a PTS: `set_pes_pts` and the PES builders of grab. */
  function PtsBytes(t: nat): (b: seq<Byte>)
    ensures |b| == 5
  {
    var f := Fields(t);
    [0x21 + 2 * f.f4, f.f3, 2 * f.f2 + 1, f.f1, 2 * f.f0 + 1]
  }

  /** The low 32 bits, as grab's `pes_pts` returns them. */
  function LowPts(b: seq<Byte>): (t: nat)
    requires |b| == 5
    ensures t < TWO_32
  {
    var b0: int, b1: int, b2: int, b3: int, b4: int := b[0], b[1], b[2], b[3], b[4];
    b0 / 2 % 4 * 0x4000_0000 + b1 * 0x40_0000 + b2 / 2 * 0x8000 + b3 * 0x80 + b4 / 2
  }

  /** All 33 bits, as ggrab's `pes_pts` returns them. */
  function FullPts(b: seq<Byte>): (t: nat)
    requires |b| == 5
    ensures t < TWO_33
  {
    (if b[0] / 8 % 2 == 1 then TWO_32 else 0) + LowPts(b)
  }

  /** Reading five bytes built from bit groups puts the groups back in place. */
  lemma ReadPts(f: PtsFields, last: Byte)
    requires f.f0 < 128 && f.f1 < 256 && f.f2 < 128 && f.f3 < 256 && f.f4 < 8 && last / 2 == f.f0
    ensures var b: seq<Byte> := [0x21 + 2 * f.f4, f.f3, 2 * f.f2 + 1, f.f1, last];
            var low := f.f0 + 0x80 * f.f1 + 0x8000 * f.f2 + 0x40_0000 * f.f3;
            && LowPts(b) == low + 0x4000_0000 * (f.f4 % 4)
            && FullPts(b) == low + 0x4000_0000 * f.f4
  {
    assert (0x21 + 2 * f.f4) / 2 % 4 == f.f4 % 4;
    assert f.f4 < 4 ==> (0x21 + 2 * f.f4) / 8 == 4;
    assert f.f4 >= 4 ==> (0x21 + 2 * f.f4) / 8 == 5;
  }

  /** What grab reads back is what it wrote, modulo 2^32: its reader drops the top bit. */
  lemma PtsRoundTrip(t: nat)
    ensures LowPts(PtsBytes(t)) == t % TWO_32
    ensures FullPts(PtsBytes(t)) == t % TWO_33
  {
    hide Fields, LowPts, FullPts;
    var f := Fields(t);
    ReadPts(f, 2 * f.f0 + 1);
    LowBits(t, f.f0 + 0x80 * f.f1 + 0x8000 * f.f2 + 0x40_0000 * f.f3, f.f4);
  }

  lemma LowBits(t: nat, low: nat, high: nat)
    requires low < 0x4000_0000 && high < 8 && t % TWO_33 == low + 0x4000_0000 * high
    ensures t % TWO_32 == low + 0x4000_0000 * (high % 4)
  {
    var q := 2 * (t / TWO_33) + high / 4;
    assert high == 4 * (high / 4) + high % 4;
    assert t == TWO_33 * (t / TWO_33) + t % TWO_33;
    ModUnique(t, TWO_32, q, low + 0x4000_0000 * (high % 4));
  }

  /** The five bytes ggrab's `fill_pes_pts` writes: the last byte holds the low
      seven bits shifted right, not left, with its lowest bit set. (The three high bits its mask
      also lets through fall outside the byte.) */
  function PtsBytesG(t: nat): (b: seq<Byte>)
    ensures |b| == 5
  {
    PtsBytes(t)[4 := t % 128 / 4 * 2 + 1]
  }

  /** ggrab's written stamps are early by at most 96 ticks and never late. */
  lemma PtsGIsClose(t: nat)
    requires t < TWO_33
    ensures FullPts(PtsBytesG(t)) == t - t % 128 + t % 128 / 4
    ensures 0 <= t - FullPts(PtsBytesG(t)) <= 96
  {
    var f := Fields(t);
    assert f.f0 == t % 128 && PtsBytesG(t) == [0x21 + 2 * f.f4, f.f3, 2 * f.f2 + 1, f.f1, f.f0 / 4 * 2 + 1];
    hide Fields, LowPts, FullPts, PtsBytesG;
    ReadPts(f.(f0 := f.f0 / 4), f.f0 / 4 * 2 + 1);
    Small(t);
  }

  lemma Small(t: nat)
    requires t < TWO_33
    ensures t % TWO_33 == t && 0 <= t % 128 - t % 128 / 4 <= 96
  {
  }

  /** ... and later times never give earlier stamps. */
  lemma PtsGIsMonotone(t: nat, t': nat)
    requires t <= t' < TWO_33
    ensures FullPts(PtsBytesG(t)) <= FullPts(PtsBytesG(t'))
  {
    hide FullPts, PtsBytesG;
    PtsGIsClose(t);
    PtsGIsClose(t');
    RoundedInOrder(t, t');
  }

  lemma RoundedInOrder(t: nat, t': nat)
    requires t <= t'
    ensures t - t % 128 + t % 128 / 4 <= t' - t' % 128 + t' % 128 / 4
  {
    var q, q' := t / 128, t' / 128;
    assert t == 128 * q + t % 128 && t' == 128 * q' + t' % 128;
  }

  // ---------------------------------------------------------------- system clock reference

  /** The groups of bits of a clock reference: 5, 8, 2, 5, 8, 2 and 3 bits, lowest first. */
  datatype ScrFields = ScrFields(g0: nat, g1: nat, g2: nat, g3: nat, g4: nat, g5: nat, g6: nat)

  function Groups(t: nat): (g: ScrFields)
    ensures g.g0 < 32 && g.g1 < 256 && g.g2 < 4 && g.g3 < 32 && g.g4 < 256 && g.g5 < 4 && g.g6 < 8
    ensures t % TWO_33 == g.g0 + 0x20 * g.g1 + 0x2000 * g.g2 + 0x8000 * g.g3 + 0x10_0000 * g.g4
                          + 0x1000_0000 * g.g5 + 0x4000_0000 * g.g6
  {
    var q1 := t / 0x20;
    var q2 := q1 / 0x100;
    var q3 := q2 / 4;
    var q4 := q3 / 0x20;
    var q5 := q4 / 0x100;
    var q6 := q5 / 4;
    GroupsAdd(t, q1, q2, q3, q4, q5, q6);
    ScrFields(t % 0x20, q1 % 0x100, q2 % 4, q3 % 0x20, q4 % 0x100, q5 % 4, q6 % 8)
  }

  lemma GroupsAdd(t: nat, q1: nat, q2: nat, q3: nat, q4: nat, q5: nat, q6: nat)
    requires q1 == t / 0x20 && q2 == q1 / 0x100 && q3 == q2 / 4 && q4 == q3 / 0x20 && q5 == q4 / 0x100 && q6 == q5 / 4
    ensures t % TWO_33 == t % 0x20 + 0x20 * (q1 % 0x100) + 0x2000 * (q2 % 4) + 0x8000 * (q3 % 0x20)
                          + 0x10_0000 * (q4 % 0x100) + 0x1000_0000 * (q5 % 4) + 0x4000_0000 * (q6 % 8)
  {
    var g0, g1, g2, g3, g4, g5, g6 := t % 0x20, q1 % 0x100, q2 % 4, q3 % 0x20, q4 % 0x100, q5 % 4, q6 % 8;
    assert t == 0x20 * q1 + g0 && q1 == 0x100 * q2 + g1 && q2 == 4 * q3 + g2 && q3 == 0x20 * q4 + g3;
    assert q4 == 0x100 * q5 + g4 && q5 == 4 * q6 + g5 && q6 == 8 * (q6 / 8) + g6;
    ModUnique(t, TWO_33, q6 / 8, g0 + 0x20 * g1 + 0x2000 * g2 + 0x8000 * g3 + 0x10_0000 * g4 + 0x1000_0000 * g5
                                 + 0x4000_0000 * g6);
  }

  /** Bytes 4 to 9 of a pack header. */
  function ScrBytes(t: nat): (b: seq<Byte>)
    ensures |b| == 6
  {
    var g := Groups(t);
    [0x44 + 8 * g.g6 + g.g5, g.g4, 8 * g.g3 + 4 + g.g2, g.g1, 8 * g.g0 + 4, 1]
  }

  /** `clock_ref`. */
  function ClockRef(b: seq<Byte>): nat
    requires |b| == 6
  {
    var b0: int, b1: int, b2: int, b3: int, b4: int := b[0], b[1], b[2], b[3], b[4];
    b4 / 8 % 32 + b3 * 0x20 + b2 % 4 * 0x2000 + b2 / 8 % 32 * 0x8000
    + b1 * 0x10_0000 + b0 % 4 * 0x1000_0000 + b0 / 8 % 4 * 0x4000_0000
  }

  lemma ScrRoundTrip(t: nat)
    ensures ClockRef(ScrBytes(t)) == t % TWO_32
  {
    hide Groups;
    var g := Groups(t);
    ReadScr(g);
    LowBits(t, g.g0 + 0x20 * g.g1 + 0x2000 * g.g2 + 0x8000 * g.g3 + 0x10_0000 * g.g4 + 0x1000_0000 * g.g5, g.g6);
  }

  lemma ReadScr(g: ScrFields)
    requires g.g0 < 32 && g.g1 < 256 && g.g2 < 4 && g.g3 < 32 && g.g4 < 256 && g.g5 < 4 && g.g6 < 8
    ensures ClockRef([0x44 + 8 * g.g6 + g.g5, g.g4, 8 * g.g3 + 4 + g.g2, g.g1, 8 * g.g0 + 4, 1])
         == g.g0 + 0x20 * g.g1 + 0x2000 * g.g2 + 0x8000 * g.g3 + 0x10_0000 * g.g4 + 0x1000_0000 * g.g5
            + 0x4000_0000 * (g.g6 % 4)
  {
    EighthsAndFourths(8 * g.g0 + 4, g.g0, 0);
    EighthsAndFourths(8 * g.g3 + 4 + g.g2, g.g3, g.g2);
    EighthsAndFourths(0x44 + 8 * g.g6 + g.g5, 8 + g.g6, g.g5);
    assert (8 + g.g6) % 4 == g.g6 % 4;
  }

  /** A byte of two groups with a marker bit between them. */
  lemma EighthsAndFourths(b: nat, high: nat, low: nat)
    requires low < 4 && b == 8 * high + 4 + low
    ensures b / 8 == high && b % 4 == low
  {
  }

  // ---------------------------------------------------------------- differences

  function Abs(x: real): real { if x < 0.0 then -x else x }

  /** `pts_diff`. */
  function PtsDiff(l: real, r: real): real {
    if l < 0.0 || r < 0.0 then -1.0 else
    if Abs(l - r) >= TWO_31 as real then
      if l > r then
        (if l > 0x1_8000_0000 as real then l - TWO_33 as real
         else if l > TWO_31 as real then l - TWO_32 as real else l) - r
      else
        l - (if r > 0x1_8000_0000 as real then r - TWO_33 as real
             else if r > TWO_31 as real then r - TWO_32 as real else r)
    else l - r
  }

  /** On 32-bit stamps the difference is the signed one of smallest size: antisymmetric, congruent
      to `l - r` modulo 2^32 and at most 2^31 in size. */
  lemma PtsDiffIsShortest(l: real, r: real)
    requires 0.0 <= l < TWO_32 as real && 0.0 <= r < TWO_32 as real
    ensures PtsDiff(r, l) == -PtsDiff(l, r)
    ensures Abs(PtsDiff(l, r)) <= TWO_31 as real
    ensures PtsDiff(l, r) in {l - r, l - r - TWO_32 as real, l - r + TWO_32 as real}
  {
  }
}
