/** ggrab's 2048-byte program pack (class `propack`). */
module Propack {
  import opened Bytes
  import opened Timestamps

  const PACK := 2048
  const MPLEX_RATE := 10_080_000

  /** The ticks of the 90 kHz clock that one pack takes at the multiplex rate. */
  const TICKS: real := 2048.0 * 8.0 / 10_080_000.0 * 90_000.0

  datatype StartFlag = NoStart | StartSeq | StartGop

  /** The tick count `fill_pes_pts` encodes; beyond 33 bits it takes off one tick too many. */
  function PtsTicks(pts: real): (t: nat)
    ensures 0.0 <= pts <= (TWO_33 - 1) as real ==> t == pts.Floor < TWO_33
    ensures pts < 0.0 || (TWO_33 - 1) as real < pts < (TWO_33 + 1) as real ==> t == 0
    ensures pts >= (TWO_33 + 1) as real ==> t == pts.Floor - TWO_33 - 1
  {
    var p := if pts > (TWO_33 - 1) as real then pts - (TWO_33 + 1) as real else pts;
    if p < 0.0 then 0 else p.Floor
  }

  /** The tick count `fill_pp_scr` encodes. */
  function ScrTicks(scr: real): (t: nat)
    ensures 0.0 <= scr <= (TWO_33 - 1) as real ==> t == scr.Floor < TWO_33
    ensures scr < 0.0 || (TWO_33 - 1) as real < scr < TWO_33 as real ==> t == 0
    ensures scr >= TWO_33 as real ==> t == scr.Floor - TWO_33
  {
    var p := if scr > (TWO_33 - 1) as real then scr - TWO_33 as real else scr;
    if p < 0.0 then 0 else p.Floor
  }

  /** The last four bytes of the pack header: the multiplex rate in units of 400 bit/s, no stuffing. */
  const RATE_FIELD: seq<Byte> :=
    [MPLEX_RATE / 400 / 0x4000 % 0x100, MPLEX_RATE / 400 / 0x40 % 0x100, MPLEX_RATE / 400 % 0x40 * 4 + 3, 0]

  /** The 22-bit `program_mux_rate` of section 2.5.3.3 of ISO/IEC 13818-1, in units of 50 bytes/s. */
  function MuxRate(b: seq<Byte>): nat
    requires |b| >= 3
  {
    var b0: int, b1: int, b2: int := b[0], b[1], b[2];
    b0 * 0x4000 + b1 * 0x40 + b2 / 4
  }

  /** The rate the header declares is the multiplex rate. */
  lemma DeclaredRate()
    ensures MuxRate(RATE_FIELD) * 50 * 8 == MPLEX_RATE
  {
  }

  /** Joins two neighbouring slices. */
  lemma SlicesJoin(s: seq<Byte>, a: nat, b: nat, c: nat, x: seq<Byte>, y: seq<Byte>)
    requires a <= b <= c <= |s| && s[a..b] == x && s[b..c] == y
    ensures s[a..c] == x + y
  {
    assert s[a..c] == s[a..b] + s[b..c];
  }

  /** Slices of a part that did not change. */
  lemma Kept(s: seq<Byte>, s': seq<Byte>, lo: nat, hi: nat, a: nat, b: nat)
    requires |s| == |s'| && lo <= a <= b <= hi <= |s| && s'[lo..hi] == s[lo..hi]
    ensures s'[a..b] == s[a..b]
  {
    forall i | a <= i < b
      ensures s'[i] == s[i]
    {
      assert s'[i] == s'[lo..hi][i - lo] && s[i] == s[lo..hi][i - lo];
    }
  }

  class Propack {
    const buffer: array<Byte>
    var act: nat
    var scrWanted: real
    var flag: StartFlag

    ghost predicate Valid()
      reads this, buffer
    {
      && buffer.Length == PACK && 14 <= act <= PACK
      && buffer[..4] == [0, 0, 1, 0xba] && buffer[10..14] == RATE_FIELD
    }

    /** `memcpy` into the pack. */
    method Store(at: nat, data: seq<Byte>)
      requires at + |data| <= buffer.Length
      modifies buffer
      ensures buffer[at..at + |data|] == data
      ensures buffer[..at] == old(buffer[..at]) && buffer[at + |data|..] == old(buffer[at + |data|..])
    {
      for i := 0 to |data|
        invariant buffer[at..at + i] == data[..i]
        invariant buffer[..at] == old(buffer[..at]) && buffer[at + |data|..] == old(buffer[at + |data|..])
      {
        buffer[at + i] := data[i];
        assert buffer[at..at + i + 1] == buffer[at..at + i] + [data[i]];
      }
    }

    /** `memset` with zero. */
    method Clear(at: nat, n: nat)
      requires at + n <= buffer.Length
      modifies buffer
      ensures buffer[at..at + n] == seq(n, _ => 0)
      ensures buffer[..at] == old(buffer[..at])
    {
      for i := 0 to n
        invariant forall j :: at <= j < at + i ==> buffer[j] == 0
        invariant buffer[..at] == old(buffer[..at])
      {
        buffer[at + i] := 0;
      }
    }

    /** `memmove` of the last `n` bytes five places up. */
    method MakeRoom(at: nat, n: nat)
      requires at + n + 5 <= buffer.Length
      modifies buffer
      ensures buffer[at + 5..at + 5 + n] == old(buffer[at..at + n])
      ensures buffer[..at] == old(buffer[..at])
    {
      var i := n;
      while i > 0
        invariant 0 <= i <= n
        invariant forall j :: at + 5 + i <= j < at + 5 + n ==> buffer[j] == old(buffer[j - 5])
        invariant forall j :: 0 <= j < at + i ==> buffer[j] == old(buffer[j])
      {
        i := i - 1;
        buffer[at + 5 + i] := buffer[at + i];
      }
    }

    constructor ()
      ensures Valid() && act == 14 && fresh(buffer)
    {
      buffer := new Byte[PACK];
      act, scrWanted, flag := 14, 0.0, NoStart;
      new;
      Store(0, [0, 0, 1, 0xba, 0, 0, 0, 0, 0, 1]);
      Store(10, RATE_FIELD);
      assert buffer[..4] == buffer[..10][..4];
    }

    /** `reset`. */
    method Reset()
      requires Valid()
      modifies this`act
      ensures Valid() && act == 14
    {
      act := 14;
    }

    /** `fill_scr`. */
    method FillScr(scr: real)
      requires Valid()
      modifies buffer
      ensures Valid() && buffer[4..10] == ScrBytes(ScrTicks(scr))
      ensures buffer[..4] == old(buffer[..4]) && buffer[10..] == old(buffer[10..])
    {
      Store(4, ScrBytes(ScrTicks(scr)));
      assert buffer[10..14] == buffer[10..][..4];
    }

    /** `fill_pes_pts` on the PES packet at `pes`. */
    method FillPts(pes: nat, pts: real)
      requires pes + 14 <= buffer.Length
      modifies buffer
      ensures buffer[..pes + 7] == old(buffer[..pes + 7]) && buffer[pes + 14..] == old(buffer[pes + 14..])
      ensures buffer[pes + 7] == (if old(buffer[pes + 7]) < 0x80 then old(buffer[pes + 7]) + 0x80 else old(buffer[pes + 7]))
      ensures buffer[pes + 8] == 5 && buffer[pes + 9..pes + 14] == PtsBytesG(PtsTicks(pts))
    {
      buffer[pes + 7] := if buffer[pes + 7] < 0x80 then buffer[pes + 7] + 0x80 else buffer[pes + 7];
      buffer[pes + 8] := 5;
      ghost var b := buffer[..pes + 9];
      Store(pes + 9, PtsBytesG(PtsTicks(pts)));
      assert buffer[..pes + 9] == b;
      assert buffer[..pes + 7] == b[..pes + 7] && buffer[pes + 7] == b[pes + 7] && buffer[pes + 8] == b[pes + 8];
    }
  }
}
