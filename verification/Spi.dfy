/** The bit-banged SPI bus of the MMC driver: a card that samples its data input when the clock rises
    and changes its output when the clock falls, wired to port pins in one of three ways.

    A register is the set of its pins that are 1. The card is any automaton; what it does on an edge
    may depend on everything but the level of the data input at a falling edge. */
module Spi {
  import opened Bytes

  /** An arbitrary card. `rise` is given the data input before and after the edge. */
  datatype Card<!S> = Card(
    rise: (S, bool, bool, bool) -> S,    // state, CS, DI before, DI after
    fall: (S, bool) -> S,                // state, CS
    select: (S, bool) -> S,              // state, new CS
    output: S -> bool)

  datatype Wiring = Wiring1 | Wiring2 | Wiring4

  type Register = set<nat>

  // Pins of port A are numbered from 0, those of port B as on the board.
  const PA07 := 7
  const PA08 := 8
  const PA09 := 9
  const PB16 := 16
  const PB17 := 17
  const PB18 := 18
  const PB19 := 19
  const PB22 := 22
  const PB23 := 23

  function CsPin(w: Wiring): nat { if w.Wiring1? then PB23 else PB16 }
  function ClkPin(w: Wiring): nat { if w.Wiring1? then PB22 else PB17 }

  /** The levels on the card's inputs. */
  datatype Lines = Lines(cs: bool, clk: bool, di: bool)

  function LinesOf(w: Wiring, pa: Register, pb: Register): Lines {
    Lines(CsPin(w) in pb, ClkPin(w) in pb, if w.Wiring2? then PA08 in pa else PB19 in pb)
  }

  /** The card's reaction to its inputs changing from `l` to `l'`. */
  function React<S>(m: Card<S>, c: S, l: Lines, l': Lines): S {
    var c1 := if l.cs != l'.cs then m.select(c, l'.cs) else c;
    if !l.clk && l'.clk then m.rise(c1, l'.cs, l.di, l'.di)
    else if l.clk && !l'.clk then m.fall(c1, l'.cs)
    else c1
  }

  // ---------------------------------------------------------------- what a transfer means

  /** The card after one clock cycle with bit `b` on its input, and the bit it shows meanwhile. */
  function Cycle<S>(m: Card<S>, c: S, cs: bool, b: bool): S { m.fall(m.rise(c, cs, b, b), cs) }
  function Shown<S>(m: Card<S>, c: S, cs: bool, b: bool): bool { m.output(m.rise(c, cs, b, b)) }

  function AfterBits<S>(m: Card<S>, c: S, cs: bool, bits: seq<bool>): S {
    if bits == [] then c else Cycle(m, AfterBits(m, c, cs, bits[..|bits| - 1]), cs, bits[|bits| - 1])
  }

  function ShownBits<S>(m: Card<S>, c: S, cs: bool, bits: seq<bool>): (r: seq<bool>)
    ensures |r| == |bits|
  {
    if bits == [] then [] else
    var front := bits[..|bits| - 1];
    ShownBits(m, c, cs, front) + [Shown(m, AfterBits(m, c, cs, front), cs, bits[|bits| - 1])]
  }

  /** The weight of the k-th bit sent, most significant first. */
  function Weight(k: nat): (w: nat)
    ensures 0 < w <= 128
  {
    match k case 0 => 128 case 1 => 64 case 2 => 32 case 3 => 16 case 4 => 8 case 5 => 4 case 6 => 2 case _ => 1
  }

  function BitOf(b: Byte, k: nat): bool { (b as int) / Weight(k) % 2 == 1 }

  function Bits(b: Byte): (s: seq<bool>)
    ensures |s| == 8
  {
    seq(8, k requires 0 <= k < 8 => BitOf(b, k))
  }

  /** The value of up to eight bits, most significant first. */
  function Value(s: seq<bool>): (v: nat)
    requires |s| <= 8
    ensures v <= 256 - (if |s| == 0 then 256 else Weight(|s| - 1))
  {
    if s == [] then 0 else Value(s[..|s| - 1]) + if s[|s| - 1] then Weight(|s| - 1) else 0
  }

  /** The card after exchanging the bytes `out`, and the bytes it answers with. */
  function After<S>(m: Card<S>, c: S, cs: bool, out: seq<Byte>): S {
    if out == [] then c
    else AfterBits(m, After(m, c, cs, out[..|out| - 1]), cs, Bits(out[|out| - 1]))
  }

  function Answer<S>(m: Card<S>, c: S, cs: bool, b: Byte): Byte { Value(ShownBits(m, c, cs, Bits(b))) }

  function Answers<S>(m: Card<S>, c: S, cs: bool, out: seq<Byte>): (r: seq<Byte>)
    ensures |r| == |out|
  {
    if out == [] then [] else
    var front := out[..|out| - 1];
    Answers(m, c, cs, front) + [Answer(m, After(m, c, cs, front), cs, out[|out| - 1])]
  }

  lemma AfterAppend<S>(m: Card<S>, c: S, cs: bool, out: seq<Byte>, b: Byte)
    ensures After(m, c, cs, out + [b]) == AfterBits(m, After(m, c, cs, out), cs, Bits(b))
    ensures Answers(m, c, cs, out + [b]) == Answers(m, c, cs, out) + [Answer(m, After(m, c, cs, out), cs, b)]
  {
    assert (out + [b])[..|out|] == out;
  }

  lemma OneMore<S>(m: Card<S>, c: S, cs: bool, out: seq<Byte>, i: nat)
    requires i < |out|
    ensures After(m, c, cs, out[..i + 1]) == AfterBits(m, After(m, c, cs, out[..i]), cs, Bits(out[i]))
  {
    hide After, AfterBits, Bits;
    AfterAppend(m, c, cs, out[..i], out[i]);
    assert out[..i] + [out[i]] == out[..i + 1];
  }

  // ---------------------------------------------------------------- the port

  class Port<S> {
    const model: Card<S>
    const w: Wiring
    var pa: Register
    var pb: Register
    var card: S

    constructor (model: Card<S>, w: Wiring, card: S)
      ensures this.model == model && this.w == w && this.card == card
      ensures Bus() == Lines(true, false, true)
    {
      this.model, this.w, this.card := model, w, card;
      this.pa := {PA08};
      this.pb := {PB19, PB16, PB23};
    }

    ghost function Bus(): Lines
      reads this
    {
      LinesOf(w, pa, pb)
    }

    method SetA(v: Register)
      modifies this`pa, this`card
      ensures pa == v && card == React(model, old(card), old(Bus()), Bus())
    {
      card := React(model, card, LinesOf(w, pa, pb), LinesOf(w, v, pb));
      pa := v;
    }

    method SetB(v: Register)
      modifies this`pb, this`card
      ensures pb == v && card == React(model, old(card), old(Bus()), Bus())
    {
      card := React(model, card, LinesOf(w, pa, pb), LinesOf(w, pa, v));
      pb := v;
    }

    /** Reading a port gives its output latch, but the card's output on the pin it drives. */
    function ReadA(): Register
      reads this
    {
      if w.Wiring1? then pa - {PA07} + (if model.output(card) then {PA07} else {})
      else if w.Wiring2? then pa - {PA09} + (if model.output(card) then {PA09} else {})
      else pa
    }

    function ReadB(): Register
      reads this
    {
      if w.Wiring4? then pb - {PB18} + (if model.output(card) then {PB18} else {}) else pb
    }

    function ReadDo(): bool
      reads this
    {
      match w case Wiring1 => PA07 in ReadA() case Wiring2 => PA09 in ReadA() case Wiring4 => PB18 in ReadB()
    }

    /** `mmc_spi_cs_low_*` and `mmc_spi_cs_high_*`. */
    method SetCs(level: bool)
      modifies this`pb, this`card
      ensures Bus() == old(Bus()).(cs := level)
      ensures card == React(model, old(card), old(Bus()), Bus())
    {
      SetB(if level then ReadB() + {CsPin(w)} else ReadB() - {CsPin(w)});
    }

    method SetClk(level: bool)
      modifies this`pb, this`card
      ensures Bus() == old(Bus()).(clk := level)
      ensures card == React(model, old(card), old(Bus()), Bus())
    {
      SetB(if level then ReadB() + {ClkPin(w)} else ReadB() - {ClkPin(w)});
    }

    method SetDi(level: bool)
      modifies this`pa, this`pb, this`card
      ensures Bus() == old(Bus()).(di := level)
      ensures card == React(model, old(card), old(Bus()), Bus())
    {
      if w.Wiring2? {
        SetA(if level then ReadA() + {PA08} else ReadA() - {PA08});
      } else {
        SetB(if level then ReadB() + {PB19} else ReadB() - {PB19});
      }
    }
  
    // -------------------------------------------------------------- failsafe transfer

    /** One clock cycle with `b` on the data input; returns the card's output while the clock is
        high. */
    method ClockBit(b: bool) returns (r: bool)
      requires !Bus().clk
      modifies this`pa, this`pb, this`card
      ensures Bus() == old(Bus()).(di := b)
      ensures card == Cycle(model, old(card), Bus().cs, b) && r == Shown(model, old(card), Bus().cs, b)
    {
      SetDi(b);
      SetClk(true);
      r := ReadDo();
      SetClk(false);
    }

    /** `mmc_spi_io_1`, `mmc_spi_io_2` and `mmc_spi_io_4`. */
    method SpiIo(dataOut: Byte) returns (result: Byte)
      requires !Bus().clk
      modifies this`pa, this`pb, this`card
      ensures Bus() == old(Bus()).(di := BitOf(dataOut, 7))
      ensures card == AfterBits(model, old(card), Bus().cs, Bits(dataOut))
      ensures result == Answer(model, old(card), Bus().cs, dataOut)
    {
      hide AfterBits, ShownBits, Value, Cycle, Shown, LinesOf;
      ghost var cs, c0, bits := Bus().cs, card, Bits(dataOut);
      NoBits(model, c0, cs);
      var i, r := 0x80, 0;
      ghost var k := 0;
      while i != 0
        invariant 0 <= k <= 8 && i == if k == 8 then 0 else Weight(k)
        invariant Bus() == old(Bus()).(di := if k == 0 then old(Bus()).di else bits[k - 1])
        invariant card == AfterBits(model, c0, cs, bits[..k])
        invariant r == Value(ShownBits(model, c0, cs, bits[..k]))
        decreases 8 - k
      {
        BitsAppend(model, c0, cs, bits, k);
        var b := ClockBit((dataOut as int) / i % 2 == 1);
        if b {
          r := r + i;
        }
        i := i / 2;
        k := k + 1;
      }
      assert bits[..8] == bits;
      result := r;
    }

    // -------------------------------------------------------------- optimised transfer

    /** The card once a pending falling edge has happened. */
    ghost function Settled(): S
      reads this
    {
      if Bus().clk then model.fall(card, Bus().cs) else card
    }

    /** A value for port B that leaves CS alone and sets the clock (and, on port B, the data) line. */
    ghost predicate Word(v: Register, clk: bool, di: bool)
      reads this
    {
      (CsPin(w) in v) == Bus().cs && (ClkPin(w) in v) == clk && (w.Wiring2? || (PB19 in v) == di)
    }

    /** One bit of `mmc_spi_write_14`: data with the clock low, then the clock high. The fall of the
        previous cycle coincides with the change of data. */
    method LatchBit(b: bool, low: Register, high: Register)
      requires !w.Wiring2? && Word(low, false, b) && Word(high, true, b)
      modifies this`pb, this`card
      ensures Bus() == old(Bus()).(clk := true, di := b)
      ensures Settled() == Cycle(model, old(Settled()), Bus().cs, b)
    {
      SetB(low);
      SetB(high);
    }

    /** `mmc_spi_write_14`, the eight unrolled bits of one byte. */
    method WriteByte14(b: Byte, cldl: Register, cldh: Register, chdl: Register, chdh: Register)
      requires !w.Wiring2?
      requires Word(cldl, false, false) && Word(cldh, false, true) && Word(chdl, true, false) && Word(chdh, true, true)
      modifies this`pb, this`card
      ensures Bus().cs == old(Bus()).cs && Bus().clk
      ensures Settled() == AfterBits(model, old(Settled()), Bus().cs, Bits(b))
    {
      hide AfterBits, Cycle, LinesOf, BitOf, React;
      ghost var c0, cs, bits := Settled(), Bus().cs, Bits(b);
      NoBits(model, c0, cs);
      for k := 0 to 8
        invariant Bus().cs == cs && (k > 0 ==> Bus().clk)
        invariant Settled() == AfterBits(model, c0, cs, bits[..k])
      {
        BitsAppend(model, c0, cs, bits, k);
        if BitOf(b, k) {
          LatchBit(true, cldh, chdh);
        } else {
          LatchBit(false, cldl, chdl);
        }
      }
      assert bits[..8] == bits;
    }

    method WriteBytes14(data: seq<Byte>, cldl: Register, cldh: Register, chdl: Register, chdh: Register)
      requires !w.Wiring2?
      requires Word(cldl, false, false) && Word(cldh, false, true) && Word(chdl, true, false) && Word(chdh, true, true)
      modifies this`pb, this`card
      ensures Bus().cs == old(Bus()).cs
      ensures Settled() == After(model, old(Settled()), Bus().cs, data)
    {
      hide After, AfterBits, Bits, LinesOf;
      ghost var c0, cs := Settled(), Bus().cs;
      NoBytes(model, c0, cs);
      assert data[..0] == [];
      for j := 0 to |data|
        invariant Bus().cs == cs
        invariant Settled() == After(model, c0, cs, data[..j])
      {
        OneMore(model, c0, cs, data, j);
        WriteByte14(data[j], cldl, cldh, chdl, chdh);
      }
      assert data[..|data|] == data;
    }

    /** `mmc_spi_write_14`: every register value is computed once, from the port as it is now. */
    method Write14(data: seq<Byte>)
      requires !w.Wiring2? && !Bus().clk
      modifies this`pb, this`card
      ensures Bus() == old(Bus()).(di := true)
      ensures card == After(model, old(card), Bus().cs, data)
    {
      hide After;
      var cldl := ReadB() - {PB19, ClkPin(w)};
      var cldh := (ReadB() + {PB19}) - {ClkPin(w)};
      var chdl := (ReadB() + {ClkPin(w)}) - {PB19};
      var chdh := ReadB() + {ClkPin(w), PB19};
      WriteBytes14(data, cldl, cldh, chdl, chdh);
      SetB(cldh);
    }

    /** One bit of `mmc_spi_write_2`. */
    method LatchBit2(data: Register, high: Register, low: Register, ghost b: bool)
      requires w.Wiring2? && !Bus().clk && (PA08 in data) == b && Word(high, true, b) && Word(low, false, b)
      modifies this`pa, this`pb, this`card
      ensures Bus() == old(Bus()).(di := b)
      ensures card == Cycle(model, old(card), Bus().cs, b)
    {
      SetA(data);
      SetB(high);
      SetB(low);
    }

    /** `mmc_spi_write_2`, the eight unrolled bits of one byte. */
    method WriteByte2(b: Byte, dataHigh: Register, dataLow: Register, high: Register, low: Register)
      requires w.Wiring2? && !Bus().clk && PA08 in dataHigh && PA08 !in dataLow
      requires Word(high, true, true) && Word(low, false, true)
      modifies this`pa, this`pb, this`card
      ensures Bus() == old(Bus()).(di := BitOf(b, 7))
      ensures card == AfterBits(model, old(card), Bus().cs, Bits(b))
    {
      ghost var c0, bus, bits := card, Bus(), Bits(b);
      assert forall k :: 0 <= k < 8 ==> bits[k] == BitOf(b, k);
      hide AfterBits, Cycle, LinesOf, BitOf, Bits, Word, React;
      NoBits(model, c0, bus.cs);
      for k := 0 to 8
        invariant Bus() == bus.(di := if k == 0 then bus.di else BitOf(b, k - 1))
        invariant card == AfterBits(model, c0, bus.cs, bits[..k])
      {
        BitsAppend(model, c0, bus.cs, bits, k);
        LatchBit2(if BitOf(b, k) then dataHigh else dataLow, high, low, BitOf(b, k));
      }
      assert bits[..8] == bits;
    }

    method WriteBytes2(data: seq<Byte>, dataHigh: Register, dataLow: Register, high: Register, low: Register)
      requires w.Wiring2? && !Bus().clk && PA08 in dataHigh && PA08 !in dataLow
      requires Word(high, true, true) && Word(low, false, true)
      modifies this`pa, this`pb, this`card
      ensures Bus().cs == old(Bus()).cs && !Bus().clk
      ensures card == After(model, old(card), Bus().cs, data)
    {
      hide After, AfterBits, Bits, BitOf, LinesOf;
      ghost var c0, cs := card, Bus().cs;
      NoBytes(model, c0, cs);
      assert data[..0] == [];
      for j := 0 to |data|
        invariant Bus().cs == cs && !Bus().clk
        invariant card == After(model, c0, cs, data[..j])
      {
        OneMore(model, c0, cs, data, j);
        WriteByte2(data[j], dataHigh, dataLow, high, low);
      }
      assert data[..|data|] == data;
    }

    /** `mmc_spi_write_2`. */
    method Write2(data: seq<Byte>)
      requires w.Wiring2? && !Bus().clk
      modifies this`pa, this`pb, this`card
      ensures Bus().cs == old(Bus()).cs && !Bus().clk
      ensures card == After(model, old(card), Bus().cs, data)
    {
      hide After;
      WriteBytes2(data, ReadA() + {PA08}, ReadA() - {PA08}, ReadB() + {PB17}, ReadB() - {PB17});
    }

    /** The write routine the driver installs for its wiring. */
    method Write(data: seq<Byte>)
      requires !Bus().clk
      modifies this`pa, this`pb, this`card
      ensures Bus().cs == old(Bus()).cs && !Bus().clk
      ensures card == After(model, old(card), Bus().cs, data)
    {
      if w.Wiring2? {
        Write2(data);
      } else {
        Write14(data);
      }
    }

    /** One bit of `mmc_read_multiple_*`, the data input being high. */
    method SampleBit(high: Register, low: Register) returns (r: bool)
      requires !Bus().clk && Bus().di && Word(high, true, true) && Word(low, false, true)
      modifies this`pb, this`card
      ensures Bus() == old(Bus())
      ensures card == Cycle(model, old(card), Bus().cs, true) && r == Shown(model, old(card), Bus().cs, true)
    {
      SetB(high);
      r := ReadDo();
      SetB(low);
    }

    /** `mmc_read_multiple_*`, the eight unrolled bits of one byte, shifted in from the right. */
    method ReadByte(high: Register, low: Register) returns (result: Byte)
      requires !Bus().clk && Bus().di && Word(high, true, true) && Word(low, false, true)
      modifies this`pb, this`card
      ensures Bus() == old(Bus())
      ensures card == AfterBits(model, old(card), Bus().cs, Bits(0xff))
      ensures result == Answer(model, old(card), Bus().cs, 0xff)
    {
      hide AfterBits, ShownBits, Cycle, Shown, LinesOf, Value, Horner;
      ghost var c0, cs, bits := card, Bus().cs, Bits(0xff);
      NoBits(model, c0, cs);
      var r := 0;
      for k := 0 to 8
        invariant Bus() == old(Bus())
        invariant card == AfterBits(model, c0, cs, bits[..k])
        invariant r == Horner(ShownBits(model, c0, cs, bits[..k])) && r < Limit(k)
      {
        BitsAppend(model, c0, cs, bits, k);
        OnesAreOnes(k);
        ghost var before := ShownBits(model, c0, cs, bits[..k]);
        var b := SampleBit(high, low);
        HornerAppend(before, b);
        r := (2 * r + (if b then 1 else 0)) % 256;
      }
      assert bits[..8] == bits;
      HornerIsValue(ShownBits(model, c0, cs, bits));
      result := r;
    }

    /** `mmc_read_multiple_1`, `mmc_read_multiple_2` and `mmc_read_multiple_4`. */
    method ReadMultiple(dest: array<Byte>, at: nat, n: nat)
      requires !Bus().clk && at + n <= dest.Length
      modifies this`pa, this`pb, this`card, dest
      ensures Bus() == old(Bus()).(di := true)
      ensures card == After(model, old(card), Bus().cs, Ones(n))
      ensures dest[at..at + n] == Answers(model, old(card), Bus().cs, Ones(n))
      ensures dest[..at] == old(dest[..at]) && dest[at + n..] == old(dest[at + n..])
    {
      var high := if w.Wiring2? then ReadB() + {PB17} else ReadB() + {ClkPin(w), PB19};
      var low := if w.Wiring2? then ReadB() - {PB17} else (ReadB() + {PB19}) - {ClkPin(w)};
      SetDi(true);
      ReadBytes(high, low, dest, at, n);
    }

    method ReadBytes(high: Register, low: Register, dest: array<Byte>, at: nat, n: nat)
      requires !Bus().clk && Bus().di && Word(high, true, true) && Word(low, false, true)
      requires at + n <= dest.Length
      modifies this`pb, this`card, dest
      ensures Bus() == old(Bus())
      ensures card == After(model, old(card), Bus().cs, Ones(n))
      ensures dest[at..at + n] == Answers(model, old(card), Bus().cs, Ones(n))
      ensures dest[..at] == old(dest[..at]) && dest[at + n..] == old(dest[at + n..])
    {
      hide After, Answers, Answer, AfterBits, Bits, LinesOf;
      ghost var c0, bus := card, Bus();
      NoBytes(model, c0, bus.cs);
      assert Ones(0) == [];
      for j := 0 to n
        invariant Bus() == bus
        invariant card == After(model, c0, bus.cs, Ones(j))
        invariant dest[at..at + j] == Answers(model, c0, bus.cs, Ones(j))
        invariant dest[..at] == old(dest[..at]) && dest[at + j..] == old(dest[at + j..])
      {
        AfterAppend(model, c0, bus.cs, Ones(j), 0xff);
        assert Ones(j) + [0xff] == Ones(j + 1);
        ghost var before, rest := dest[at..at + j], dest[at + j..];
        var b := ReadByte(high, low);
        dest[at + j] := b;
        assert dest[at..at + (j + 1)] == before + [b];
        assert dest[at + (j + 1)..] == rest[1..];
      }
    }
  }

  /** `n` bytes of ones, what is sent while reading. */
  function Ones(n: nat): (s: seq<Byte>)
    ensures |s| == n
  {
    seq(n, _ => 0xff)
  }

  lemma OnesAreOnes(k: nat)
    requires k < 8
    ensures Bits(0xff)[k]
  {
  }

  /** The value of bits shifted in from the right. */
  function Horner(s: seq<bool>): nat {
    if s == [] then 0 else 2 * Horner(s[..|s| - 1]) + if s[|s| - 1] then 1 else 0
  }

  function Limit(k: nat): nat {
    match k case 0 => 1 case 1 => 2 case 2 => 4 case 3 => 8 case 4 => 16 case 5 => 32 case 6 => 64 case 7 => 128 case _ => 256
  }

  lemma HornerAppend(s: seq<bool>, b: bool)
    ensures Horner(s + [b]) == 2 * Horner(s) + if b then 1 else 0
  {
    assert (s + [b])[..|s|] == s;
  }

  /** Shifting in from the right and adding weights from the left give the same byte. */
  lemma HornerIsValue(s: seq<bool>)
    requires |s| == 8
    ensures Horner(s) == Value(s)
  {
    var s7 := s[..7];
    var s6 := s7[..6];
    var s5 := s6[..5];
    var s4 := s5[..4];
    var s3 := s4[..3];
    var s2 := s3[..2];
    var s1 := s2[..1];
    assert 128 * Horner(s1) == Value(s1);
    assert 64 * Horner(s2) == Value(s2);
    assert 32 * Horner(s3) == Value(s3);
    assert 16 * Horner(s4) == Value(s4);
    assert 8 * Horner(s5) == Value(s5);
    assert 4 * Horner(s6) == Value(s6);
    assert 2 * Horner(s7) == Value(s7);
  }

  lemma NoBytes<S>(m: Card<S>, c: S, cs: bool)
    ensures After(m, c, cs, []) == c && Answers(m, c, cs, []) == []
  {
  }

  lemma NoBits<S>(m: Card<S>, c: S, cs: bool)
    ensures AfterBits(m, c, cs, []) == c && ShownBits(m, c, cs, []) == []
    ensures Value([]) == 0 && Horner([]) == 0
  {
  }

  lemma BitsAppend<S>(m: Card<S>, c: S, cs: bool, bits: seq<bool>, k: nat)
    requires k < |bits| <= 8
    ensures AfterBits(m, c, cs, bits[..k + 1]) == Cycle(m, AfterBits(m, c, cs, bits[..k]), cs, bits[k])
    ensures var s := Shown(m, AfterBits(m, c, cs, bits[..k]), cs, bits[k]);
            && ShownBits(m, c, cs, bits[..k + 1]) == ShownBits(m, c, cs, bits[..k]) + [s]
            && Value(ShownBits(m, c, cs, bits[..k + 1]))
               == Value(ShownBits(m, c, cs, bits[..k])) + if s then Weight(k) else 0
  {
    assert bits[..k + 1][..k] == bits[..k];
    var a, b := ShownBits(m, c, cs, bits[..k]), ShownBits(m, c, cs, bits[..k + 1]);
    assert b[..k] == a;
  }
}
