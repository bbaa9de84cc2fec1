/** Block reads and writes of the MMC driver, by the failsafe (`opt` 0) and the optimised (`opt` 1)
    transfer routines. `ReadOutcome` and `WriteOutcome` say what a card makes of the command
    sequence, byte by byte; both variants of each routine are proved to give exactly that, so for
    every card, wiring, address and data they cannot be told apart. */
module Mmc {
  import opened Bytes
  import opened Spi

  const SECTOR := 512
  const READ_SINGLE: Byte := 0x51
  const WRITE_SINGLE: Byte := 0x58
  const START_TOKEN: Byte := 0xfe

  /** The address, most significant byte first. */
  function AddressBytes(a: nat): (s: seq<Byte>)
    ensures |s| == 4
  {
    [a / 0x100_0000 % 256, a / 0x1_0000 % 256, a / 0x100 % 256, a % 256]
  }

  /** Sends ones until the card answers `want`, at most `n` times. */
  function Poll<S>(m: Card<S>, c: S, n: nat, want: Byte): (S, Byte)
    requires n > 0
  {
    var r, c' := Answer(m, c, false, 0xff), After(m, c, false, [0xff]);
    if r == want || n == 1 then (c', r) else Poll(m, c', n - 1, want)
  }

  /** Selects the card and sends a command with its address. */
  function Command<S>(m: Card<S>, c: S, cs: bool, cmd: Byte, addr: nat): S {
    After(m, if cs then m.select(c, false) else c, false, Ones(4) + [cmd] + AddressBytes(addr) + [0xff])
  }

  /** Deselects the card and clocks it once more. */
  function Deselect<S>(m: Card<S>, c: S): S { After(m, m.select(c, true), true, [0xff]) }

  datatype Outcome<!S> = Outcome(rc: int, data: seq<Byte>, card: S)

  function ReadOutcome<S>(m: Card<S>, c: S, cs: bool, addr: nat): Outcome<S> {
    var (c1, r1) := Poll(m, Command(m, c, cs, READ_SINGLE, addr), 8, 0x00);
    if r1 != 0x00 then Outcome(1, [], Deselect(m, c1)) else
    var (c2, r2) := Poll(m, c1, 100000, START_TOKEN);
    if r2 != START_TOKEN then Outcome(2, [], Deselect(m, c2)) else
    Outcome(0, Answers(m, c2, false, Ones(SECTOR)), Deselect(m, After(m, c2, false, Ones(SECTOR) + Ones(2))))
  }

  function WriteOutcome<S>(m: Card<S>, c: S, cs: bool, addr: nat, data: seq<Byte>): Outcome<S> {
    var (c1, r1) := Poll(m, Command(m, c, cs, WRITE_SINGLE, addr), 8, 0x00);
    if r1 != 0x00 then Outcome(1, [], Deselect(m, c1)) else
    var (c2, r2) := Poll(m, After(m, c1, false, [START_TOKEN] + data + Ones(2)), 1000000, 0xff);
    Outcome(if r2 != 0xff then 3 else 0, [], Deselect(m, c2))
  }

  // ---------------------------------------------------------------- laws of transfers

  lemma {:induction false} AfterConcat<S>(m: Card<S>, c: S, cs: bool, a: seq<Byte>, b: seq<Byte>)
    ensures After(m, c, cs, a + b) == After(m, After(m, c, cs, a), cs, b)
    ensures Answers(m, c, cs, a + b) == Answers(m, c, cs, a) + Answers(m, After(m, c, cs, a), cs, b)
    decreases |b|
  {
    hide After, Answers, AfterBits, Answer;
    if b == [] {
      assert a + b == a;
      NoBytes(m, After(m, c, cs, a), cs);
    } else {
      var front, last := b[..|b| - 1], b[|b| - 1];
      assert a + b == (a + front) + [last] && b == front + [last];
      AfterConcat(m, c, cs, a, front);
      AfterAppend(m, c, cs, a + front, last);
      AfterAppend(m, After(m, c, cs, a), cs, front, last);
    }
  }

  lemma OneByte<S>(m: Card<S>, c: S, cs: bool, b: Byte)
    ensures After(m, c, cs, [b]) == AfterBits(m, c, cs, Bits(b))
    ensures Answers(m, c, cs, [b]) == [Answer(m, c, cs, b)]
  {
    AfterAppend(m, c, cs, [], b);
    assert [] + [b] == [b];
  }

  // ---------------------------------------------------------------- failsafe

  /** Exchanges bytes one by one, ignoring the answers. */
  method SafeSend<S>(p: Port<S>, out: seq<Byte>)
    requires !p.Bus().clk && out != []
    modifies p
    ensures p.Bus() == old(p.Bus()).(di := BitOf(out[|out| - 1], 7))
    ensures p.card == After(p.model, old(p.card), p.Bus().cs, out)
  {
    hide After, AfterBits, Bits, BitOf, LinesOf, Answer;
    ghost var c0, bus := p.card, p.Bus();
    NoBytes(p.model, c0, bus.cs);
    assert out[..0] == [];
    for i := 0 to |out|
      invariant p.Bus() == bus.(di := if i == 0 then bus.di else BitOf(out[i - 1], 7))
      invariant p.card == After(p.model, c0, bus.cs, out[..i])
    {
      OneMore(p.model, c0, bus.cs, out, i);
      var r := p.SpiIo(out[i]);
    }
    assert out[..|out|] == out;
  }

  lemma LastBitOfOnes()
    ensures BitOf(0xff, 7)
  {
  }

  method SafePoll<S>(p: Port<S>, n: nat, want: Byte) returns (r: Byte)
    requires !p.Bus().clk && !p.Bus().cs && n > 0
    modifies p
    ensures p.Bus() == old(p.Bus()).(di := true)
    ensures (p.card, r) == Poll(p.model, old(p.card), n, want)
  {
    hide After, AfterBits, Bits, BitOf, LinesOf, Answer;
    LastBitOfOnes();
    ghost var all := Poll(p.model, p.card, n, want);
    var i := 0;
    r := want;
    while i < n
      invariant 0 <= i <= n && p.Bus() == old(p.Bus()).(di := if i == 0 then old(p.Bus()).di else true)
      invariant if i < n then Poll(p.model, p.card, n - i, want) == all else (p.card, r) == all
      decreases n - i
    {
      OneByte(p.model, p.card, false, 0xff);
      r := p.SpiIo(0xff);
      if r == want {
        return;
      }
      i := i + 1;
    }
  }

  method SafeDeselect<S>(p: Port<S>)
    requires !p.Bus().clk && !p.Bus().cs
    modifies p
    ensures p.Bus() == Lines(true, false, true) && p.card == Deselect(p.model, old(p.card))
  {
    hide After, AfterBits, Bits, BitOf, LinesOf;
    LastBitOfOnes();
    p.SetCs(true);
    OneByte(p.model, p.card, true, 0xff);
    var r := p.SpiIo(0xff);
  }

  method SafeCommand<S>(p: Port<S>, cmd: Byte, addr: nat)
    requires !p.Bus().clk
    modifies p
    ensures p.Bus() == Lines(false, false, true)
    ensures p.card == Command(p.model, old(p.card), old(p.Bus()).cs, cmd, addr)
  {
    hide After, BitOf, LinesOf;
    LastBitOfOnes();
    p.SetCs(false);
    SafeSend(p, Ones(4) + [cmd] + AddressBytes(addr) + [0xff]);
  }

  /** Reads `n` bytes one by one. */
  method SafeReceive<S>(p: Port<S>, dest: array<Byte>, n: nat)
    requires !p.Bus().clk && !p.Bus().cs && n <= dest.Length
    modifies p, dest
    ensures p.Bus().cs == old(p.Bus()).cs && !p.Bus().clk
    ensures p.card == After(p.model, old(p.card), false, Ones(n))
    ensures dest[..n] == Answers(p.model, old(p.card), false, Ones(n))
    ensures dest[n..] == old(dest[n..])
  {
    hide After, Answers, Answer, AfterBits, Bits, BitOf, LinesOf;
    ghost var c0 := p.card;
    NoBytes(p.model, c0, false);
    assert Ones(0) == [];
    for i := 0 to n
      invariant !p.Bus().clk && !p.Bus().cs
      invariant p.card == After(p.model, c0, false, Ones(i))
      invariant dest[..i] == Answers(p.model, c0, false, Ones(i))
      invariant dest[i..] == old(dest[i..])
    {
      AfterAppend(p.model, c0, false, Ones(i), 0xff);
      assert Ones(i) + [0xff] == Ones(i + 1);
      ghost var before, rest := dest[..i], dest[i..];
      var r := p.SpiIo(0xff);
      dest[i] := r;
      assert dest[..i + 1] == before + [r] && dest[i + 1..] == rest[1..];
    }
  }

  /** `mmc_read_block` with `opt` 0. */
  method SafeReadBlock<S>(p: Port<S>, data: array<Byte>, addr: nat) returns (rc: int)
    requires !p.Bus().clk && data.Length == SECTOR
    modifies p, data
    ensures var o := ReadOutcome(p.model, old(p.card), old(p.Bus()).cs, addr);
            && rc == o.rc && p.card == o.card && p.Bus() == Lines(true, false, true)
            && data[..] == if rc == 0 then o.data else old(data[..])
  {
    hide After, Answers, LinesOf, Poll, Command, Deselect, BitOf;
    SafeCommand(p, READ_SINGLE, addr);
    var r := SafePoll(p, 8, 0x00);
    if r != 0x00 {
      SafeDeselect(p);
      return 1;
    }
    r := SafePoll(p, 100000, START_TOKEN);
    if r != START_TOKEN {
      SafeDeselect(p);
      return 2;
    }
    AfterConcat(p.model, p.card, false, Ones(SECTOR), Ones(2));
    SafeReceive(p, data, SECTOR);
    assert data[..SECTOR] == data[..];
    SafeSend(p, Ones(2));
    SafeDeselect(p);
    return 0;
  }

  /** `mmc_write_block` with `opt` 0. */
  method SafeWriteBlock<S>(p: Port<S>, addr: nat, data: seq<Byte>) returns (rc: int)
    requires !p.Bus().clk && |data| == SECTOR
    modifies p
    ensures var o := WriteOutcome(p.model, old(p.card), old(p.Bus()).cs, addr, data);
            rc == o.rc && p.card == o.card && p.Bus() == Lines(true, false, true)
  {
    hide After, LinesOf, Poll, Command, Deselect, BitOf;
    SafeCommand(p, WRITE_SINGLE, addr);
    var r := SafePoll(p, 8, 0x00);
    if r != 0x00 {
      SafeDeselect(p);
      return 1;
    }
    SafeSend(p, [START_TOKEN] + data + Ones(2));
    r := SafePoll(p, 1000000, 0xff);
    if r != 0xff {
      SafeDeselect(p);
      return 3;
    }
    SafeDeselect(p);
    return 0;
  }

  // ---------------------------------------------------------------- optimised

  /** `addr >>= 8` four times. */
  lemma ShiftedAddress(addr: nat)
    ensures AddressBytes(addr) == [addr / 256 / 256 / 256 % 256, addr / 256 / 256 % 256, addr / 256 % 256, addr % 256]
  {
  }

  method FastPoll<S>(p: Port<S>, buf: array<Byte>, n: nat, want: Byte)
    requires !p.Bus().clk && !p.Bus().cs && n > 0 && buf.Length > 0
    modifies p, buf
    ensures p.Bus() == old(p.Bus()).(di := true)
    ensures (p.card, buf[0]) == Poll(p.model, old(p.card), n, want)
    ensures buf[1..] == old(buf[1..])
  {
    hide After, Answers, AfterBits, Bits, LinesOf, Answer;
    ghost var all := Poll(p.model, p.card, n, want);
    assert Ones(1) == [0xff];
    var i := 0;
    while i < n
      invariant 0 <= i <= n && p.Bus() == old(p.Bus()).(di := if i == 0 then old(p.Bus()).di else true)
      invariant if i < n then Poll(p.model, p.card, n - i, want) == all else (p.card, buf[0]) == all
      invariant buf[1..] == old(buf[1..])
      decreases n - i
    {
      OneByte(p.model, p.card, false, 0xff);
      p.ReadMultiple(buf, 0, 1);
      assert buf[0] == buf[0..1][0];
      if buf[0] == want {
        break;
      }
      i := i + 1;
    }
  }

  method FastDeselect<S>(p: Port<S>, buf: array<Byte>)
    requires !p.Bus().clk && !p.Bus().cs && buf.Length > 0
    modifies p, buf
    ensures p.Bus() == Lines(true, false, true) && p.card == Deselect(p.model, old(p.card))
  {
    hide After, LinesOf;
    assert Ones(1) == [0xff];
    p.SetCs(true);
    p.ReadMultiple(buf, 0, 1);
  }

  /** Selects the card and sends the command bytes in `buf`, the first five of them set here. */
  method FastCommand<S>(p: Port<S>, buf: array<Byte>, cmd: Byte, addr: nat, n: nat)
    requires !p.Bus().clk && 5 <= n <= buf.Length
    modifies p, buf
    ensures !p.Bus().cs && !p.Bus().clk
    ensures buf[..n] == [cmd] + AddressBytes(addr) + old(buf[5..n]) && buf[n..] == old(buf[n..])
    ensures var c := if old(p.Bus()).cs then p.model.select(old(p.card), false) else old(p.card);
            p.card == After(p.model, c, false, Ones(4) + buf[..n])
  {
    hide After, Answers, LinesOf;
    ghost var tail, rest := buf[5..n], buf[n..];
    p.SetCs(false);
    ghost var c := p.card;
    p.ReadMultiple(buf, 0, 4);
    var a := addr;
    buf[0] := cmd;
    buf[4] := a % 256;
    a := a / 256;
    buf[3] := a % 256;
    a := a / 256;
    buf[2] := a % 256;
    a := a / 256;
    buf[1] := a % 256;
    ShiftedAddress(addr);
    assert buf[5..n] == tail && buf[n..] == rest;
    assert AddressBytes(addr) == [buf[1], buf[2], buf[3], buf[4]];
    assert buf[..n] == [buf[0], buf[1], buf[2], buf[3], buf[4]] + tail;
    AfterConcat(p.model, c, false, Ones(4), buf[..n]);
    p.Write(buf[..n]);
  }

  /** `mmc_read_block` with `opt` 1. */
  method FastReadBlock<S>(p: Port<S>, data: array<Byte>, addr: nat) returns (rc: int)
    requires !p.Bus().clk && data.Length == SECTOR
    modifies p, data
    ensures var o := ReadOutcome(p.model, old(p.card), old(p.Bus()).cs, addr);
            && rc == o.rc && p.card == o.card && p.Bus() == Lines(true, false, true)
            && data[..] == if rc == 0 then o.data else old(data[..])
  {
    hide After, Answers, LinesOf, Poll, Deselect;
    assert Ones(1) == [0xff];
    var mmcbuf := new Byte[5];
    FastCommand(p, mmcbuf, READ_SINGLE, addr, 5);
    ghost var c := if old(p.Bus()).cs then p.model.select(old(p.card), false) else old(p.card);
    ghost var sent := Ones(4) + mmcbuf[..5];
    assert sent + [0xff] == Ones(4) + [READ_SINGLE] + AddressBytes(addr) + [0xff];
    AfterConcat(p.model, c, false, sent, [0xff]);
    p.ReadMultiple(mmcbuf, 0, 1);
    assert p.card == Command(p.model, old(p.card), old(p.Bus()).cs, READ_SINGLE, addr);
    hide Command;
    FastPoll(p, mmcbuf, 8, 0x00);
    if mmcbuf[0] != 0x00 {
      FastDeselect(p, mmcbuf);
      return 1;
    }
    FastPoll(p, mmcbuf, 100000, START_TOKEN);
    if mmcbuf[0] != START_TOKEN {
      FastDeselect(p, mmcbuf);
      return 2;
    }
    AfterConcat(p.model, p.card, false, Ones(SECTOR), Ones(2));
    p.ReadMultiple(data, 0, SECTOR);
    assert data[..] == data[0..SECTOR];
    p.ReadMultiple(mmcbuf, 0, 2);
    FastDeselect(p, mmcbuf);
    return 0;
  }

  /** `mmc_write_block` with `opt` 1. */
  method FastWriteBlock<S>(p: Port<S>, addr: nat, data: seq<Byte>) returns (rc: int)
    requires !p.Bus().clk && |data| == SECTOR
    modifies p
    ensures var o := WriteOutcome(p.model, old(p.card), old(p.Bus()).cs, addr, data);
            rc == o.rc && p.card == o.card && p.Bus() == Lines(true, false, true)
  {
    hide After, LinesOf, Poll, Deselect;
    var mmcbuf := new Byte[8];
    mmcbuf[5], mmcbuf[6], mmcbuf[7] := 0xff, 0xff, 0xfe;
    FastCommand(p, mmcbuf, WRITE_SINGLE, addr, 6);
    assert mmcbuf[5] == mmcbuf[..6][5] == 0xff && mmcbuf[6] == mmcbuf[6..][0] && mmcbuf[7] == mmcbuf[6..][1];
    assert Ones(4) + mmcbuf[..6] == Ones(4) + [WRITE_SINGLE] + AddressBytes(addr) + [0xff];
    assert p.card == Command(p.model, old(p.card), old(p.Bus()).cs, WRITE_SINGLE, addr);
    hide Command;
    ghost var fixed := mmcbuf[1..];
    FastPoll(p, mmcbuf, 8, 0x00);
    if mmcbuf[0] != 0x00 {
      FastDeselect(p, mmcbuf);
      return 1;
    }
    assert mmcbuf[5] == fixed[4] && mmcbuf[6] == fixed[5] && mmcbuf[7] == fixed[6];
    SendData(p, mmcbuf, data);
    FastPoll(p, mmcbuf, 1000000, 0xff);
    if mmcbuf[0] != 0xff {
      FastDeselect(p, mmcbuf);
      return 3;
    }
    FastDeselect(p, mmcbuf);
    return 0;
  }

  /** The start token, the sector and the unused check sum. */
  method SendData<S>(p: Port<S>, mmcbuf: array<Byte>, data: seq<Byte>)
    requires !p.Bus().clk && !p.Bus().cs && mmcbuf.Length == 8
    requires mmcbuf[5] == 0xff && mmcbuf[6] == 0xff && mmcbuf[7] == START_TOKEN
    modifies p
    ensures !p.Bus().cs && !p.Bus().clk
    ensures p.card == After(p.model, old(p.card), false, [START_TOKEN] + data + Ones(2))
  {
    hide After, LinesOf;
    ghost var c := p.card;
    assert mmcbuf[7..8] == [START_TOKEN] && mmcbuf[5..7] == Ones(2);
    AfterConcat(p.model, c, false, [START_TOKEN], data);
    AfterConcat(p.model, c, false, [START_TOKEN] + data, Ones(2));
    p.Write(mmcbuf[7..8]);
    p.Write(data);
    p.Write(mmcbuf[5..7]);
  }

  // ---------------------------------------------------------------- indistinguishable

  /** The two ways to read a block, on two ports with equal cards but any wirings: the same return
      code, the same data, the same card and the same line levels. */
  method CompareReads<S>(safe: Port<S>, fast: Port<S>, a: array<Byte>, b: array<Byte>, addr: nat)
    returns (rcSafe: int, rcFast: int)
    requires safe != fast && a != b && a.Length == SECTOR && b.Length == SECTOR && a[..] == b[..]
    requires safe.model == fast.model && safe.card == fast.card
    requires !safe.Bus().clk && !fast.Bus().clk && safe.Bus().cs == fast.Bus().cs
    modifies safe, fast, a, b
    ensures rcSafe == rcFast && a[..] == b[..] && safe.card == fast.card && safe.Bus() == fast.Bus()
  {
    hide ReadOutcome, LinesOf;
    rcSafe := SafeReadBlock(safe, a, addr);
    rcFast := FastReadBlock(fast, b, addr);
  }

  method CompareWrites<S>(safe: Port<S>, fast: Port<S>, addr: nat, data: seq<Byte>)
    returns (rcSafe: int, rcFast: int)
    requires safe != fast && |data| == SECTOR
    requires safe.model == fast.model && safe.card == fast.card
    requires !safe.Bus().clk && !fast.Bus().clk && safe.Bus().cs == fast.Bus().cs
    modifies safe, fast
    ensures rcSafe == rcFast && safe.card == fast.card && safe.Bus() == fast.Bus()
  {
    hide WriteOutcome, LinesOf;
    rcSafe := SafeWriteBlock(safe, addr, data);
    rcFast := FastWriteBlock(fast, addr, data);
  }
}
