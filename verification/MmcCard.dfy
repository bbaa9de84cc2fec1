/** A card that the block transfers of `Mmc` can talk to: what is written to it is read back. */
module MmcCard {
  import opened Bytes
  import opened Spi
  import opened Mmc

  // ---------------------------------------------------------------- the card, byte by byte

  /** Where the card is in a command. `wait` counts the bytes until the card is ready. */
  datatype Phase =
    | Idle
    | Address(write: bool, n: nat, a: nat)
    | Ack(write: bool, a: nat, wait: nat)
    | Token(a: nat, wait: nat)
    | Sending(a: nat, i: nat)
    | Expecting(a: nat)
    | Storing(a: nat, got: seq<Byte>)
    | Response
    | Busy(wait: nat)

  /** A card with its sectors, and how long it takes to answer a command, to find a sector and to store one. */
  datatype Device = Device(sectors: map<nat, seq<Byte>>, ack: nat, seek: nat, busy: nat, phase: Phase)

  /** What a sector holds; one never written is erased. */
  function Sector(d: Device, a: nat): (s: seq<Byte>)
    ensures |s| == SECTOR
  {
    if a in d.sectors && |d.sectors[a]| == SECTOR then d.sectors[a] else Ones(SECTOR)
  }

  /** The byte the card shows while the next one is sent to it. */
  function Reply(d: Device): Byte {
    match d.phase
    case Ack(_, _, wait) => if wait == 0 then 0x00 else 0xff
    case Token(_, wait) => if wait == 0 then 0xfe else 0xff
    case Sending(a, i) => if i < SECTOR then Sector(d, a)[i] else 0xff
    case Response => 0x05
    case Busy(_) => 0x00
    case _ => 0xff
  }

  /** What a byte does to the card: commands 17 and 24 of the SPI protocol. */
  function Step(d: Device, b: Byte): Device {
    match d.phase
    case Idle => if b == 0x51 || b == 0x58 then d.(phase := Address(b == 0x58, 0, 0)) else d
    case Address(write, n, a) =>
      if n < 4 then d.(phase := Address(write, n + 1, a * 256 + b as int)) else d.(phase := Ack(write, a, d.ack))
    case Ack(write, a, wait) =>
      if wait > 0 then d.(phase := Ack(write, a, wait - 1))
      else d.(phase := if write then Expecting(a) else Token(a, d.seek))
    case Token(a, wait) => if wait > 0 then d.(phase := Token(a, wait - 1)) else d.(phase := Sending(a, 0))
    case Sending(a, i) => if i < SECTOR + 1 then d.(phase := Sending(a, i + 1)) else d.(phase := Idle)
    case Expecting(a) => if b == 0xfe then d.(phase := Storing(a, [])) else d
    case Storing(a, got) =>
      if |got| < SECTOR + 1 then d.(phase := Storing(a, got + [b]))
      else d.(sectors := d.sectors[a := (got + [b])[..SECTOR]], phase := Response)
    case Response => d.(phase := if d.busy > 0 then Busy(d.busy - 1) else Idle)
    case Busy(wait) => d.(phase := if wait > 0 then Busy(wait - 1) else Idle)
  }

  function Steps(d: Device, out: seq<Byte>): Device {
    if out == [] then d else Step(Steps(d, out[..|out| - 1]), out[|out| - 1])
  }

  lemma StepsAppend(d: Device, out: seq<Byte>, b: Byte)
    ensures Steps(d, out + [b]) == Step(Steps(d, out), b)
  {
    assert (out + [b])[..|out|] == out;
  }

  lemma {:induction false} StepsConcat(d: Device, a: seq<Byte>, b: seq<Byte>)
    ensures Steps(d, a + b) == Steps(Steps(d, a), b)
  {
    hide Step, Steps;
    if b == [] {
      NoSteps(Steps(d, a));
      assert a + b == a;
    } else {
      var front, last := b[..|b| - 1], b[|b| - 1];
      assert a + b == (a + front) + [last] && b == front + [last];
      StepsConcat(d, a, front);
      StepsAppend(d, a + front, last);
      StepsAppend(Steps(d, a), front, last);
    }
  }

  lemma NoSteps(d: Device)
    ensures Steps(d, []) == d
  {
  }

  // ---------------------------------------------------------------- the card on the bus

  /** The card and the bits of the byte that is coming in. */
  datatype Pins = Pins(device: Device, got: seq<bool>)

  /** The card samples its input when the clock rises and takes a byte after the eighth fall. */
  function Rise(s: Pins, cs: bool, b: bool): Pins {
    if cs || |s.got| >= 8 then s else s.(got := s.got + [b])
  }

  function Fall(s: Pins, cs: bool): Pins {
    if !cs && |s.got| == 8 then Pins(Step(s.device, Value(s.got)), []) else s
  }

  function Output(s: Pins): bool { 0 < |s.got| <= 8 && BitOf(Reply(s.device), |s.got| - 1) }

  function Select(s: Pins, cs: bool): Pins { if cs then Pins(s.device.(phase := Idle), []) else s }

  function SectorCard(): Card<Pins> {
    Card((s: Pins, cs: bool, before: bool, b: bool) => Rise(s, cs, b), (s: Pins, cs: bool) => Fall(s, cs),
         (s: Pins, cs: bool) => Select(s, cs), (s: Pins) => Output(s))
  }

  /** Between bytes. */
  function At(d: Device): Pins { Pins(d, []) }

  /** One bit of a byte. */
  lemma BitGoes(d: Device, front: seq<bool>, b: bool)
    requires |front| < 8
    ensures Cycle(SectorCard(), Pins(d, front), false, b)
         == if |front| < 7 then Pins(d, front + [b]) else At(Step(d, Value(front + [b])))
    ensures Shown(SectorCard(), Pins(d, front), false, b) == BitOf(Reply(d), |front|)
  {
    var up := Rise(Pins(d, front), false, b);
    assert SectorCard().rise(Pins(d, front), false, b, b) == up == Pins(d, front + [b]);
    assert SectorCard().fall(up, false) == Fall(up, false);
    assert SectorCard().output(up) == Output(up);
    hide Step, Reply, BitOf, Value;
  }

  /** The first bits of a byte. */
  lemma {:induction false} SomeBits(d: Device, bits: seq<bool>)
    requires |bits| <= 8
    ensures |bits| < 8 ==> AfterBits(SectorCard(), At(d), false, bits) == Pins(d, bits)
    ensures |bits| == 8 ==> AfterBits(SectorCard(), At(d), false, bits) == At(Step(d, Value(bits)))
    ensures forall k :: 0 <= k < |bits| ==> ShownBits(SectorCard(), At(d), false, bits)[k] == BitOf(Reply(d), k)
  {
    hide SectorCard, Step, Reply, BitOf, Value, AfterBits, ShownBits, Cycle, Shown;
    if bits == [] {
      NoBits(SectorCard(), At(d), false);
    } else {
      var n := |bits| - 1;
      var front, last := bits[..n], bits[n];
      SomeBits(d, front);
      BitsAppend(SectorCard(), At(d), false, bits, n);
      assert bits[..n + 1] == bits == front + [last];
      BitGoes(d, front, last);
    }
  }

  /** A byte is the value of its bits. */
  lemma ValueOfBits(b: Byte)
    ensures Value(Bits(b)) == b
  {
    HornerIsValue(Bits(b));
    FirstBits(b, 8);
    assert Bits(b)[..8] == Bits(b);
    hide Value;
  }

  lemma {:induction false} FirstBits(b: Byte, k: nat)
    requires 0 < k <= 8
    ensures Horner(Bits(b)[..k]) == b as int / Weight(k - 1)
  {
    var front := Bits(b)[..k - 1];
    assert Bits(b)[..k] == front + [BitOf(b, k - 1)];
    HornerAppend(front, BitOf(b, k - 1));
    if k == 1 {
      assert front == [];
    } else {
      FirstBits(b, k - 1);
      HalfWeight(b, k - 1);
    }
    hide Bits, Horner;
  }

  lemma HalfWeight(b: Byte, k: nat)
    requires 0 < k < 8
    ensures b as int / Weight(k) / 2 == b as int / Weight(k - 1)
  {
  }

  /** One byte. */
  lemma ByteGoes(d: Device, b: Byte)
    ensures AfterBits(SectorCard(), At(d), false, Bits(b)) == At(Step(d, b))
    ensures Answer(SectorCard(), At(d), false, b) == Reply(d)
  {
    SomeBits(d, Bits(b));
    ValueOfBits(b);
    ValueOfBits(Reply(d));
    hide AfterBits, BitOf, Step, Reply, Value, ShownBits;
    assert ShownBits(SectorCard(), At(d), false, Bits(b)) == Bits(Reply(d));
  }

  lemma {:induction false} BytesGo(d: Device, out: seq<Byte>)
    ensures After(SectorCard(), At(d), false, out) == At(Steps(d, out))
  {
    hide Steps, After, AfterBits, Bits, SectorCard, Step, Answers, Answer;
    if out == [] {
      NoSteps(d);
      NoBytes(SectorCard(), At(d), false);
    } else {
      var n := |out| - 1;
      assert out[..n] + [out[n]] == out;
      BytesGo(d, out[..n]);
      StepsAppend(d, out[..n], out[n]);
      AfterAppend(SectorCard(), At(d), false, out[..n], out[n]);
      ByteGoes(Steps(d, out[..n]), out[n]);
    }
  }

  /** Deselected, the card waits for a command. */
  lemma Deselects(d: Device)
    ensures Deselect(SectorCard(), At(d)) == At(d.(phase := Idle))
  {
    var c := At(d.(phase := Idle));
    assert SectorCard().select(At(d), true) == c;
    OneByte(SectorCard(), c, true, 0xff);
    NothingTaken(c, Bits(0xff));
  }

  lemma {:induction false} NothingTaken(c: Pins, bits: seq<bool>)
    ensures AfterBits(SectorCard(), c, true, bits) == c
  {
    if bits != [] {
      NothingTaken(c, bits[..|bits| - 1]);
      assert SectorCard().rise(c, true, bits[|bits| - 1], bits[|bits| - 1]) == c && SectorCard().fall(c, true) == c;
    }
  }

  // ---------------------------------------------------------------- waiting for the card

  /** Polling goes on to the byte that was waited for. */
  lemma {:induction false} PollGoes(d: Device, n: nat, want: Byte, k: nat)
    requires k < n && Reply(Steps(d, Ones(k))) == want
    requires forall i :: 0 <= i < k ==> Reply(Steps(d, Ones(i))) != want
    ensures Poll(SectorCard(), At(d), n, want) == (At(Steps(d, Ones(k + 1))), want)
    decreases k
  {
    hide Steps, Step, Reply, SectorCard, Answer, AfterBits;
    var d' := Step(d, 0xff);
    OneByte(SectorCard(), At(d), false, 0xff);
    ByteGoes(d, 0xff);
    FirstStep(d, 0);
    assert Ones(0) == [];
    NoSteps(d);
    if k == 0 {
      NoSteps(d');
    } else {
      assert Reply(Steps(d, Ones(0))) != want;
      FirstStep(d, k - 1);
      FirstStep(d, k);
      forall i | 0 <= i < k - 1
        ensures Reply(Steps(d', Ones(i))) != want
      {
        FirstStep(d, i);
        assert Reply(Steps(d, Ones(i + 1))) != want;
      }
      PollGoes(d', n - 1, want, k - 1);
    }
  }

  lemma FirstStep(d: Device, k: nat)
    ensures Steps(d, Ones(k + 1)) == Steps(Step(d, 0xff), Ones(k))
  {
    assert Ones(k + 1) == [0xff] + Ones(k);
    StepsConcat(d, [0xff], Ones(k));
    StepsAppend(d, [], 0xff);
    NoSteps(d);
    assert [] + [0xff] == [0xff as Byte];
  }

  lemma OnesAppend(d: Device, k: nat)
    ensures Steps(d, Ones(k + 1)) == Step(Steps(d, Ones(k)), 0xff)
  {
    assert Ones(k + 1) == Ones(k) + [0xff];
    StepsAppend(d, Ones(k), 0xff);
  }

  /** Ones count a waiting card down. */
  lemma {:induction false} AckCounts(d: Device, write: bool, a: nat, wait: nat, k: nat)
    requires d.phase == Ack(write, a, wait) && k <= wait
    ensures Steps(d, Ones(k)) == d.(phase := Ack(write, a, wait - k))
  {
    hide Steps;
    NoSteps(d);
    if k > 0 {
      AckCounts(d, write, a, wait, k - 1);
      OnesAppend(d, k - 1);
    } else {
      assert Ones(0) == [];
    }
  }

  lemma {:induction false} TokenCounts(d: Device, a: nat, wait: nat, k: nat)
    requires d.phase == Token(a, wait) && k <= wait
    ensures Steps(d, Ones(k)) == d.(phase := Token(a, wait - k))
  {
    hide Steps;
    NoSteps(d);
    if k > 0 {
      TokenCounts(d, a, wait, k - 1);
      OnesAppend(d, k - 1);
    } else {
      assert Ones(0) == [];
    }
  }

  // ---------------------------------------------------------------- one transfer

  lemma TwoSteps(d: Device, x: Byte, y: Byte)
    ensures Steps(d, [x]) == Step(d, x) && Steps(d, [x, y]) == Step(Step(d, x), y)
  {
    NoSteps(d);
    StepsAppend(d, [], x);
    StepsAppend(d, [x], y);
    assert [] + [x] == [x] && [x] + [y] == [x, y];
    hide Steps, Step;
  }

  /** The address is put together from its bytes. */
  lemma AddressGoes(d: Device, write: bool, addr: nat)
    requires d.phase == Address(write, 0, 0) && addr < 0x1_0000_0000
    ensures Steps(d, AddressBytes(addr)) == d.(phase := Address(write, 4, addr))
  {
    var s := AddressBytes(addr);
    AddressSum(addr);
    assert s == [s[0], s[1]] + [s[2], s[3]];
    hide Steps, AddressBytes;
    StepsConcat(d, [s[0], s[1]], [s[2], s[3]]);
    TwoSteps(d, s[0], s[1]);
    TwoSteps(d.(phase := Address(write, 2, s[0] as int * 256 + s[1] as int)), s[2], s[3]);
  }

  lemma AddressSum(addr: nat)
    requires addr < 0x1_0000_0000
    ensures var s := AddressBytes(addr);
            ((s[0] as int * 256 + s[1] as int) * 256 + s[2] as int) * 256 + s[3] as int == addr
  {
    ShiftedAddress(addr);
    hide AddressBytes;
    var q1 := addr / 256;
    var q2 := q1 / 256;
    var q3 := q2 / 256;
    assert addr == q1 * 256 + addr % 256 && q1 == q2 * 256 + q1 % 256 && q2 == q3 * 256 + q2 % 256;
    assert q3 % 256 == q3;
  }

  lemma {:induction false} IdleStays(d: Device, k: nat)
    requires d.phase == Idle
    ensures Steps(d, Ones(k)) == d
  {
    hide Steps;
    NoSteps(d);
    if k > 0 {
      IdleStays(d, k - 1);
      OnesAppend(d, k - 1);
    } else {
      assert Ones(0) == [];
    }
  }

  /** A command reaches the card with its address. */
  lemma CommandGoes(d: Device, cs: bool, cmd: Byte, addr: nat)
    requires d.phase == Idle && (cmd == 0x51 || cmd == 0x58) && addr < 0x1_0000_0000
    ensures Command(SectorCard(), At(d), cs, cmd, addr) == At(d.(phase := Ack(cmd == 0x58, addr, d.ack)))
  {
    assert SectorCard().select(At(d), false) == At(d);
    var s := AddressBytes(addr);
    BytesGo(d, Ones(4) + [cmd] + s + [0xff]);
    hide After, SectorCard, Steps, AddressBytes, Ones;
    IdleStays(d, 4);
    var d1 := d.(phase := Address(cmd == 0x58, 0, 0));
    var d2 := d.(phase := Address(cmd == 0x58, 4, addr));
    TwoSteps(d, cmd, 0xff);
    AddressGoes(d1, cmd == 0x58, addr);
    TwoSteps(d2, 0xff, 0xff);
    StepsConcat(d, Ones(4), [cmd]);
    StepsConcat(d, Ones(4) + [cmd], s);
    StepsConcat(d, Ones(4) + [cmd] + s, [0xff]);
  }

  /** The card answers 0 once it is ready, if that is soon enough. */
  lemma AckComes(d: Device, write: bool, a: nat)
    requires d.phase == Ack(write, a, d.ack) && d.ack < 8
    ensures Poll(SectorCard(), At(d), 8, 0x00) == (At(d.(phase := if write then Expecting(a) else Token(a, d.seek))), 0x00)
  {
    hide SectorCard, Steps;
    AckCounts(d, write, a, d.ack, d.ack);
    forall i | 0 <= i < d.ack
      ensures Reply(Steps(d, Ones(i))) != 0x00
    {
      AckCounts(d, write, a, d.ack, i);
    }
    PollGoes(d, 8, 0x00, d.ack);
    OnesAppend(d, d.ack);
  }

  lemma TokenComes(d: Device, a: nat)
    requires d.phase == Token(a, d.seek) && d.seek < 100000
    ensures Poll(SectorCard(), At(d), 100000, START_TOKEN) == (At(d.(phase := Sending(a, 0))), START_TOKEN)
  {
    hide SectorCard, Steps;
    TokenCounts(d, a, d.seek, d.seek);
    forall i | 0 <= i < d.seek
      ensures Reply(Steps(d, Ones(i))) != START_TOKEN
    {
      TokenCounts(d, a, d.seek, i);
    }
    PollGoes(d, 100000, START_TOKEN, d.seek);
    OnesAppend(d, d.seek);
  }

  lemma {:induction false} Sends(d: Device, a: nat, k: nat)
    requires d.phase == Sending(a, 0) && k <= SECTOR + 1
    ensures Steps(d, Ones(k)) == d.(phase := Sending(a, k))
  {
    hide Steps;
    NoSteps(d);
    if k > 0 {
      Sends(d, a, k - 1);
      OnesAppend(d, k - 1);
    } else {
      assert Ones(0) == [];
    }
  }

  /** What is read is the sector. */
  lemma {:induction false} SectorComes(d: Device, a: nat, k: nat)
    requires d.phase == Sending(a, 0) && k <= SECTOR
    ensures Answers(SectorCard(), At(d), false, Ones(k)) == Sector(d, a)[..k]
  {
    hide SectorCard, Steps, After, Answer, AfterBits, Bits, Answers, Sector;
    if k == 0 {
      assert Ones(0) == [];
      NoBytes(SectorCard(), At(d), false);
    } else {
      SectorComes(d, a, k - 1);
      Sends(d, a, k - 1);
      BytesGo(d, Ones(k - 1));
      AfterAppend(SectorCard(), At(d), false, Ones(k - 1), 0xff);
      assert Ones(k - 1) + [0xff] == Ones(k);
      ByteGoes(d.(phase := Sending(a, k - 1)), 0xff);
      SameSectors(d, a, Sending(a, k - 1));
    }
  }

  lemma SameSectors(d: Device, a: nat, phase: Phase)
    ensures Sector(d.(phase := phase), a) == Sector(d, a)
  {
  }

  /** A read gives the sector and leaves the card as it was. */
  lemma ReadGives(d: Device, cs: bool, addr: nat)
    requires d.phase == Idle && addr < 0x1_0000_0000 && d.ack < 8 && d.seek < 100000
    ensures ReadOutcome(SectorCard(), At(d), cs, addr) == Outcome(0, Sector(d, addr), At(d))
  {
    hide SectorCard, Steps, After, Answers, Poll, Command, Deselect, Sector, Step, Reply;
    CommandGoes(d, cs, READ_SINGLE, addr);
    AckComes(d.(phase := Ack(false, addr, d.ack)), false, addr);
    TokenComes(d.(phase := Token(addr, d.seek)), addr);
    var d' := d.(phase := Sending(addr, 0));
    SectorComes(d', addr, SECTOR);
    SameSectors(d, addr, Sending(addr, 0));
    SectorSent(d', addr);
    BytesGo(d', Ones(SECTOR) + Ones(2));
    Deselects(d.(phase := Idle));
  }

  lemma SectorSent(d: Device, a: nat)
    requires d.phase == Sending(a, 0)
    ensures Steps(d, Ones(SECTOR) + Ones(2)) == d.(phase := Idle)
  {
    Sends(d, a, SECTOR + 1);
    assert Ones(SECTOR) + Ones(2) == Ones(SECTOR + 2);
    OnesAppend(d, SECTOR + 1);
    hide Steps, Ones;
  }

  lemma {:induction false} Stores(d: Device, a: nat, data: seq<Byte>)
    requires d.phase == Storing(a, []) && |data| <= SECTOR + 1
    ensures Steps(d, data) == d.(phase := Storing(a, data))
  {
    NoSteps(d);
    if data != [] {
      var n := |data| - 1;
      Stores(d, a, data[..n]);
      StepsAppend(d, data[..n], data[n]);
      assert data[..n] + [data[n]] == data;
      hide Steps;
    }
  }

  /** The token, the sector and two more bytes. */
  lemma DataGoes(d: Device, a: nat, data: seq<Byte>)
    requires d.phase == Expecting(a) && |data| == SECTOR
    ensures Steps(d, [START_TOKEN] + data + Ones(2)) == d.(sectors := d.sectors[a := data], phase := Response)
  {
    var d1 := d.(phase := Storing(a, []));
    TwoSteps(d, START_TOKEN, 0xff);
    var all := data + [0xff];
    Stores(d1, a, all);
    assert (all + [0xff])[..SECTOR] == data;
    StepsAppend(d1, all, 0xff);
    assert [START_TOKEN] + data + Ones(2) == [START_TOKEN] + (all + [0xff]);
    StepsConcat(d, [START_TOKEN], all + [0xff]);
    hide Steps, Ones;
  }

  /** The card is busy for a while, and then idle. */
  lemma BusyEnds(d: Device)
    requires d.phase == Response && d.busy + 1 < 1000000
    ensures Poll(SectorCard(), At(d), 1000000, 0xff) == (At(d.(phase := Idle)), 0xff)
  {
    hide SectorCard, Steps;
    NoSteps(d);
    assert Ones(0) == [];
    forall i | 0 <= i < d.busy + 1
      ensures Reply(Steps(d, Ones(i))) != 0xff
    {
      if i > 0 { BusyFor(d, i); }
    }
    BusyFor(d, d.busy + 1);
    PollGoes(d, 1000000, 0xff, d.busy + 1);
    OnesAppend(d, d.busy + 1);
  }

  lemma {:induction false} BusyFor(d: Device, k: nat)
    requires d.phase == Response && 0 < k <= d.busy + 1
    ensures Steps(d, Ones(k)) == d.(phase := if k <= d.busy then Busy(d.busy - k) else Idle)
  {
    hide Steps;
    if k > 1 {
      BusyFor(d, k - 1);
    } else {
      NoSteps(d);
      assert Ones(0) == [];
    }
    OnesAppend(d, k - 1);
  }

  /** A write stores the sector and changes nothing else. */
  lemma WriteStores(d: Device, cs: bool, addr: nat, data: seq<Byte>)
    requires d.phase == Idle && addr < 0x1_0000_0000 && |data| == SECTOR && d.ack < 8 && d.busy + 1 < 1000000
    ensures WriteOutcome(SectorCard(), At(d), cs, addr, data) == Outcome(0, [], At(d.(sectors := d.sectors[addr := data])))
  {
    hide SectorCard, Steps, After, Poll, Command, Deselect, Step, Reply;
    CommandGoes(d, cs, WRITE_SINGLE, addr);
    AckComes(d.(phase := Ack(true, addr, d.ack)), true, addr);
    var d' := d.(phase := Expecting(addr));
    DataGoes(d', addr, data);
    BytesGo(d', [START_TOKEN] + data + Ones(2));
    BusyEnds(d.(sectors := d.sectors[addr := data], phase := Response));
    Deselects(d.(sectors := d.sectors[addr := data]));
  }

  // ---------------------------------------------------------------- writing and reading

  /** The device behind a port waits for a command and is quick enough for the driver. */
  predicate Responsive(d: Device) {
    d.phase == Idle && d.ack < 8 && d.seek < 100000 && d.busy + 1 < 1000000
  }

  /** What is written to a sector is read from it, and the other sectors stay as they are: by the optimised
      transfers or the failsafe ones, on any wiring. */
  method WriteAndRead(p: Port<Pins>, fastWrite: bool, fastRead: bool, addr: nat, data: seq<Byte>, back: array<Byte>)
    returns (rcWrite: int, rcRead: int)
    requires !p.Bus().clk && p.model == SectorCard() && p.card == At(p.card.device) && Responsive(p.card.device)
    requires addr < 0x1_0000_0000 && |data| == SECTOR == back.Length
    modifies p, back
    ensures rcWrite == 0 && rcRead == 0 && back[..] == data
    ensures p.card == At(old(p.card.device).(sectors := old(p.card.device.sectors)[addr := data]))
  {
    hide SectorCard, ReadOutcome, WriteOutcome, Step;
    ghost var d := p.card.device;
    ghost var d' := d.(sectors := d.sectors[addr := data]);
    WriteStores(d, p.Bus().cs, addr, data);
    if fastWrite {
      rcWrite := FastWriteBlock(p, addr, data);
    } else {
      rcWrite := SafeWriteBlock(p, addr, data);
    }
    assert p.card == At(d');
    ReadGives(d', p.Bus().cs, addr);
    if fastRead {
      rcRead := FastReadBlock(p, back, addr);
    } else {
      rcRead := SafeReadBlock(p, back, addr);
    }
  }
}
