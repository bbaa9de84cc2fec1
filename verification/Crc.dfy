/** mkdnimg's CRC-32: table-driven, eight-way unrolled and chained over the chunks of a file, against
    the bit-serial CRC with polynomial 0xEDB88320. */
module Crc {
  import opened CrcTable

  // ---------------------------------------------------------------- the bit-serial CRC

  /** One byte into the register, bit by bit. */
  function SerialByte(c: bv32, b: bv8): bv32 { ByteStep(Xor(c, b as bv32)) }

  function Serial(c: bv32, s: seq<bv8>): bv32
    decreases |s|
  {
    if s == [] then c else Serial(SerialByte(c, s[0]), s[1..])
  }

  /** A running CRC continued over `s`: the register is inverted before and after. */
  function Crc32(crc: bv32, s: seq<bv8>): bv32 {
    Xor(Serial(Xor(crc, 0xffff_ffff), s), 0xffff_ffff)
  }

  // ---------------------------------------------------------------- the table step

  /** The `DO1` macro. */
  function TableStep(c: bv32, b: bv8): bv32 {
    Xor(Entry((Xor(c, b as bv32) & 0xff) as bv8 as int), c >> 8)
  }

  lemma EvenShifts(y: bv32)
    requires y & 1 == 0
    ensures BitStep(y) == y >> 1
  {
  }

  lemma TwoShifts(y: bv32)
    requires y & 3 == 0
    ensures TwoSteps(y) == y >> 2
  {
    assert y & 1 == 0 && (y >> 1) & 1 == 0 && (y >> 1) >> 1 == y >> 2;
    hide BitStep;
    EvenShifts(y);
    EvenShifts(y >> 1);
  }

  lemma FourShifts(y: bv32)
    requires y & 0xf == 0
    ensures FourSteps(y) == y >> 4
  {
    assert y & 3 == 0 && (y >> 2) & 3 == 0 && (y >> 2) >> 2 == y >> 4;
    hide TwoSteps;
    TwoShifts(y);
    TwoShifts(y >> 2);
  }

  /** Eight steps on a register whose low byte is zero only shift. */
  lemma EightShifts(y: bv32)
    requires y & 0xff == 0
    ensures ByteStep(y) == y >> 8
  {
    assert y & 0xf == 0 && (y >> 4) & 0xf == 0 && (y >> 4) >> 4 == y >> 8;
    hide FourSteps;
    FourShifts(y);
    FourShifts(y >> 4);
  }

  lemma LowAndHigh(x: bv32)
    ensures x == Xor(x & 0xff, x & 0xffff_ff00)
    ensures (x & 0xffff_ff00) & 0xff == 0 && (x & 0xffff_ff00) >> 8 == x >> 8
    ensures (x & 0xff) as bv8 as bv32 == x & 0xff
  {
  }

  lemma HighIsUntouched(c: bv32, b: bv8)
    ensures Xor(c, b as bv32) >> 8 == c >> 8
  {
  }

  /** The table step is eight bit-serial steps. */
  lemma TableStepIsSerial(c: bv32, b: bv8)
    ensures TableStep(c, b) == SerialByte(c, b)
  {
    var x := Xor(c, b as bv32);
    LowAndHigh(x);
    HighIsUntouched(c, b);
    hide ByteStep, Entry, Xor;
    EntryIsByteStep((x & 0xff) as bv8);
    ByteStepIsLinear(x & 0xff, x & 0xffff_ff00);
    EightShifts(x & 0xffff_ff00);
  }

  // ---------------------------------------------------------------- laws

  lemma {:induction false} SerialConcat(c: bv32, s: seq<bv8>, t: seq<bv8>)
    ensures Serial(c, s + t) == Serial(Serial(c, s), t)
    decreases |s|
  {
    if s == [] {
      assert s + t == t;
    } else {
      assert (s + t)[1..] == s[1..] + t;
      SerialConcat(SerialByte(c, s[0]), s[1..], t);
    }
  }

  lemma XorTwice(x: bv32, p: bv32)
    ensures Xor(Xor(x, p), p) == x
  {
  }

  lemma XorInjective(x: bv32, y: bv32, p: bv32)
    requires Xor(x, p) == Xor(y, p) || Xor(p, x) == Xor(p, y)
    ensures x == y
  {
  }

  /** Chunks chain: continuing a CRC is the CRC of the whole. */
  lemma CrcChains(crc: bv32, s: seq<bv8>, t: seq<bv8>)
    ensures Crc32(Crc32(crc, s), t) == Crc32(crc, s + t)
  {
    XorTwice(Serial(Xor(crc, 0xffff_ffff), s), 0xffff_ffff);
    hide Xor, SerialByte;
    SerialConcat(Xor(crc, 0xffff_ffff), s, t);
  }

  /** Different registers stay different. */
  lemma {:induction false} SerialIsInjective(c: bv32, c': bv32, s: seq<bv8>)
    requires Serial(c, s) == Serial(c', s)
    ensures c == c'
    decreases |s|
  {
    if s != [] {
      SerialIsInjective(SerialByte(c, s[0]), SerialByte(c', s[0]), s[1..]);
      ByteStepIsInjective(Xor(c, s[0] as bv32), Xor(c', s[0] as bv32));
      XorInjective(c, c', s[0] as bv32);
    }
  }

  // ---------------------------------------------------------------- short bursts

  function Up(r: bv32): bv32 { r << 8 }

  function Down(r: bv32): bv32 { r >> 8 }

  function Lowest(r: bv32): bv32 { r & 0xff }

  function Wide(b: bv8): bv32 { b as bv32 }

  /** Up to four bytes as one word, the first lowest. */
  function Word(w: seq<bv8>): bv32
    requires |w| <= 4
  {
    if w == [] then 0 else Xor(Wide(w[0]), Up(Word(w[1..])))
  }

  /** `r` fits into `n` bytes. */
  predicate Fits(r: bv32, n: nat) {
    match n
    case 0 => r == 0
    case 1 => r & 0xffff_ff00 == 0
    case 2 => r & 0xffff_0000 == 0
    case 3 => r & 0xff00_0000 == 0
    case _ => true
  }

  predicate Small(r: bv32) { r & 0xff00_0000 == 0 }

  lemma FitsUp(b: bv8, r: bv32, n: nat)
    requires Fits(r, n)
    ensures Fits(Xor(Wide(b), Up(r)), n + 1)
  {
    if n == 0 {
    } else if n == 1 {
    } else if n == 2 {
    }
  }

  lemma {:induction false} WordFits(w: seq<bv8>)
    requires |w| <= 4
    ensures Fits(Word(w), |w|)
  {
    if w != [] {
      WordFits(w[1..]);
      hide Xor, Up, Fits, Wide;
      FitsUp(w[0], Word(w[1..]), |w| - 1);
    }
  }

  lemma ThreeBytes(r: bv32, n: nat)
    requires n <= 3 && Fits(r, n)
    ensures Small(r)
  {
    if n == 1 {
      TopOfOne(r);
    } else if n == 2 {
      TopOfTwo(r);
    }
  }

  lemma TopOfOne(r: bv32)
    requires r & 0xffff_ff00 == 0
    ensures r & 0xff00_0000 == 0
  {
  }

  lemma TopOfTwo(r: bv32)
    requires r & 0xffff_0000 == 0
    ensures r & 0xff00_0000 == 0
  {
  }

  /** A word of three bytes moved up comes back down. */
  lemma UpAndDown(r: bv32)
    requires Small(r)
    ensures Down(Up(r)) == r
  {
  }

  lemma LowIsZero(r: bv32)
    ensures Lowest(Up(r)) == 0
  {
  }

  lemma LowestByte(b: bv8, r: bv32)
    ensures Lowest(Xor(Wide(b), Up(r))) == Wide(b)
  {
  }

  lemma WideIsInjective(b: bv8, b': bv8)
    requires Wide(b) == Wide(b')
    ensures b == b'
  {
  }

  /** The lowest byte and the rest can be told apart again. */
  lemma PartsAgree(b: bv8, r: bv32, b': bv8, r': bv32)
    requires Small(r) && Small(r') && Xor(Wide(b), Up(r)) == Xor(Wide(b'), Up(r'))
    ensures b == b' && r == r'
  {
    hide Xor, Up, Down, Lowest, Wide, Small;
    LowestByte(b, r);
    LowestByte(b', r');
    WideIsInjective(b, b');
    XorInjective(Up(r), Up(r'), Wide(b));
    UpAndDown(r);
    UpAndDown(r');
  }

  lemma {:induction false} WordIsInjective(w: seq<bv8>, w': seq<bv8>)
    requires |w| == |w'| <= 4 && Word(w) == Word(w')
    ensures w == w'
  {
    if w != [] {
      var t, t' := w[1..], w'[1..];
      WordFits(t);
      WordFits(t');
      ThreeBytes(Word(t), |t|);
      ThreeBytes(Word(t'), |t|);
      hide Xor, Up, Small, Wide;
      PartsAgree(w[0], Word(t), w'[0], Word(t'));
      hide Word;
      WordIsInjective(t, t');
      assert w == [w[0]] + t && w' == [w'[0]] + t';
    }
  }

  function Steps(n: nat, c: bv32): bv32 {
    if n == 0 then c else Steps(n - 1, ByteStep(c))
  }

  lemma {:induction false} StepsAreInjective(n: nat, c: bv32, c': bv32)
    requires Steps(n, c) == Steps(n, c')
    ensures c == c'
  {
    if n > 0 {
      StepsAreInjective(n - 1, ByteStep(c), ByteStep(c'));
      ByteStepIsInjective(c, c');
    }
  }

  lemma XorAssoc(x: bv32, y: bv32, z: bv32)
    ensures Xor(x, Xor(y, z)) == Xor(Xor(x, y), z)
  {
  }

  lemma XorZero(x: bv32)
    ensures Xor(x, 0) == x
  {
  }

  lemma UpOnlyShifts(r: bv32)
    ensures ByteStep(Up(r)) == Down(Up(r))
  {
    hide ByteStep, Up;
    LowIsZero(r);
    EightShifts(Up(r));
  }

  /** Up to four bytes enter the register like one word. */
  lemma {:induction false} SerialOfWord(c: bv32, w: seq<bv8>)
    requires |w| <= 4
    ensures Serial(c, w) == Steps(|w|, Xor(c, Word(w)))
    decreases |w|
  {
    if w == [] {
      XorZero(c);
    } else {
      var b, r := Wide(w[0]), Word(w[1..]);
      WordFits(w[1..]);
      ThreeBytes(r, |w| - 1);
      UpAndDown(r);
      hide Xor, ByteStep, Up, Small, Down, Lowest;
      SerialOfWord(SerialByte(c, w[0]), w[1..]);
      XorAssoc(c, b, Up(r));
      ByteStepIsLinear(Xor(c, b), Up(r));
      UpOnlyShifts(r);
    }
  }

  /** A change confined to four consecutive bytes, wherever it is and however long the file, always
      changes the CRC. */
  lemma BurstIsDetected(crc: bv32, p: seq<bv8>, w: seq<bv8>, w': seq<bv8>, q: seq<bv8>)
    requires |w| == |w'| <= 4 && w != w'
    ensures Crc32(crc, p + w + q) != Crc32(crc, p + w' + q)
  {
    hide Xor, Serial, Word, Steps;
    var c := Xor(crc, 0xffff_ffff);
    var d := Serial(c, p);
    SerialConcat(c, p + w, q);
    SerialConcat(c, p + w', q);
    SerialConcat(c, p, w);
    SerialConcat(c, p, w');
    if Crc32(crc, p + w + q) == Crc32(crc, p + w' + q) {
      XorInjective(Serial(c, p + w + q), Serial(c, p + w' + q), 0xffff_ffff);
      SerialIsInjective(Serial(d, w), Serial(d, w'), q);
      SerialOfWord(d, w);
      SerialOfWord(d, w');
      StepsAreInjective(|w|, Xor(d, Word(w)), Xor(d, Word(w')));
      XorInjective(Word(w), Word(w'), d);
      WordIsInjective(w, w');
    }
  }

  /** The image CRC starts from the value 0xffffffff, that is from a zero register: a byte put in
      front of the file goes unnoticed exactly if it is zero. */
  lemma LeadingZeroIsUnnoticed(b: bv8, s: seq<bv8>)
    ensures Crc32(0xffff_ffff, [b] + s) == Crc32(0xffff_ffff, s) <==> b == 0
  {
    assert Xor(0xffff_ffff, 0xffff_ffff) == 0 && Xor(0, b as bv32) == b as bv32;
    assert ([b] + s)[1..] == s;
    EntryOfOne();
    if Crc32(0xffff_ffff, [b] + s) == Crc32(0xffff_ffff, s) {
      hide ByteStep;
      XorInjective(Serial(0, [b] + s), Serial(0, s), 0xffff_ffff);
      SerialIsInjective(SerialByte(0, b), 0, s);
      ByteStepIsInjective(b as bv32, 0);
    }
  }

  // ---------------------------------------------------------------- the routines

  /** `DO1` and `DO8`: `n` table steps over consecutive bytes. */
  method DoBytes(crc: bv32, buf: array<bv8>, at: nat, n: nat) returns (r: bv32)
    requires at + n <= buf.Length
    ensures r == Serial(crc, buf[at..at + n])
  {
    hide TableStep, SerialByte, Serial;
    r := crc;
    SerialNone(crc);
    assert buf[at..at + 0] == [];
    for k := 0 to n
      invariant r == Serial(crc, buf[at..at + k])
    {
      TableStepIsSerial(r, buf[at + k]);
      SerialConcat(crc, buf[at..at + k], [buf[at + k]]);
      assert buf[at..at + k] + [buf[at + k]] == buf[at..at + (k + 1)];
      SerialOne(r, buf[at + k]);
      r := TableStep(r, buf[at + k]);
    }
  }

  lemma SerialNone(c: bv32)
    ensures Serial(c, []) == c
  {
  }

  lemma SerialOne(c: bv32, b: bv8)
    ensures Serial(c, [b]) == SerialByte(c, b)
  {
    hide SerialByte;
    assert [b][1..] == [];
    assert Serial(SerialByte(c, b), [b][1..]) == SerialByte(c, b);
  }

  /** The loop over groups of eight bytes; leaves fewer than eight. */
  method DoGroups(crc: bv32, buf: array<bv8>, len: nat) returns (r: bv32, at: nat)
    requires len <= buf.Length
    ensures at <= len < at + 8 && r == Serial(crc, buf[..at])
  {
    hide Serial;
    SerialNone(crc);
    r, at := crc, 0;
    assert buf[..0] == [];
    while len - at >= 8
      invariant at <= len && r == Serial(crc, buf[..at])
    {
      SerialConcat(crc, buf[..at], buf[at..at + 8]);
      assert buf[..at] + buf[at..at + 8] == buf[..at + 8];
      r := DoBytes(r, buf, at, 8);
      at := at + 8;
    }
  }

  /** The bytes left over, one by one. */
  method DoRest(crc: bv32, start: bv32, buf: array<bv8>, from: nat, len: nat) returns (r: bv32)
    requires from <= len <= buf.Length && start == Serial(crc, buf[..from])
    ensures r == Serial(crc, buf[..len])
  {
    hide Serial;
    r := start;
    for at := from to len
      invariant r == Serial(crc, buf[..at])
    {
      SerialConcat(crc, buf[..at], buf[at..at + 1]);
      assert buf[..at] + buf[at..at + 1] == buf[..at + 1];
      r := DoBytes(r, buf, at, 1);
    }
  }

  /** `crc32`: whole groups of eight bytes, then the rest one by one. */
  method UpdateCrc(crc: bv32, buf: array?<bv8>, len: nat) returns (r: bv32)
    requires buf != null ==> len <= buf.Length
    ensures r == if buf == null then 0 else Crc32(crc, buf[..len])
  {
    if buf == null {
      return 0;
    }
    hide Serial, Xor;
    var init := Xor(crc, 0xffff_ffff);
    var c, at := DoGroups(init, buf, len);
    c := DoRest(init, c, buf, at, len);
    r := Xor(c, 0xffff_ffff);
  }

  const BUF_SIZE := 0x1000

  /** What the first `k` reads deliver, no more than the buffer holds each. */
  function Delivered(deliveries: seq<nat>, k: nat): nat
    requires k <= |deliveries|
  {
    if k == 0 then 0 else
    Delivered(deliveries, k - 1) + if deliveries[k - 1] < BUF_SIZE then deliveries[k - 1] else BUF_SIZE
  }

  lemma {:induction false} DeliveredGrows(deliveries: seq<nat>, j: nat, k: nat)
    requires j <= k <= |deliveries|
    ensures Delivered(deliveries, j) <= Delivered(deliveries, k)
  {
    if j < k { DeliveredGrows(deliveries, j, k - 1); }
  }

  /** The first `k` reads all deliver something, and together `n` bytes. */
  ghost predicate Covers(deliveries: seq<nat>, k: nat, n: nat) {
    k <= |deliveries| && (forall i :: 0 <= i < k ==> deliveries[i] > 0) && Delivered(deliveries, k) >= n
  }

  lemma NotCovered(deliveries: seq<nat>, k: nat, n: nat)
    requires k <= |deliveries| && Delivered(deliveries, k) < n && (k < |deliveries| ==> deliveries[k] == 0)
    ensures !exists j: nat :: Covers(deliveries, j, n)
  {
    hide Delivered;
    forall j: nat | Covers(deliveries, j, n)
      ensures false
    {
      if j <= k { DeliveredGrows(deliveries, j, k); }
    }
  }

  /** The body of `mkusbimg`: copies the file chunk by chunk behind the header and computes
      `data_crc` on the way. `deliveries` is how many bytes each `fread` would deliver. */
  method CopyImage(file: seq<bv8>, deliveries: seq<nat>) returns (ok: bool, body: seq<bv8>, crc: bv32)
    ensures ok <==> exists k: nat :: Covers(deliveries, k, |file|)
    ensures ok ==> body == file && crc == Crc32(0xffff_ffff, file)
    ensures !ok ==> body <= file && body != file
  {
    hide Crc32;
    var buf := new bv8[BUF_SIZE];
    body := [];
    crc := 0xffff_ffff;
    CrcOfNothing(crc);
    var a, k := 0, 0;
    while a < |file|
      invariant a <= |file| && body == file[..a]
      invariant k <= |deliveries| && (forall i :: 0 <= i < k ==> deliveries[i] > 0)
      invariant a == if Delivered(deliveries, k) < |file| then Delivered(deliveries, k) else |file|
      invariant crc == Crc32(0xffff_ffff, file[..a])
      decreases |file| - a
    {
      var n := if k < |deliveries| then deliveries[k] else 0;
      if n > BUF_SIZE { n := BUF_SIZE; }
      if n > |file| - a { n := |file| - a; }
      if n == 0 {
        NotCovered(deliveries, k, |file|);
        return false, body, crc;
      }
      k := k + 1;
      forall i | 0 <= i < n {
        buf[i] := file[a + i];
      }
      assert buf[..n] == file[a..a + n];
      CrcChains(0xffff_ffff, file[..a], file[a..a + n]);
      assert file[..a] + file[a..a + n] == file[..a + n];
      crc := UpdateCrc(crc, buf, n);
      body := body + buf[..n];
      a := a + n;
    }
    assert file[..a] == file && Covers(deliveries, k, |file|);
    return true, body, crc;
  }

  lemma CrcOfNothing(crc: bv32)
    ensures Crc32(crc, []) == crc
  {
    XorTwice(crc, 0xffff_ffff);
  }
}
