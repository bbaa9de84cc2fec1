/** The constant table of mkdnimg's `crc32`, and the proof that it holds, for every byte value, eight
    steps of the bit-serial CRC with polynomial 0xEDB88320 (section 8 of RFC 1952). */
module CrcTable {

  /** One bit of the bit-serial CRC. */
  function BitStep(c: bv32): bv32 {
    if c & 1 == 1 then (c >> 1) ^ 0xedb88320 else c >> 1
  }

  function TwoSteps(c: bv32): bv32 { BitStep(BitStep(c)) }

  function FourSteps(c: bv32): bv32 { TwoSteps(TwoSteps(c)) }

  /** Eight bits. */
  function ByteStep(c: bv32): bv32 { FourSteps(FourSteps(c)) }

  /** The table, eight entries a row. */
  function Row(r: nat): (row: seq<bv32>)
    requires r < 32
    ensures |row| == 8
  {
    match r
    case 0 =>
      [0x00000000, 0x77073096, 0xee0e612c, 0x990951ba,
       0x076dc419, 0x706af48f, 0xe963a535, 0x9e6495a3]
    case 1 =>
      [0x0edb8832, 0x79dcb8a4, 0xe0d5e91e, 0x97d2d988,
       0x09b64c2b, 0x7eb17cbd, 0xe7b82d07, 0x90bf1d91]
    case 2 =>
      [0x1db71064, 0x6ab020f2, 0xf3b97148, 0x84be41de,
       0x1adad47d, 0x6ddde4eb, 0xf4d4b551, 0x83d385c7]
    case 3 =>
      [0x136c9856, 0x646ba8c0, 0xfd62f97a, 0x8a65c9ec,
       0x14015c4f, 0x63066cd9, 0xfa0f3d63, 0x8d080df5]
    case 4 =>
      [0x3b6e20c8, 0x4c69105e, 0xd56041e4, 0xa2677172,
       0x3c03e4d1, 0x4b04d447, 0xd20d85fd, 0xa50ab56b]
    case 5 =>
      [0x35b5a8fa, 0x42b2986c, 0xdbbbc9d6, 0xacbcf940,
       0x32d86ce3, 0x45df5c75, 0xdcd60dcf, 0xabd13d59]
    case 6 =>
      [0x26d930ac, 0x51de003a, 0xc8d75180, 0xbfd06116,
       0x21b4f4b5, 0x56b3c423, 0xcfba9599, 0xb8bda50f]
    case 7 =>
      [0x2802b89e, 0x5f058808, 0xc60cd9b2, 0xb10be924,
       0x2f6f7c87, 0x58684c11, 0xc1611dab, 0xb6662d3d]
    case 8 =>
      [0x76dc4190, 0x01db7106, 0x98d220bc, 0xefd5102a,
       0x71b18589, 0x06b6b51f, 0x9fbfe4a5, 0xe8b8d433]
    case 9 =>
      [0x7807c9a2, 0x0f00f934, 0x9609a88e, 0xe10e9818,
       0x7f6a0dbb, 0x086d3d2d, 0x91646c97, 0xe6635c01]
    case 10 =>
      [0x6b6b51f4, 0x1c6c6162, 0x856530d8, 0xf262004e,
       0x6c0695ed, 0x1b01a57b, 0x8208f4c1, 0xf50fc457]
    case 11 =>
      [0x65b0d9c6, 0x12b7e950, 0x8bbeb8ea, 0xfcb9887c,
       0x62dd1ddf, 0x15da2d49, 0x8cd37cf3, 0xfbd44c65]
    case 12 =>
      [0x4db26158, 0x3ab551ce, 0xa3bc0074, 0xd4bb30e2,
       0x4adfa541, 0x3dd895d7, 0xa4d1c46d, 0xd3d6f4fb]
    case 13 =>
      [0x4369e96a, 0x346ed9fc, 0xad678846, 0xda60b8d0,
       0x44042d73, 0x33031de5, 0xaa0a4c5f, 0xdd0d7cc9]
    case 14 =>
      [0x5005713c, 0x270241aa, 0xbe0b1010, 0xc90c2086,
       0x5768b525, 0x206f85b3, 0xb966d409, 0xce61e49f]
    case 15 =>
      [0x5edef90e, 0x29d9c998, 0xb0d09822, 0xc7d7a8b4,
       0x59b33d17, 0x2eb40d81, 0xb7bd5c3b, 0xc0ba6cad]
    case 16 =>
      [0xedb88320, 0x9abfb3b6, 0x03b6e20c, 0x74b1d29a,
       0xead54739, 0x9dd277af, 0x04db2615, 0x73dc1683]
    case 17 =>
      [0xe3630b12, 0x94643b84, 0x0d6d6a3e, 0x7a6a5aa8,
       0xe40ecf0b, 0x9309ff9d, 0x0a00ae27, 0x7d079eb1]
    case 18 =>
      [0xf00f9344, 0x8708a3d2, 0x1e01f268, 0x6906c2fe,
       0xf762575d, 0x806567cb, 0x196c3671, 0x6e6b06e7]
    case 19 =>
      [0xfed41b76, 0x89d32be0, 0x10da7a5a, 0x67dd4acc,
       0xf9b9df6f, 0x8ebeeff9, 0x17b7be43, 0x60b08ed5]
    case 20 =>
      [0xd6d6a3e8, 0xa1d1937e, 0x38d8c2c4, 0x4fdff252,
       0xd1bb67f1, 0xa6bc5767, 0x3fb506dd, 0x48b2364b]
    case 21 =>
      [0xd80d2bda, 0xaf0a1b4c, 0x36034af6, 0x41047a60,
       0xdf60efc3, 0xa867df55, 0x316e8eef, 0x4669be79]
    case 22 =>
      [0xcb61b38c, 0xbc66831a, 0x256fd2a0, 0x5268e236,
       0xcc0c7795, 0xbb0b4703, 0x220216b9, 0x5505262f]
    case 23 =>
      [0xc5ba3bbe, 0xb2bd0b28, 0x2bb45a92, 0x5cb36a04,
       0xc2d7ffa7, 0xb5d0cf31, 0x2cd99e8b, 0x5bdeae1d]
    case 24 =>
      [0x9b64c2b0, 0xec63f226, 0x756aa39c, 0x026d930a,
       0x9c0906a9, 0xeb0e363f, 0x72076785, 0x05005713]
    case 25 =>
      [0x95bf4a82, 0xe2b87a14, 0x7bb12bae, 0x0cb61b38,
       0x92d28e9b, 0xe5d5be0d, 0x7cdcefb7, 0x0bdbdf21]
    case 26 =>
      [0x86d3d2d4, 0xf1d4e242, 0x68ddb3f8, 0x1fda836e,
       0x81be16cd, 0xf6b9265b, 0x6fb077e1, 0x18b74777]
    case 27 =>
      [0x88085ae6, 0xff0f6a70, 0x66063bca, 0x11010b5c,
       0x8f659eff, 0xf862ae69, 0x616bffd3, 0x166ccf45]
    case 28 =>
      [0xa00ae278, 0xd70dd2ee, 0x4e048354, 0x3903b3c2,
       0xa7672661, 0xd06016f7, 0x4969474d, 0x3e6e77db]
    case 29 =>
      [0xaed16a4a, 0xd9d65adc, 0x40df0b66, 0x37d83bf0,
       0xa9bcae53, 0xdebb9ec5, 0x47b2cf7f, 0x30b5ffe9]
    case 30 =>
      [0xbdbdf21c, 0xcabac28a, 0x53b39330, 0x24b4a3a6,
       0xbad03605, 0xcdd70693, 0x54de5729, 0x23d967bf]
    case _ =>
      [0xb3667a2e, 0xc4614ab8, 0x5d681b02, 0x2a6f2b94,
       0xb40bbe37, 0xc30c8ea1, 0x5a05df1b, 0x2d02ef8d]
  }

  /** `crc_table[i]`. */
  function Entry(i: nat): bv32
    requires i < 256
  {
    Row(i / 8)[i % 8]
  }

  // ---------------------------------------------------------------- the bit-serial step

  function Xor(x: bv32, y: bv32): bv32 { x ^ y }

  /** One step is linear over exclusive-or. */
  lemma BitStepIsLinear(x: bv32, y: bv32)
    ensures BitStep(Xor(x, y)) == Xor(BitStep(x), BitStep(y))
  {
    ShiftXor(x, y);
    LowXor(x, y);
    XorCancels(x >> 1, y >> 1, 0xedb88320);
  }

  lemma ShiftXor(x: bv32, y: bv32)
    ensures (x ^ y) >> 1 == (x >> 1) ^ (y >> 1)
  {
  }

  lemma LowXor(x: bv32, y: bv32)
    ensures (x ^ y) & 1 == (x & 1) ^ (y & 1)
    ensures x & 1 == 0 || x & 1 == 1
    ensures y & 1 == 0 || y & 1 == 1
  {
  }

  lemma XorCancels(x: bv32, y: bv32, p: bv32)
    ensures (x ^ p) ^ (y ^ p) == x ^ y
    ensures (x ^ p) ^ y == (x ^ y) ^ p
    ensures x ^ (y ^ p) == (x ^ y) ^ p
  {
  }

  /** One step loses nothing: the bit shifted out decides the top bit. */
  lemma BitStepIsInjective(x: bv32, y: bv32)
    requires BitStep(x) == BitStep(y)
    ensures x == y
  {
  }

  lemma TwoStepsIsLinear(x: bv32, y: bv32)
    ensures TwoSteps(Xor(x, y)) == Xor(TwoSteps(x), TwoSteps(y))
  {
    hide BitStep, Xor;
    BitStepIsLinear(x, y);
    BitStepIsLinear(BitStep(x), BitStep(y));
  }

  lemma FourStepsIsLinear(x: bv32, y: bv32)
    ensures FourSteps(Xor(x, y)) == Xor(FourSteps(x), FourSteps(y))
  {
    hide TwoSteps, Xor;
    TwoStepsIsLinear(x, y);
    TwoStepsIsLinear(TwoSteps(x), TwoSteps(y));
  }

  lemma ByteStepIsLinear(x: bv32, y: bv32)
    ensures ByteStep(Xor(x, y)) == Xor(ByteStep(x), ByteStep(y))
  {
    hide FourSteps, Xor;
    FourStepsIsLinear(x, y);
    FourStepsIsLinear(FourSteps(x), FourSteps(y));
  }

  lemma TwoStepsIsInjective(x: bv32, y: bv32)
    requires TwoSteps(x) == TwoSteps(y)
    ensures x == y
  {
    hide BitStep;
    BitStepIsInjective(BitStep(x), BitStep(y));
    BitStepIsInjective(x, y);
  }

  lemma FourStepsIsInjective(x: bv32, y: bv32)
    requires FourSteps(x) == FourSteps(y)
    ensures x == y
  {
    hide TwoSteps;
    TwoStepsIsInjective(TwoSteps(x), TwoSteps(y));
    TwoStepsIsInjective(x, y);
  }

  lemma ByteStepIsInjective(x: bv32, y: bv32)
    requires ByteStep(x) == ByteStep(y)
    ensures x == y
  {
    hide FourSteps;
    FourStepsIsInjective(FourSteps(x), FourSteps(y));
    FourStepsIsInjective(x, y);
  }

  // ---------------------------------------------------------------- the table is right

  /** Neighbouring entries `e`, `o` at an even and an odd index, and `h` at half of it. */
  predicate Pair(e: bv32, o: bv32, h: bv32) {
    BitStep(e) == h && o == Xor(e, 0x77073096)
  }

  /** Rows `a` and `b` hold the entries at twice the indices of `row`. */
  predicate Doubles(row: seq<bv32>, a: seq<bv32>, b: seq<bv32>)
    requires |row| == 8 && |a| == 8 && |b| == 8
  {
    && Pair(a[0], a[1], row[0]) && Pair(a[2], a[3], row[1]) && Pair(a[4], a[5], row[2]) && Pair(a[6], a[7], row[3])
    && Pair(b[0], b[1], row[4]) && Pair(b[2], b[3], row[5]) && Pair(b[4], b[5], row[6]) && Pair(b[6], b[7], row[7])
  }

  lemma Doubles0() ensures Doubles(Row(0), Row(0), Row(1)) {}
  lemma Doubles1() ensures Doubles(Row(1), Row(2), Row(3)) {}
  lemma Doubles2() ensures Doubles(Row(2), Row(4), Row(5)) {}
  lemma Doubles3() ensures Doubles(Row(3), Row(6), Row(7)) {}
  lemma Doubles4() ensures Doubles(Row(4), Row(8), Row(9)) {}
  lemma Doubles5() ensures Doubles(Row(5), Row(10), Row(11)) {}
  lemma Doubles6() ensures Doubles(Row(6), Row(12), Row(13)) {}
  lemma Doubles7() ensures Doubles(Row(7), Row(14), Row(15)) {}
  lemma Doubles8() ensures Doubles(Row(8), Row(16), Row(17)) {}
  lemma Doubles9() ensures Doubles(Row(9), Row(18), Row(19)) {}
  lemma Doubles10() ensures Doubles(Row(10), Row(20), Row(21)) {}
  lemma Doubles11() ensures Doubles(Row(11), Row(22), Row(23)) {}
  lemma Doubles12() ensures Doubles(Row(12), Row(24), Row(25)) {}
  lemma Doubles13() ensures Doubles(Row(13), Row(26), Row(27)) {}
  lemma Doubles14() ensures Doubles(Row(14), Row(28), Row(29)) {}
  lemma Doubles15() ensures Doubles(Row(15), Row(30), Row(31)) {}

  lemma RowsDouble(r: nat)
    requires r < 16
    ensures Doubles(Row(r), Row(2 * r), Row(2 * r + 1))
  {
    hide Doubles;
    match r
    case 0 => Doubles0();
    case 1 => Doubles1();
    case 2 => Doubles2();
    case 3 => Doubles3();
    case 4 => Doubles4();
    case 5 => Doubles5();
    case 6 => Doubles6();
    case 7 => Doubles7();
    case 8 => Doubles8();
    case 9 => Doubles9();
    case 10 => Doubles10();
    case 11 => Doubles11();
    case 12 => Doubles12();
    case 13 => Doubles13();
    case 14 => Doubles14();
    case _ => Doubles15();
  }

  lemma EntriesPair(j: nat)
    requires j < 128
    ensures Pair(Entry(2 * j), Entry(2 * j + 1), Entry(j))
  {
    hide Row, Pair;
    var r, k := j / 8, j % 8;
    RowsDouble(r);
    if k < 4 {
      assert 2 * j / 8 == 2 * r && (2 * j + 1) / 8 == 2 * r && 2 * j % 8 == 2 * k && (2 * j + 1) % 8 == 2 * k + 1;
    } else {
      assert 2 * j / 8 == 2 * r + 1 && (2 * j + 1) / 8 == 2 * r + 1 && 2 * j % 8 == 2 * k - 8 && (2 * j + 1) % 8 == 2 * k - 7;
    }
  }

  lemma ByteBits(x: bv8)
    ensures (x >> 1) as int == x as int / 2
    ensures (x ^ 1) as int == if x as int % 2 == 0 then x as int + 1 else x as int - 1
    ensures x & 1 == 0 <==> x as int % 2 == 0
  {
  }

  /** The entry of a single bit. */
  lemma EntryOfOne()
    ensures ByteStep(1) == 0x77073096 && ByteStep(0) == 0
  {
    assert BitStep(0) == 0;
    assert BitStep(0x1) == 0xedb88320;
    assert BitStep(0xedb88320) == 0x76dc4190;
    assert BitStep(0x76dc4190) == 0x3b6e20c8;
    assert BitStep(0x3b6e20c8) == 0x1db71064;
    assert BitStep(0x1db71064) == 0xedb8832;
    assert BitStep(0xedb8832) == 0x76dc419;
    assert BitStep(0x76dc419) == 0xee0e612c;
    assert BitStep(0xee0e612c) == 0x77073096;
  }

  lemma EvenEntry(x: bv8)
    requires x & 1 == 0 && Entry((x >> 1) as int) == ByteStep((x >> 1) as bv32)
    ensures Entry(x as int) == ByteStep(x as bv32)
  {
    hide Entry, ByteStep;
    ByteBits(x);
    EntriesPair((x >> 1) as int);
    HalfStep(x);
    BitStepIsInjective(Entry(x as int), ByteStep(x as bv32));
  }

  /** Eight steps from half an even value are nine from the value. */
  lemma HalfStep(x: bv8)
    requires x & 1 == 0
    ensures ByteStep((x >> 1) as bv32) == BitStep(ByteStep(x as bv32))
  {
    assert BitStep(x as bv32) == (x >> 1) as bv32;
    hide BitStep;
  }

  lemma OddEntry(x: bv8)
    requires x & 1 == 1 && Entry((x ^ 1) as int) == ByteStep((x ^ 1) as bv32)
    ensures Entry(x as int) == ByteStep(x as bv32)
  {
    hide Entry, ByteStep, Xor;
    ByteBits(x);
    EntriesPair((x ^ 1) as int / 2);
    ByteStepIsLinear((x ^ 1) as bv32, 1);
    EntryOfOne();
    OddIsEvenPlusOne(x);
  }

  lemma OddIsEvenPlusOne(x: bv8)
    requires x & 1 == 1
    ensures x as bv32 == Xor((x ^ 1) as bv32, 1)
    ensures (x ^ 1) & 1 == 0
  {
  }

  /** Every entry of the table is eight steps of the bit-serial CRC. */
  lemma {:induction false} EntryIsByteStep(x: bv8)
    ensures Entry(x as int) == ByteStep(x as bv32)
    decreases x as int
  {
    hide ByteStep, Entry;
    ByteBits(x);
    if x == 0 {
      FirstEntry();
      EntryOfOne();
    } else if x & 1 == 0 {
      EntryIsByteStep(x >> 1);
      EvenEntry(x);
    } else {
      EntryIsByteStep(x ^ 1);
      OddEntry(x);
    }
  }

  lemma FirstEntry()
    ensures Entry(0) == 0
  {
  }
}
