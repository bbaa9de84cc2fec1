/** The JFFS2 "rtime" compressor: an LZ77-like byte codec in which encoder and decoder
    rebuild the same table of last occurrences independently.

    `Encode` and `Decode` say what the two C routines compute; `RoundTrip` relates them;
    the methods at the end are the routines themselves, on arrays. */
module Rtime {
  import opened Bytes

  const MAX_RUN := 255
  /** The largest position a C `short` holds. */
  const MAX_SHORT := 32767

  /** Conversion of an `int` to `short`, as on the store into `positions`. */
  function Short(x: int): int {
    if x % 65536 < 32768 then x % 65536 else x % 65536 - 65536
  }

  lemma ShortBounds(x: nat)
    ensures Short(x) <= x && (x <= MAX_SHORT ==> Short(x) == x)
  {
  }

  /** A table of last occurrences: for every byte value a position in the text so far, as a `short` holds
      it. */
  type Table = t: seq<int> | |t| == 256 witness seq(256, _ => 0)

  const ZERO_TABLE: Table := seq(256, _ => 0)

  predicate Within(t: Table, n: nat) {
    forall v :: 0 <= v < 256 ==> t[v] <= n
  }

  // ---------------------------------------------------------------- decoder

  /** Appends `n` bytes to `text`, each read `|text| - from` places back: a forward copy that may
      read bytes it has itself appended. */
  function Copy(text: seq<Byte>, from: nat, n: nat): (r: seq<Byte>)
    requires from < |text|
    ensures |r| == |text| + n && text <= r
    decreases n
  {
    if n == 0 then text else Copy(text + [text[from]], from + 1, n - 1)
  }

  /** What the decoder knows: the text so far and its table. */
  datatype State = State(text: seq<Byte>, table: Table)

  predicate Sound(s: State) { Within(s.table, |s.text|) }

  /** A pair can be followed: a run is never to be read from in front of the text. */
  predicate Readable(s: State, value: Byte, run: nat) { run == 0 || s.table[value] >= 0 }

  /** One (literal, run) pair. */
  function Token(s: State, value: Byte, run: nat): (r: State)
    requires Sound(s) && Readable(s, value, run)
    ensures Sound(r) && |r.text| == |s.text| + 1 + run && s.text <= r.text
  {
    var text := s.text + [value];
    ShortBounds(|text|);
    State(if run == 0 then text else Copy(text, s.table[value], run), s.table[value := Short(|text|)])
  }

  /** Reading pairs from `src` reaches a text of exactly `destlen` bytes without running out of
      pairs or past the end: the decoder stays inside both buffers. */
  predicate Decodable(src: seq<Byte>, s: State, destlen: nat)
    requires Sound(s)
    decreases |src|
  {
    if |s.text| >= destlen then |s.text| == destlen
    else |src| >= 2 && Readable(s, src[0], src[1]) && Decodable(src[2..], Token(s, src[0], src[1]), destlen)
  }

  function Decode(src: seq<Byte>, s: State, destlen: nat): (r: seq<Byte>)
    requires Sound(s) && Decodable(src, s, destlen)
    ensures |r| == destlen
    decreases |src|
  {
    if |s.text| >= destlen then s.text else Decode(src[2..], Token(s, src[0], src[1]), destlen)
  }

  /** How many bytes of `src` the decoder reads. */
  function Used(src: seq<Byte>, s: State, destlen: nat): (n: nat)
    requires Sound(s) && Decodable(src, s, destlen)
    ensures n <= |src|
    decreases |src|
  {
    if |s.text| >= destlen then 0 else 2 + Used(src[2..], Token(s, src[0], src[1]), destlen)
  }

  // ---------------------------------------------------------------- encoder

  /** The number of bytes from `pos` on that repeat those from `back` on, at most `max`. */
  function RunLength(data: seq<Byte>, pos: nat, back: nat, max: nat): (n: nat)
    requires back < pos <= |data|
    ensures n <= max && pos + n <= |data|
    decreases max
  {
    if max > 0 && pos < |data| && data[pos] == data[back]
    then 1 + RunLength(data, pos + 1, back + 1, max - 1)
    else 0
  }

  /** The run of a pair; none is looked for from a position that a `short` does not hold. */
  function Run(data: seq<Byte>, pos: nat, back: int): (n: nat)
    requires back < pos <= |data|
    ensures n <= MAX_RUN && pos + n <= |data| && (back < 0 ==> n == 0)
  {
    if back < 0 then 0 else RunLength(data, pos, back, MAX_RUN)
  }

  /** The table after the byte at `pos`. */
  function Note(data: seq<Byte>, pos: nat, table: Table): (t: Table)
    requires pos < |data| && Within(table, pos)
    ensures Within(t, pos + 1)
  {
    ShortBounds(pos + 1);
    table[data[pos] := Short(pos + 1)]
  }

  /** The encoder never looks in front of its input: it finds no negative position in its table but for the
      last byte, which no run can follow. */
  predicate Safe(data: seq<Byte>, pos: nat, table: Table, room: nat)
    requires pos <= |data| && Within(table, pos)
    decreases |data| - pos
  {
    pos < |data| && 2 <= room ==>
      && (table[data[pos]] >= 0 || pos + 1 == |data|)
      && Safe(data, pos + 1 + Run(data, pos + 1, table[data[pos]]), Note(data, pos, table), room - 2)
  }

  /** The encoder's output and how much of the input it covers. */
  datatype Encoding = Encoding(bytes: seq<Byte>, upto: nat)

  function Encode(data: seq<Byte>, pos: nat, table: Table, room: nat): (e: Encoding)
    requires pos <= |data| && Within(table, pos)
    ensures |e.bytes| <= room && pos <= e.upto <= |data|
    ensures e.upto == |data| || |e.bytes| + 2 > room
    decreases |data| - pos
  {
    if pos < |data| && 2 <= room then
      var value := data[pos];
      var run := Run(data, pos + 1, table[value]);
      var rest := Encode(data, pos + 1 + run, Note(data, pos, table), room - 2);
      Encoding([value, run] + rest.bytes, rest.upto)
    else
      Encoding([], pos)
  }

  // ---------------------------------------------------------------- round trip

  /** The forward copy, started on a prefix of the input, reproduces the repeated bytes even where
      source and destination overlap. */
  lemma {:induction false} CopyReproducesRun(data: seq<Byte>, pos: nat, back: nat, max: nat)
    requires back < pos <= |data|
    ensures Copy(data[..pos], back, RunLength(data, pos, back, max))
         == data[..pos + RunLength(data, pos, back, max)]
    decreases max
  {
    if max > 0 && pos < |data| && data[pos] == data[back] {
      assert data[..pos] + [data[..pos][back]] == data[..pos + 1];
      CopyReproducesRun(data, pos + 1, back + 1, max - 1);
    }
  }

  /** The encoder's run is the longest one the pair can express: every longer run would decode to
      something that is not a prefix of the input. */
  lemma {:induction false} RunIsMaximal(data: seq<Byte>, pos: nat, back: nat, max: nat, longer: nat)
    requires back < pos <= |data|
    requires RunLength(data, pos, back, max) < longer <= max
    ensures !(Copy(data[..pos], back, longer) <= data)
    decreases max
  {
    var first := data[..pos] + [data[..pos][back]];
    assert first <= Copy(data[..pos], back, longer);
    if pos < |data| && data[pos] == data[back] {
      assert first == data[..pos + 1];
      RunIsMaximal(data, pos + 1, back + 1, max - 1, longer - 1);
    } else if pos < |data| {
      assert Copy(data[..pos], back, longer)[pos] == data[back];
    }
  }

  /** The pair the encoder writes takes the decoder from one prefix of the input to the next, and
      its table to the encoder's next table. */
  lemma TokenFollowsEncoder(data: seq<Byte>, pos: nat, table: Table)
    requires pos < |data| && Within(table, pos)
    ensures var s, value := State(data[..pos], table), data[pos];
            var run := Run(data, pos + 1, table[value]);
            && Readable(s, value, run)
            && Token(s, value, run) == State(data[..pos + 1 + run], Note(data, pos, table))
  {
    if table[data[pos]] >= 0 {
      CopyReproducesRun(data, pos + 1, table[data[pos]], MAX_RUN);
    }
    assert data[..pos] + [data[pos]] == data[..pos + 1];
  }

  /** Unfolds one pair of the decoder. */
  lemma DecodePair(value: Byte, run: Byte, rest: seq<Byte>, s: State, destlen: nat)
    requires Sound(s) && |s.text| < destlen && Readable(s, value, run)
    requires Decodable(rest, Token(s, value, run), destlen)
    ensures var src := [value, run] + rest;
            && Decodable(src, s, destlen)
            && Decode(src, s, destlen) == Decode(rest, Token(s, value, run), destlen)
            && Used(src, s, destlen) == 2 + Used(rest, Token(s, value, run), destlen)
  {
    assert ([value, run] + rest)[2..] == rest;
  }

  /** Unfolds one round of the encoder. */
  lemma EncodeRound(data: seq<Byte>, pos: nat, table: Table, room: nat)
    requires pos < |data| && Within(table, pos) && 2 <= room
    ensures var run := Run(data, pos + 1, table[data[pos]]);
            var next := Encode(data, pos + 1 + run, Note(data, pos, table), room - 2);
            Encode(data, pos, table, room) == Encoding([data[pos], run] + next.bytes, next.upto)
  {
  }

  lemma SafeRound(data: seq<Byte>, pos: nat, table: Table, room: nat)
    requires pos < |data| && Within(table, pos) && 2 <= room
    ensures Safe(data, pos, table, room) <==>
              && (table[data[pos]] >= 0 || pos + 1 == |data|)
              && Safe(data, pos + 1 + Run(data, pos + 1, table[data[pos]]), Note(data, pos, table), room - 2)
  {
  }

  lemma EncodeStops(data: seq<Byte>, pos: nat, table: Table, room: nat)
    requires pos <= |data| && Within(table, pos) && (pos == |data| || room < 2)
    ensures Encode(data, pos, table, room) == Encoding([], pos) && Safe(data, pos, table, room)
  {
  }

  lemma DecodeStops(src: seq<Byte>, s: State, destlen: nat)
    requires Sound(s) && |s.text| == destlen
    ensures Decodable(src, s, destlen) && Decode(src, s, destlen) == s.text && Used(src, s, destlen) == 0
  {
  }

  /** Decoding what the encoder wrote, from the state both share, gives back the input, consumes
      every byte of it, and never leaves the buffers. */
  lemma {:induction false} RoundTrip(data: seq<Byte>, pos: nat, table: Table, room: nat)
    requires pos <= |data| && Within(table, pos)
    ensures var e, s := Encode(data, pos, table, room), State(data[..pos], table);
            && Decodable(e.bytes, s, e.upto)
            && Decode(e.bytes, s, e.upto) == data[..e.upto]
            && Used(e.bytes, s, e.upto) == |e.bytes|
    decreases |data| - pos
  {
    hide Encode, Run, Note, Decodable, Decode, Used, Token, Readable;
    var s := State(data[..pos], table);
    if pos < |data| && 2 <= room {
      var value := data[pos];
      var run, table' := Run(data, pos + 1, table[value]), Note(data, pos, table);
      EncodeRound(data, pos, table, room);
      TokenFollowsEncoder(data, pos, table);
      RoundTrip(data, pos + 1 + run, table', room - 2);
      var rest := Encode(data, pos + 1 + run, table', room - 2);
      DecodePair(value, run, rest.bytes, s, rest.upto);
    } else {
      EncodeStops(data, pos, table, room);
      DecodeStops([], s, pos);
    }
  }

  /** The whole law: whatever the input and the output limit, the compressor's output decodes to
      the part of the input it reports. */
  lemma CompressedDecodes(data: seq<Byte>, room: nat)
    ensures var e, s := Encode(data, 0, ZERO_TABLE, room), State([], ZERO_TABLE);
            && Decodable(e.bytes, s, e.upto)
            && Decode(e.bytes, s, e.upto) == data[..e.upto]
            && Used(e.bytes, s, e.upto) == |e.bytes|
  {
    RoundTrip(data, 0, ZERO_TABLE, room);
    assert data[..0] == [];
  }

  // ---------------------------------------------------------------- how long an input may be

  ghost predicate AllPositions(t: Table) {
    forall v :: 0 <= v < 256 ==> t[v] >= 0
  }

  /** Every input of up to `MAX_SHORT + 2` bytes is safe: the first position a `short` does not hold is that
      of a byte which only one more can follow. */
  lemma {:induction false} ShortInputsAreSafe(data: seq<Byte>, pos: nat, table: Table, room: nat)
    requires pos <= |data| <= MAX_SHORT + 2 && Within(table, pos)
    requires pos <= MAX_SHORT ==> AllPositions(table)
    ensures Safe(data, pos, table, room)
    decreases |data| - pos
  {
    hide Safe, Run;
    if pos < |data| && 2 <= room {
      SafeRound(data, pos, table, room);
      ShortBounds(pos + 1);
      ShortInputsAreSafe(data, pos + 1 + Run(data, pos + 1, table[data[pos]]), Note(data, pos, table), room - 2);
    } else {
      EncodeStops(data, pos, table, room);
    }
  }

  /** The length of a run, read off the bytes. */
  lemma {:induction false} RunIs(data: seq<Byte>, pos: nat, back: nat, max: nat, n: nat)
    requires back < pos && n <= max && pos + n < |data|
    requires forall j :: pos <= j < pos + n ==> data[j] == 0
    requires forall j :: back <= j < back + n ==> data[j] == 0
    requires n == max || data[pos + n] != data[back + n]
    ensures RunLength(data, pos, back, max) == n
    decreases n
  {
    if n > 0 {
      RunIs(data, pos + 1, back + 1, max - 1, n - 1);
    }
  }

  /** An input on which the encoder looks in front of it: 1, 2, zeros, and 1, 1 at the first position that a
      `short` does not hold. */
  function TooLong(n: nat): (s: seq<Byte>)
    requires n > MAX_SHORT + 2
    ensures |s| == n
  {
    seq(n, i => if i == 0 || i == MAX_SHORT || i == MAX_SHORT + 1 then 1 else if i == 1 then 2 else 0)
  }

  /** The literals among the zeros stand at 3, 259, 515 and so on. */
  lemma {:induction false} LiteralsOfZeros(n: nat, k: nat, table: Table, room: nat)
    requires n > MAX_SHORT + 2 && k <= 127 && 2 * (130 - k) <= room && Within(table, 256 * k + 3)
    requires table[1] == 1 && table[0] == if k == 0 then 3 else 256 * (k - 1) + 4
    ensures !Safe(TooLong(n), 256 * k + 3, table, room)
    decreases 127 - k
  {
    hide Safe, Run, TooLong;
    var data, pos := TooLong(n), 256 * k + 3;
    ZeroAt(n);
    SafeRound(data, pos, table, room);
    ShortBounds(pos + 1);
    RunOfZeros(n, k, table[0]);
    if k < 127 {
      LiteralsOfZeros(n, k + 1, Note(data, pos, table), room - 2);
    } else {
      LooksInFront(n, Note(data, pos, table), room - 2);
    }
  }

  lemma ZeroAt(n: nat)
    requires n > MAX_SHORT + 2
    ensures forall i :: 2 <= i < MAX_SHORT ==> TooLong(n)[i] == 0
    ensures TooLong(n)[0] == TooLong(n)[MAX_SHORT] == TooLong(n)[MAX_SHORT + 1] == 1 && TooLong(n)[1] == 2
  {
  }

  /** Runs have their full length but for the last one, which ends before position 32767. */
  lemma RunOfZeros(n: nat, k: nat, back: nat)
    requires n > MAX_SHORT + 2 && k <= 127 && back == if k == 0 then 3 else 256 * (k - 1) + 4
    ensures Run(TooLong(n), 256 * k + 4, back) == if k < 127 then MAX_RUN else 251
  {
    ZeroAt(n);
    var data, pos, len := TooLong(n), 256 * k + 4, if k < 127 then MAX_RUN else 251;
    hide TooLong;
    RunIs(data, pos, back, MAX_RUN, len);
  }

  /** The literal 1 at 32767 is recorded as -32768, where the next literal, another 1, looks. */
  lemma LooksInFront(n: nat, table: Table, room: nat)
    requires n > MAX_SHORT + 2 && Within(table, MAX_SHORT) && table[1] == 1 && 4 <= room
    ensures !Safe(TooLong(n), MAX_SHORT, table, room)
  {
    hide Safe, TooLong;
    var data := TooLong(n);
    ZeroAt(n);
    SafeRound(data, MAX_SHORT, table, room);
    RunIs(data, MAX_SHORT + 1, 1, MAX_RUN, 0);
    SafeRound(data, MAX_SHORT + 1, Note(data, MAX_SHORT, table), room - 2);
  }

  lemma TooLongIsUnsafe(n: nat, room: nat)
    requires n > MAX_SHORT + 2 && 266 <= room
    ensures !Safe(TooLong(n), 0, ZERO_TABLE, room)
  {
    hide Safe, TooLong;
    var data := TooLong(n);
    ZeroAt(n);
    SafeRound(data, 0, ZERO_TABLE, room);
    RunIs(data, 1, 0, MAX_RUN, 0);
    var t1 := Note(data, 0, ZERO_TABLE);
    SafeRound(data, 1, t1, room - 2);
    RunIs(data, 2, 0, MAX_RUN, 0);
    var t2 := Note(data, 1, t1);
    SafeRound(data, 2, t2, room - 4);
    RunIs(data, 3, 0, MAX_RUN, 0);
    LiteralsOfZeros(n, 0, Note(data, 2, t2), room - 6);
  }

  /** Given enough room, all inputs of a length are safe exactly up to 32769 bytes. */
  lemma LengthDecides(n: nat, room: nat)
    requires 266 <= room
    ensures (forall data: seq<Byte> :: |data| == n ==> Safe(data, 0, ZERO_TABLE, room)) <==> n <= MAX_SHORT + 2
  {
    hide Safe, TooLong;
    if n <= MAX_SHORT + 2 {
      forall data: seq<Byte> | |data| == n
        ensures Safe(data, 0, ZERO_TABLE, room)
      {
        ShortInputsAreSafe(data, 0, ZERO_TABLE, room);
      }
    } else {
      TooLongIsUnsafe(n, room);
    }
  }

  // ---------------------------------------------------------------- the routines

  /** The encoder's inner loop: the run of bytes at `start` that repeat those at `back`. */
  method MatchRun(input: array<Byte>, sourcelen: nat, start: nat, back: nat) returns (runlen: nat)
    requires sourcelen <= input.Length && back < start <= sourcelen
    ensures runlen == RunLength(input[..sourcelen], start, back, MAX_RUN)
  {
    var pos, backpos := start, back;
    runlen := 0;
    while backpos < pos && pos < sourcelen && input[pos] == input[backpos] && runlen < MAX_RUN
      invariant runlen <= MAX_RUN && pos == start + runlen <= sourcelen && backpos == back + runlen
      invariant runlen + RunLength(input[..sourcelen], pos, backpos, MAX_RUN - runlen)
             == RunLength(input[..sourcelen], start, back, MAX_RUN)
      decreases sourcelen - pos
    {
      backpos := backpos + 1;
      pos := pos + 1;
      runlen := runlen + 1;
    }
  }

  lemma PairInFront(a: seq<Byte>, b: seq<Byte>, c: seq<Byte>)
    ensures a + (b + c) == (a + b) + c
  {
  }

  /** One round: writes a literal and the length of the run behind it, unless that is looked for in front of
      the input. */
  method PutPair(input: array<Byte>, output: array<Byte>, sourcelen: nat, pos: nat, outpos: nat, backpos: int)
    returns (fault: bool, runlen: nat)
    requires input != output && pos < sourcelen <= input.Length && outpos + 2 <= output.Length && backpos <= pos
    modifies output
    ensures fault <==> backpos < 0 && pos + 1 < sourcelen
    ensures !fault ==>
              && runlen == Run(input[..sourcelen], pos + 1, backpos)
              && output[..outpos + 2] == old(output[..outpos]) + [input[pos], runlen]
              && output[outpos + 2..] == old(output[outpos + 2..])
  {
    hide RunLength;
    runlen := 0;
    output[outpos] := input[pos];
    if backpos >= 0 {
      runlen := MatchRun(input, sourcelen, pos + 1, backpos);
    } else if pos + 1 < sourcelen {
      return true, 0;
    }
    output[outpos + 1] := runlen;
    fault := false;
  }

  /** `jffs2_rtime_compress`. The `positions` array holds C shorts; `fault` is the encoder about to look in
      front of its input. */
  method Compress(input: array<Byte>, output: array<Byte>, sourcelen: nat, dstlen: nat)
    returns (fault: bool, rc: int, covered: nat, written: nat)
    requires input != output
    requires sourcelen <= input.Length && dstlen <= output.Length
    modifies output
    ensures fault <==> !Safe(input[..sourcelen], 0, ZERO_TABLE, dstlen)
    ensures !fault ==>
              var e := Encode(input[..sourcelen], 0, ZERO_TABLE, dstlen);
              && output[..|e.bytes|] == e.bytes
              && output[|e.bytes|..] == old(output[|e.bytes|..])
              && rc == (if |e.bytes| >= e.upto then -1 else 0)
              && covered == (if rc == 0 then e.upto else sourcelen)
              && written == (if rc == 0 then |e.bytes| else dstlen)
  {
    hide Encode, Run, Safe, Short;
    fault := false;
    ghost var data := input[..sourcelen];
    ghost var all, safe := Encode(data, 0, ZERO_TABLE, dstlen), Safe(data, 0, ZERO_TABLE, dstlen);
    var positions: seq<int> := seq(256, _ => 0);
    var outpos, pos := 0, 0;
    while pos < sourcelen && outpos + 2 <= dstlen
      invariant pos <= sourcelen && outpos <= dstlen
      invariant input[..sourcelen] == data
      invariant |positions| == 256 && Within(positions, pos)
      invariant safe == Safe(data, pos, positions, dstlen - outpos)
      invariant all.bytes == output[..outpos] + Encode(data, pos, positions, dstlen - outpos).bytes
      invariant all.upto == Encode(data, pos, positions, dstlen - outpos).upto
      invariant output[outpos..] == old(output[outpos..])
      invariant !fault
      decreases sourcelen - pos
    {
      EncodeRound(data, pos, positions, dstlen - outpos);
      SafeRound(data, pos, positions, dstlen - outpos);
      ghost var before := output[..outpos];
      var value := input[pos];
      var runlen;
      fault, runlen := PutPair(input, output, sourcelen, pos, outpos, positions[value]);
      if fault {
        return true, -1, sourcelen, dstlen;
      }
      ghost var table := Note(data, pos, positions);
      positions := positions[value := Short(pos + 1)];
      assert positions == table;
      ghost var rest := Encode(data, pos + 1 + runlen, table, dstlen - outpos - 2);
      PairInFront(before, [value, runlen], rest.bytes);
      outpos := outpos + 2;
      pos := pos + 1 + runlen;
      assert rest == Encode(data, pos, positions, dstlen - outpos);
    }
    EncodeStops(data, pos, positions, dstlen - outpos);
    if outpos >= pos {
      return false, -1, sourcelen, dstlen;
    }
    return false, 0, pos, outpos;
  }

  /** `memcpy` of `n` bytes inside one buffer, from a source that does not overlap the
      destination: the forward copy. */
  lemma {:induction false} BlockCopyIsForwardCopy(text: seq<Byte>, from: nat, n: nat)
    requires from + n <= |text| && from < |text|
    ensures Copy(text, from, n) == text + text[from..from + n]
    decreases n
  {
    if n > 0 {
      if n > 1 {
        BlockCopyIsForwardCopy(text + [text[from]], from + 1, n - 1);
        var text' := text + [text[from]];
        assert text'[from + 1..from + n] == text[from + 1..from + n];
        assert text[from..from + n] == [text[from]] + text[from + 1..from + n];
      }
    }
  }

  /** One step of the decoder's bytewise loop, seen from the whole copy. */
  lemma CopyStep(text: seq<Byte>, from: nat, n: nat)
    requires from < |text| && n > 0
    ensures Copy(text, from, n) == Copy(text + [text[from]], from + 1, n - 1)
  {
  }

  /** The decoder's bytewise loop. */
  method CopyForward(output: array<Byte>, at: nat, from: nat, n: nat) returns (end: nat)
    requires from < at && at + n <= output.Length
    modifies output
    ensures end == at + n
    ensures output[..end] == Copy(old(output[..at]), from, n)
    ensures output[end..] == old(output[end..])
  {
    hide Copy;
    ghost var text := output[..at];
    var outpos, back, repeat := at, from, n;
    while repeat > 0
      invariant 0 <= repeat <= n && outpos == at + (n - repeat) && back == from + (n - repeat)
      invariant Copy(output[..outpos], back, repeat) == Copy(text, from, n)
      invariant output[at + n..] == old(output[at + n..])
      decreases repeat
    {
      CopyStep(output[..outpos], back, repeat);
      ghost var sofar := output[..outpos];
      output[outpos] := output[back];
      assert output[..outpos + 1] == sofar + [sofar[back]];
      outpos := outpos + 1;
      back := back + 1;
      repeat := repeat - 1;
    }
    CopyNothing(output[..outpos], back);
    end := outpos;
  }

  lemma CopyNothing(text: seq<Byte>, from: nat)
    requires from < |text|
    ensures Copy(text, from, 0) == text
  {
  }

  /** The decoder's copy of one run, by its two branches. */
  method CopyRun(output: array<Byte>, at: nat, from: nat, n: nat) returns (end: nat)
    requires from < at && at + n <= output.Length
    modifies output
    ensures end == at + n
    ensures output[..end] == Copy(old(output[..at]), from, n)
    ensures output[end..] == old(output[end..])
  {
    hide Copy;
    if from + n >= at {
      end := CopyForward(output, at, from, n);
    } else {
      ghost var text := output[..at];
      BlockCopyIsForwardCopy(text, from, n);
      forall i | 0 <= i < n {
        output[at + i] := output[from + i];
      }
      assert output[..at] == text && output[at..at + n] == text[from..from + n];
      assert output[..at + n] == output[..at] + output[at..at + n];
      end := at + n;
    }
  }

  /** One round of the decoder, seen from the whole text. */
  lemma DecodeRound(src: seq<Byte>, s: State, destlen: nat)
    requires Sound(s) && |s.text| < destlen
    ensures Decodable(src, s, destlen) <==>
              && |src| >= 2 && Readable(s, src[0], src[1]) && |s.text| + 1 + src[1] <= destlen
              && Decodable(src[2..], Token(s, src[0], src[1]), destlen)
    ensures Decodable(src, s, destlen) ==>
              var t := Token(s, src[0], src[1]);
              && Decode(src, s, destlen) == Decode(src[2..], t, destlen)
              && Used(src, s, destlen) == 2 + Used(src[2..], t, destlen)
  {
  }

  /** The body of the decoder's loop: one pair, written at `at`. */
  method DecodeToken(output: array<Byte>, at: nat, value: Byte, repeat: Byte, backoffs: int, ghost table: Table)
    returns (end: nat)
    requires Within(table, at) && table[value] == backoffs && (repeat == 0 || backoffs >= 0)
    requires at + 1 + repeat <= output.Length
    modifies output
    ensures end == at + 1 + repeat
    ensures output[..end] == Token(State(old(output[..at]), table), value, repeat).text
    ensures output[end..] == old(output[end..])
  {
    ghost var text := output[..at];
    output[at] := value;
    assert output[..at + 1] == text + [value];
    end := at + 1;
    if repeat != 0 {
      end := CopyRun(output, end, backoffs, repeat);
    }
  }

  /** `jffs2_rtime_decompress`. The C code checks no bounds; `fault` is the decoder about to leave one of its
      buffers. */
  method Decompress(input: array<Byte>, output: array<Byte>, srclen: nat, destlen: nat)
    returns (fault: bool, rc: int, consumed: nat)
    requires input != output
    requires srclen <= input.Length && destlen <= output.Length
    modifies output
    ensures fault <==> !Decodable(input[..srclen], State([], ZERO_TABLE), destlen)
    ensures !fault ==>
              && rc == 0
              && output[..destlen] == Decode(input[..srclen], State([], ZERO_TABLE), destlen)
              && consumed == Used(input[..srclen], State([], ZERO_TABLE), destlen)
    ensures output[destlen..] == old(output[destlen..])
  {
    hide Decode, Decodable, Used, Copy;
    ghost var src := input[..srclen];
    ghost var init := State([], ZERO_TABLE);
    ghost var good := Decodable(src, init, destlen);
    var positions: seq<int> := seq(256, _ => 0);
    ghost var s := init;
    var outpos, pos := 0, 0;
    while outpos < destlen
      invariant outpos <= destlen && pos <= srclen && input[..srclen] == src
      invariant Sound(s) && s.text == output[..outpos] && s.table == positions
      invariant Decodable(src[pos..], s, destlen) == good
      invariant good ==> Decode(src[pos..], s, destlen) == Decode(src, init, destlen)
      invariant good ==> pos + Used(src[pos..], s, destlen) == Used(src, init, destlen)
      invariant output[destlen..] == old(output[destlen..])
      decreases destlen - outpos
    {
      DecodeRound(src[pos..], s, destlen);
      if pos + 2 > srclen {
        return true, -1, pos;
      }
      assert src[pos..][2..] == src[pos + 2..];
      var value, repeat := input[pos], input[pos + 1];
      assert value == src[pos..][0] && repeat == src[pos..][1];
      var backoffs := positions[value];
      if outpos + 1 + repeat > destlen || (repeat > 0 && backoffs < 0) {
        return true, -1, pos;
      }
      ghost var table := s.table;
      s := Token(s, value, repeat);
      pos := pos + 2;
      positions := positions[value := Short(outpos + 1)];
      outpos := DecodeToken(output, outpos, value, repeat, backoffs, table);
    }
    DecodeStops(src[pos..], s, destlen);
    return false, 0, pos;
  }

  /** What the compressor's output buffer is filled with beforehand. */
  const MARK: Byte := 0x55

  /** The self test of `jffs2_decompression_test`: fill the output buffer with marks, compress, look for marks
      overwritten behind the output, decompress, compare. It never reports an overflow or a mismatch. */
  method SelfTest(input: array<Byte>, work: array<Byte>, check: array<Byte>, datalen: nat, room: nat)
    returns (fault: bool, overflow: bool, mismatch: bool)
    requires input != work && work != check && input != check
    requires datalen <= input.Length && room < work.Length && datalen <= check.Length
    modifies work, check
    ensures fault <==> !Safe(input[..datalen], 0, ZERO_TABLE, room)
    ensures !overflow && !mismatch
  {
    hide Safe, Encode, Decode, Decodable, Used;
    overflow, mismatch := false, false;
    forall i | 0 <= i <= room {
      work[i] := MARK;
    }
    ghost var marked := work[..];
    var rc, covered, written;
    fault, rc, covered, written := Compress(input, work, datalen, room);
    if fault || rc != 0 {
      return;
    }
    CompressedDecodes(input[..datalen], room);
    ghost var e := Encode(input[..datalen], 0, ZERO_TABLE, room);
    assert work[..written] == e.bytes && work[written..] == marked[written..];
    overflow := Overwritten(work, written, room, marked);
    var fault', rc', consumed := Decompress(work, check, written, covered);
    assert check[..covered] == input[..covered];
    mismatch := fault' || rc' != 0;
    var i := 0;
    while i < covered && !mismatch
      invariant 0 <= i <= covered && !mismatch
    {
      assert input[..covered][i] == check[..covered][i];
      mismatch := input[i] != check[i];
      i := i + 1;
    }
  }

  /** The scan for marks that are gone, backwards from the end of the buffer. */
  method Overwritten(work: array<Byte>, written: nat, room: nat, ghost marked: seq<Byte>) returns (gone: bool)
    requires written <= room < work.Length == |marked| && work[written..] == marked[written..]
    requires forall i :: 0 <= i <= room ==> marked[i] == MARK
    ensures !gone
  {
    gone := false;
    var i := room;
    while i > written
      invariant written <= i <= room
    {
      assert work[i] == work[written..][i - written] == marked[written..][i - written];
      if work[i] != MARK {
        return true;
      }
      i := i - 1;
    }
  }
}
