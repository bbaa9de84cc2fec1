/** The audio input of grab's `Remuxer`: the buffer `abuf` that `supply_audio_data` fills and empties
    in place. However the input is cut into calls, the packets it hands to `create_audio_pes` are the
    first ones of the canonical parse of everything received. */
module AudioInput {
  import opened Bytes
  import opened Timestamps
  import opened PesParser

  /** What `create_audio_pes` is called with. */
  datatype Created = Created(packet: seq<Byte>, duration: real)

  /** The time stamp can be read without leaving the packet. */
  predicate Readable(packet: seq<Byte>) {
    |packet| >= 14 || (|packet| >= 8 && packet[7] < 0x80)
  }

  function PtsOf(packet: seq<Byte>): real
    requires Readable(packet)
  {
    if packet[7] < 0x80 then -1.0 else LowPts(packet[9..14]) as real
  }

  /** The 14 bytes of memory from `pos` on that `pes_pts` may look at; what lies behind the buffer is
      taken as zero. */
  function Memory(mem: seq<Byte>, pos: nat): (s: seq<Byte>)
    ensures |s| == 14
  {
    seq(14, i => if 0 <= pos + i < |mem| then mem[pos + i] else 0)
  }

  /** `pes_pts` on memory. */
  function PtsAt(mem: seq<Byte>, pos: nat): real { PtsOf(Memory(mem, pos)) }

  lemma PtsOfPacket(mem: seq<Byte>, pos: nat, n: nat)
    requires pos + n <= |mem| && Readable(mem[pos..pos + n])
    ensures PtsAt(mem, pos) == PtsOf(mem[pos..pos + n])
  {
    var packet := mem[pos..pos + n];
    assert Memory(mem, pos)[7] == packet[7];
    if n >= 14 {
      var m := Memory(mem, pos);
      assert m[9] == packet[9] && m[10] == packet[10] && m[11] == packet[11] && m[12] == packet[12] && m[13] == packet[13];
      assert m[9..14] == [m[9], m[10], m[11], m[12], m[13]];
      assert packet[9..14] == [packet[9], packet[10], packet[11], packet[12], packet[13]];
    }
  }

  function Duration(p: Pair): real
    requires Readable(p.packet) && Readable(p.next)
  {
    PtsDiff(PtsOf(p.next), PtsOf(p.packet))
  }

  ghost predicate DurationsRight(created: seq<Created>, handed: seq<Pair>) {
    && |created| == |handed|
    && (forall k :: 0 <= k < |handed| ==> created[k].packet == handed[k].packet)
    && (forall k :: 0 <= k < |handed| && Readable(handed[k].packet) && Readable(handed[k].next) ==>
          created[k].duration == Duration(handed[k]))
  }

  class AudioBuffer {
    const abuf: array<Byte>
    var valid: nat
    var wanted: Byte
    var created: seq<Created>
    /** Everything received since the last overrun, the wanted stream then, and what was handed over
        since then. */
    ghost var input: seq<Byte>
    ghost var wanted0: Byte
    ghost var handed: seq<Pair>
    ghost var earlier: nat

    ghost predicate Valid()
      reads this, abuf
    {
      && valid <= abuf.Length && earlier <= |created|
      && OnTrack(input, wanted0, handed, abuf[..valid], wanted)
      && DurationsRight(created[earlier..], handed)
    }

    constructor (size: nat, wanted: Byte)
      ensures Valid() && fresh(abuf) && abuf.Length == size
      ensures input == [] && wanted0 == wanted && created == [] && handed == []
    {
      abuf := new Byte[size];
      valid, this.wanted, created := 0, wanted, [];
      input, wanted0, handed, earlier := [], wanted, [], 0;
      new;
      assert abuf[..valid] == [];
      StartOnTrack(wanted);
    }

    /** The inner loop of `find_next_pes_packet`. */
    method ScanPrefix(offset: nat, start: nat, limit: nat) returns (p: nat)
      requires offset + limit + 3 <= valid <= abuf.Length
      ensures p == Scan(abuf[offset..valid], start, limit)
    {
      ghost var s := abuf[offset..valid];
      p := start;
      while p < limit && !(abuf[offset + p] == 0 && abuf[offset + p + 1] == 0 && abuf[offset + p + 2] == 1)
        invariant start <= p && (p == start || p <= limit)
        invariant Scan(s, p, limit) == Scan(s, start, limit)
        decreases limit - p
      {
        assert !Prefix(s, p);
        p := p + 1;
      }
      if p < limit {
        assert Prefix(s, p);
      }
    }

    /** The size of the packet at `p`, from its length field. */
    method PacketSize(offset: nat, p: nat) returns (size: nat)
      requires offset + p + 6 <= valid <= abuf.Length
      ensures size == SizeAt(abuf[offset..valid], p) && size >= 7
    {
      var hi: int, lo: int := abuf[offset + p + 4], abuf[offset + p + 5];
      size := 6 + if hi * 256 + lo == 0 then 0x10000 else hi * 256 + lo;
    }

    method HeaderValid(offset: nat, p: nat) returns (ok: bool)
      requires valid <= abuf.Length && offset <= valid && Complete(abuf[offset..valid], p)
      ensures ok == ValidHeader(abuf[offset..valid], p)
    {
      var id := abuf[offset + p + 3];
      ok := id == PRIVATE_2 || id == PADDING || 0x80 <= abuf[offset + p + 6] < 0xc0;
    }

    /** A start code has been found at `p`: is it a whole packet with a valid header? */
    method Judge(offset: nat, p: nat, v: nat) returns (done: bool, p': nat, len: nat)
      requires offset <= valid <= abuf.Length && offset + p + v <= valid && v >= 6
      ensures offset + p' <= valid && p' + len <= valid - offset
      ensures (if done then Result(p', len) else Search(abuf[offset..valid], p', v)) == Judged(abuf[offset..valid], p, v)
      ensures !done ==> p' == p + 1
    {
      hide Search, SizeAt, ValidHeader;
      var size := PacketSize(offset, p);
      if v < size {
        return true, p, 0;
      }
      var ok := HeaderValid(offset, p);
      if ok {
        return true, p, size;
      }
      return false, p + 1, 0;
    }

    /** One attempt of `find_next_pes_packet`, from the label to the `goto`. */
    method Attempt(offset: nat, start: nat, v: nat) returns (done: bool, p: nat, len: nat, v': nat)
      requires offset <= valid <= abuf.Length && offset + start <= valid && offset + v <= valid
      ensures offset + p <= valid && offset + v' <= valid && p + len <= valid - offset
      ensures done ==> Search(abuf[offset..valid], start, v) == Result(p, len)
      ensures !done ==> p > start && Search(abuf[offset..valid], start, v) == Search(abuf[offset..valid], p, v')
    {
      ghost var s := abuf[offset..valid];
      SearchCases(s, start, v);
      hide Search, Scan, Prefix, Judged;
      if v < 4 {
        return true, start, 0, v;
      }
      p := ScanPrefix(offset, start, v - 3);
      if p >= v - 3 || v - p < 6 {
        return true, p, 0, v;
      }
      v' := v - p;
      done, p, len := Judge(offset, p, v');
    }

    /** `find_next_pes_packet` on the bytes from `offset` on. */
    method FindNext(offset: nat) returns (start: nat, len: nat)
      requires offset <= valid <= abuf.Length
      ensures Result(start, len) == Search(abuf[offset..valid], 0, valid - offset)
    {
      hide Search;
      ghost var s := abuf[offset..valid];
      var v: nat := valid - offset;
      var done := false;
      start, len := 0, 0;
      while !done
        invariant offset + start <= valid && offset + v <= valid
        invariant Search(s, 0, |s|) == if done then Result(start, len) else Search(s, start, v)
        decreases !done, valid - offset - start
      {
        done, start, len, v := Attempt(offset, start, v);
      }
    }

    /** Looks for a packet in the bytes from `off` on, and whether it is wanted. */
    method LookAt(off: nat) returns (none: bool, hit: bool, at: nat, len: nat)
      requires off <= valid <= abuf.Length
      ensures var rest := abuf[off..valid];
              var r := Search(rest, 0, |rest|);
              && (none <==> r.len == 0) && at == off + r.start && len == r.len && at + len <= valid
              && abuf[at..valid] == rest[r.start..]
              && (!none ==>
                    && len >= 7 && abuf[at..at + len] == rest[r.start..r.start + r.len]
                    && abuf[at + len..valid] == rest[r.start + r.len..]
                    && hit == Wanted(wanted, Id(abuf[at..at + len])))
    {
      hide Search, Wanted;
      ghost var rest := abuf[off..valid];
      var start;
      start, len := FindNext(off);
      SearchBounds(rest);
      at := off + start;
      none, hit := len == 0, false;
      SubSlice(abuf[..], off, valid, start, start + len);
      assert abuf[..][at..valid] == abuf[at..valid];
      if !none {
        assert abuf[..][at..at + len] == abuf[at..at + len] && abuf[..][at + len..valid] == abuf[at + len..valid];
        IdOfPacket(abuf[at..at + len]);
        hit := Wanted(wanted, abuf[at + 3]);
      }
    }

    /** The search for a second packet, which gives the first one's duration. */
    method FindSecond(from: nat) returns (found: bool, at: nat, len: nat)
      requires from <= valid <= abuf.Length
      modifies this`wanted
      ensures found ==> at + len <= valid && len >= 7
      ensures found ==> Successor(abuf[from..valid], old(wanted), abuf[at..at + len])
      ensures wanted == if found then Chosen(old(wanted), Id(abuf[at..at + len])) else old(wanted)
      ensures !found && Clean(abuf[from..valid]) ==> Select(Packets(abuf[from..valid]), wanted) == []
    {
      hide Search, Successor, Id, Chosen, Wanted, Clean, Packets, Select, SameRest;
      ghost var whole := abuf[from..valid];
      SameRestStart(whole, wanted);
      found, at, len := false, from, 0;
      var off2 := from;
      while off2 < valid
        invariant from <= off2 <= valid && wanted == old(wanted) && !found
        invariant forall q :: Successor(abuf[off2..valid], wanted, q) ==> Successor(whole, wanted, q)
        invariant SameRest(whole, abuf[off2..valid], wanted)
        decreases valid - off2
      {
        ghost var rest := abuf[off2..valid];
        var none, hit;
        none, hit, at, len := LookAt(off2);
        if none {
          SameRestEnds(whole, rest, wanted);
          return;
        }
        if hit {
          FirstIsSuccessor(rest, wanted);
          wanted := Chosen(wanted, abuf[at + 3]);
          IdOfPacket(abuf[at..at + len]);
          found := true;
          return;
        }
        LaterSuccessor(rest, wanted);
        SameRestGoesOn(whole, rest, wanted);
        off2 := at + len;
      }
      assert abuf[off2..valid] == [];
      SameRestEmpty(whole, wanted);
    }

    /** One round of the loop of `supply_audio_data` on the bytes from `offset` on. */
    method OneRound(offset: nat) returns (offset': nat, stop: bool)
      requires offset <= valid <= abuf.Length && earlier <= |created|
      requires OnTrack(input, wanted0, handed, abuf[offset..valid], wanted)
      requires DurationsRight(created[earlier..], handed)
      modifies this`wanted, this`created, this`handed
      ensures offset <= offset' <= valid && (!stop ==> offset < offset') && earlier <= |created|
      ensures OnTrack(input, wanted0, handed, abuf[offset'..valid], wanted)
      ensures DurationsRight(created[earlier..], handed)
      ensures old(handed) <= handed
      ensures Clean(abuf[offset..valid]) ==>
                if stop then Canonical(abuf[offset'..valid], wanted) == [] else Clean(abuf[offset'..valid])
    {
      hide Search, OnTrack, DurationsRight, Successor, Wanted, Chosen, Id, PtsAt, Clean, Canonical, Packets, Select;
      ghost var rest := abuf[offset..valid];
      var none, hit, at, len := LookAt(offset);
      if none {
        SkipKeeps(input, wanted0, handed, rest, wanted);
        if Clean(rest) { SkippedIsSettled(rest, wanted); }
        return at, true;
      }
      // The trap of the source: the packet found is inside the valid bytes.
      assert at + len <= valid;
      ghost var after := abuf[at + len..valid];
      CleanRest(rest, after, at + len - offset);
      if hit {
        IdOfPacket(abuf[at..at + len]);
        ghost var w := wanted;
        wanted := Chosen(wanted, abuf[at + 3]);
        offset', stop := HandOrWait(offset, at, len, w);
      } else {
        UnwantedKeeps(input, wanted0, handed, rest, wanted);
        offset', stop := at + len, false;
      }
    }

    /** The rest of a round, once a wanted packet is found. */
    method HandOrWait(ghost offset: nat, at: nat, len: nat, ghost w: Byte) returns (offset': nat, stop: bool)
      requires offset <= at && at + len <= valid <= abuf.Length && len > 0 && earlier <= |created|
      requires var rest := abuf[offset..valid];
               var r := Search(rest, 0, |rest|);
               && r.len == len && at == offset + r.start
               && abuf[at..valid] == rest[r.start..] && abuf[at..at + len] == rest[r.start..r.start + r.len]
               && abuf[at + len..valid] == rest[r.start + r.len..]
               && Wanted(w, Id(abuf[at..at + len])) && wanted == Chosen(w, Id(abuf[at..at + len]))
               && OnTrack(input, wanted0, handed, rest, w)
               && (Clean(rest) ==> Clean(abuf[at + len..valid]))
      requires DurationsRight(created[earlier..], handed)
      modifies this`wanted, this`created, this`handed
      ensures at <= offset' <= valid && (!stop ==> at < offset') && earlier <= |created|
      ensures OnTrack(input, wanted0, handed, abuf[offset'..valid], wanted)
      ensures DurationsRight(created[earlier..], handed)
      ensures old(handed) <= handed
      ensures Clean(abuf[offset..valid]) ==>
                if stop then Canonical(abuf[offset'..valid], wanted) == [] else Clean(abuf[offset'..valid])
    {
      hide Search, OnTrack, DurationsRight, Successor, Wanted, Chosen, Id, PtsAt, Clean, Canonical, Packets, Select;
      ghost var rest := abuf[offset..valid];
      var found, at2, len2 := FindSecond(at + len);
      if !found {
        WaitingKeeps(input, wanted0, handed, rest, w);
        if Clean(rest) { WaitingIsSettled(rest, w); }
        return at, true;
      }
      HandedKeeps(input, wanted0, handed, rest, w, abuf[at2..at2 + len2]);
      HandOver(at, len, at2, len2);
      return at + len, false;
    }

    /** Hands the packet at `at` over with the duration up to the one at `at2`. */
    method HandOver(at: nat, len: nat, at2: nat, len2: nat)
      requires at + len <= abuf.Length && at2 + len2 <= abuf.Length && earlier <= |created|
      requires DurationsRight(created[earlier..], handed)
      modifies this`created, this`handed
      ensures earlier <= |created| && DurationsRight(created[earlier..], handed)
      ensures handed == old(handed) + [Pair(abuf[at..at + len], abuf[at2..at2 + len2])]
    {
      hide PtsOf, Duration, Readable, Memory;
      var duration := PtsDiff(PtsAt(abuf[..], at2), PtsAt(abuf[..], at));
      ghost var pair := Pair(abuf[at..at + len], abuf[at2..at2 + len2]);
      DurationIsRight(abuf[..], at, len, at2, len2);
      ghost var before := created[earlier..];
      created := created + [Created(abuf[at..at + len], duration)];
      handed := handed + [pair];
      assert created[earlier..] == before + [Created(pair.packet, duration)];
    }

    /** `supply_audio_data`. Without an overrun of the buffer the new data continues the input;
        otherwise what was kept is dropped and the input starts afresh. Unless a start code in the buffer has an
        invalid header, everything that can be decided has been handed over at the end. */
    method Supply(data: seq<Byte>)
      requires Valid()
      modifies this`valid, this`wanted, this`created, this`input, this`wanted0, this`handed, this`earlier, abuf
      ensures Valid()
      ensures old(valid) + |data| <= abuf.Length ==>
                && input == old(input) + data && wanted0 == old(wanted0) && earlier == old(earlier)
                && old(handed) <= handed
      ensures old(valid) + |data| > abuf.Length ==>
                && input == data[..if |data| < abuf.Length then |data| else abuf.Length]
                && wanted0 == old(wanted) && earlier == |old(created)|
      ensures var held := if old(valid) + |data| <= abuf.Length then old(abuf[..valid]) + data else input;
              Clean(held) ==> handed == Canonical(input, wanted0)
    {
      hide OnTrack, Clean, Canonical;
      var len := |data|;
      if valid + len > abuf.Length {
        valid := 0;
        if len > abuf.Length {
          len := abuf.Length;
        }
        input, wanted0, handed, earlier := [], wanted, [], |created|;
        StartOnTrack(wanted);
        assert abuf[..valid] == [];
        assert created[earlier..] == [];
      }
      Append(data[..len]);
      assert data[..|data|] == data;
      Consume();
    }

    /** `memcpy` of the new data behind the kept bytes. */
    method Append(data: seq<Byte>)
      requires Valid() && valid + |data| <= abuf.Length
      modifies this`valid, this`input, abuf
      ensures Valid() && input == old(input) + data && abuf[..valid] == old(abuf[..valid]) + data
      ensures wanted0 == old(wanted0) && handed == old(handed)
    {
      hide OnTrack, DurationsRight;
      ghost var kept := abuf[..valid];
      forall i | 0 <= i < |data| {
        abuf[valid + i] := data[i];
      }
      ArrivalKeeps(input, wanted0, handed, kept, wanted, data);
      input := input + data;
      valid := valid + |data|;
      assert abuf[..valid] == kept + data;
    }

    /** The loop over the available packets, and the `memmove` of what remains. */
    method Consume()
      requires Valid()
      modifies this`valid, this`wanted, this`created, this`handed, abuf
      ensures Valid() && old(handed) <= handed
      ensures Clean(old(abuf[..valid])) ==> handed == Canonical(input, wanted0)
    {
      hide OnTrack, DurationsRight, Clean, Canonical;
      var offset, stop := 0, false;
      assert abuf[0..valid] == abuf[..valid];
      ghost var clean := Clean(abuf[..valid]);
      while offset < valid && !stop
        invariant offset <= valid <= abuf.Length && earlier <= |created| && old(handed) <= handed
        invariant OnTrack(input, wanted0, handed, abuf[offset..valid], wanted)
        invariant DurationsRight(created[earlier..], handed)
        invariant clean ==> if stop then Canonical(abuf[offset..valid], wanted) == [] else Clean(abuf[offset..valid])
        decreases !stop, valid - offset
      {
        offset, stop := OneRound(offset);
      }
      ghost var rest := abuf[offset..valid];
      if clean {
        if !stop { NothingIsSettled(wanted); }
        assert Canonical(rest, wanted) == [];
        AllHanded(input, wanted0, handed, rest, wanted);
      }
      forall i | 0 <= i < valid - offset {
        abuf[i] := abuf[offset + i];
      }
      valid := valid - offset;
      assert abuf[..valid] == rest;
    }

    /** However the input was split: what has been handed over is an initial part of what the
        canonical parse of the whole input hands over. */
    lemma HandedIsCanonical()
      requires Valid()
      ensures handed <= Canonical(input, wanted0)
      ensures |created| == earlier + |handed|
      ensures forall k :: 0 <= k < |handed| ==> created[earlier + k].packet == handed[k].packet
      ensures forall k :: 0 <= k < |handed| && Readable(handed[k].packet) && Readable(handed[k].next) ==>
                created[earlier + k].duration == Duration(handed[k])
    {
      hide Canonical, Duration, Readable;
      assert input + [] == input;
      assert Canonical(input + [], wanted0) == handed + Canonical(abuf[..valid] + [], wanted);
      var now := created[earlier..];
      assert forall k :: 0 <= k < |handed| ==> now[k] == created[earlier + k];
    }

    /** What is handed over is what `create_audio_pes` takes for granted, and no more: a packet of the size its
        length field says. */
    lemma HandedAreWhole()
      requires Valid()
      ensures |created| == earlier + |handed|
      ensures forall i :: earlier <= i < |created| ==> Whole(created[i].packet)
    {
      hide Canonical, Duration, Readable, Whole;
      HandedIsCanonical();
      CanonicalIsWhole(input, wanted0);
      forall i | earlier <= i < |created|
        ensures Whole(created[i].packet)
      {
        assert created[earlier + (i - earlier)].packet == handed[i - earlier].packet;
      }
    }
  }

  lemma DurationIsRight(mem: seq<Byte>, at: nat, len: nat, at2: nat, len2: nat)
    requires at + len <= |mem| && at2 + len2 <= |mem|
    ensures var pair := Pair(mem[at..at + len], mem[at2..at2 + len2]);
            Readable(pair.packet) && Readable(pair.next) ==>
              PtsDiff(PtsAt(mem, at2), PtsAt(mem, at)) == Duration(pair)
  {
    hide Readable, PtsAt, PtsOf;
    if Readable(mem[at..at + len]) && Readable(mem[at2..at2 + len2]) {
      PtsOfPacket(mem, at, len);
      PtsOfPacket(mem, at2, len2);
    }
  }

  lemma SubSlice(m: seq<Byte>, a: nat, b: nat, x: nat, y: nat)
    requires a <= b <= |m| && x <= y <= b - a
    ensures m[a..b][x..y] == m[a + x..a + y] && m[a..b][x..] == m[a + x..b] && m[a..b][y..] == m[a + y..b]
  {
    var u := m[a..b];
    assert u[x..] == m[a + x..b];
    assert u[y..] == m[a + y..b];
    var v := m[a + x..a + y];
    forall i | 0 <= i < y - x ensures u[x..y][i] == v[i] {
      assert u[x..y][i] == u[x + i] == m[a + x + i] == v[i];
    }
  }

  lemma IdOfPacket(p: seq<Byte>)
    requires |p| > 3
    ensures Id(p) == p[3]
  {
  }

  lemma SearchBounds(s: seq<Byte>)
    ensures var r := Search(s, 0, |s|); r.len > 0 ==> r.len >= 7 && r.start + r.len <= |s|
  {
    hide Search;
    SearchIsNext(s, [], 0, |s|);
    assert s + [] == s;
  }

  lemma FirstIsSuccessor(rest: seq<Byte>, w: Byte)
    requires Search(rest, 0, |rest|).len > 0
    requires var r := Search(rest, 0, |rest|); Wanted(w, Id(rest[r.start..r.start + r.len]))
    ensures var r := Search(rest, 0, |rest|); Successor(rest, w, rest[r.start..r.start + r.len])
  {
    hide Search, Packets, Wanted, Id;
    var r := Search(rest, 0, |rest|);
    var p := rest[r.start..r.start + r.len];
    forall t ensures LeadsWith(rest, t, w, p) {
      FoundIsFirst(rest, t);
    }
  }

  lemma LaterSuccessor(rest: seq<Byte>, w: Byte)
    requires Search(rest, 0, |rest|).len > 0
    requires var r := Search(rest, 0, |rest|); !Wanted(w, Id(rest[r.start..r.start + r.len]))
    ensures var r := Search(rest, 0, |rest|);
            forall q :: Successor(rest[r.start + r.len..], w, q) ==> Successor(rest, w, q)
  {
    hide Search, Packets, Wanted, Id;
    var r := Search(rest, 0, |rest|);
    var p, rest' := rest[r.start..r.start + r.len], rest[r.start + r.len..];
    forall q | Successor(rest', w, q) ensures Successor(rest, w, q) {
      forall t ensures LeadsWith(rest, t, w, q) {
        FoundIsFirst(rest, t);
        var ps := Packets(rest' + t);
        assert ([p] + ps)[1..] == ps;
        assert LeadsWith(rest', t, w, q);
      }
    }
  }

  // ---------------------------------------------------------------- nothing is held back

  /** Clean bytes select the same packets as what is left of them, which is clean too. */
  ghost predicate SameRest(whole: seq<Byte>, rest: seq<Byte>, w: Byte) {
    Clean(whole) ==> Clean(rest) && Select(Packets(whole), w) == Select(Packets(rest), w)
  }

  lemma CleanRest(rest: seq<Byte>, after: seq<Byte>, k: nat)
    requires k <= |rest| && after == rest[k..]
    ensures Clean(rest) ==> Clean(after)
  {
    hide Clean;
    if Clean(rest) { CleanSuffix(rest, k); }
  }

  lemma SameRestStart(whole: seq<Byte>, w: Byte)
    ensures SameRest(whole, whole, w)
  {
  }

  lemma SameRestGoesOn(whole: seq<Byte>, rest: seq<Byte>, w: Byte)
    requires SameRest(whole, rest, w) && Search(rest, 0, |rest|).len > 0
    requires var r := Search(rest, 0, |rest|); !Wanted(w, Id(rest[r.start..r.start + r.len]))
    ensures var r := Search(rest, 0, |rest|); SameRest(whole, rest[r.start + r.len..], w)
  {
    hide Search, Packets, Select, Wanted, Id, Clean;
    var r := Search(rest, 0, |rest|);
    var p, rest' := rest[r.start..r.start + r.len], rest[r.start + r.len..];
    FoundIsFirst(rest, []);
    assert rest + [] == rest && rest' + [] == rest';
    SelectCons(p, Packets(rest'), w);
    if Clean(rest) { CleanSuffix(rest, r.start + r.len); }
  }

  lemma SameRestEnds(whole: seq<Byte>, rest: seq<Byte>, w: Byte)
    requires SameRest(whole, rest, w) && Search(rest, 0, |rest|).len == 0
    ensures Clean(whole) ==> Select(Packets(whole), w) == []
  {
    hide Search, Packets, Clean;
    if Clean(rest) { CleanSearchIsExact(rest); }
  }

  lemma SameRestEmpty(whole: seq<Byte>, w: Byte)
    requires SameRest(whole, [], w)
    ensures Clean(whole) ==> Select(Packets(whole), w) == []
  {
  }

  lemma NothingIsSettled(w: Byte)
    ensures Canonical([], w) == []
  {
  }

  lemma SkippedIsSettled(rest: seq<Byte>, w: Byte)
    requires Clean(rest) && Search(rest, 0, |rest|).len == 0
    ensures Canonical(rest[Search(rest, 0, |rest|).start..], w) == []
  {
    hide Search, Packets, Clean;
    CleanSearchIsExact(rest);
    SkippedHoldNothing(rest, []);
    var rest' := rest[Search(rest, 0, |rest|).start..];
    assert rest + [] == rest && rest' + [] == rest';
  }

  /** A packet that waits for a second one. */
  lemma WaitingIsSettled(rest: seq<Byte>, w: Byte)
    requires Clean(rest) && Search(rest, 0, |rest|).len > 0
    requires var r := Search(rest, 0, |rest|);
             var id := Id(rest[r.start..r.start + r.len]);
             Wanted(w, id) && Select(Packets(rest[r.start + r.len..]), Chosen(w, id)) == []
    ensures var r := Search(rest, 0, |rest|);
            Canonical(rest[r.start..], Chosen(w, Id(rest[r.start..r.start + r.len]))) == []
  {
    hide Search, Packets, Select, Wanted, Chosen, Id, Clean;
    var r := Search(rest, 0, |rest|);
    var p, rest', kept := rest[r.start..r.start + r.len], rest[r.start + r.len..], rest[r.start..];
    var w' := Chosen(w, Id(p));
    FoundIsFirst(rest, []);
    StartsWithPacket(rest, []);
    assert rest + [] == rest && rest' + [] == rest' && kept + [] == kept;
    assert Packets(kept) == [p] + Packets(rest');
    WantedAgain(w, Id(p));
    SelectCons(p, Packets(rest'), w');
  }

  lemma AllHanded(input: seq<Byte>, w0: Byte, handed: seq<Pair>, rest: seq<Byte>, w: Byte)
    requires OnTrack(input, w0, handed, rest, w) && Canonical(rest, w) == []
    ensures handed == Canonical(input, w0)
  {
    hide Canonical;
    assert input + [] == input && rest + [] == rest;
    assert Canonical(input + [], w0) == handed + Canonical(rest + [], w);
  }

  lemma StartOnTrack(w: Byte)
    ensures OnTrack([], w, [], [], w)
  {
    hide Canonical;
    forall t ensures Canonical([] + t, w) == [] + Canonical([] + t, w) {
    }
  }
}
