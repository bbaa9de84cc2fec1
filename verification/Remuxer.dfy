/** The pack buffer of grab's `Remuxer`, filled in place. */
module Remuxer {
  import opened Bytes
  import opened Packs
  import PesParser

  /** `pes_size`. */
  function PesSize(pes: seq<Byte>): nat
    requires |pes| >= 6
  {
    PesParser.SizeAt(pes, 0)
  }

  /** A complete PES packet whose header fits into it: what `write_pes_in_pp` is given. */
  predicate WellFormed(pes: seq<Byte>) {
    |pes| >= 9 && |pes| >= PesSize(pes) >= 9 + pes[8] as int
  }

  /** The elementary data of a PES packet. */
  function ElementaryData(pes: seq<Byte>): seq<Byte>
    requires WellFormed(pes)
  {
    pes[9 + pes[8] as int..PesSize(pes)]
  }

  class PackBuffer {
    const buffer: array<Byte>
    var valid: nat
    var file: seq<seq<Byte>>
    ghost var spare: seq<Byte>

    ghost predicate Shape()
      reads this, buffer
    {
      buffer.Length == PACK && valid <= PACK && |spare| == 2
    }

    ghost function View(): Mux
      requires Shape()
      reads this, buffer
    {
      Mux(file, buffer[..valid], spare)
    }

    /** `pp_valid` is 0 or leaves at least 20 free bytes. */
    ghost predicate Valid()
      reads this, buffer
    {
      Shape() && RoomInv(View()) && (valid == 0 ==> buffer[30..32] == spare)
    }

    constructor ()
      ensures Valid() && fresh(buffer)
      ensures file == [] && valid == 0
    {
      buffer := new Byte[PACK];
      valid := 0;
      file := [];
      new;
      spare := buffer[30..32];
    }

    /** Appends bytes to the pack. */
    method Put(bytes: seq<Byte>)
      requires Shape() && valid + |bytes| <= PACK
      modifies this`valid, buffer
      ensures Shape() && valid == old(valid) + |bytes|
      ensures buffer[..valid] == old(buffer[..valid]) + bytes
      ensures buffer[valid..] == old(buffer[valid + |bytes|..])
    {
      forall i | 0 <= i < |bytes| {
        buffer[valid + i] := bytes[i];
      }
      ghost var was := old(buffer[..valid]);
      valid := valid + |bytes|;
      assert buffer[..valid] == was + bytes;
    }

    /** Writes the full buffer to the file and starts over. */
    method Emit()
      requires Shape() && valid == PACK
      modifies this`valid, this`file, this`spare
      ensures Valid() && valid == 0
      ensures View() == Mux(old(file) + [buffer[..]], [], buffer[30..32])
    {
      file := file + [buffer[..]];
      spare := buffer[30..32];
      valid := 0;
    }

    /** `flush_pp`: fills the pack with a padding packet. */
    method FlushPp()
      requires Valid()
      modifies this`valid, this`file, this`spare, buffer
      ensures Valid() && View() == Flush(old(View()))
    {
      if valid == 0 {
        return;
      }
      Put(PaddingBytes(PACK - valid));
      assert buffer[..] == buffer[..valid];
      Emit();
    }
  
    /** The packet round: header, stuffing, AC3 bytes and data go into the buffer one after the
        other; a full pack is written out. */
    method PutPacket(r: Request, off: nat) returns (payload: nat)
      requires Valid() && valid > 0 && off < |r.data|
      modifies this`valid, this`file, this`spare, buffer
      ensures Valid()
      ensures var part := old(buffer[..valid]);
              var c := NextChunk(r, off, PACK - |part|);
              payload == |c.data| && View() == Closed(old(View()), part + PesBytes(c))
    {
      hide NextChunk, PesBytes;
      var c := PlanPacket(r, off, PACK - valid);
      PutPes(c);
      if valid == PACK {
        assert buffer[..] == buffer[..valid];
        Emit();
      }
      return |c.data|;
    }

    /** How much of the data goes into the pack, and how it is stuffed. */
    method PlanPacket(r: Request, off: nat, avail: nat) returns (c: Chunk)
      requires off < |r.data| && MIN_FREE <= avail <= PACK
      ensures c == NextChunk(r, off, avail)
    {
      var pts := r.Pts(off);
      var headerSize := if pts.Some? then 14 else 9;
      var ac3Size := if r.id == PRIVATE_1 then 4 else 0;
      var payload := |r.data| - off;
      if payload > avail - (headerSize + ac3Size) {
        payload := avail - (headerSize + ac3Size);
      }
      var stuffing := 0;
      if avail - (headerSize + ac3Size + payload) < MIN_FREE {
        stuffing := avail - (headerSize + ac3Size + payload);
      }
      c := Chunk(r.id, pts, stuffing, r.data[off..off + payload]);
    }

    method PutPes(c: Chunk)
      requires Shape() && c.stuffing < MIN_FREE && valid + c.Size() <= PACK
      modifies this`valid, buffer
      ensures Shape() && valid == old(valid) + c.Size()
      ensures buffer[..valid] == old(buffer[..valid]) + PesBytes(c)
    {
      ghost var part := buffer[..valid];
      assert c.stuffing == 0 ==> Fill(c.stuffing, 0xff) == [];
      assert c.id != PRIVATE_1 ==> Ac3Header(c.id) == [];
      PartsOf(part, c);
      hide PesHeader, Fill, Ac3Header, PesBytes;
      Put(PesHeader(c));
      if c.stuffing > 0 {
        Put(Fill(c.stuffing, 0xff));
      }
      if c.id == PRIVATE_1 {
        Put(Ac3Header(c.id));
      }
      Put(c.data);
    }

    /** The pack with the system header. */
    method PutSystemPack(scr: nat, audio: Byte)
      requires Valid() && valid == 0
      modifies this`valid, this`file, this`spare, buffer
      ensures Valid() && valid == 0
      ensures View() == old(View()).(file := old(file) + [SystemPack(scr, audio, old(spare))])
    {
      ghost var before := View();
      Put(PackHeader(scr));
      assert buffer[30..32] == spare;
      Put(SystemHeader(audio, [0, 0])[..16]);
      valid := valid + 2;
      StaleBytes(buffer[..], PackHeader(scr), audio, spare);
      FlushPp();
    }

    /** One round of the loop. */
    method OneRound(r: Request, off: nat, sys: bool, audio: Byte) returns (off': nat, sys': bool)
      requires Valid() && off < |r.data|
      modifies this`valid, this`file, this`spare, buffer
      ensures Valid()
      ensures Progress(View(), off', sys') == Round(Progress(old(View()), off, sys), r, audio)
    {
      hide PackHeader, NextChunk, PesBytes, SystemPack, Closed;
      off', sys' := off, sys;
      if valid == 0 {
        if sys {
          PutSystemPack(r.scrAt(off), audio);
          return off, false;
        }
        Put(PackHeader(r.scrAt(off)));
        assert buffer[..valid] == PackHeader(r.scrAt(off));
        ClosedFromEmpty(old(View()), View());
      }
      var payload := PutPacket(r, off);
      off' := off + payload;
    }

    /** `write_pes_in_pp`, for the given clock values. */
    method WritePesInPp(pes: seq<Byte>, stamp: bool, stampAll: bool, outputSysHeader: bool, lasting: bool,
                        audio: Byte, scrAt: nat -> nat, ptsAt: nat -> nat)
      requires Valid() && WellFormed(pes)
      modifies this`valid, this`file, this`spare, buffer
      ensures Valid()
      ensures var r := Request(pes[3], ElementaryData(pes), pes[7] >= 0x80, stamp, stampAll, lasting, scrAt, ptsAt);
              View() == Write(old(View()), r, outputSysHeader, audio)
    {
      hide Round, RoomInv;
      var r := Request(pes[3], ElementaryData(pes), pes[7] >= 0x80, stamp, stampAll, lasting, scrAt, ptsAt);
      var off, sys := 0, outputSysHeader;
      while off < |r.data|
        invariant Valid() && off <= |r.data|
        invariant Rounds(Progress(View(), off, sys), r, audio) == Write(old(View()), r, outputSysHeader, audio)
        decreases |r.data| - off, sys
      {
        off, sys := OneRound(r, off, sys, audio);
      }
    }
  }

  lemma PartsOf(part: seq<Byte>, c: Chunk)
    requires c.stuffing < MIN_FREE
    ensures part + PesHeader(c) + Fill(c.stuffing, 0xff) + Ac3Header(c.id) + c.data == part + PesBytes(c)
    ensures c.stuffing == 0 ==> part + PesHeader(c) + Fill(c.stuffing, 0xff) == part + PesHeader(c)
    ensures c.id != PRIVATE_1 ==>
              part + PesHeader(c) + Fill(c.stuffing, 0xff) + Ac3Header(c.id) == part + PesHeader(c) + Fill(c.stuffing, 0xff)
  {
    hide PesHeader;
  }

  /** The last two bytes of the system header are those that stood in their place before. */
  lemma StaleBytes(b: seq<Byte>, h: seq<Byte>, audio: Byte, spare: seq<Byte>)
    requires |b| == PACK && |h| == PACK_HEADER && |spare| == 2
    requires b[..30] == h + SystemHeader(audio, [0, 0])[..16] && b[30..32] == spare
    ensures b[..32] == h + SystemHeader(audio, spare)
  {
    assert SystemHeader(audio, spare) == SystemHeader(audio, [0, 0])[..16] + spare;
    hide SystemHeader;
    assert b[..32] == b[..30] + b[30..32];
  }

  /** Which part an empty state had does not matter once a pack is closed. */
  lemma ClosedFromEmpty(m: Mux, m': Mux)
    requires RoomInv(m) && RoomInv(m') && m'.file == m.file && m'.spare == m.spare
    ensures forall part | PACK_HEADER <= |part| && (|part| == PACK || |part| <= PACK - MIN_FREE) ::
              Closed(m, part) == Closed(m', part)
  {
  }
}
