/** grab's program-stream output (`write_pes_in_pp`, `flush_pp`): elementary-stream data cut into
    PES packets that exactly fill 2048-byte packs, with stuffing and padding.

    The writer is specified by functions on byte sequences, and judged by an independent
    demultiplexer that only follows the length fields in the bytes. */
module Packs {
  import opened Options
  import opened Bytes
  import opened Timestamps
  import Propack

  const PACK := 2048
  const PACK_HEADER := 14
  /** A pack with fewer free bytes than this is closed with stuffing. */
  const MIN_FREE := 20
  const PADDING: Byte := 0xbe
  const PRIVATE_1: Byte := 0xbd
  const SYSTEM: Byte := 0xbb
  /** The mux rate in units of 50 bytes per second: 10080000 / 400. */
  const MUX_RATE := 25200

  function Hi(n: nat): Byte { n / 256 % 256 }
  function Lo(n: nat): Byte { n % 256 }

  function Fill(n: nat, b: Byte): (s: seq<Byte>)
    ensures |s| == n && forall i :: 0 <= i < n ==> s[i] == b
  {
    seq(n, _ => b)
  }

  // ---------------------------------------------------------------- the bytes written

  function PackHeader(scr: nat): (h: seq<Byte>)
    ensures |h| == PACK_HEADER
  {
    [0, 0, 1, 0xba] + ScrBytes(scr) + [MUX_RATE / 0x4000 % 256, MUX_RATE / 0x40 % 256, MUX_RATE % 0x40 * 4 + 3, 0]
  }

  /** The extra bytes in front of AC3 data. */
  function Ac3Header(id: Byte): (h: seq<Byte>)
    ensures |h| == if id == PRIVATE_1 then 4 else 0
  {
    if id == PRIVATE_1 then [0x80, 0x02, 0x00, 0x01] else []
  }

  /** One PES packet inside a pack. */
  datatype Chunk = Chunk(id: Byte, pts: Option<nat>, stuffing: nat, data: seq<Byte>)
  {
    function HeaderSize(): nat { if pts.Some? then 14 else 9 }

    function Size(): nat { HeaderSize() + stuffing + |Ac3Header(id)| + |data| }
  }

  function PesHeader(c: Chunk): (h: seq<Byte>)
    requires c.stuffing < MIN_FREE
    ensures |h| == c.HeaderSize()
  {
    [0, 0, 1, c.id, Hi(c.Size() - 6), Lo(c.Size() - 6), 0x80, if c.pts.Some? then 0x80 else 0,
     c.HeaderSize() - 9 + c.stuffing]
    + if c.pts.Some? then PtsBytes(c.pts.value) else []
  }

  function PesBytes(c: Chunk): (b: seq<Byte>)
    requires c.stuffing < MIN_FREE
    ensures |b| == c.Size()
  {
    PesHeader(c) + Fill(c.stuffing, 0xff) + Ac3Header(c.id) + c.data
  }

  function PaddingBytes(n: nat): (b: seq<Byte>)
    requires n >= 6
    ensures |b| == n
  {
    [0, 0, 1, PADDING, Hi(n - 6), Lo(n - 6)] + Fill(n - 6, 0xff)
  }

  /** The 18 bytes of the system header, as written: the length field says 18, the audio entry
      overwrites the tail of the video entry, and the last two bytes are not written at all but keep
      what the buffer held. */
  function SystemHeader(audio: Byte, spare: seq<Byte>): (b: seq<Byte>)
    requires |spare| == 2
    ensures |b| == 18
  {
    [0, 0, 1, SYSTEM, 0, 18,
     0x80 + MUX_RATE / 0x8000 % 128, MUX_RATE / 0x80 % 256, MUX_RATE % 128 * 2 + 1, 4, 0xe1, 0x7f,
     0xe0, audio, 0xc0, 0x40] + spare
  }

  // ---------------------------------------------------------------- the writer

  /** Packs already in the file, the pack being filled, and what cells 30 and 31 of the pack buffer
      held when the last pack was closed. */
  datatype Mux = Mux(file: seq<seq<Byte>>, part: seq<Byte>, spare: seq<Byte>)

  /** `pp_valid` is 0 or leaves at least `MIN_FREE` bytes. */
  predicate RoomInv(m: Mux) {
    && (m.part == [] || PACK_HEADER <= |m.part| <= PACK - MIN_FREE)
    && |m.spare| == 2
  }

  /** One call of `write_pes_in_pp`: the stream id and elementary data of the PES packet, the flags,
      and the clock values the floating-point arithmetic gives at each data offset. */
  datatype Request = Request(
    id: Byte, data: seq<Byte>, timed: bool, stamp: bool, stampAll: bool, lasting: bool,
    scrAt: nat -> nat, ptsAt: nat -> nat)
  {
    /** Whether a PTS is written for the packet that starts at data offset `off`. */
    function Pts(off: nat): Option<nat> {
      if off == 0 then (if timed && stamp then Some(ptsAt(0)) else None)
      else if stampAll && lasting && timed && stamp then Some(ptsAt(off)) else None
    }
  }

  /** The packet put at data offset `off` into a pack with `avail` free bytes. */
  function NextChunk(r: Request, off: nat, avail: nat): (c: Chunk)
    requires off < |r.data| && MIN_FREE <= avail <= PACK
    ensures c.id == r.id && c.stuffing < MIN_FREE
    ensures 0 < |c.data| <= |r.data| - off && c.data == r.data[off..off + |c.data|]
    ensures c.Size() <= avail && (c.Size() == avail || c.Size() <= avail - MIN_FREE)
  {
    var pts := r.Pts(off);
    var overhead := (if pts.Some? then 14 else 9) + |Ac3Header(r.id)|;
    var left := |r.data| - off;
    var payload := if left > avail - overhead then avail - overhead else left;
    var free := avail - (overhead + payload);
    Chunk(r.id, pts, if free < MIN_FREE then free else 0, r.data[off..off + payload])
  }

  function SystemPack(scr: nat, audio: Byte, spare: seq<Byte>): (p: seq<Byte>)
    requires |spare| == 2
    ensures |p| == PACK
  {
    PackHeader(scr) + SystemHeader(audio, spare) + PaddingBytes(PACK - 32)
  }

  /** The pack the round at data offset `off` writes into. */
  function Opened(m: Mux, r: Request, off: nat): (part: seq<Byte>)
    requires RoomInv(m)
    ensures PACK_HEADER <= |part| <= PACK - MIN_FREE
  {
    if m.part == [] then PackHeader(r.scrAt(off)) else m.part
  }

  /** The state after `part` has been filled that far: a full pack goes to the file. */
  function Closed(m: Mux, part: seq<Byte>): (m': Mux)
    requires RoomInv(m) && PACK_HEADER <= |part| && (|part| == PACK || |part| <= PACK - MIN_FREE)
    ensures RoomInv(m')
  {
    if |part| == PACK then Mux(m.file + [part], [], part[30..32]) else m.(part := part)
  }

  /** The packer and where it stands in the data; `sys` is the pending `output_sys_header`. */
  datatype Progress = Progress(m: Mux, off: nat, sys: bool)

  /** One round of the loop of `write_pes_in_pp`: a pack with the system header, or one packet.
      `audio` is `wanted_audio_stream`. */
  function Round(p: Progress, r: Request, audio: Byte): (p': Progress)
    requires RoomInv(p.m) && p.off < |r.data|
    ensures RoomInv(p'.m) && p.off <= p'.off <= |r.data|
    ensures p'.off > p.off || (p.sys && !p'.sys)
  {
    if p.m.part == [] && p.sys then
      Progress(p.m.(file := p.m.file + [SystemPack(r.scrAt(p.off), audio, p.m.spare)]), p.off, false)
    else
      var part := Opened(p.m, r, p.off);
      var c := NextChunk(r, p.off, PACK - |part|);
      Progress(Closed(p.m, part + PesBytes(c)), p.off + |c.data|, p.sys)
  }

  /** The remaining rounds. */
  function Rounds(p: Progress, r: Request, audio: Byte): (m: Mux)
    requires RoomInv(p.m) && p.off <= |r.data|
    ensures RoomInv(m)
    decreases |r.data| - p.off, p.sys
  {
    if p.off == |r.data| then p.m else Rounds(Round(p, r, audio), r, audio)
  }

  /** `write_pes_in_pp`. */
  function Write(m: Mux, r: Request, sys: bool, audio: Byte): (m': Mux)
    requires RoomInv(m)
    ensures RoomInv(m')
  {
    Rounds(Progress(m, 0, sys), r, audio)
  }

  /** `flush_pp`. */
  function Flush(m: Mux): (m': Mux)
    requires RoomInv(m)
    ensures RoomInv(m') && m'.part == []
  {
    if m.part == [] then m else Closed(m, m.part + PaddingBytes(PACK - |m.part|))
  }

  // ---------------------------------------------------------------- an independent demultiplexer

  /** What a reader finds: the clock reference and the multiplex rate of a pack, a system header, a padding
      packet, or a packet with its stamp, how many stuffing bytes it has, and its elementary data. */
  datatype Item =
    | Clock(scr: nat, rate: nat)
    | System
    | Padding
    | Packet(id: Byte, pts: Option<nat>, stuffing: nat, data: seq<Byte>)

  /** A byte of elementary data with the id of its stream. */
  datatype Tagged = Tagged(id: Byte, b: Byte)

  function Tag(id: Byte, s: seq<Byte>): (t: seq<Tagged>)
    ensures |t| == |s|
  {
    seq(|s|, i requires 0 <= i < |s| => Tagged(id, s[i]))
  }

  /** The elementary data of items. */
  function Data(items: seq<Item>): seq<Tagged> {
    if items == [] then [] else
    Data(items[..|items| - 1])
    + match items[|items| - 1]
      case Packet(id, _, _, data) => Tag(id, data)
      case _ => []
  }

  /** The total size of the packet that `s` starts with, from its length field. */
  function PacketSize(s: seq<Byte>): nat
    requires |s| >= 6
  {
    var hi: int, lo: int := s[4], s[5];
    6 + hi * 256 + lo
  }

  /** One packet: padding, or a header with a stamp if its flag says so, stuffing, for private stream 1 the
      four AC3 bytes, and the data. */
  function ReadPes(packet: seq<Byte>): Option<Item>
    requires |packet| >= 6
  {
    if packet[3] == PADDING then Some(Padding)
    else if |packet| < 9 || packet[6] / 64 != 2 then None
    else
      var ext: int := packet[8];
      var stamp := if packet[7] >= 0x80 then 5 else 0;
      var start := 9 + ext + if packet[3] == PRIVATE_1 then 4 else 0;
      if ext < stamp || start > |packet| then None
      else Some(Packet(packet[3], if stamp > 0 then Some(FullPts(packet[9..14])) else None, ext - stamp, packet[start..]))
  }

  /** Follows the length fields: packets must tile `s` exactly. */
  function Demux(s: seq<Byte>): Option<seq<Item>> {
    if s == [] then Some([])
    else if |s| < 6 || s[..3] != [0, 0, 1] || PacketSize(s) > |s| then None
    else
      var n := PacketSize(s);
      match (ReadPes(s[..n]), Demux(s[n..]))
      case (Some(a), Some(b)) => Some([a] + b)
      case _ => None
  }

  predicate Tiles(p: seq<Byte>) { |p| >= PACK_HEADER && Demux(p[PACK_HEADER..]).Some? }

  // ---------------------------------------------------------------- what the file holds

  /** Ids under which elementary data is written. */
  predicate Elementary(id: Byte) { id != PADDING && id != SYSTEM }

  predicate IsSystemPack(p: seq<Byte>) { |p| >= PACK_HEADER + 4 && p[PACK_HEADER + 3] == SYSTEM }

  /** The start code of a pack, the bits 01 in front of the reference, and no stuffing. */
  predicate BeginsPack(p: seq<Byte>) {
    |p| >= PACK_HEADER && p[..4] == [0, 0, 1, 0xba] && p[4] / 64 == 1 && p[13] % 8 == 0
  }

  /** What a pack header says. */
  function ReadHeader(p: seq<Byte>): Item
    requires |p| >= PACK_HEADER
  {
    Clock(ClockRef(p[4..10]), Propack.MuxRate(p[10..13]))
  }

  /** What a pack holds. The pack with the system header is not tiled. */
  function ReadPack(p: seq<Byte>): seq<Item> {
    if !BeginsPack(p) then []
    else [ReadHeader(p)] + (if Tiles(p) then Demux(p[PACK_HEADER..]).value else if IsSystemPack(p) then [System] else [])
  }

  function ReadFile(file: seq<seq<Byte>>): seq<Item> {
    if file == [] then [] else ReadFile(file[..|file| - 1]) + ReadPack(file[|file| - 1])
  }

  /** What the file and the pack being filled hold. */
  function Heard(m: Mux): seq<Item> { ReadFile(m.file) + ReadPack(m.part) }

  function Contents(m: Mux): seq<Tagged> { Data(Heard(m)) }

  /** Every pack has the full size and its start code, and is tiled by its packets, except that the system header's
      pack is not. */
  ghost predicate FileInv(file: seq<seq<Byte>>) {
    forall i :: 0 <= i < |file| ==> |file[i]| == PACK && BeginsPack(file[i]) && (Tiles(file[i]) <==> !IsSystemPack(file[i]))
  }

  ghost predicate MuxInv(m: Mux) {
    && RoomInv(m) && FileInv(m.file)
    && (m.part != [] ==> BeginsPack(m.part) && Tiles(m.part) && (IsSystemPack(m.part) ==> |m.part| == PACK_HEADER))
  }

  lemma SizeFields(n: nat)
    requires n < 0x10000
    ensures Hi(n) * 256 + Lo(n) == n
  {
  }

  /** The demultiplexer on one packet. */
  lemma DemuxOne(s: seq<Byte>)
    requires |s| >= 6 && s[..3] == [0, 0, 1] && PacketSize(s) == |s| && ReadPes(s).Some?
    ensures Demux(s) == Some([ReadPes(s).value])
  {
    hide ReadPes;
    assert s[..|s|] == s && s[|s|..] == [];
    assert Demux(s[|s|..]) == Some([]);
    assert [ReadPes(s).value] + [] == [ReadPes(s).value];
  }

  /** What a reader finds of a packet: the stamp modulo 2^33. */
  function ItemOf(c: Chunk): Item {
    Packet(c.id, if c.pts.Some? then Some(c.pts.value % TWO_33) else None, c.stuffing, c.data)
  }

  lemma HeaderParts(c: Chunk)
    requires c.stuffing < MIN_FREE && c.Size() <= PACK
    ensures var b := PesBytes(c);
            && b[..3] == [0, 0, 1] && b[3] == c.id && PacketSize(b) == |b| && b[6] == 0x80
            && b[7] == (if c.pts.Some? then 0x80 else 0) && b[8] == c.HeaderSize() - 9 + c.stuffing
            && (c.pts.Some? ==> b[9..14] == PtsBytes(c.pts.value))
            && b[|b| - |c.data|..] == c.data
  {
    hide PtsBytes;
    SizeFields(c.Size() - 6);
    var h := PesHeader(c);
    assert PesBytes(c)[..|h|] == h;
    if c.pts.Some? { assert PesBytes(c)[9..14] == h[9..14] == PtsBytes(c.pts.value); }
  }

  /** A PES packet is read as it was meant. */
  lemma DemuxChunk(c: Chunk)
    requires c.stuffing < MIN_FREE && c.Size() <= PACK && Elementary(c.id)
    ensures Demux(PesBytes(c)) == Some([ItemOf(c)])
  {
    HeaderParts(c);
    if c.pts.Some? { PtsRoundTrip(c.pts.value); }
    hide Demux, PesBytes, PacketSize, FullPts, PtsBytes;
    DemuxOne(PesBytes(c));
  }

  lemma DemuxPadding(n: nat)
    requires 6 <= n <= PACK
    ensures Demux(PaddingBytes(n)) == Some([Padding])
  {
    hide Demux;
    SizeFields(n - 6);
    assert PaddingBytes(n)[..3] == [0, 0, 1];
    DemuxOne(PaddingBytes(n));
  }

  /** One packet in front of the rest. */
  lemma DemuxCons(packet: seq<Byte>, rest: seq<Byte>)
    requires |packet| >= 6 && packet[..3] == [0, 0, 1] && PacketSize(packet) == |packet| && ReadPes(packet).Some?
    ensures Demux(packet + rest)
         == if Demux(rest).Some? then Some([ReadPes(packet).value] + Demux(rest).value) else None
  {
    hide ReadPes;
    var s, n := packet + rest, |packet|;
    assert s[..3] == packet[..3];
    assert s[..n] == packet && s[n..] == rest;
  }

  /** Tiled bytes start with a packet, and the rest is tiled. */
  lemma DemuxSplits(s: seq<Byte>)
    requires s != [] && Demux(s).Some?
    ensures |s| >= 6 && 6 <= PacketSize(s) <= |s|
    ensures var packet, rest := s[..PacketSize(s)], s[PacketSize(s)..];
            && packet[..3] == [0, 0, 1] && PacketSize(packet) == |packet| && ReadPes(packet).Some?
            && Demux(rest).Some?
  {
    hide ReadPes;
    assert s[..PacketSize(s)][..3] == s[..3];
  }

  lemma DemuxNothing()
    ensures Demux([]) == Some([])
  {
  }

  /** The demultiplexer does not look ahead: packets put behind tiled ones are read after them. */
  lemma {:induction false} DemuxJoin(s: seq<Byte>, t: seq<Byte>)
    requires Demux(s).Some?
    ensures Demux(s + t) == if Demux(t).Some? then Some(Demux(s).value + Demux(t).value) else None
  {
    hide Demux, ReadPes, PacketSize;
    if s == [] {
      DemuxNothing();
      assert s + t == t;
      assert Demux(t).Some? ==> [] + Demux(t).value == Demux(t).value;
    } else {
      DemuxSplits(s);
      var n := PacketSize(s);
      var packet, rest := s[..n], s[n..];
      DemuxJoin(rest, t);
      DemuxCons(packet, rest + t);
      assert s + t == packet + (rest + t);
      DemuxCons(packet, rest);
      assert s == packet + rest;
      if Demux(t).Some? {
        Assoc([ReadPes(packet).value], Demux(rest).value, Demux(t).value);
      }
    }
  }

  lemma Assoc<T>(a: seq<T>, b: seq<T>, c: seq<T>)
    ensures a + (b + c) == (a + b) + c
  {
  }

  lemma EmptyPack()
    ensures !Tiles([]) && ReadPack([]) == [] && Data([]) == []
  {
  }

  lemma ReadFileAppend(file: seq<seq<Byte>>, p: seq<Byte>)
    ensures ReadFile(file + [p]) == ReadFile(file) + ReadPack(p)
  {
    assert (file + [p])[..|file|] == file;
  }

  /** Packs that begin alike have the same header. */
  lemma SameHeader(p: seq<Byte>, t: seq<Byte>)
    requires |p| >= PACK_HEADER
    ensures ReadHeader(p + t) == ReadHeader(p) && BeginsPack(p + t) == BeginsPack(p)
  {
    assert (p + t)[..4] == p[..4];
    assert (p + t)[4..10] == p[4..10] && (p + t)[10..13] == p[10..13];
  }

  /** A pack tiled so far stays tiled when a packet is put behind it. */
  lemma TilesJoin(p: seq<Byte>, t: seq<Byte>)
    requires BeginsPack(p) && Tiles(p) && Demux(t).Some?
    ensures BeginsPack(p + t) && Tiles(p + t) && ReadPack(p + t) == ReadPack(p) + Demux(t).value
  {
    hide Demux, ReadHeader, BeginsPack;
    SameHeader(p, t);
    DemuxJoin(p[PACK_HEADER..], t);
    assert (p + t)[PACK_HEADER..] == p[PACK_HEADER..] + t;
  }

  /** The length field of the system header is too large: the demultiplexer lands in the padding. */
  lemma SystemPackDoesNotTile(scr: nat, audio: Byte, spare: seq<Byte>)
    requires |spare| == 2
    ensures var p := SystemPack(scr, audio, spare); IsSystemPack(p) && !Tiles(p)
  {
    var h := SystemHeader(audio, spare);
    var s := SystemPack(scr, audio, spare)[PACK_HEADER..];
    assert s == h + PaddingBytes(PACK - 32);
    assert PacketSize(s) == 24;
    assert s[24..][0] == PaddingBytes(PACK - 32)[6];
    assert s[24..][..3][0] == 0xff;
    assert Demux(s[24..]) == None;
  }

  /** The clock reference of a pack is read modulo 2^32, and the rate is the multiplex rate. */
  lemma HeaderReads(scr: nat)
    ensures ReadHeader(PackHeader(scr)) == Clock(scr % TWO_32, MUX_RATE) && BeginsPack(PackHeader(scr))
  {
    ScrRoundTrip(scr);
    assert ScrBytes(scr)[0] / 64 == 1;
    hide ScrBytes, ClockRef;
    var h := PackHeader(scr);
    assert h[4..10] == ScrBytes(scr);
    assert h[10..13] == [MUX_RATE / 0x4000 % 256, MUX_RATE / 0x40 % 256, MUX_RATE % 0x40 * 4 + 3];
  }

  lemma SystemPackReads(scr: nat, audio: Byte, spare: seq<Byte>)
    requires |spare| == 2
    ensures ReadPack(SystemPack(scr, audio, spare)) == [Clock(scr % TWO_32, MUX_RATE), System]
    ensures BeginsPack(SystemPack(scr, audio, spare))
  {
    var rest := SystemHeader(audio, spare) + PaddingBytes(PACK - 32);
    assert SystemPack(scr, audio, spare) == PackHeader(scr) + rest;
    SystemPackDoesNotTile(scr, audio, spare);
    HeaderReads(scr);
    SameHeader(PackHeader(scr), rest);
    hide SystemPack, Tiles, ReadHeader, PackHeader;
  }

  /** The system header as a decoder reads it: the multiplex rate, and the ids of the two streams. */
  lemma SystemHeaderReads(audio: Byte, spare: seq<Byte>)
    requires |spare| == 2
    ensures var h := SystemHeader(audio, spare);
            && h[..4] == [0, 0, 1, SYSTEM]
            && (h[6] as int - 0x80) * 0x8000 + h[7] as int * 0x80 + h[8] as int / 2 == MUX_RATE && h[8] % 2 == 1
            && h[12] == 0xe0 && h[13] == audio
  {
  }

  /** Closing or keeping a pack adds exactly what it holds. */
  lemma ClosedHeard(m: Mux, part: seq<Byte>)
    requires MuxInv(m) && PACK_HEADER < |part| && (|part| == PACK || |part| <= PACK - MIN_FREE)
    requires BeginsPack(part) && Tiles(part) && !IsSystemPack(part)
    ensures MuxInv(Closed(m, part))
    ensures Heard(Closed(m, part)) == ReadFile(m.file) + ReadPack(part)
  {
    EmptyPack();
    hide Tiles, ReadPack, Data;
    if |part| == PACK {
      ReadFileAppend(m.file, part);
    }
  }

  // ---------------------------------------------------------------- what a write is read as

  /** Whether a packet that holds the data from `off` on is due a stamp: at the start one is written if the
      caller wants it, later only if it wants all of them and knows the duration; without one in the source
      there is none. */
  predicate StampDue(r: Request, off: nat, pts: Option<nat>) {
    && (pts.Some? <==> r.timed && r.stamp && (off > 0 ==> r.stampAll && r.lasting))
    && (pts.Some? ==> pts.value == r.ptsAt(off) % TWO_33)
  }

  /** What a reader is to find of the data from `off` on. A pack opened there has the clock reference of
      that place; if the system header is due, the first pack opened holds it. A packet fills its pack or
      ends the data. */
  ghost predicate Expected(items: seq<Item>, r: Request, off: nat, sys: bool)
    requires off <= |r.data|
    decreases |items|
  {
    if items == [] then off == |r.data| else
    match items[0]
    case Clock(scr, rate) =>
      && off < |r.data| && scr == r.scrAt(off) % TWO_32 && rate * 400 == Propack.MPLEX_RATE && |items| > 1
      && if sys then items[1] == System && |items| > 2 && items[2].Clock? && Expected(items[2..], r, off, false)
         else items[1].Packet? && Expected(items[1..], r, off, false)
    case Packet(id, pts, stuffing, data) =>
      && id == r.id && 0 < |data| <= |r.data| - off && data == r.data[off..off + |data|]
      && StampDue(r, off, pts) && stuffing < MIN_FREE
      && (|items| > 1 ==> items[1].Clock?)
      && Expected(items[1..], r, off + |data|, sys)
    case _ => false
  }

  /** Of data that begins a pack, the first packet follows the clock reference, and the system header and
      another reference if they are due. */
  lemma FirstStamp(items: seq<Item>, r: Request, sys: bool)
    requires Expected(items, r, 0, sys) && items != [] && items[0].Clock?
    ensures var k := if sys then 3 else 1;
            && |items| > k && items[k - 1].Clock? && items[k].Packet?
            && items[k - 1].scr == r.scrAt(0) % TWO_32 && StampDue(r, 0, items[k].pts)
  {
    if sys {
      var rest := items[2..];
      assert rest[0] == items[2] && rest[1] == items[3];
      PacketBehindClock(rest, r);
    } else {
      PacketBehindClock(items, r);
    }
  }

  lemma PacketBehindClock(items: seq<Item>, r: Request)
    requires Expected(items, r, 0, false) && items != [] && items[0].Clock?
    ensures |items| > 1 && items[0].scr == r.scrAt(0) % TWO_32 && items[1].Packet? && StampDue(r, 0, items[1].pts)
  {
    hide StampDue;
    assert items[1..][0] == items[1];
  }

  /** The packet put next is as expected. */
  lemma ChunkIsDue(r: Request, off: nat, avail: nat)
    requires off < |r.data| && MIN_FREE <= avail <= PACK
    ensures var c := NextChunk(r, off, avail);
            && StampDue(r, off, ItemOf(c).pts)
            && (off + |c.data| < |r.data| ==> c.Size() == avail)
  {
  }

  lemma ExpectPacket(r: Request, off: nat, avail: nat, rest: seq<Item>, sys: bool)
    requires off < |r.data| && MIN_FREE <= avail <= PACK
    requires var c := NextChunk(r, off, avail);
             Expected(rest, r, off + |c.data|, sys) && (rest != [] ==> rest[0].Clock?)
    ensures Expected([ItemOf(NextChunk(r, off, avail))] + rest, r, off, sys)
  {
    var c := NextChunk(r, off, avail);
    ChunkIsDue(r, off, avail);
    hide NextChunk, StampDue;
    assert ([ItemOf(c)] + rest)[1..] == rest;
  }

  lemma ExpectClock(r: Request, off: nat, rest: seq<Item>)
    requires off < |r.data| && Expected(rest, r, off, false) && rest != [] && rest[0].Packet?
    ensures Expected([Clock(r.scrAt(off) % TWO_32, MUX_RATE)] + rest, r, off, false)
  {
    hide StampDue;
    assert ([Clock(r.scrAt(off) % TWO_32, MUX_RATE)] + rest)[1..] == rest;
  }

  lemma ExpectSystem(r: Request, off: nat, rest: seq<Item>)
    requires off < |r.data| && Expected(rest, r, off, false) && rest != [] && rest[0].Clock?
    ensures Expected([Clock(r.scrAt(off) % TWO_32, MUX_RATE), System] + rest, r, off, true)
  {
    hide StampDue;
    assert ([Clock(r.scrAt(off) % TWO_32, MUX_RATE), System] + rest)[2..] == rest;
  }

  /** What is heard first of a round that writes a packet. */
  function OpeningOf(m: Mux, r: Request, off: nat): seq<Item> {
    if m.part == [] then [Clock(r.scrAt(off) % TWO_32, MUX_RATE)] else []
  }

  lemma OpenedHeard(m: Mux, r: Request, off: nat)
    requires MuxInv(m)
    ensures var part := Opened(m, r, off);
            && BeginsPack(part) && Tiles(part) && (IsSystemPack(part) ==> |part| == PACK_HEADER)
            && ReadPack(part) == ReadPack(m.part) + OpeningOf(m, r, off)
  {
    if m.part == [] {
      var h := PackHeader(r.scrAt(off));
      assert h[PACK_HEADER..] == [];
      HeaderReads(r.scrAt(off));
      hide PackHeader, ReadHeader;
      assert ReadPack(h) == [ReadHeader(h)] + [];
    }
  }

  /** One packet round: the file then holds the packet too. */
  lemma PacketRound(m: Mux, r: Request, off: nat)
    requires MuxInv(m) && off < |r.data| && Elementary(r.id)
    ensures var part := Opened(m, r, off);
            var c := NextChunk(r, off, PACK - |part|);
            var m' := Closed(m, part + PesBytes(c));
            && MuxInv(m') && Heard(m') == Heard(m) + (OpeningOf(m, r, off) + [ItemOf(c)])
            && (off + |c.data| < |r.data| ==> m'.part == [])
  {
    var part := Opened(m, r, off);
    var c := NextChunk(r, off, PACK - |part|);
    ChunkIsDue(r, off, PACK - |part|);
    OpenedHeard(m, r, off);
    DemuxChunk(c);
    assert PesBytes(c)[3] == c.id by { HeaderParts(c); }
    hide Demux, PesBytes, ReadFile, FileInv, PackHeader, NextChunk, ReadPack, ItemOf, StampDue, OpeningOf;
    TilesJoin(part, PesBytes(c));
    NoSystemPack(part, PesBytes(c));
    ClosedHeard(m, part + PesBytes(c));
    Assoc(ReadPack(m.part), OpeningOf(m, r, off), [ItemOf(c)]);
    Assoc(ReadFile(m.file), ReadPack(m.part), OpeningOf(m, r, off) + [ItemOf(c)]);
  }

  /** A packet does not make a pack one with a system header. */
  lemma NoSystemPack(part: seq<Byte>, packet: seq<Byte>)
    requires |part| >= PACK_HEADER && (IsSystemPack(part) ==> |part| == PACK_HEADER)
    requires |packet| > 3 && packet[3] != SYSTEM
    ensures |part| == PACK_HEADER || |part| >= PACK_HEADER + 4 ==> !IsSystemPack(part + packet)
  {
    if |part| == PACK_HEADER {
      assert (part + packet)[PACK_HEADER + 3] == packet[3];
    } else if |part| >= PACK_HEADER + 4 {
      assert (part + packet)[PACK_HEADER + 3] == part[PACK_HEADER + 3];
    }
  }

  lemma SystemRound(m: Mux, scr: nat, audio: Byte)
    requires MuxInv(m) && m.part == []
    ensures var m' := m.(file := m.file + [SystemPack(scr, audio, m.spare)]);
            MuxInv(m') && Heard(m') == Heard(m) + [Clock(scr % TWO_32, MUX_RATE), System]
  {
    hide Demux, SystemPack, Tiles, ReadPack;
    SystemPackDoesNotTile(scr, audio, m.spare);
    SystemPackReads(scr, audio, m.spare);
    EmptyPack();
    ReadFileAppend(m.file, SystemPack(scr, audio, m.spare));
  }

  /** What the remaining rounds write is read as expected. */
  lemma {:induction false} RoundsHeard(p: Progress, r: Request, audio: Byte) returns (items: seq<Item>)
    requires RoomInv(p.m) && MuxInv(p.m) && p.off <= |r.data| && Elementary(r.id)
    ensures MuxInv(Rounds(p, r, audio))
    ensures Heard(Rounds(p, r, audio)) == Heard(p.m) + items
    ensures Expected(items, r, p.off, p.sys)
    ensures p.off < |r.data| && p.m.part == [] ==> items != [] && items[0].Clock?
    decreases |r.data| - p.off, p.sys
  {
    hide MuxInv, Heard, RoomInv, Expected, NextChunk, SystemPack, Closed, PesBytes, Opened, ItemOf;
    if p.off == |r.data| {
      NothingExpected(r, p.sys);
      return [];
    }
    var p' := Round(p, r, audio);
    if p.m.part == [] && p.sys {
      SystemRound(p.m, r.scrAt(p.off), audio);
      var rest := RoundsHeard(p', r, audio);
      items := [Clock(r.scrAt(p.off) % TWO_32, MUX_RATE), System] + rest;
      ExpectSystem(r, p.off, rest);
      Assoc(Heard(p.m), [Clock(r.scrAt(p.off) % TWO_32, MUX_RATE), System], rest);
    } else {
      PacketRound(p.m, r, p.off);
      var rest := RoundsHeard(p', r, audio);
      var avail := PACK - |Opened(p.m, r, p.off)|;
      var packet := [ItemOf(NextChunk(r, p.off, avail))];
      if p'.off == |r.data| { OnlyEndExpected(rest, r, p.sys); }
      ExpectPacket(r, p.off, avail, rest, p.sys);
      items := (OpeningOf(p.m, r, p.off) + packet) + rest;
      if p.m.part == [] {
        assert packet[0].Packet? by { IsPacket(NextChunk(r, p.off, avail)); }
        ExpectClock(r, p.off, packet + rest);
        Assoc(OpeningOf(p.m, r, p.off), packet, rest);
      } else {
        assert [] + packet == packet;
      }
      Assoc(Heard(p.m), OpeningOf(p.m, r, p.off) + packet, rest);
    }
  }

  lemma IsPacket(c: Chunk)
    ensures ItemOf(c).Packet?
  {
  }

  lemma NothingExpected(r: Request, sys: bool)
    ensures Expected([], r, |r.data|, sys)
  {
  }

  lemma OnlyEndExpected(items: seq<Item>, r: Request, sys: bool)
    requires Expected(items, r, |r.data|, sys)
    ensures items == []
  {
  }

  /** Writing a PES packet adds to what a reader finds exactly what is expected of it: every pack stays
      full-size and tiled. */
  lemma WriteHeard(m: Mux, r: Request, sys: bool, audio: Byte) returns (items: seq<Item>)
    requires MuxInv(m) && Elementary(r.id)
    ensures MuxInv(Write(m, r, sys, audio))
    ensures Heard(Write(m, r, sys, audio)) == Heard(m) + items && Expected(items, r, 0, sys)
    ensures r.data != [] && m.part == [] ==> items != [] && items[0].Clock?
  {
    hide Heard, Rounds, FileInv, Tiles, Expected;
    items := RoundsHeard(Progress(m, 0, sys), r, audio);
  }

  lemma OneItem(i: Item)
    ensures Data([i]) == if i.Packet? then Tag(i.id, i.data) else []
  {
    assert [i][..0] == [];
  }

  lemma DataAppend(items: seq<Item>, i: Item)
    ensures Data(items + [i]) == Data(items) + Data([i])
  {
    assert (items + [i])[..|items|] == items;
    OneItem(i);
  }

  lemma {:induction false} DataConcat(a: seq<Item>, b: seq<Item>)
    ensures Data(a + b) == Data(a) + Data(b)
  {
    hide Data;
    if b == [] {
      EmptyPack();
      assert a + b == a && Data(a) + [] == Data(a);
    } else {
      var n := |b| - 1;
      var front, last := b[..n], b[n];
      DataConcat(a, front);
      DataAppend(a + front, last);
      DataAppend(front, last);
      assert b == front + [last] && a + b == (a + front) + [last];
      Assoc(Data(a), Data(front), Data([last]));
    }
  }

  lemma TagJoin(id: Byte, s: seq<Byte>, t: seq<Byte>)
    ensures Tag(id, s) + Tag(id, t) == Tag(id, s + t)
  {
  }

  /** What is expected of a write holds its elementary data, all of it and in order. */
  lemma {:induction false} ExpectedData(items: seq<Item>, r: Request, off: nat, sys: bool)
    requires off <= |r.data| && Expected(items, r, off, sys)
    ensures Data(items) == Tag(r.id, r.data[off..])
    decreases |items|
  {
    hide StampDue, Tag, Data;
    if items == [] {
      NoData(r.id);
      assert r.data[off..] == [];
    } else if items[0].Clock? && sys {
      var rest := items[2..];
      ExpectedData(rest, r, off, false);
      assert items == [items[0]] + ([items[1]] + rest);
      DataConcat([items[0]], [items[1]] + rest);
      DataConcat([items[1]], rest);
      OneItem(items[0]);
      OneItem(items[1]);
    } else {
      var i, rest := items[0], items[1..];
      var off' := off + if i.Packet? then |i.data| else 0;
      ExpectedData(rest, r, off', sys && !i.Clock?);
      assert items == [i] + rest;
      DataConcat([i], rest);
      OneItem(i);
      if i.Packet? {
        TagJoin(r.id, i.data, r.data[off'..]);
        assert i.data + r.data[off'..] == r.data[off..];
      }
    }
  }

  lemma NoData(id: Byte)
    ensures Data([]) == [] && Tag(id, []) == []
  {
  }

  /** Writing a PES packet adds its elementary data, all of it and in order. */
  lemma WriteContents(m: Mux, r: Request, sys: bool, audio: Byte)
    requires MuxInv(m) && Elementary(r.id)
    ensures MuxInv(Write(m, r, sys, audio))
    ensures Contents(Write(m, r, sys, audio)) == Contents(m) + Tag(r.id, r.data)
  {
    hide Heard, Data, Rounds, FileInv, Tiles, Expected;
    var items := WriteHeard(m, r, sys, audio);
    DataConcat(Heard(m), items);
    ExpectedData(items, r, 0, sys);
    assert r.data[0..] == r.data;
  }

  lemma PaddedIsNoSystemPack(m: Mux)
    requires MuxInv(m) && m.part != []
    ensures !IsSystemPack(m.part + PaddingBytes(PACK - |m.part|))
  {
    var pad := PaddingBytes(PACK - |m.part|);
    assert pad[3] == PADDING;
    hide PaddingBytes, Demux, FileInv, Tiles;
    if |m.part| == PACK_HEADER {
      assert (m.part + pad)[PACK_HEADER + 3] == pad[3];
    } else {
      assert (m.part + pad)[PACK_HEADER + 3] == m.part[PACK_HEADER + 3];
    }
  }

  /** Flushing adds a padding packet, if a pack has been begun, and nothing else. */
  lemma FlushHeard(m: Mux)
    requires MuxInv(m)
    ensures MuxInv(Flush(m)) && Heard(Flush(m)) == Heard(m) + if m.part == [] then [] else [Padding]
  {
    if m.part != [] {
      var pad := PaddingBytes(PACK - |m.part|);
      PaddedIsNoSystemPack(m);
      hide Demux, PaddingBytes, ReadFile, FileInv, ReadPack, Tiles, Closed, IsSystemPack;
      DemuxPadding(PACK - |m.part|);
      TilesJoin(m.part, pad);
      ClosedHeard(m, m.part + pad);
      Assoc(ReadFile(m.file), ReadPack(m.part), [Padding]);
    }
  }

  /** Flushing adds no data. */
  lemma FlushContents(m: Mux)
    requires MuxInv(m)
    ensures MuxInv(Flush(m)) && Contents(Flush(m)) == Contents(m)
  {
    hide MuxInv, Heard, Data, Flush;
    FlushHeard(m);
    DataConcat(Heard(m), if m.part == [] then [] else [Padding]);
    OneItem(Padding);
    EmptyPack();
  }

  // ---------------------------------------------------------------- runs

  datatype Op = WriteOp(r: Request, sys: bool, audio: Byte) | FlushOp

  function Apply(m: Mux, ops: seq<Op>): (m': Mux)
    requires RoomInv(m)
    ensures RoomInv(m')
  {
    if ops == [] then m else
    Perform(Apply(m, ops[..|ops| - 1]), ops[|ops| - 1])
  }

  function Perform(m: Mux, op: Op): (m': Mux)
    requires RoomInv(m)
    ensures RoomInv(m')
  {
    match op
    case WriteOp(r, sys, audio) => Write(m, r, sys, audio)
    case FlushOp => Flush(m)
  }

  /** The elementary data handed over, in order. */
  function Supplied(ops: seq<Op>): seq<Tagged> {
    if ops == [] then [] else
    Supplied(ops[..|ops| - 1])
    + match ops[|ops| - 1]
      case WriteOp(r, _, _) => Tag(r.id, r.data)
      case FlushOp => []
  }

  /** Over every sequence of writes and flushes: packs are full-size and exactly tiled (but for the
      system header's), and the demultiplexer gets back everything that was handed over. */
  lemma {:induction false} RunsAreLossless(spare: seq<Byte>, ops: seq<Op>)
    requires |spare| == 2 && forall i :: 0 <= i < |ops| && ops[i].WriteOp? ==> Elementary(ops[i].r.id)
    ensures var m := Apply(Mux([], [], spare), ops);
            MuxInv(m) && Contents(m) == Supplied(ops)
  {
    if ops == [] {
      EmptyPack();
    } else {
      var front, m := ops[..|ops| - 1], Apply(Mux([], [], spare), ops[..|ops| - 1]);
      RunsAreLossless(spare, front);
      match ops[|ops| - 1]
      case WriteOp(r, sys, audio) => WriteContents(m, r, sys, audio);
      case FlushOp => FlushContents(m);
    }
  }

  function Flat(blocks: seq<seq<Item>>): seq<Item> {
    if blocks == [] then [] else Flat(blocks[..|blocks| - 1]) + blocks[|blocks| - 1]
  }

  /** What a call adds to what a reader finds. */
  ghost predicate Answers(op: Op, items: seq<Item>) {
    match op
    case WriteOp(r, sys, _) => Expected(items, r, 0, sys)
    case FlushOp => items == [] || items == [Padding]
  }

  /** Over every sequence of writes and flushes, a reader finds what is expected of each, in order. */
  lemma {:induction false} RunsAreRead(spare: seq<Byte>, ops: seq<Op>) returns (blocks: seq<seq<Item>>)
    requires |spare| == 2 && forall i :: 0 <= i < |ops| && ops[i].WriteOp? ==> Elementary(ops[i].r.id)
    ensures var m := Apply(Mux([], [], spare), ops); MuxInv(m) && Heard(m) == Flat(blocks)
    ensures |blocks| == |ops| && forall i :: 0 <= i < |ops| ==> Answers(ops[i], blocks[i])
  {
    hide MuxInv, Heard, Answers, Perform, Flat;
    if ops == [] {
      EmptyPack();
      NothingHeard(spare);
      return [];
    }
    var n := |ops| - 1;
    var front := RunsAreRead(spare, ops[..n]);
    var items := Answer(Apply(Mux([], [], spare), ops[..n]), ops[n]);
    FlatAppend(front, items);
    blocks := front + [items];
  }

  lemma NothingHeard(spare: seq<Byte>)
    requires |spare| == 2
    ensures var m := Mux([], [], spare); MuxInv(m) && Heard(m) == Flat([]) == []
  {
    EmptyPack();
  }

  lemma FlatAppend(blocks: seq<seq<Item>>, items: seq<Item>)
    ensures Flat(blocks + [items]) == Flat(blocks) + items
  {
    assert (blocks + [items])[..|blocks|] == blocks;
  }

  lemma Answer(m: Mux, op: Op) returns (items: seq<Item>)
    requires MuxInv(m) && (op.WriteOp? ==> Elementary(op.r.id))
    ensures MuxInv(Perform(m, op)) && Heard(Perform(m, op)) == Heard(m) + items && Answers(op, items)
  {
    hide MuxInv, Heard, Expected, Write, Flush;
    match op
    case WriteOp(r, sys, audio) => items := WriteHeard(m, r, sys, audio);
    case FlushOp =>
      FlushHeard(m);
      items := if m.part == [] then [] else [Padding];
  }

  /** A packet of non-AC3 audio cut by `create_audio_pes` goes into a fresh pack in one piece. */
  lemma FreshPackHoldsOnePacket(m: Mux, r: Request, audio: Byte)
    requires RoomInv(m) && m.part == [] && r.id != PRIVATE_1
    requires 0 < |r.data| <= PACK - PACK_HEADER - 14
    ensures var c := NextChunk(r, 0, PACK - PACK_HEADER);
            && c.data == r.data
            && Write(m, r, false, audio) == Closed(m, PackHeader(r.scrAt(0)) + PesBytes(c))
  {
    var c := NextChunk(r, 0, PACK - PACK_HEADER);
    assert c.data == r.data[0..|r.data|] == r.data;
    var p := Round(Progress(m, 0, false), r, audio);
    assert Rounds(p, r, audio) == p.m;
  }
}
