/** Finding PES packets in an audio stream that arrives in pieces (grab's `find_next_pes_packet` and
    `supply_audio_data`).

    `Next` and `Packets` say where the packets of a whole stream are. `Search` is what the code
    computes on the bytes it has; after an invalid header it looks at fewer bytes than it has, so it
    may report "nothing yet" too early, but never anything wrong. */
module PesParser {
  import opened Bytes
  import opened Bits

  const PADDING: Byte := 0xbe
  const PRIVATE_2: Byte := 0xbf

  predicate Prefix(s: seq<Byte>, p: nat) {
    p + 3 < |s| && s[p] == 0 && s[p + 1] == 0 && s[p + 2] == 1
  }

  /** The size of the packet at `p`, from its length field. */
  function SizeAt(s: seq<Byte>, p: nat): (n: nat)
    requires p + 6 <= |s|
    ensures n >= 7
  {
    var hi: int, lo: int := s[p + 4], s[p + 5];
    6 + if hi * 256 + lo == 0 then 0x10000 else hi * 256 + lo
  }

  /** The packet at `p` is completely there. */
  predicate Complete(s: seq<Byte>, p: nat) {
    p + 6 <= |s| && p + SizeAt(s, p) <= |s|
  }

  /** The two bits after the length field are right, or the stream id has no header there. */
  predicate ValidHeader(s: seq<Byte>, p: nat)
    requires Complete(s, p)
  {
    s[p + 3] == PRIVATE_2 || s[p + 3] == PADDING || 0x80 <= s[p + 6] < 0xc0
  }

  // ---------------------------------------------------------------- whole streams

  /** The next packet, or nothing that can be decided yet. */
  datatype Found = Packet(start: nat, len: nat) | Undecided

  function Next(s: seq<Byte>, off: nat): (f: Found)
    ensures f.Packet? ==> off <= f.start && f.len >= 7 && f.start + f.len <= |s|
    decreases |s| - off
  {
    if off + 3 >= |s| then Undecided
    else if !Prefix(s, off) then Next(s, off + 1)
    else if !Complete(s, off) then Undecided
    else if ValidHeader(s, off) then Packet(off, SizeAt(s, off))
    else Next(s, off + 1)
  }

  /** All packets of a stream, in order. */
  function Packets(s: seq<Byte>): seq<seq<Byte>> {
    match Next(s, 0)
    case Undecided => []
    case Packet(p, n) => [s[p..p + n]] + Packets(s[p + n..])
  }

  // ---------------------------------------------------------------- what the code computes

  /** The first position from `start` on, below `limit`, that has the prefix, or else where the loop
      stops. */
  function Scan(s: seq<Byte>, start: nat, limit: nat): (p: nat)
    ensures p >= start && (p == start || p <= limit)
    ensures p < limit ==> Prefix(s, p)
    ensures forall q :: start <= q < p ==> !Prefix(s, q)
    decreases limit - start
  {
    if start >= limit || Prefix(s, start) then start else Scan(s, start + 1, limit)
  }

  datatype Result = Result(start: nat, len: nat)

  /** `find_next_pes_packet` from the label on. `valid` shrinks at every retry while `start` stays
      relative to the beginning of the data. */
  function Search(s: seq<Byte>, start: nat, valid: nat): (r: Result)
    requires valid <= |s| && start <= |s|
    ensures start <= r.start <= |s| && r.start + r.len <= |s|
    decreases |s| - start
  {
    if valid < 4 then Result(start, 0) else
    var p := Scan(s, start, valid - 3);
    if p >= valid - 3 then Result(p, 0) else
    var valid' := valid - p;
    if valid' < 6 || valid' < SizeAt(s, p) then Result(p, 0)
    else if ValidHeader(s, p) then Result(p, SizeAt(s, p))
    else Search(s, p + 1, valid')
  }

  /** What the search makes of a start code at `p` with `v` bytes taken to be valid. */
  function Judged(s: seq<Byte>, p: nat, v: nat): Result
    requires 6 <= v && p + v <= |s|
  {
    if v < SizeAt(s, p) then Result(p, 0)
    else if ValidHeader(s, p) then Result(p, SizeAt(s, p))
    else Search(s, p + 1, v)
  }

  /** Unfolds one attempt of the search. */
  lemma SearchCases(s: seq<Byte>, start: nat, v: nat)
    requires v <= |s| && start <= |s|
    ensures v < 4 ==> Search(s, start, v) == Result(start, 0)
    ensures v >= 4 ==>
              var p := Scan(s, start, v - 3);
              && start <= p <= |s|
              && (p >= v - 3 || v - p < 6 ==> Search(s, start, v) == Result(p, 0))
              && (p < v - 3 && v - p >= 6 ==> Search(s, start, v) == Judged(s, p, v - p))
  {
    hide Scan, Prefix;
  }

  // ---------------------------------------------------------------- the code against the stream

  lemma {:induction false} NextSkips(s: seq<Byte>, off: nat, p: nat)
    requires off <= p <= |s| && forall q :: off <= q < p ==> !Prefix(s, q)
    ensures Next(s, off) == Next(s, p)
    decreases p - off
  {
    if off < p {
      if off + 3 < |s| {
        NextSkips(s, off + 1, p);
      }
    }
  }

  /** A position that is no prefix, or the start of a complete packet with an invalid header, stays
      that when more bytes arrive. */
  lemma PrefixGrows(s: seq<Byte>, t: seq<Byte>, p: nat)
    ensures p + 3 < |s| ==> Prefix(s + t, p) == Prefix(s, p)
    ensures Complete(s, p) ==> Complete(s + t, p) && SizeAt(s + t, p) == SizeAt(s, p)
    ensures Complete(s, p) ==> ValidHeader(s + t, p) == ValidHeader(s, p)
  {
  }

  /** Where there is no start code none appears when more bytes arrive. */
  lemma SkipsAgree(s: seq<Byte>, t: seq<Byte>, start: nat, p: nat)
    requires start <= p <= |s| && (start < p ==> p + 3 <= |s|) && forall q :: start <= q < p ==> !Prefix(s, q)
    ensures Next(s + t, start) == Next(s + t, p)
  {
    hide Prefix, Next;
    forall q | start <= q < p ensures !Prefix(s + t, q) {
      PrefixGrows(s, t, q);
    }
    NextSkips(s + t, start, p);
  }

  /** What is next where a complete packet starts. */
  lemma NextOfComplete(s: seq<Byte>, t: seq<Byte>, p: nat)
    requires Prefix(s, p) && Complete(s, p)
    ensures Next(s + t, p) == if ValidHeader(s, p) then Packet(p, SizeAt(s, p)) else Next(s + t, p + 1)
  {
    PrefixGrows(s, t, p);
    hide Prefix, ValidHeader;
  }

  /** The code's search is right and safe, whatever arrives later: a packet it reports is the next
      one of the stream, and the bytes it skips hold no packet. */
  lemma {:induction false} SearchIsNext(s: seq<Byte>, t: seq<Byte>, start: nat, valid: nat)
    requires valid <= |s| && start <= |s|
    ensures var r := Search(s, start, valid);
            && (r.len > 0 ==> Next(s + t, start) == Packet(r.start, r.len))
            && (r.len == 0 ==> Next(s + t, start) == Next(s + t, r.start))
    decreases |s| - start
  {
    hide Prefix, ValidHeader, Scan, Next, Search, SizeAt, Judged;
    SearchCases(s, start, valid);
    if valid >= 4 {
      var p := Scan(s, start, valid - 3);
      SkipsAgree(s, t, start, p);
      if p < valid - 3 && valid - p >= 6 {
        JudgedCases(s, p, valid - p);
        if valid - p >= SizeAt(s, p) {
          NextOfComplete(s, t, p);
          if !ValidHeader(s, p) {
            SearchIsNext(s, t, p + 1, valid - p);
          }
        }
      }
    }
  }

  lemma JudgedCases(s: seq<Byte>, p: nat, v: nat)
    requires 6 <= v && p + v <= |s|
    ensures v < SizeAt(s, p) ==> Judged(s, p, v) == Result(p, 0)
    ensures v >= SizeAt(s, p) && ValidHeader(s, p) ==> Judged(s, p, v) == Result(p, SizeAt(s, p))
    ensures v >= SizeAt(s, p) && !ValidHeader(s, p) ==> Judged(s, p, v) == Search(s, p + 1, v)
  {
    hide Search;
  }

  function Shift(f: Found, k: nat): Found {
    match f
    case Undecided => Undecided
    case Packet(p, n) => Packet(p + k, n)
  }

  lemma {:induction false} NextShift(s: seq<Byte>, k: nat, off: nat)
    requires k <= |s|
    ensures Next(s, k + off) == Shift(Next(s[k..], off), k)
    decreases |s| - off
  {
    var u := s[k..];
    if off + 3 < |u| {
      assert u[off] == s[k + off] && u[off + 1] == s[k + off + 1] && u[off + 2] == s[k + off + 2];
      if off + 6 <= |u| {
        assert u[off + 3] == s[k + off + 3] && u[off + 4] == s[k + off + 4] && u[off + 5] == s[k + off + 5];
        assert SizeAt(u, off) == SizeAt(s, k + off);
      }
      NextShift(s, k, off + 1);
    }
  }

  /** Bytes the search skips can be dropped. */
  lemma SkippedHoldNothing(s: seq<Byte>, t: seq<Byte>)
    requires Search(s, 0, |s|).len == 0
    ensures Packets(s + t) == Packets(s[Search(s, 0, |s|).start..] + t)
  {
    hide Search, Next;
    var k := Search(s, 0, |s|).start;
    SearchIsNext(s, t, 0, |s|);
    NextShift(s + t, k, 0);
    var u := s[k..] + t;
    assert (s + t)[k..] == u;
    match Next(u, 0)
    case Undecided =>
    case Packet(p, n) => SlicesOfSuffix(s + t, k, u, p, n);
  }

  lemma SlicesOfSuffix(w: seq<Byte>, k: nat, u: seq<Byte>, p: nat, n: nat)
    requires k <= |w| && w[k..] == u && p + n <= |u|
    ensures w[k + p..k + p + n] == u[p..p + n] && w[k + p + n..] == u[p + n..]
  {
    var a, b := w[k + p..k + p + n], u[p..p + n];
    forall i | 0 <= i < n ensures a[i] == b[i] {
      assert b[i] == w[k..][p + i];
    }
    var c, d := w[k + p + n..], u[p + n..];
    forall i | 0 <= i < |d| ensures c[i] == d[i] {
      assert d[i] == w[k..][p + n + i];
    }
  }

  /** A packet the search reports is the first packet of the stream. */
  lemma FoundIsFirst(s: seq<Byte>, t: seq<Byte>)
    requires Search(s, 0, |s|).len > 0
    ensures var r := Search(s, 0, |s|);
            Packets(s + t) == [s[r.start..r.start + r.len]] + Packets(s[r.start + r.len..] + t)
  {
    hide Search, Next;
    var r := Search(s, 0, |s|);
    SearchIsNext(s, t, 0, |s|);
    var u, e := s + t, r.start + r.len;
    assert u[r.start..e] == s[r.start..e] && u[e..] == s[e..] + t;
  }

  // ---------------------------------------------------------------- when nothing is missed

  /** No start code of a complete packet has an invalid header. */
  ghost predicate Clean(s: seq<Byte>) {
    forall p :: 0 <= p < |s| && Prefix(s, p) && Complete(s, p) ==> ValidHeader(s, p)
  }

  lemma CleanSuffix(s: seq<Byte>, k: nat)
    requires Clean(s) && k <= |s|
    ensures Clean(s[k..])
  {
    var u := s[k..];
    forall p | 0 <= p < |u| && Prefix(u, p) && Complete(u, p)
      ensures ValidHeader(u, p)
    {
      assert Prefix(s, k + p) && Complete(s, k + p) && SizeAt(s, k + p) == SizeAt(u, p);
      assert ValidHeader(s, k + p);
    }
  }

  /** On clean bytes a search that finds nothing has found that there is nothing to be found yet. */
  lemma CleanSearchIsExact(s: seq<Byte>)
    requires Clean(s) && Search(s, 0, |s|).len == 0
    ensures Next(s, 0).Undecided? && Packets(s) == []
  {
    if |s| >= 4 {
      var p := Scan(s, 0, |s| - 3);
      NextSkips(s, 0, p);
      assert p < |s| - 3 ==> Prefix(s, p);
    }
  }

  /** Without that it may stop too early: behind an invalid header that does not stand at the beginning, the
      code looks at fewer bytes than there are, and here overlooks a complete packet. */
  lemma SearchMayStopEarly()
    ensures var s := [9, 9, 9, 9, 9, 9, 9, 0, 0, 1, 0xc0, 0, 1, 0, 0, 0, 1, 0xc0, 0, 1, 0x80];
            !Clean(s) && Search(s, 0, |s|).len == 0 && Next(s, 0) == Packet(14, 7)
  {
    var s: seq<Byte> := [9, 9, 9, 9, 9, 9, 9, 0, 0, 1, 0xc0, 0, 1, 0, 0, 0, 1, 0xc0, 0, 1, 0x80];
    assert Prefix(s, 7) && Complete(s, 7) && !ValidHeader(s, 7) && SizeAt(s, 7) == 7;
    assert Prefix(s, 14) && Complete(s, 14) && ValidHeader(s, 14) && SizeAt(s, 14) == 7;
    assert forall q :: 0 <= q < 7 || 8 <= q < 14 ==> !Prefix(s, q);
    StopsEarly(s);
  }

  /** A complete packet with an invalid header at 7, and one with a valid header at 14, the end of what the
      code still looks at then. */
  lemma StopsEarly(s: seq<Byte>)
    requires |s| == 21 && (forall q :: 0 <= q < 7 || 8 <= q < 14 ==> !Prefix(s, q))
    requires Prefix(s, 7) && Complete(s, 7) && !ValidHeader(s, 7) && SizeAt(s, 7) == 7
    requires Prefix(s, 14) && Complete(s, 14) && ValidHeader(s, 14) && SizeAt(s, 14) == 7
    ensures !Clean(s) && Search(s, 0, |s|).len == 0 && Next(s, 0) == Packet(14, 7)
  {
    hide Prefix, Complete, ValidHeader, SizeAt, Search, Next, Scan;
    NextAt(s, 7);
    NextAt(s, 14);
    NextSkips(s, 0, 7);
    NextSkips(s, 8, 14);
    FirstPrefix(s, 0, 18, 7);
    SearchCases(s, 0, 21);
    NoPrefix(s, 8, 11);
    SearchCases(s, 8, 14);
  }

  lemma NextAt(s: seq<Byte>, p: nat)
    requires Prefix(s, p) && Complete(s, p)
    ensures Next(s, p) == if ValidHeader(s, p) then Packet(p, SizeAt(s, p)) else Next(s, p + 1)
  {
  }

  lemma FirstPrefix(s: seq<Byte>, start: nat, limit: nat, p: nat)
    requires start <= p < limit && Prefix(s, p) && forall q :: start <= q < p ==> !Prefix(s, q)
    ensures Scan(s, start, limit) == p
  {
  }

  lemma NoPrefix(s: seq<Byte>, start: nat, limit: nat)
    requires start <= limit && forall q :: start <= q < limit ==> !Prefix(s, q)
    ensures Scan(s, start, limit) == limit
  {
  }

  // ---------------------------------------------------------------- which packets are wanted

  const PRIVATE_1: Byte := 0xbd
  const AUDIO: Byte := 0xbc

  const MASK_AUDIO: Byte := 0xe0
  const REST_AUDIO: Byte := 0xc0

  predicate IsAudio(id: Byte) { id == PRIVATE_1 || id == AUDIO || And(id, MASK_AUDIO, 8) == REST_AUDIO }

  function Id(packet: seq<Byte>): Byte { if |packet| > 3 then packet[3] else 0 }

  /** `audio_packet_wanted`, and the wanted stream after it: 0 means not decided yet. */
  predicate Wanted(w: Byte, id: Byte) { (w == 0 && IsAudio(id)) || id == w }
  function Chosen(w: Byte, id: Byte): Byte { if w == 0 && IsAudio(id) then id else w }

  /** A parser that has not decided takes private stream 1, 0xbc, and the 32 ids of audio streams from 0xc0 on,
      and decides for the first of them; one that has takes its stream only. (To an undecided parser 0 is a
      stream like the decided one's.) */
  lemma WantedIds(w: Byte, id: Byte)
    ensures w == 0 ==> (Wanted(w, id) <==> id == 0 || id == 0xbc || id == 0xbd || 0xc0 <= id <= 0xdf)
    ensures w != 0 ==> (Wanted(w, id) <==> id == w)
    ensures Chosen(w, id) == if w == 0 && Wanted(w, id) then id else w
  {
    UpperThree(id);
    hide And;
  }

  lemma UpperThree(id: Byte)
    ensures And(id, 0xe0, 8) == id / 32 * 32
  {
    AndEven(id, 0x70, 8);
    AndEven(id / 2, 0x38, 7);
    AndEven(id / 2 / 2, 0x1c, 6);
    AndEven(id / 2 / 2 / 2, 0xe, 5);
    AndEven(id / 2 / 2 / 2 / 2, 7, 4);
    assert id / 2 / 2 / 2 / 2 / 2 == id / 32;
    assert Pow2(1) == 2 && Pow2(2) == 4 && Pow2(3) == 8;
    hide And;
    AndOnes(id / 32, 3);
  }

  function Select(ps: seq<seq<Byte>>, w: Byte): seq<seq<Byte>> {
    if ps == [] then []
    else if Wanted(w, Id(ps[0])) then [ps[0]] + Select(ps[1..], Chosen(w, Id(ps[0])))
    else Select(ps[1..], w)
  }

  /** A packet and the one after it, which gives its duration. */
  datatype Pair = Pair(packet: seq<Byte>, next: seq<Byte>)

  function Pairs(ps: seq<seq<Byte>>): (r: seq<Pair>)
    ensures |r| == if ps == [] then 0 else |ps| - 1
  {
    if |ps| < 2 then [] else [Pair(ps[0], ps[1])] + Pairs(ps[1..])
  }

  /** The first wanted packet of `ps` is `q`. */
  predicate Leads(ps: seq<seq<Byte>>, w: Byte, q: seq<Byte>) {
    ps != [] && if Wanted(w, Id(ps[0])) then ps[0] == q else Leads(ps[1..], w, q)
  }

  /** Looking ahead for the next wanted packet may fix the wanted stream early; that changes nothing. */
  lemma {:induction false} LookingAheadIsHarmless(ps: seq<seq<Byte>>, w: Byte, q: seq<Byte>)
    requires Leads(ps, w, q)
    ensures var sel := Select(ps, w); sel != [] && sel[0] == q && Select(ps, Chosen(w, Id(q))) == sel
  {
    if !Wanted(w, Id(ps[0])) {
      LookingAheadIsHarmless(ps[1..], w, q);
      WantedIsWanted(ps[1..], w, q);
    }
  }

  lemma {:induction false} WantedIsWanted(ps: seq<seq<Byte>>, w: Byte, q: seq<Byte>)
    requires Leads(ps, w, q)
    ensures Wanted(w, Id(q))
  {
    if !Wanted(w, Id(ps[0])) {
      WantedIsWanted(ps[1..], w, q);
    }
  }

  // ---------------------------------------------------------------- the splitting invariant

  /** A packet begins with the prefix, has the size its length field says, and the two bits behind that are 10
      unless its stream has no header. */
  predicate Whole(p: seq<Byte>) {
    && |p| >= 7 && SizeAt(p, 0) == |p|
    && p[0] == 0 && p[1] == 0 && p[2] == 1 && (p[3] == 0xbe || p[3] == 0xbf || p[6] / 64 == 2)
  }

  lemma {:induction false} FoundIsWhole(s: seq<Byte>, off: nat)
    requires Next(s, off).Packet?
    ensures var f := Next(s, off); f.start + f.len <= |s| && Whole(s[f.start..f.start + f.len])
    decreases |s| - off
  {
    if Prefix(s, off) && Complete(s, off) && ValidHeader(s, off) {
      var p := s[off..off + SizeAt(s, off)];
      assert forall i :: 0 <= i < 7 ==> p[i] == s[off + i];
    } else {
      FoundIsWhole(s, off + 1);
    }
  }

  lemma {:induction false} PacketsAreWhole(s: seq<Byte>)
    ensures forall p :: p in Packets(s) ==> Whole(p)
  {
    hide Next, Whole;
    match Next(s, 0)
    case Undecided =>
    case Packet(p, n) =>
      FoundIsWhole(s, 0);
      PacketsAreWhole(s[p + n..]);
  }

  lemma {:induction false} SelectedAreThere(ps: seq<seq<Byte>>, w: Byte)
    ensures forall p :: p in Select(ps, w) ==> p in ps
  {
    hide Wanted, Chosen, Id;
    if ps != [] {
      SelectedAreThere(ps[1..], w);
      SelectedAreThere(ps[1..], Chosen(w, Id(ps[0])));
    }
  }

  lemma {:induction false} PairedAreThere(ps: seq<seq<Byte>>)
    ensures forall i :: 0 <= i < |Pairs(ps)| ==> Pairs(ps)[i].packet in ps && Pairs(ps)[i].next in ps
  {
    if |ps| >= 2 {
      PairedAreThere(ps[1..]);
    }
  }

  /** Whatever is handed over has the size its length field says. */
  lemma CanonicalIsWhole(s: seq<Byte>, w: Byte)
    ensures forall i :: 0 <= i < |Canonical(s, w)| ==> Whole(Canonical(s, w)[i].packet) && Whole(Canonical(s, w)[i].next)
  {
    hide Packets, Select, Pairs, Whole;
    PacketsAreWhole(s);
    SelectedAreThere(Packets(s), w);
    PairedAreThere(Select(Packets(s), w));
  }

  /** What will be handed over from stream `s` on. */
  function Canonical(s: seq<Byte>, w: Byte): seq<Pair> { Pairs(Select(Packets(s), w)) }

  /** `handed` followed by what is to come from the kept bytes is what the whole input gives, and
      this remains so whatever arrives later. */
  ghost predicate OnTrack(input: seq<Byte>, w0: Byte, handed: seq<Pair>, rest: seq<Byte>, w: Byte) {
    forall t :: Canonical(input + t, w0) == handed + Canonical(rest + t, w)
  }

  lemma ArrivalKeeps(input: seq<Byte>, w0: Byte, handed: seq<Pair>, rest: seq<Byte>, w: Byte, data: seq<Byte>)
    requires OnTrack(input, w0, handed, rest, w)
    ensures OnTrack(input + data, w0, handed, rest + data, w)
  {
    hide Canonical;
    forall t ensures Canonical(input + data + t, w0) == handed + Canonical(rest + data + t, w) {
      assert input + data + t == input + (data + t) && rest + data + t == rest + (data + t);
    }
  }

  /** From now on, `rest` gives `more` and then what `rest'` gives. */
  ghost predicate Gives(rest: seq<Byte>, w: Byte, more: seq<Pair>, rest': seq<Byte>, w': Byte) {
    forall t :: GivesWith(rest, w, more, rest', w', t)
  }

  /** The same for what arrives later. */
  ghost predicate GivesWith(rest: seq<Byte>, w: Byte, more: seq<Pair>, rest': seq<Byte>, w': Byte, t: seq<Byte>) {
    Canonical(rest + t, w) == more + Canonical(rest' + t, w')
  }

  /** Replacing the kept bytes by ones that give the same from now on. */
  lemma ReplaceKeeps(input: seq<Byte>, w0: Byte, handed: seq<Pair>, rest: seq<Byte>, w: Byte,
                     more: seq<Pair>, rest': seq<Byte>, w': Byte)
    requires OnTrack(input, w0, handed, rest, w) && Gives(rest, w, more, rest', w')
    ensures OnTrack(input, w0, handed + more, rest', w')
  {
    hide Canonical;
    forall t ensures Canonical(input + t, w0) == handed + more + Canonical(rest' + t, w') {
      assert GivesWith(rest, w, more, rest', w', t);
    }
  }

  lemma SelectCons(p: seq<Byte>, ps: seq<seq<Byte>>, w: Byte)
    ensures Select([p] + ps, w)
         == if Wanted(w, Id(p)) then [p] + Select(ps, Chosen(w, Id(p))) else Select(ps, w)
  {
    assert ([p] + ps)[1..] == ps;
  }

  lemma PairsCons(p: seq<Byte>, sel: seq<seq<Byte>>)
    requires sel != []
    ensures Pairs([p] + sel) == [Pair(p, sel[0])] + Pairs(sel)
  {
    assert ([p] + sel)[1..] == sel;
  }

  lemma SkipGives(rest: seq<Byte>, w: Byte)
    requires Search(rest, 0, |rest|).len == 0
    ensures Gives(rest, w, [], rest[Search(rest, 0, |rest|).start..], w)
  {
    hide Search, Packets, Select, Pairs;
    forall t ensures GivesWith(rest, w, [], rest[Search(rest, 0, |rest|).start..], w, t) {
      SkippedHoldNothing(rest, t);
    }
  }

  lemma SkipKeeps(input: seq<Byte>, w0: Byte, handed: seq<Pair>, rest: seq<Byte>, w: Byte)
    requires OnTrack(input, w0, handed, rest, w) && Search(rest, 0, |rest|).len == 0
    ensures OnTrack(input, w0, handed, rest[Search(rest, 0, |rest|).start..], w)
  {
    hide Search, OnTrack, Gives;
    SkipGives(rest, w);
    ReplaceKeeps(input, w0, handed, rest, w, [], rest[Search(rest, 0, |rest|).start..], w);
    assert handed + [] == handed;
  }

  lemma UnwantedGives(rest: seq<Byte>, w: Byte)
    requires Search(rest, 0, |rest|).len > 0
    requires var r := Search(rest, 0, |rest|); !Wanted(w, Id(rest[r.start..r.start + r.len]))
    ensures var r := Search(rest, 0, |rest|); Gives(rest, w, [], rest[r.start + r.len..], w)
  {
    hide Search, Packets, Select, Pairs, Wanted, Id;
    var r := Search(rest, 0, |rest|);
    var p, rest' := rest[r.start..r.start + r.len], rest[r.start + r.len..];
    forall t ensures GivesWith(rest, w, [], rest', w, t) {
      FoundIsFirst(rest, t);
      SelectCons(p, Packets(rest' + t), w);
    }
  }

  lemma UnwantedKeeps(input: seq<Byte>, w0: Byte, handed: seq<Pair>, rest: seq<Byte>, w: Byte)
    requires OnTrack(input, w0, handed, rest, w) && Search(rest, 0, |rest|).len > 0
    requires var r := Search(rest, 0, |rest|); !Wanted(w, Id(rest[r.start..r.start + r.len]))
    ensures var r := Search(rest, 0, |rest|); OnTrack(input, w0, handed, rest[r.start + r.len..], w)
  {
    hide Search, OnTrack, Gives, Wanted, Id;
    UnwantedGives(rest, w);
    var r := Search(rest, 0, |rest|);
    ReplaceKeeps(input, w0, handed, rest, w, [], rest[r.start + r.len..], w);
    assert handed + [] == handed;
  }

  predicate LeadsWith(rest: seq<Byte>, t: seq<Byte>, w: Byte, q: seq<Byte>) { Leads(Packets(rest + t), w, q) }

  /** `q` is the first wanted packet of `rest`, whatever arrives later. */
  ghost predicate Successor(rest: seq<Byte>, w: Byte, q: seq<Byte>) {
    forall t :: LeadsWith(rest, t, w, q)
  }

  lemma HandedOnce(rest: seq<Byte>, p: seq<Byte>, rest': seq<Byte>, t: seq<Byte>, w: Byte, q: seq<Byte>)
    requires Search(rest, 0, |rest|).len > 0
    requires var r := Search(rest, 0, |rest|); p == rest[r.start..r.start + r.len] && rest' == rest[r.start + r.len..]
    requires Wanted(w, Id(p)) && LeadsWith(rest', t, Chosen(w, Id(p)), q)
    ensures GivesWith(rest, w, [Pair(p, q)], rest', Chosen(Chosen(w, Id(p)), Id(q)), t)
  {
    hide Search, Packets, Select, Pairs, Wanted, Leads, Chosen, Id;
    FoundIsFirst(rest, t);
    HandedFirst(p, Packets(rest' + t), w, q);
  }

  lemma HandedFirst(p: seq<Byte>, ps: seq<seq<Byte>>, w: Byte, q: seq<Byte>)
    requires Wanted(w, Id(p)) && Leads(ps, Chosen(w, Id(p)), q)
    ensures Pairs(Select([p] + ps, w)) == [Pair(p, q)] + Pairs(Select(ps, Chosen(Chosen(w, Id(p)), Id(q))))
  {
    hide Select, Pairs, Leads, Chosen;
    var w1 := Chosen(w, Id(p));
    SelectCons(p, ps, w);
    LookingAheadIsHarmless(ps, w1, q);
    PairsCons(p, Select(ps, w1));
  }

  lemma HandedAlways(rest: seq<Byte>, p: seq<Byte>, rest': seq<Byte>, w: Byte, q: seq<Byte>)
    requires Search(rest, 0, |rest|).len > 0
    requires var r := Search(rest, 0, |rest|); p == rest[r.start..r.start + r.len] && rest' == rest[r.start + r.len..]
    requires Wanted(w, Id(p)) && Successor(rest', Chosen(w, Id(p)), q)
    ensures Gives(rest, w, [Pair(p, q)], rest', Chosen(Chosen(w, Id(p)), Id(q)))
  {
    hide Search, Wanted, Chosen, Id, Successor, LeadsWith, GivesWith;
    var w1 := Chosen(w, Id(p));
    var w2 := Chosen(w1, Id(q));
    forall t ensures GivesWith(rest, w, [Pair(p, q)], rest', w2, t) {
      SuccessorLeads(rest', w1, q, t);
      HandedOnce(rest, p, rest', t, w, q);
    }
  }

  lemma SuccessorLeads(rest: seq<Byte>, w: Byte, q: seq<Byte>, t: seq<Byte>)
    requires Successor(rest, w, q)
    ensures LeadsWith(rest, t, w, q)
  {
    hide LeadsWith;
  }

  /** The first wanted packet is handed over once the second is known. */
  lemma HandedKeeps(input: seq<Byte>, w0: Byte, handed: seq<Pair>, rest: seq<Byte>, w: Byte, q: seq<Byte>)
    requires OnTrack(input, w0, handed, rest, w) && Search(rest, 0, |rest|).len > 0
    requires var r := Search(rest, 0, |rest|);
             var p := rest[r.start..r.start + r.len];
             Wanted(w, Id(p)) && Successor(rest[r.start + r.len..], Chosen(w, Id(p)), q)
    ensures var r := Search(rest, 0, |rest|);
            var p := rest[r.start..r.start + r.len];
            OnTrack(input, w0, handed + [Pair(p, q)], rest[r.start + r.len..], Chosen(Chosen(w, Id(p)), Id(q)))
  {
    hide Search, Wanted, Chosen, Id, OnTrack, Successor, Gives;
    var r := Search(rest, 0, |rest|);
    HandedOn(input, w0, handed, rest, rest[r.start..r.start + r.len], rest[r.start + r.len..], w, q);
  }

  lemma HandedOn(input: seq<Byte>, w0: Byte, handed: seq<Pair>, rest: seq<Byte>, p: seq<Byte>, rest': seq<Byte>,
                 w: Byte, q: seq<Byte>)
    requires OnTrack(input, w0, handed, rest, w) && Search(rest, 0, |rest|).len > 0
    requires var r := Search(rest, 0, |rest|); p == rest[r.start..r.start + r.len] && rest' == rest[r.start + r.len..]
    requires Wanted(w, Id(p)) && Successor(rest', Chosen(w, Id(p)), q)
    ensures OnTrack(input, w0, handed + [Pair(p, q)], rest', Chosen(Chosen(w, Id(p)), Id(q)))
  {
    hide Search, Wanted, Chosen, Id, OnTrack, Successor, Gives;
    HandedAlways(rest, p, rest', w, q);
    ReplaceKeeps(input, w0, handed, rest, w, [Pair(p, q)], rest', Chosen(Chosen(w, Id(p)), Id(q)));
  }

  lemma WantedAgain(w: Byte, id: Byte)
    requires Wanted(w, id)
    ensures Wanted(Chosen(w, id), id) && Chosen(Chosen(w, id), id) == Chosen(w, id)
  {
  }

  lemma WaitingGives(rest: seq<Byte>, w: Byte)
    requires Search(rest, 0, |rest|).len > 0
    requires var r := Search(rest, 0, |rest|); Wanted(w, Id(rest[r.start..r.start + r.len]))
    ensures var r := Search(rest, 0, |rest|);
            Gives(rest, w, [], rest[r.start..], Chosen(w, Id(rest[r.start..r.start + r.len])))
  {
    hide Search, Packets, Select, Pairs, Wanted, Chosen, Id;
    var r := Search(rest, 0, |rest|);
    var p := rest[r.start..r.start + r.len];
    var w1 := Chosen(w, Id(p));
    WantedAgain(w, Id(p));
    forall t ensures GivesWith(rest, w, [], rest[r.start..], w1, t) {
      FoundIsFirst(rest, t);
      StartsWithPacket(rest, t);
      var ps := Packets(rest[r.start + r.len..] + t);
      SelectCons(p, ps, w);
      SelectCons(p, ps, w1);
    }
  }

  /** A wanted packet that has to wait for its successor fixes the wanted stream. */
  lemma WaitingKeeps(input: seq<Byte>, w0: Byte, handed: seq<Pair>, rest: seq<Byte>, w: Byte)
    requires OnTrack(input, w0, handed, rest, w) && Search(rest, 0, |rest|).len > 0
    requires var r := Search(rest, 0, |rest|); Wanted(w, Id(rest[r.start..r.start + r.len]))
    ensures var r := Search(rest, 0, |rest|);
            OnTrack(input, w0, handed, rest[r.start..], Chosen(w, Id(rest[r.start..r.start + r.len])))
  {
    hide Search, OnTrack, Gives, Wanted, Id, Chosen;
    WaitingGives(rest, w);
    var r := Search(rest, 0, |rest|);
    ReplaceKeeps(input, w0, handed, rest, w, [], rest[r.start..], Chosen(w, Id(rest[r.start..r.start + r.len])));
    assert handed + [] == handed;
  }

  /** Dropping the bytes before a packet leaves the packets as they are. */
  lemma StartsWithPacket(s: seq<Byte>, t: seq<Byte>)
    requires Search(s, 0, |s|).len > 0
    ensures Packets(s[Search(s, 0, |s|).start..] + t) == Packets(s + t)
  {
    hide Search, Next;
    var r := Search(s, 0, |s|);
    var u, v := s + t, s[r.start..] + t;
    SearchIsNext(s, t, 0, |s|);
    NextAgain(u, 0);
    assert u[r.start..] == v;
    NextShift(u, r.start, 0);
    assert Next(v, 0) == Packet(0, r.len);
    assert v[0..0 + r.len] == u[r.start..r.start + r.len] && v[0 + r.len..] == u[r.start + r.len..];
  }

  lemma {:induction false} NextAgain(s: seq<Byte>, off: nat)
    requires Next(s, off).Packet?
    ensures Next(s, Next(s, off).start) == Next(s, off)
    decreases |s| - off
  {
    if !Prefix(s, off) || (Complete(s, off) && !ValidHeader(s, off)) {
      NextAgain(s, off + 1);
    }
  }
}
