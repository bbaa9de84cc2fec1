/** grab's `write_mpg`: the packet lists, the pack buffer and the clock, worked on in place. */
module MpgWriter {
  import opened Bytes
  import opened Timestamps
  import opened Packs
  import opened Remuxer
  import opened PesCutter
  import opened Merge
  import opened Steadiness

  class Merger {
    const audio: PacketList
    const video: PacketList
    const pack: PackBuffer
    var resync: bool
    var clock: real
    var start: real
    var playtime: real
    ghost var trace: seq<Written>

    ghost predicate Valid()
      reads this, audio, video, pack, pack.buffer
    {
      && audio != video && AllSound(audio.packets) && AllSound(video.packets)
      && pack.Valid() && MuxInv(pack.View())
    }

    ghost function Q(): Queue
      reads this, audio, video
    {
      Queue(audio.packets, video.packets, clock)
    }

    constructor (a: PacketList, v: PacketList)
      requires a != v && AllSound(a.packets) && AllSound(v.packets)
      ensures Valid() && audio == a && video == v && resync && fresh(pack) && fresh(pack.buffer)
      ensures Contents(pack.View()) == [] && trace == []
    {
      audio, video, resync, clock, start, playtime, trace := a, v, true, -1.0, -1.0, 0.0, [];
      pack := new PackBuffer();
      new;
      EmptyPack();
      assert pack.View().part == [];
    }

    /** `perform_resync`, as far as the packets are concerned. */
    method PerformResync()
      requires Valid()
      modifies this`resync, audio, video
      ensures Valid() && resync && audio.packets == [] && video.packets == []
    {
      audio.Remove(|audio.packets|);
      video.Remove(|video.packets|);
      resync := true;
    }

    /** Lines 1227-1310: packets are dropped from the fronts of the lists until a common start is found or a
        list is empty. */
    method FindStart()
      requires Valid() && resync
      modifies this`resync, this`clock, this`start, this`playtime, audio, video
      ensures Valid()
      ensures Fronts(audio.packets, video.packets) == old(Settle(audio.packets, video.packets))
      ensures resync <==> audio.packets == [] || video.packets == []
      ensures resync ==> clock == old(clock) && start == old(start) && playtime == old(playtime)
      ensures !resync ==>
                && InSync(audio.packets[0], video.packets[0])
                && start == clock == StampOf(video.packets[0])
                && playtime == old(playtime) + PtsDiff(old(clock), old(start))
    {
      hide MuxInv, AllSound, Settle, StampOf, InSync, PtsDiff;
      SettleEnds(audio.packets, video.packets);
      while audio.packets != [] && video.packets != []
        invariant Valid() && resync && clock == old(clock) && start == old(start) && playtime == old(playtime)
        invariant Settle(audio.packets, video.packets) == old(Settle(audio.packets, video.packets))
        decreases |audio.packets| + |video.packets|
      {
        var found := Compare();
        if found {
          var a, v := StampOf(audio.packets[0]), StampOf(video.packets[0]);
          playtime := playtime + PtsDiff(clock, start);
          start := if v < a then v else a;
          clock := start;
          resync := false;
          return;
        }
      }
      SettleEmpty(audio.packets, video.packets);
    }

    /** Looks at the first packet of each list, and drops one or both if they cannot be the start. */
    method Compare() returns (found: bool)
      requires Valid() && audio.packets != [] && video.packets != []
      modifies audio, video
      ensures Valid()
      ensures Settle(audio.packets, video.packets) == old(Settle(audio.packets, video.packets))
      ensures if found then audio.packets == old(audio.packets) && video.packets == old(video.packets)
                            && Settle(audio.packets, video.packets) == Fronts(audio.packets, video.packets)
                            && StampOf(audio.packets[0]) > StampOf(video.packets[0])
              else |audio.packets| + |video.packets| < old(|audio.packets| + |video.packets|)
    {
      SettleStep(audio.packets, video.packets);
      hide MuxInv, AllSound, Settle, StampOf, PtsDiff, SequenceStart, Startable;
      var a, v := audio.packets[0], video.packets[0];
      found := false;
      if StampOf(a) < 0.0 || !Startable(a) {
        audio.Remove(1);
      } else if StampOf(v) < 0.0 {
        video.Remove(1);
      } else if StampOf(a) <= StampOf(v) {
        audio.Remove(1);
      } else if !SequenceStart(v) {
        video.Remove(1);
      } else if Abs(PtsDiff(StampOf(a), StampOf(v))) < SYNC_LIMIT {
        found := true;
      } else {
        audio.Remove(1);
        video.Remove(1);
      }
    }

    /** `flush_pp` in front of a sequence start, and of every audio packet, which carries the same mark. */
    method BeginPack(mark: bool) returns (ghost pad: seq<Item>)
      requires Valid()
      modifies pack`valid, pack`file, pack`spare, pack.buffer
      ensures Valid() && (mark ==> pack.View().part == [])
      ensures Heard(pack.View()) == old(Heard(pack.View())) + pad && (pad == [] || (mark && pad == [Padding]))
      ensures Contents(pack.View()) == old(Contents(pack.View()))
    {
      hide Contents, Heard, MuxInv, AllSound, Flush;
      pad := [];
      if mark {
        FlushHeard(pack.View());
        FlushContents(pack.View());
        pad := if pack.View().part == [] then [] else [Padding];
        pack.FlushPp();
      } else {
        assert Heard(pack.View()) + [] == Heard(pack.View());
      }
    }

    /** Puts a packet into the pack, or a new one if it is marked. */
    method PutPacket(w: Written, second: real, pesDuration: real, wanted: Byte) returns (ghost block: seq<Item>)
      requires Valid() && Sound(w.packet)
      modifies this`trace, pack`valid, pack`file, pack`spare, pack.buffer
      ensures Valid() && trace == old(trace) + [w]
      ensures Block(block, w, second, pesDuration, start, playtime)
      ensures Heard(pack.View()) == old(Heard(pack.View())) + block
      ensures Contents(pack.View()) == old(Contents(pack.View())) + DataOf(w.packet)
    {
      hide Contents, Heard, MuxInv, WellFormed, AllSound, Sound, Told;
      var p := w.packet;
      assert |p| >= 9 && WellFormed(p) && Elementary(p[3]) by { SoundParts(p); }
      ghost var before := Heard(pack.View());
      ghost var pad := BeginPack(SequenceStart(p));
      ghost var items := PutData(w, second, pesDuration, wanted);
      block := pad + items;
      Assoc(before, pad, items);
      IsBlock(pad, items, w, second, pesDuration, start, playtime);
      trace := trace + [w];
    }

    /** `write_pes_in_pp`. */
    method PutData(w: Written, second: real, pesDuration: real, wanted: Byte) returns (ghost items: seq<Item>)
      requires Valid() && Sound(w.packet) && (SequenceStart(w.packet) ==> pack.View().part == [])
      modifies pack`valid, pack`file, pack`spare, pack.buffer
      ensures Valid() && Told(items, w, second, pesDuration, start, playtime)
      ensures Heard(pack.View()) == old(Heard(pack.View())) + items
      ensures Contents(pack.View()) == old(Contents(pack.View())) + DataOf(w.packet)
    {
      hide Contents, Heard, MuxInv, WellFormed, AllSound, Sound, Expected;
      var p := w.packet;
      assert |p| >= 9 && WellFormed(p) && Elementary(p[3]) by { SoundParts(p); }
      assert DataOf(p) == Tag(p[3], ElementaryData(p));
      var mark, len := SequenceStart(p), |ElementaryData(p)|;
      var scrAt := ScrAt(w.clock, start, playtime, PtsDiff(second, Time(w.video, p)), len);
      var ptsAt := PtsFrom(StampOf(p), start, playtime, pesDuration, len);
      ghost var r := Request(p[3], ElementaryData(p), p[7] >= 0x80, !w.video || mark, !w.video, pesDuration >= 0.0,
                             scrAt, ptsAt);
      WriteContents(pack.View(), r, w.video && mark, wanted);
      items := WriteHeard(pack.View(), r, w.video && mark, wanted);
      pack.WritePesInPp(p, !w.video || mark, !w.video, w.video && mark, pesDuration >= 0.0, wanted, scrAt, ptsAt);
    }

    /** Lines 1395-1501: writes the next packet. */
    method WriteNext(wanted: Byte) returns (ghost block: seq<Item>)
      requires Valid() && Q().Ready()
      modifies this`clock, this`trace, audio, video, pack`valid, pack`file, pack`spare, pack.buffer
      ensures Valid() && Q() == Rest(old(Q())) && trace == old(trace) + [Next(old(Q()))]
      ensures Recorded(block, old(Q()), start, playtime)
      ensures Heard(pack.View()) == old(Heard(pack.View())) + block
      ensures Contents(pack.View()) == old(Contents(pack.View())) + DataOf(Next(old(Q())).packet)
    {
      hide Contents, Heard, MuxInv, WellFormed, PtsDiff, Time, Sound, Block;
      var q := Queue(audio.packets, video.packets, clock);
      NextSound(q);
      var second := q.Second();
      if q.AudioFirst() {
        clock := q.A(0);
        var w := Written(false, q.audio[0], clock);
        block := PutPacket(w, second, PtsDiff(q.A(1), q.A(0)), wanted);
        clock := clock + PtsDiff(second, q.A(0));
        audio.Remove(1);
      } else {
        var w := Written(true, q.video[0], clock);
        block := PutPacket(w, second, PtsDiff(q.V(1), q.V(0)), wanted);
        clock := clock + PtsDiff(second, q.V(0));
        video.Remove(1);
      }
    }

    /** After `n` packets from `q` on: `t`, `h` and `d` are what there was before them. */
    ghost predicate Ran(q: Queue, n: nat, log: seq<seq<Item>>, t: seq<Written>, h: seq<Item>, d: seq<Tagged>)
      reads this, audio, video, pack, pack.buffer
    {
      && Merges(q, n) && After(q, n) == Q() && trace == t + Trace(q, n)
      && AllRecorded(log, q, n, start, playtime)
      && pack.Shape() && Heard(pack.View()) == h + Flat(log) && Contents(pack.View()) == d + DataIn(Trace(q, n))
    }

    lemma RanNot()
      requires Valid()
      ensures Ran(Q(), 0, [], trace, Heard(pack.View()), Contents(pack.View()))
    {
      hide Heard, Contents, MuxInv;
      var q := Q();
      assert Merges(q, 0) && After(q, 0) == q && Trace(q, 0) == [] && DataIn([]) == [] && Flat([]) == [];
      assert trace + [] == trace && Heard(pack.View()) + [] == Heard(pack.View());
      assert Contents(pack.View()) + [] == Contents(pack.View());
    }

    /** One more packet. */
    method GoOn(wanted: Byte, ghost q0: Queue, ghost n: nat, ghost log: seq<seq<Item>>, ghost t: seq<Written>,
                ghost h: seq<Item>, ghost d: seq<Tagged>) returns (ghost log': seq<seq<Item>>)
      requires Valid() && !resync && Q().Ready() && WithinASecond(Q()) && Ran(q0, n, log, t, h, d)
      modifies this`clock, this`trace, audio, video, pack`valid, pack`file, pack`spare, pack.buffer
      ensures Valid() && Ran(q0, n + 1, log', t, h, d)
      ensures |audio.packets| + |video.packets| < old(|audio.packets| + |video.packets|)
    {
      ghost var q := Q();
      NotBroken(q);
      hide Contents, Heard, MuxInv, WellFormed, PtsDiff, Time, Rest, Next, AllSound, Merges, After, Trace, DataIn, DataOf;
      hide Recorded, AllRecorded, Flat, WithinASecond;
      MergeExtends(q0, n);
      DataInAppend(Trace(q0, n), Next(q));
      Assoc(d, DataIn(Trace(q0, n)), DataOf(Next(q).packet));
      Assoc(t, Trace(q0, n), [Next(q)]);
      RestIsShorter(q);
      ghost var block := WriteNext(wanted);
      FlatAppend(log, block);
      Assoc(h, Flat(log), block);
      RecordedTo(log, q0, n, start, playtime, block);
      log' := log + [block];
    }

    /** Lines 1320-1516: writes packets as long as there are three of each kind. The file then holds the data
        of exactly those packets too. It gives up exactly if the heads of the lists and their surroundings are
        more than a second apart. */
    method MergePackets(wanted: Byte) returns (ghost n: nat, ghost log: seq<seq<Item>>)
      requires Valid() && !resync
      modifies this`resync, this`clock, this`trace, audio, video, pack`valid, pack`file, pack`spare, pack.buffer
      ensures Valid() && Merges(old(Q()), n)
      ensures var q := After(old(Q()), n);
              if q.Ready() then !WithinASecond(q) && resync && audio.packets == [] && video.packets == []
              else !resync && Q() == q
      ensures trace == old(trace) + Trace(old(Q()), n)
      ensures AllRecorded(log, old(Q()), n, start, playtime)
      ensures Heard(pack.View()) == old(Heard(pack.View())) + Flat(log)
      ensures Contents(pack.View()) == old(Contents(pack.View())) + DataIn(Trace(old(Q()), n))
    {
      hide Contents, Heard, MuxInv, PtsDiff, Time, AllSound, Merges, After, Trace, DataIn, AllRecorded, Flat, WithinASecond;
      n, log := 0, [];
      ghost var q0, t, h, d := Q(), trace, Heard(pack.View()), Contents(pack.View());
      RanNot();
      while |audio.packets| >= 3 && |video.packets| >= 3
        invariant Valid() && !resync && Ran(q0, n, log, t, h, d)
        decreases |audio.packets| + |video.packets|
      {
        var q := Queue(audio.packets, video.packets, clock);
        NotBroken(q);
        if q.Broken() {
          PerformResync();
          return;
        }
        log := GoOn(wanted, q0, n, log, t, h, d);
        n := n + 1;
      }
    }

    /** All packets carry stamps, as the cutters make them, and once a start is found the clock is on
        time. */
    ghost predicate Running()
      reads this, audio, video
    {
      AllTimed(audio.packets) && AllTimed(video.packets) && (resync || OnTime(Q()))
    }

    /** The streams are even, and once a start is found the merge is steady. */
    ghost predicate Calm()
      reads this, audio, video
    {
      Even(audio.packets, video.packets) && (resync || Steady(Q()))
    }

    /** The search for a start keeps what holds of the lists. */
    method Restart()
      requires Valid() && resync
      modifies this`resync, this`clock, this`start, this`playtime, audio, video
      ensures Valid()
      ensures Fronts(audio.packets, video.packets) == old(Settle(audio.packets, video.packets))
      ensures resync <==> audio.packets == [] || video.packets == []
      ensures old(Running()) ==> Running()
      ensures old(Calm()) ==> Calm()
    {
      hide MuxInv, AllSound, AllTimed, OnTime, StampOf, InSync, Settle;
      ghost var running, calm := Running(), Calm();
      ghost var audio0, video0 := audio.packets, video.packets;
      FindStart();
      DroppedForCause(audio0, video0);
      ghost var q := Q();
      if running { SuffixesTimed(audio0, video0, q); }
      if calm { SuffixesEven(audio0, video0, q); }
      if !resync {
        FirstIsWellFormed(q.audio);
        FirstIsWellFormed(q.video);
        SyncIsOnTime(q);
        if calm { SyncIsSteady(q); }
      }
    }

    /** `write_mpg`. From whatever the search for a start leaves, `n` packets are written, and `log` is what a
        reader finds of them; while all packets carry stamps, each when the clock shows its time. On even
        streams it goes on until a list has fewer than three packets, and never gives up. */
    method WriteMpg(wanted: Byte) returns (ghost q: Queue, ghost n: nat, ghost log: seq<seq<Item>>)
      requires Valid()
      modifies this, audio, video, pack`valid, pack`file, pack`spare, pack.buffer
      ensures Valid()
      ensures !old(resync) ==> q == old(Q())
      ensures old(resync) ==> Fronts(q.audio, q.video) == old(Settle(audio.packets, video.packets))
      ensures Merges(q, n) && trace == old(trace) + Trace(q, n)
      ensures if After(q, n).Ready() then !WithinASecond(After(q, n)) && resync else Q() == After(q, n)
      ensures AllRecorded(log, q, n, start, playtime)
      ensures Heard(pack.View()) == old(Heard(pack.View())) + Flat(log)
      ensures Contents(pack.View()) == old(Contents(pack.View())) + DataIn(Trace(q, n))
      ensures old(Running()) ==>
                && Running()
                && forall i :: 0 <= i < n ==> var w := Trace(q, n)[i]; SameTime(w.clock, Time(w.video, w.packet))
      ensures old(Calm()) ==>
                && Calm() && !Q().Ready()
                && (resync ==> old(resync) && n == 0 && (audio.packets == [] || video.packets == []))
    {
      hide Contents, Heard, MuxInv, AllSound, AllTimed, Even, Steady, OnTime, SameTime, Settle, Flat, AllRecorded;
      hide Merges, After, Trace, DataIn, WithinASecond, PtsDiff, Time;
      ghost var running, calm := Running(), Calm();
      if resync { Restart(); }
      q, n, log := Q(), 0, [];
      RanNot();
      if resync {
        assert After(q, 0) == q && Merges(q, 0);
        return;
      }
      n, log := MergePackets(wanted);
      if running { RunningOn(q, n); }
      if calm { CalmOn(q, n); }
    }
  }

  lemma RunningOn(q: Queue, n: nat)
    requires Merges(q, n) && AllTimed(q.audio) && AllTimed(q.video) && OnTime(q)
    ensures AllTimed([]) && AllTimed(After(q, n).audio) && AllTimed(After(q, n).video) && OnTime(After(q, n))
    ensures forall i :: 0 <= i < n ==> var w := Trace(q, n)[i]; SameTime(w.clock, Time(w.video, w.packet))
  {
    ClockFollows(q, n);
    RunTimed(q, n);
    NoneTimed();
  }

  lemma CalmOn(q: Queue, n: nat)
    requires Merges(q, n) && Steady(q)
    ensures Steady(After(q, n)) && Even(After(q, n).audio, After(q, n).video)
    ensures After(q, n).Ready() ==> WithinASecond(After(q, n))
  {
    SteadyRuns(q, n);
    if After(q, n).Ready() { NotBroken(After(q, n)); }
  }

  lemma FirstIsWellFormed(ps: seq<seq<Byte>>)
    requires AllSound(ps) && ps != []
    ensures WellFormed(ps[0])
  {
    hide WellFormed;
  }

  lemma NoneTimed()
    ensures AllTimed([])
  {
  }

  lemma SuffixesTimed(audio: seq<seq<Byte>>, video: seq<seq<Byte>>, q: Queue)
    requires AllTimed(audio) && AllTimed(video) && IsTail(q.audio, audio) && IsTail(q.video, video)
    ensures AllTimed(q.audio) && AllTimed(q.video)
  {
    hide Timed;
  }

  lemma SuffixesEven(audio: seq<seq<Byte>>, video: seq<seq<Byte>>, q: Queue)
    requires Even(audio, video) && IsTail(q.audio, audio) && IsTail(q.video, video)
    ensures Even(q.audio, q.video)
  {
    SuffixesTimed(audio, video, q);
    EvenTail(false, q.audio, audio);
    EvenTail(true, q.video, video);
    hide AllTimed, Ascends, Close, IsTail;
  }

  lemma EvenTail(video: bool, s: seq<seq<Byte>>, t: seq<seq<Byte>>)
    requires Ascends(video, t) && Close(video, t) && IsTail(s, t)
    ensures Ascends(video, s) && Close(video, s)
  {
    hide Time, PtsDiff, Near;
    var k := |t| - |s|;
    forall i | 0 <= i < |s| - 1
      ensures PtsDiff(Time(video, s[i + 1]), Time(video, s[i])) >= 0.0 && Near(Time(video, s[i + 1]), Time(video, s[i]))
    {
      assert s[i] == t[k + i] && s[i + 1] == t[(k + i) + 1];
    }
  }

  lemma {:induction false} RunTimed(q: Queue, n: nat)
    requires Merges(q, n) && AllTimed(q.audio) && AllTimed(q.video)
    ensures AllTimed(After(q, n).audio) && AllTimed(After(q, n).video)
    decreases n
  {
    hide AllTimed, Rest, PtsDiff, Time;
    if n > 0 {
      RestTimed(q);
      RunTimed(Rest(q), n - 1);
    }
  }

  lemma NextSound(q: Queue)
    requires q.Ready() && AllSound(q.audio) && AllSound(q.video)
    ensures Sound(Next(q).packet) && WellFormed(Next(q).packet)
  {
    hide PtsDiff, Time, WellFormed;
  }

  lemma RestIsShorter(q: Queue)
    requires q.Ready()
    ensures |Rest(q).audio| + |Rest(q).video| < |q.audio| + |q.video|
  {
  }

  ghost predicate IsTail(s: seq<seq<Byte>>, t: seq<seq<Byte>>) {
    |s| <= |t| && s == t[|t| - |s|..]
  }

  // ---------------------------------------------------------------- what a reader finds

  /** What a reader finds of a packet, behind the padding of the pack before it. */
  ghost predicate Block(block: seq<Item>, w: Written, second: real, pesDuration: real, start: real, playtime: real)
    requires Sound(w.packet)
  {
    exists items :: Told(items, w, second, pesDuration, start, playtime)
                    && (block == items || (SequenceStart(w.packet) && block == [Padding] + items))
  }

  lemma IsBlock(pad: seq<Item>, items: seq<Item>, w: Written, second: real, pesDuration: real, start: real, playtime: real)
    requires Sound(w.packet) && Told(items, w, second, pesDuration, start, playtime)
    requires pad == [] || (SequenceStart(w.packet) && pad == [Padding])
    ensures Block(pad + items, w, second, pesDuration, start, playtime)
  {
    hide Told;
    if pad == [] { assert pad + items == items; }
  }

  /** What a reader finds of the packet `q` writes next: its times are those of the lists. */
  ghost predicate Recorded(block: seq<Item>, q: Queue, start: real, playtime: real)
    requires q.Ready()
  {
    && Sound(Next(q).packet)
    && Block(block, Next(q), q.Second(), if Next(q).video then PtsDiff(q.V(1), q.V(0)) else PtsDiff(q.A(1), q.A(0)),
             start, playtime)
  }

  /** Every packet written is found by a reader, and was within a second of its surroundings. */
  ghost predicate AllRecorded(log: seq<seq<Item>>, q: Queue, n: nat, start: real, playtime: real) {
    && |log| == n
    && forall i :: 0 <= i < n ==> RecordedAt(log, q, i, start, playtime)
  }

  ghost predicate RecordedAt(log: seq<seq<Item>>, q: Queue, i: nat, start: real, playtime: real)
    requires i < |log|
  {
    Merges(q, i) && After(q, i).Ready() && WithinASecond(After(q, i)) && Recorded(log[i], After(q, i), start, playtime)
  }

  lemma RecordedTo(log: seq<seq<Item>>, q: Queue, n: nat, start: real, playtime: real, block: seq<Item>)
    requires AllRecorded(log, q, n, start, playtime) && Merges(q, n) && After(q, n).Ready()
    requires WithinASecond(After(q, n)) && Recorded(block, After(q, n), start, playtime)
    ensures AllRecorded(log + [block], q, n + 1, start, playtime)
  {
    hide Recorded, WithinASecond, Merges, After;
    forall i | 0 <= i < n + 1
      ensures RecordedAt(log + [block], q, i, start, playtime)
    {
      assert i < n ==> RecordedAt(log, q, i, start, playtime);
    }
  }

  lemma SoundParts(p: seq<Byte>)
    requires Sound(p)
    ensures |p| >= 9 && WellFormed(p) && Elementary(p[3])
  {
  }
}
