/** Merging audio and video packets into one program stream (grab's `write_mpg`): finding a common start,
    choosing the next packet by its time stamp, and advancing the system clock. */
module Merge {
  import opened Bytes
  import opened Cyclic
  import opened Timestamps
  import opened Packs
  import opened Remuxer
  import opened PesCutter
  import AudioInput

  const FORERUN := 19_000.0
  const PLAY_OFFSET := 27_000
  /** No two neighbouring time stamps may be further apart: one second. */
  const SECOND := 90_000.0

  // ---------------------------------------------------------------- packets and their times

  function StampOf(p: seq<Byte>): real { AudioInput.PtsAt(p, 0) }

  /** When a packet is to be sent: audio goes out later than its stamp says. */
  function Time(video: bool, p: seq<Byte>): real {
    if video then StampOf(p) else StampOf(p) + FORERUN
  }

  /** The packets the cutters make: well formed, stamped, for a stream of elementary data. */
  predicate Timed(p: seq<Byte>) {
    Sound(p) && p[7] >= 0x80
  }

  /** What `write_mpg` takes for granted. */
  predicate Sound(p: seq<Byte>) {
    WellFormed(p) && Elementary(p[3])
  }

  ghost predicate AllSound(ps: seq<seq<Byte>>) {
    forall i :: 0 <= i < |ps| ==> Sound(ps[i])
  }

  ghost predicate AllTimed(ps: seq<seq<Byte>>) {
    forall i :: 0 <= i < |ps| ==> Timed(ps[i])
  }

  lemma TimesInRange(video: bool, p: seq<Byte>)
    requires Timed(p)
    ensures 0.0 <= StampOf(p) < TWO_32 as real && 0.0 <= Time(video, p) < TWO_32 as real + SECOND
  {
    hide LowPts, PesSize;
    assert AudioInput.Memory(p, 0)[7] == p[7];
  }

  /** The packets the cutters make are of this kind. */
  lemma {:induction false} CutPacketsAreTimed(id: Byte, ps: seq<Piece>, mark: bool, all: bool)
    requires Elementary(id) && AtMost(ps, 0xffff - 14)
    ensures AllTimed(Packets(id, ps, mark, all))
  {
    hide Pes, WellFormed, Timed, Sound;
    if ps != [] {
      assert AtMost(ps[1..], 0xffff - 14);
      CutPacketsAreTimed(id, ps[1..], all, all);
      CutPacketIsTimed(id, mark, ps[0]);
    }
  }

  lemma CutPacketIsTimed(id: Byte, mark: bool, p: Piece)
    requires Elementary(id) && |p.data| <= 0xffff - 14
    ensures Timed(Pes(id, mark, p.pts, p.data))
  {
    PesIsReadable(id, mark, p.pts, p.data);
    hide WellFormed;
  }

  /** Equal up to whole turns of the 32-bit clock. */
  ghost predicate SameTime(x: real, y: real) {
    exists k: int :: x - y == Turns(k)
  }

  function Turns(k: int): real { k as real * TWO_32 as real }

  lemma SameTimeTransitive(x: real, y: real, z: real)
    requires SameTime(x, y) && SameTime(y, z)
    ensures SameTime(x, z)
  {
    var j: int :| x - y == Turns(j);
    var k: int :| y - z == Turns(k);
    assert x - z == Turns(j + k);
  }

  lemma SameTimeShift(x: real, y: real, d: real)
    requires SameTime(x, y)
    ensures SameTime(x + d, y + d)
  {
    var k: int :| x - y == Turns(k);
    assert (x + d) - (y + d) == Turns(k);
  }

  /** A difference of two times leads from the one to the other. */
  lemma DifferenceLeads(l: real, r: real)
    requires 0.0 <= l < 0x1_8000_0000 as real && 0.0 <= r < 0x1_8000_0000 as real
    ensures SameTime(r + PtsDiff(l, r), l)
  {
    var d := r + PtsDiff(l, r) - l;
    assert d == Turns(0) || d == Turns(1) || d == Turns(-1);
  }

  // ---------------------------------------------------------------- the merge as a function

  /** The two lists of packets and the system clock. */
  datatype Queue = Queue(audio: seq<seq<Byte>>, video: seq<seq<Byte>>, clock: real)
  {
    predicate Ready() { |audio| >= 3 && |video| >= 3 }

    function A(i: nat): real
      requires i < |audio|
    {
      Time(false, audio[i])
    }

    function V(i: nat): real
      requires i < |video|
    {
      Time(true, video[i])
    }

    predicate AudioFirst()
      requires |audio| > 0 && |video| > 0
    {
      PtsDiff(A(0), V(0)) <= 0.0
    }

    /** The data is so far apart that a new start is needed. */
    predicate Broken()
      requires Ready()
    {
      || Abs(PtsDiff(V(0), A(0))) > SECOND || Abs(PtsDiff(V(0), clock)) > SECOND
      || Abs(PtsDiff(V(1), V(0))) > SECOND || Abs(PtsDiff(A(1), A(0))) > SECOND
    }

    /** The time of the packet after the next: `f2_pts`. */
    function Second(): real
      requires Ready()
    {
      if AudioFirst() then (if PtsDiff(A(1), V(0)) < 0.0 then A(1) else V(0))
      else if PtsDiff(V(1), A(0)) < 0.0 then V(1) else A(0)
    }
  }

  /** A packet that was written, and the clock at that moment. */
  datatype Written = Written(video: bool, packet: seq<Byte>, clock: real)

  /** The packet that is written next. Audio sets the clock. */
  function Next(q: Queue): Written
    requires q.Ready()
  {
    if q.AudioFirst() then Written(false, q.audio[0], q.A(0)) else Written(true, q.video[0], q.clock)
  }

  /** The rest, the clock advanced to the packet after it. */
  function Rest(q: Queue): Queue
    requires q.Ready()
  {
    var w := Next(q);
    var clock' := w.clock + PtsDiff(q.Second(), Time(w.video, w.packet));
    if w.video then Queue(q.audio, q.video[1..], clock') else Queue(q.audio[1..], q.video, clock')
  }

  /** `n` packets are written without a new start. */
  ghost predicate Merges(q: Queue, n: nat)
    decreases n
  {
    n > 0 ==> q.Ready() && !q.Broken() && Merges(Rest(q), n - 1)
  }

  function After(q: Queue, n: nat): Queue
    requires Merges(q, n)
    decreases n
  {
    if n == 0 then q else After(Rest(q), n - 1)
  }

  function Trace(q: Queue, n: nat): (t: seq<Written>)
    requires Merges(q, n)
    ensures |t| == n
    decreases n
  {
    if n == 0 then [] else [Next(q)] + Trace(Rest(q), n - 1)
  }

  function Only(video: bool, t: seq<Written>): seq<seq<Byte>> {
    if t == [] then [] else (if t[0].video == video then [t[0].packet] else []) + Only(video, t[1..])
  }

  lemma HeadAndRest(q: Queue)
    requires q.Ready()
    ensures var w := Next(q);
            && q.audio == (if w.video then [] else [w.packet]) + Rest(q).audio
            && q.video == (if w.video then [w.packet] else []) + Rest(q).video
  {
  }

  lemma OnlyCons(video: bool, w: Written, t: seq<Written>)
    ensures Only(video, [w] + t) == (if w.video == video then [w.packet] else []) + Only(video, t)
  {
    assert ([w] + t)[1..] == t;
  }

  /** Sound goes first unless the video is earlier. */
  lemma VideoOnlyIfEarlier(q: Queue)
    requires q.Ready() && AllTimed(q.audio) && AllTimed(q.video)
    ensures Next(q).video <==> PtsDiff(q.V(0), q.A(0)) < 0.0
  {
    Opposite(q.audio[0], q.video[0]);
    hide PtsDiff, Time, AllTimed;
  }

  /** Each list is written in its order, without loss. */
  lemma {:induction false} MergeConserves(q: Queue, n: nat)
    requires Merges(q, n)
    ensures q.audio == Only(false, Trace(q, n)) + After(q, n).audio
    ensures q.video == Only(true, Trace(q, n)) + After(q, n).video
    decreases n
  {
    if n > 0 {
      HeadAndRest(q);
      hide Rest, Next, Only, PtsDiff, Time;
      var rest, w := Rest(q), Next(q);
      MergeConserves(rest, n - 1);
      var t := Trace(rest, n - 1);
      OnlyCons(false, w, t);
      OnlyCons(true, w, t);
      Assoc(if w.video then [] else [w.packet], Only(false, t), After(rest, n - 1).audio);
      Assoc(if w.video then [w.packet] else [], Only(true, t), After(rest, n - 1).video);
    }
  }

  /** Neighbours in a list do not go back in time. */
  ghost predicate Ascends(video: bool, ps: seq<seq<Byte>>) {
    forall i :: 0 <= i < |ps| - 1 ==> PtsDiff(Time(video, ps[i + 1]), Time(video, ps[i])) >= 0.0
  }

  /** Differences of times are antisymmetric. */
  lemma Opposite(a: seq<Byte>, v: seq<Byte>)
    requires Timed(a) && Timed(v)
    ensures PtsDiff(Time(true, v), Time(false, a)) == -PtsDiff(Time(false, a), Time(true, v))
  {
    TimesInRange(false, a);
    TimesInRange(true, v);
    hide Time, Timed, StampOf;
  }

  lemma TimedTail(ps: seq<seq<Byte>>)
    requires AllTimed(ps) && ps != []
    ensures AllTimed(ps[1..])
  {
    hide Timed;
  }

  lemma AscendsTail(video: bool, ps: seq<seq<Byte>>)
    requires Ascends(video, ps) && ps != []
    ensures Ascends(video, ps[1..])
  {
    hide Time, PtsDiff;
    var tail := ps[1..];
    forall i | 0 <= i < |tail| - 1
      ensures PtsDiff(Time(video, tail[i + 1]), Time(video, tail[i])) >= 0.0
    {
      assert tail[i] == ps[i + 1] && tail[i + 1] == ps[i + 1 + 1];
    }
  }

  ghost predicate Orderly(q: Queue) {
    AllTimed(q.audio) && AllTimed(q.video) && Ascends(false, q.audio) && Ascends(true, q.video)
  }

  lemma RestOrderly(q: Queue)
    requires q.Ready() && Orderly(q)
    ensures Orderly(Rest(q))
  {
    TimedTail(q.audio);
    TimedTail(q.video);
    AscendsTail(false, q.audio);
    AscendsTail(true, q.video);
    hide AllTimed, Ascends, Time, PtsDiff;
  }

  lemma FirstTwoInOrder(q: Queue)
    requires q.Ready() && Orderly(q) && Rest(q).Ready()
    ensures var x, y := Next(q), Next(Rest(q));
            PtsDiff(Time(y.video, y.packet), Time(x.video, x.packet)) >= 0.0
  {
    Opposite(q.audio[0], q.video[0]);
    assert PtsDiff(q.A(1), q.A(0)) >= 0.0 && PtsDiff(q.V(1), q.V(0)) >= 0.0;
    hide AllTimed, Ascends, Time, PtsDiff;
  }

  /** The packets written do not go back in time from one to the next, if the lists do not. */
  lemma {:induction false} MergeInOrder(q: Queue, n: nat, i: nat)
    requires Merges(q, n) && Orderly(q) && i + 1 < n
    ensures var x, y := Trace(q, n)[i], Trace(q, n)[i + 1];
            PtsDiff(Time(y.video, y.packet), Time(x.video, x.packet)) >= 0.0
    decreases n
  {
    hide Orderly, Rest, Next, PtsDiff, Time;
    RestOrderly(q);
    if i > 0 {
      MergeInOrder(Rest(q), n - 1, i - 1);
    } else {
      FirstTwoInOrder(q);
    }
  }

  // ---------------------------------------------------------------- the clock

  /** The time of the packet that is to be written next. */
  function Lead(q: Queue): real
    requires |q.audio| > 0 && |q.video| > 0
  {
    if q.AudioFirst() then q.A(0) else q.V(0)
  }

  /** The clock shows the time of the next packet, modulo 2^32. */
  ghost predicate OnTime(q: Queue) {
    |q.audio| > 0 && |q.video| > 0 && SameTime(q.clock, Lead(q))
  }

  /** The packet looked ahead to is the one written next, or one of the same time. */
  lemma SecondLeads(q: Queue)
    requires q.Ready() && AllTimed(q.audio) && AllTimed(q.video)
    ensures |Rest(q).audio| > 0 && |Rest(q).video| > 0 && SameTime(q.Second(), Lead(Rest(q)))
  {
    Opposite(q.audio[0], q.video[1]);
    TimesInRange(false, q.audio[1]);
    TimesInRange(true, q.video[0]);
    DifferenceLeads(q.A(1), q.V(0));
    hide Time, PtsDiff, AllTimed, SameTime;
    assert SameTime(q.Second(), q.Second()) by { SameTimeReflexive(q.Second()); }
  }

  lemma SameTimeReflexive(x: real)
    ensures SameTime(x, x)
  {
    assert x - x == Turns(0);
  }

  lemma StepOnTime(q: Queue)
    requires q.Ready() && AllTimed(q.audio) && AllTimed(q.video) && OnTime(q)
    ensures var w := Next(q); SameTime(w.clock, Time(w.video, w.packet))
    ensures OnTime(Rest(q))
  {
    var w, second := Next(q), q.Second();
    var time := Time(w.video, w.packet);
    SecondTime(q);
    SecondLeads(q);
    TimesInRange(w.video, w.packet);
    DifferenceLeads(second, time);
    hide Time, PtsDiff, AllTimed, SameTime;
    SameTimeReflexive(time);
    assert SameTime(w.clock, time);
    var d := PtsDiff(second, time);
    SameTimeShift(w.clock, time, d);
    SameTimeTransitive(w.clock + d, time + d, second);
    SameTimeTransitive(w.clock + d, second, Lead(Rest(q)));
  }

  lemma SecondTime(q: Queue)
    requires q.Ready() && AllTimed(q.audio) && AllTimed(q.video)
    ensures Timed(Next(q).packet) && 0.0 <= q.Second() < TWO_32 as real + SECOND
  {
    TimesInRange(false, q.audio[0]);
    TimesInRange(false, q.audio[1]);
    TimesInRange(true, q.video[0]);
    TimesInRange(true, q.video[1]);
    hide Time, PtsDiff, Timed;
  }

  lemma RestTimed(q: Queue)
    requires q.Ready() && AllTimed(q.audio) && AllTimed(q.video)
    ensures AllTimed(Rest(q).audio) && AllTimed(Rest(q).video)
  {
    TimedTail(q.audio);
    TimedTail(q.video);
    hide AllTimed, Time, PtsDiff;
  }

  /** Once on time, the clock shows the time of every packet when it is written, and stays on time. */
  lemma {:induction false} ClockFollows(q: Queue, n: nat)
    requires Merges(q, n) && AllTimed(q.audio) && AllTimed(q.video) && OnTime(q)
    ensures OnTime(After(q, n))
    ensures forall i :: 0 <= i < n ==> var w := Trace(q, n)[i]; SameTime(w.clock, Time(w.video, w.packet))
    decreases n
  {
    hide AllTimed, OnTime, Next, Rest, Time, SameTime;
    if n > 0 {
      StepOnTime(q);
      RestTimed(q);
      var rest := Rest(q);
      ClockFollows(rest, n - 1);
      var t, t' := Trace(q, n), Trace(rest, n - 1);
      assert t[0] == Next(q);
      forall i | 0 <= i < n
        ensures SameTime(t[i].clock, Time(t[i].video, t[i].packet))
      {
        assert i > 0 ==> t[i] == t'[i - 1];
      }
    }
  }

  // ---------------------------------------------------------------- a common start

  const SYNC_LIMIT := 90_000.0 / 22.0

  predicate SequenceStart(p: seq<Byte>)
    requires |p| >= 9
  {
    p[6] % 2 == 1
  }

  /** AC3 data may start only with its sync word. */
  predicate Startable(p: seq<Byte>)
    requires WellFormed(p)
  {
    p[3] == PRIVATE_1 ==>
      var es := ElementaryData(p);
      |es| >= 4 && es[0] == 0x0b && es[1] == 0x77
  }

  /** A pair of packets the stream can start with: a sequence start with sound that is later by the numbers
      and near to it. */
  predicate InSync(a: seq<Byte>, v: seq<Byte>)
    requires WellFormed(a) && WellFormed(v)
  {
    && StampOf(a) >= 0.0 && StampOf(v) >= 0.0 && Startable(a) && SequenceStart(v)
    && StampOf(a) > StampOf(v) && Abs(PtsDiff(StampOf(a), StampOf(v))) < SYNC_LIMIT
  }

  /** What a common start is, in numbers: AC3 sound begins with its sync word, the video packet is marked, and
      the sound is later by less than the 22nd part of a second. */
  lemma StartReads(a: seq<Byte>, v: seq<Byte>)
    requires WellFormed(a) && WellFormed(v)
    ensures InSync(a, v) ==>
              && (a[3] == 0xbd ==> |ElementaryData(a)| >= 4 && ElementaryData(a)[..2] == [0x0b, 0x77])
              && v[6] % 2 == 1 && 0.0 <= StampOf(v) < StampOf(a)
    ensures InSync(a, v) && StampOf(a) - StampOf(v) < TWO_31 as real ==> (StampOf(a) - StampOf(v)) * 22.0 < 90_000.0
    ensures a[3] != 0xbd && v[6] % 2 == 1 && 0.0 <= StampOf(v) < StampOf(a) < StampOf(v) + 4_090.0 ==> InSync(a, v)
  {
    hide StampOf, ElementaryData, WellFormed;
  }

  lemma StampBound(p: seq<Byte>)
    ensures StampOf(p) < TWO_32 as real
  {
    hide LowPts;
  }

  /** The stream starts with the video packet, and the clock at its stamp is on time. */
  lemma SyncIsOnTime(q: Queue)
    requires |q.audio| > 0 && |q.video| > 0 && WellFormed(q.audio[0]) && WellFormed(q.video[0])
    requires InSync(q.audio[0], q.video[0]) && q.clock == StampOf(q.video[0])
    ensures !q.AudioFirst() && OnTime(q)
  {
    StampBound(q.audio[0]);
    hide StampOf;
    SameTimeReflexive(q.clock);
  }

  /** What the search for a start leaves of the lists. */
  datatype Fronts = Fronts(audio: seq<seq<Byte>>, video: seq<seq<Byte>>)

  predicate NearSync(a: seq<Byte>, v: seq<Byte>) { Abs(PtsDiff(StampOf(a), StampOf(v))) < SYNC_LIMIT }

  /** The packets that are dropped from the fronts: unusable ones, sound that is not later than the video,
      video that does not start a sequence, and both if they are too far apart. */
  function Settle(audio: seq<seq<Byte>>, video: seq<seq<Byte>>): Fronts
    requires AllSound(audio) && AllSound(video)
    decreases |audio| + |video|
  {
    if audio == [] || video == [] then Fronts(audio, video) else
    var a, v := audio[0], video[0];
    if StampOf(a) < 0.0 || !Startable(a) then Settle(audio[1..], video)
    else if StampOf(v) < 0.0 then Settle(audio, video[1..])
    else if StampOf(a) <= StampOf(v) then Settle(audio[1..], video)
    else if !SequenceStart(v) then Settle(audio, video[1..])
    else if NearSync(a, v) then Fronts(audio, video)
    else Settle(audio[1..], video[1..])
  }

  /** One step of the search. */
  lemma SettleStep(audio: seq<seq<Byte>>, video: seq<seq<Byte>>)
    requires AllSound(audio) && AllSound(video) && audio != [] && video != []
    ensures Sound(audio[0]) && Sound(video[0]) && AllSound(audio[1..]) && AllSound(video[1..])
    ensures var a, v := audio[0], video[0];
            Settle(audio, video) == (
              if StampOf(a) < 0.0 || !Startable(a) then Settle(audio[1..], video)
              else if StampOf(v) < 0.0 then Settle(audio, video[1..])
              else if StampOf(a) <= StampOf(v) then Settle(audio[1..], video)
              else if !SequenceStart(v) then Settle(audio, video[1..])
              else if NearSync(a, v) then Fronts(audio, video)
              else Settle(audio[1..], video[1..]))
  {
    hide StampOf, Startable, SequenceStart, NearSync, WellFormed;
    TailSound(audio, 0);
    TailSound(video, 0);
  }

  lemma SettleEmpty(audio: seq<seq<Byte>>, video: seq<seq<Byte>>)
    requires AllSound(audio) && AllSound(video) && (audio == [] || video == [])
    ensures Settle(audio, video) == Fronts(audio, video)
  {
  }

  /** The search ends with a common start or an empty list, and drops nothing of a common start. */
  lemma {:induction false} SettleEnds(audio: seq<seq<Byte>>, video: seq<seq<Byte>>)
    requires AllSound(audio) && AllSound(video)
    ensures var f := Settle(audio, video);
            && AllSound(f.audio) && AllSound(f.video)
            && (f.audio != [] && f.video != [] ==> InSync(f.audio[0], f.video[0]))
    ensures audio != [] && video != [] && InSync(audio[0], video[0]) ==> Settle(audio, video) == Fronts(audio, video)
    decreases |audio| + |video|
  {
    hide StampOf, Startable, SequenceStart, PtsDiff, Sound, SYNC_LIMIT;
    if audio != [] && video != [] {
      assert Sound(audio[0]) && Sound(video[0]);
      SettleEnds(audio[1..], video);
      SettleEnds(audio, video[1..]);
      SettleEnds(audio[1..], video[1..]);
    }
  }

  /** A reason to drop sound: it cannot start a stream, or some stamped video is not earlier, or that starts
      a sequence and is too far away. */
  predicate AudioCause(a: seq<Byte>, v: seq<Byte>)
    requires WellFormed(a) && WellFormed(v)
  {
    || StampOf(a) < 0.0 || !Startable(a)
    || (StampOf(v) >= 0.0 && (StampOf(a) <= StampOf(v) || (SequenceStart(v) && !NearSync(a, v))))
  }

  /** A reason to drop video: it has no stamp, or some sound that can start a stream is later, and it starts
      no sequence or is too far away. */
  predicate VideoCause(a: seq<Byte>, v: seq<Byte>)
    requires WellFormed(a) && WellFormed(v)
  {
    || StampOf(v) < 0.0
    || (StampOf(a) > StampOf(v) && Startable(a) && (!SequenceStart(v) || !NearSync(a, v)))
  }

  ghost predicate AudioDropped(audio: seq<seq<Byte>>, video: seq<seq<Byte>>, i: nat)
    requires AllSound(audio) && AllSound(video) && i < |audio|
  {
    exists j :: 0 <= j < |video| && Sound(video[j]) && Sound(audio[i]) && AudioCause(audio[i], video[j])
  }

  ghost predicate VideoDropped(audio: seq<seq<Byte>>, video: seq<seq<Byte>>, j: nat)
    requires AllSound(audio) && AllSound(video) && j < |video|
  {
    exists i :: 0 <= i < |audio| && Sound(audio[i]) && Sound(video[j]) && VideoCause(audio[i], video[j])
  }

  /** Nothing is dropped without cause. */
  lemma DroppedForCause(audio: seq<seq<Byte>>, video: seq<seq<Byte>>)
    requires AllSound(audio) && AllSound(video)
    ensures var f := Settle(audio, video);
            && |f.audio| <= |audio| && f.audio == audio[|audio| - |f.audio|..]
            && |f.video| <= |video| && f.video == video[|video| - |f.video|..]
            && (forall k :: 0 <= k < |audio| - |f.audio| ==> AudioDropped(audio, video, k))
            && (forall k :: 0 <= k < |video| - |f.video| ==> VideoDropped(audio, video, k))
  {
    hide Settle, AudioDropped, VideoDropped, AllSound;
    assert audio[0..] == audio && video[0..] == video;
    DroppedFrom(audio, video, 0, 0);
  }

  lemma TailSound(ps: seq<seq<Byte>>, i: nat)
    requires AllSound(ps) && i <= |ps|
    ensures AllSound(ps[i..])
    ensures i < |ps| ==> Sound(ps[i]) && ps[i..][0] == ps[i] && ps[i..][1..] == ps[i + 1..] && AllSound(ps[i + 1..])
  {
    hide Sound;
  }

  /** ... from where the search has come to. */
  lemma {:induction false} DroppedFrom(audio: seq<seq<Byte>>, video: seq<seq<Byte>>, i: nat, j: nat)
    requires AllSound(audio) && AllSound(video) && i <= |audio| && j <= |video|
    ensures AllSound(audio[i..]) && AllSound(video[j..])
    ensures var f := Settle(audio[i..], video[j..]);
            && |f.audio| <= |audio| - i && f.audio == audio[|audio| - |f.audio|..]
            && |f.video| <= |video| - j && f.video == video[|video| - |f.video|..]
            && (forall k :: i <= k < |audio| - |f.audio| ==> AudioDropped(audio, video, k))
            && (forall k :: j <= k < |video| - |f.video| ==> VideoDropped(audio, video, k))
    decreases |audio| - i + |video| - j
  {
    hide AllSound, AudioDropped, VideoDropped, Sound, Settle, AudioCause, VideoCause, StampOf, Startable, SequenceStart,
      NearSync;
    TailSound(audio, i);
    TailSound(video, j);
    if i == |audio| || j == |video| {
      SettleEmpty(audio[i..], video[j..]);
    } else {
      var a, v := audio[i], video[j];
      SettleStep(audio[i..], video[j..]);
      Causes(audio, video, i, j);
      CausesOf(a, v);
      if StampOf(a) < 0.0 || !Startable(a) {
        DroppedFrom(audio, video, i + 1, j);
      } else if StampOf(v) < 0.0 {
        DroppedFrom(audio, video, i, j + 1);
      } else if StampOf(a) <= StampOf(v) {
        DroppedFrom(audio, video, i + 1, j);
      } else if !SequenceStart(v) {
        DroppedFrom(audio, video, i, j + 1);
      } else if !NearSync(a, v) {
        DroppedFrom(audio, video, i + 1, j + 1);
      }
    }
  }

  /** What each step drops it has cause to drop. */
  lemma CausesOf(a: seq<Byte>, v: seq<Byte>)
    requires WellFormed(a) && WellFormed(v)
    ensures StampOf(a) < 0.0 || !Startable(a) ==> AudioCause(a, v)
    ensures StampOf(v) < 0.0 ==> VideoCause(a, v)
    ensures 0.0 <= StampOf(v) && StampOf(a) <= StampOf(v) ==> AudioCause(a, v)
    ensures StampOf(a) > StampOf(v) && Startable(a) && !SequenceStart(v) ==> VideoCause(a, v)
    ensures StampOf(v) >= 0.0 && StampOf(a) > StampOf(v) && Startable(a) && SequenceStart(v) && !NearSync(a, v) ==>
              AudioCause(a, v) && VideoCause(a, v)
  {
    hide StampOf, Startable, SequenceStart, NearSync, WellFormed;
  }

  lemma Causes(audio: seq<seq<Byte>>, video: seq<seq<Byte>>, i: nat, j: nat)
    requires AllSound(audio) && AllSound(video) && i < |audio| && j < |video|
    ensures WellFormed(audio[i]) && WellFormed(video[j])
    ensures AudioCause(audio[i], video[j]) ==> AudioDropped(audio, video, i)
    ensures VideoCause(audio[i], video[j]) ==> VideoDropped(audio, video, j)
  {
    assert Sound(audio[i]) && Sound(video[j]);
    hide AudioCause, VideoCause;
  }

  // ---------------------------------------------------------------- clock values in the packs

  /** The part of a duration that `off` of `len` bytes make up. */
  function Part(off: nat, len: nat, duration: real): real
    requires off <= len && len > 0
  {
    Done(len - off, len) * duration
  }

  lemma PartIs(off: nat, len: nat, duration: real)
    requires off <= len && len > 0
    ensures Part(off, len, duration) == Fraction(off, len) * duration
    ensures duration >= 0.0 ==> 0.0 <= Part(off, len, duration) <= duration
  {
    hide Done, Fraction;
    DoneIs(off, len);
    if duration >= 0.0 { ShareGrows(len, len - off, len, duration); }
  }

  lemma NoPart(len: nat, duration: real)
    requires len > 0
    ensures Part(0, len, duration) == 0.0
  {
    hide Done;
    DoneGrows(len, len, len);
  }

  /** The clock reference of a pack opened at data offset `off` of a packet. */
  function ClockAt(clock: real, start: real, playtime: real, duration: real, len: nat, off: nat): nat {
    ToUnsigned(PtsDiff(clock, start)) + ToUnsigned(playtime)
    + if duration > 0.0 && off < len then ToUnsigned(Part(off, len, duration)) else 0
  }

  function ScrAt(clock: real, start: real, playtime: real, duration: real, len: nat): nat -> nat {
    (off: nat) => ClockAt(clock, start, playtime, duration, len, off)
  }

  /** The time stamp written for the data from `off` on. */
  function StampAt(stamp: real, start: real, playtime: real, duration: real, len: nat, off: nat): nat {
    ToUnsigned(PtsDiff(if 0 < off < len then stamp + Part(off, len, duration) else stamp, start))
    + ToUnsigned(playtime) + PLAY_OFFSET
  }

  function PtsFrom(stamp: real, start: real, playtime: real, duration: real, len: nat): nat -> nat {
    (off: nat) => StampAt(stamp, start, playtime, duration, len, off)
  }

  /** A pack opened within a packet is sent later than one at its start by the share of the time until the
      next packet that the data before it makes up. */
  lemma ClockShares(clock: real, start: real, playtime: real, duration: real, len: nat, off: nat)
    requires off < len && duration >= 0.0
    ensures ClockAt(clock, start, playtime, duration, len, off)
         == ClockAt(clock, start, playtime, duration, len, 0) + (Fraction(off, len) * duration).Floor
  {
    PartIs(off, len, duration);
    NoPart(len, duration);
    hide Part, PtsDiff, Fraction;
  }

  /** A stamp within a packet is later than that at its start by the same share of the packet's duration, up to
      rounding. */
  lemma StampShares(stamp: real, start: real, playtime: real, duration: real, len: nat, off: nat)
    requires 0 < off < len && 0.0 <= duration && 0.0 <= start <= stamp && stamp + duration < start + TWO_31 as real
    ensures var share := Fraction(off, len) * duration;
            var first := StampAt(stamp, start, playtime, duration, len, 0);
            share - 1.0 < (StampAt(stamp, start, playtime, duration, len, off) - first) as real < share + 1.0
  {
    hide Part, PtsDiff, ToUnsigned, Fraction;
    PartIs(off, len, duration);
    var share := Part(off, len, duration);
    PlainDiff(stamp, start);
    PlainDiff(stamp + share, start);
    FloorsApart(stamp - start, share);
  }

  lemma PlainDiff(l: real, r: real)
    requires 0.0 <= r <= l < r + TWO_31 as real
    ensures PtsDiff(l, r) == l - r
  {
  }

  lemma FloorsApart(x: real, d: real)
    requires x >= 0.0 && d >= 0.0
    ensures d - 1.0 < (ToUnsigned(x + d) - ToUnsigned(x)) as real < d + 1.0
  {
  }

  /** Both kinds of packets are presented 27000 ticks after their stamp: video 27000 ticks after the clock
      reference it is sent at, audio, which is sent later, 8000. */
  lemma PresentationLead(w: Written, start: real, playtime: real, duration: real, pesDuration: real, len: nat)
    requires Timed(w.packet) && SameTime(w.clock, Time(w.video, w.packet))
    requires 0.0 <= w.clock < 0x1_8000_0000 as real && 0.0 <= start < TWO_32 as real
    requires 0.0 <= PtsDiff(w.clock, start) < TWO_31 as real
    requires 0.0 <= PtsDiff(StampOf(w.packet), start) < TWO_31 as real - FORERUN
    ensures PtsFrom(StampOf(w.packet), start, playtime, pesDuration, len)(0)
         == ScrAt(w.clock, start, playtime, duration, len)(0) + (if w.video then PLAY_OFFSET else 8_000)
  {
    var stamp := StampOf(w.packet);
    TimesInRange(w.video, w.packet);
    var x, y := PtsDiff(w.clock, start), PtsDiff(stamp, start);
    DifferenceLeads(w.clock, start);
    DifferenceLeads(stamp, start);
    var f := if w.video then 0.0 else FORERUN;
    hide StampOf, Timed, PtsDiff;
    SameDistance(w.clock, stamp, f, start, x, y);
    FloorShift(y);
    if 0 < len { NoPart(len, duration); }
    assert ToUnsigned(0.0) == 0;
    hide ToUnsigned, Part, SameTime;
  }

  lemma SameDistance(clock: real, stamp: real, f: real, start: real, x: real, y: real)
    requires SameTime(clock, stamp + f) && SameTime(start + x, clock) && SameTime(start + y, stamp)
    requires 0.0 <= x < TWO_31 as real && 0.0 <= y && 0.0 <= f && y + f < TWO_31 as real
    ensures x == y + f
  {
    SameTimeShift(start + y, stamp, f);
    var i: int :| clock - (stamp + f) == Turns(i);
    var j: int :| (start + x) - clock == Turns(j);
    var k: int :| (start + y + f) - (stamp + f) == Turns(k);
    assert x - (y + f) == Turns(i + j - k);
    FarTurns(i + j - k);
  }

  lemma FarTurns(k: int)
    ensures k == 0 || Abs(Turns(k)) >= TWO_32 as real
  {
  }

  lemma FloorShift(y: real)
    requires y >= 0.0
    ensures ToUnsigned(y + FORERUN) == ToUnsigned(y) + 19_000
  {
  }

  // ---------------------------------------------------------------- what a reader finds of a packet

  /** What a reader finds of a packet written: sound and sequence starts are stamped, sound in every piece;
      those marked begin a pack, and the pack a sequence start begins holds the system header. `second` is
      the time of the packet after it. */
  ghost predicate Told(items: seq<Item>, w: Written, second: real, pesDuration: real, start: real, playtime: real)
    requires Sound(w.packet)
  {
    var p := w.packet;
    var es, mark := ElementaryData(p), SequenceStart(p);
    var scrAt := ScrAt(w.clock, start, playtime, PtsDiff(second, Time(w.video, p)), |es|);
    var ptsAt := PtsFrom(StampOf(p), start, playtime, pesDuration, |es|);
    && Expected(items, Request(p[3], es, p[7] >= 0x80, !w.video || mark, !w.video, pesDuration >= 0.0, scrAt, ptsAt),
                0, w.video && mark)
    && (mark && es != [] ==> items != [] && items[0].Clock?)
  }

  /** Where the first packet stands in what a reader finds of a marked packet. */
  function FirstPacket(w: Written): nat { if w.video then 3 else 1 }

  /** As read from the bytes: a marked packet is presented 27000 ticks after the reference of its pack if it
      is video, and 8000 if it is sound. */
  lemma LeadAsRead(items: seq<Item>, w: Written, second: real, pesDuration: real, start: real, playtime: real)
    requires Timed(w.packet) && SequenceStart(w.packet) && ElementaryData(w.packet) != []
    requires SameTime(w.clock, Time(w.video, w.packet))
    requires 0.0 <= w.clock < 0x1_8000_0000 as real && 0.0 <= start < TWO_32 as real
    requires 0.0 <= PtsDiff(w.clock, start) < TWO_31 as real
    requires 0.0 <= PtsDiff(StampOf(w.packet), start) < TWO_31 as real - FORERUN
    requires Told(items, w, second, pesDuration, start, playtime)
    ensures var k := FirstPacket(w);
            && |items| > k && items[k - 1].Clock? && items[k].Packet? && items[k].pts.Some?
            && items[k].pts.value % TWO_32 == (items[k - 1].scr + (if w.video then PLAY_OFFSET else 8_000)) % TWO_32
  {
    var p := w.packet;
    var es := ElementaryData(p);
    var duration := PtsDiff(second, Time(w.video, p));
    var scrAt := ScrAt(w.clock, start, playtime, duration, |es|);
    var ptsAt := PtsFrom(StampOf(p), start, playtime, pesDuration, |es|);
    PresentationLead(w, start, playtime, duration, pesDuration, |es|);
    FirstStamp(items, Request(p[3], es, p[7] >= 0x80, true, !w.video, pesDuration >= 0.0, scrAt, ptsAt), w.video)
      by { hide StampDue, ScrAt, PtsFrom, PtsDiff, StampOf, ElementaryData, SameTime, WellFormed, Expected; }
    hide ScrAt, PtsFrom, PtsDiff, Time, StampOf, ElementaryData, SameTime, WellFormed, Expected;
    ReadModulo(scrAt(0), ptsAt(0), if w.video then PLAY_OFFSET else 8_000);
  }

  /** Stamps are read modulo 2^33, references modulo 2^32. */
  lemma ReadModulo(scr: nat, pts: nat, lead: nat)
    requires pts == scr + lead
    ensures pts % TWO_33 % TWO_32 == (scr % TWO_32 + lead) % TWO_32
  {
    var a, b := pts % TWO_33 % TWO_32, (scr % TWO_32 + lead) % TWO_32;
    var k := 2 * (pts / TWO_33) + pts % TWO_33 / TWO_32;
    assert pts == k * TWO_32 + a;
    var j := scr / TWO_32 + (scr % TWO_32 + lead) / TWO_32;
    assert pts == j * TWO_32 + b;
    ModUnique(pts, TWO_32, k, a);
    ModUnique(pts, TWO_32, j, b);
  }

  // ---------------------------------------------------------------- what is written

  /** The elementary data of a packet; none if it is malformed. */
  function Es(p: seq<Byte>): seq<Byte> { if WellFormed(p) then ElementaryData(p) else [] }

  function IdOf(p: seq<Byte>): Byte { if WellFormed(p) then p[3] else PADDING }

  function DataOf(p: seq<Byte>): seq<Tagged> { Tag(IdOf(p), Es(p)) }

  /** The elementary data of the packets written, in order. */
  function DataIn(t: seq<Written>): seq<Tagged> {
    if t == [] then [] else DataIn(t[..|t| - 1]) + DataOf(t[|t| - 1].packet)
  }

  lemma DataInAppend(t: seq<Written>, w: Written)
    ensures DataIn(t + [w]) == DataIn(t) + DataOf(w.packet)
  {
    assert (t + [w])[..|t|] == t;
  }

  /** One stream picked out of the data. */
  function Pick(id: Byte, d: seq<Tagged>): seq<Byte> {
    if d == [] then [] else Pick(id, d[..|d| - 1]) + if d[|d| - 1].id == id then [d[|d| - 1].b] else []
  }

  lemma PickAppend(id: Byte, d: seq<Tagged>, t: Tagged)
    ensures Pick(id, d + [t]) == Pick(id, d) + if t.id == id then [t.b] else []
  {
    assert (d + [t])[..|d|] == d;
  }

  lemma PickNothing(id: Byte)
    ensures Pick(id, []) == []
  {
  }

  lemma {:induction false} PickConcat(id: Byte, d: seq<Tagged>, e: seq<Tagged>)
    ensures Pick(id, d + e) == Pick(id, d) + Pick(id, e)
  {
    hide Pick;
    if e == [] {
      PickNothing(id);
      assert d + e == d && Pick(id, d) + [] == Pick(id, d);
    } else {
      var n := |e| - 1;
      var front, t := e[..n], e[n];
      PickConcat(id, d, front);
      PickAppend(id, d + front, t);
      PickAppend(id, front, t);
      assert e == front + [t] && d + e == (d + front) + [t];
      Assoc(Pick(id, d), Pick(id, front), if t.id == id then [t.b] else []);
    }
  }

  lemma {:induction false} PickTagged(id: Byte, id': Byte, s: seq<Byte>)
    ensures Pick(id, Tag(id', s)) == if id == id' then s else []
  {
    if s != [] {
      var n := |s| - 1;
      PickTagged(id, id', s[..n]);
      assert Tag(id', s)[..n] == Tag(id', s[..n]);
    }
  }

  /** The elementary data of a list of packets. */
  function JoinData(ps: seq<seq<Byte>>): seq<Byte> {
    if ps == [] then [] else Es(ps[0]) + JoinData(ps[1..])
  }

  /** One more packet at the end of a run. */
  lemma {:induction false} MergeExtends(q: Queue, n: nat)
    requires Merges(q, n) && After(q, n).Ready() && !After(q, n).Broken()
    ensures Merges(q, n + 1) && After(q, n + 1) == Rest(After(q, n))
    ensures Trace(q, n + 1) == Trace(q, n) + [Next(After(q, n))]
    decreases n
  {
    hide Rest, Next, PtsDiff, Time;
    if n > 0 {
      MergeExtends(Rest(q), n - 1);
    } else {
      assert Merges(Rest(q), 0);
    }
  }

  /** A stream id tells the packets of one kind from the others. */
  ghost predicate Separates(id: Byte, video: bool, t: seq<Written>) {
    forall i :: 0 <= i < |t| ==> (IdOf(t[i].packet) == id <==> t[i].video == video)
  }

  /** What a demultiplexer picks out of the data written for the video stream is the video data, and
      likewise for sound. */
  lemma {:induction false} StreamsAreWhole(t: seq<Written>, video: bool, id: Byte)
    requires Separates(id, video, t)
    ensures Pick(id, DataIn(t)) == JoinData(Only(video, t))
  {
    hide Es, IdOf, Pick, Only, JoinData;
    if t == [] {
      Nothing(id, video);
    } else {
      var n := |t| - 1;
      var w, front := t[n], t[..n];
      StreamsAreWhole(front, video, id);
      OnlyAppend(video, front, w);
      assert front + [w] == t;
      PickConcat(id, DataIn(front), DataOf(w.packet));
      PickTagged(id, IdOf(w.packet), Es(w.packet));
      if w.video == video {
        JoinDataAppend(Only(video, front), w.packet);
      } else {
        assert Only(video, front) + [] == Only(video, front);
      }
    }
  }

  lemma Nothing(id: Byte, video: bool)
    ensures Pick(id, []) == [] && Only(video, []) == [] && JoinData([]) == []
  {
  }

  lemma {:induction false} OnlyAppend(video: bool, t: seq<Written>, w: Written)
    ensures Only(video, t + [w]) == Only(video, t) + if w.video == video then [w.packet] else []
  {
    if t == [] {
      assert t + [w] == [w];
    } else {
      OnlyAppend(video, t[1..], w);
      assert (t + [w])[1..] == t[1..] + [w];
    }
  }

  lemma {:induction false} JoinDataAppend(ps: seq<seq<Byte>>, p: seq<Byte>)
    ensures JoinData(ps + [p]) == JoinData(ps) + Es(p)
  {
    hide Es;
    if ps == [] {
      assert ps + [p] == [p];
      assert Es(p) + [] == [] + Es(p);
    } else {
      JoinDataAppend(ps[1..], p);
      assert (ps + [p])[1..] == ps[1..] + [p];
    }
  }

  lemma {:induction false} JoinDataConcat(ps: seq<seq<Byte>>, qs: seq<seq<Byte>>)
    ensures JoinData(ps + qs) == JoinData(ps) + JoinData(qs)
  {
    hide Es;
    if qs == [] {
      assert ps + qs == ps;
    } else {
      var n := |qs| - 1;
      var front, last := qs[..n], qs[n];
      hide JoinData;
      JoinDataConcat(ps, front);
      JoinDataAppend(ps + front, last);
      JoinDataAppend(front, last);
      assert qs == front + [last] && ps + qs == (ps + front) + [last];
      Assoc(JoinData(ps), JoinData(front), Es(last));
    }
  }

  /** The stream picked out of what a run wrote, and what is still in its list, are what the list held. */
  lemma StreamsComeBack(q: Queue, n: nat, videoId: Byte, audioId: Byte)
    requires Merges(q, n) && Separates(videoId, true, Trace(q, n)) && Separates(audioId, false, Trace(q, n))
    ensures Pick(videoId, DataIn(Trace(q, n))) + JoinData(After(q, n).video) == JoinData(q.video)
    ensures Pick(audioId, DataIn(Trace(q, n))) + JoinData(After(q, n).audio) == JoinData(q.audio)
  {
    MergeConserves(q, n);
    var t, rest := Trace(q, n), After(q, n);
    hide Merges, Trace, After, Pick, DataIn, JoinData, Only, Separates;
    StreamsAreWhole(t, true, videoId);
    StreamsAreWhole(t, false, audioId);
    JoinDataConcat(Only(true, t), rest.video);
    JoinDataConcat(Only(false, t), rest.audio);
  }
}
