/** When grab's merge goes on and when it gives up: on streams whose neighbours are at most a second apart it
    never looks for a new start, and it writes nothing that is not within a second of its surroundings. */
module Steadiness {
  import opened Bytes
  import opened Timestamps
  import opened Remuxer
  import opened Merge

  /** Two times at most a second apart. */
  predicate Near(x: real, y: real) { -90_000.0 <= PtsDiff(x, y) <= 90_000.0 }

  /** The heads of the lists, the video packet and the clock, and the first two packets of each list. */
  predicate WithinASecond(q: Queue)
    requires q.Ready()
  {
    && Near(q.V(0), q.A(0)) && Near(q.V(0), q.clock)
    && Near(q.V(1), q.V(0)) && Near(q.A(1), q.A(0))
  }

  ghost predicate Close(video: bool, ps: seq<seq<Byte>>) {
    forall i :: 0 <= i < |ps| - 1 ==> Near(Time(video, ps[i + 1]), Time(video, ps[i]))
  }

  /** Stamped packets, in order, neighbours at most a second apart. */
  ghost predicate Even(audio: seq<seq<Byte>>, video: seq<seq<Byte>>) {
    && AllTimed(audio) && Ascends(false, audio) && Close(false, audio)
    && AllTimed(video) && Ascends(true, video) && Close(true, video)
  }

  /** Even streams whose heads are at most a second apart, and a clock that shows the time of the next
      packet and has run on since the last audio packet only. */
  ghost predicate Steady(q: Queue) {
    && Even(q.audio, q.video) && OnTime(q) && Near(q.V(0), q.A(0))
    && 0.0 <= q.clock && q.clock + PtsDiff(q.A(0), Lead(q)) <= TWO_32 as real + FORERUN + SECOND
  }

  // ---------------------------------------------------------------- small differences

  const LIMIT: real := 0x1_8000_0000 as real

  /** A small difference is what `pts_diff` gives, across the end of the 32-bit clock too. */
  lemma ShortDiff(l: real, r: real, d: real)
    requires 0.0 <= l < LIMIT && 0.0 <= r < LIMIT && SameTime(l, r + d) && -500_000.0 <= d <= 500_000.0
    ensures PtsDiff(l, r) == d
  {
    var k: int :| l - (r + d) == Turns(k);
    FewTurns(k, l - r - d);
  }

  lemma FewTurns(k: int, x: real)
    requires x == Turns(k) && -LIMIT - 500_000.0 < x < LIMIT + 500_000.0
    ensures k == 0 || k == 1 || k == -1
  {
    TurnsApart(k);
  }

  lemma TurnsApart(k: int)
    ensures k >= 2 ==> Turns(k) >= Turns(2)
    ensures k <= -2 ==> Turns(k) <= Turns(-2)
  {
  }

  /** Small differences add up. */
  lemma DiffsAdd(x: real, y: real, z: real)
    requires 0.0 <= x < LIMIT && 0.0 <= y < LIMIT && 0.0 <= z < LIMIT
    requires Abs(PtsDiff(x, y)) <= 180_000.0 && Abs(PtsDiff(y, z)) <= 180_000.0
    ensures PtsDiff(x, z) == PtsDiff(x, y) + PtsDiff(y, z)
  {
    DifferenceLeads(x, y);
    DifferenceLeads(y, z);
    var d, e := PtsDiff(x, y), PtsDiff(y, z);
    hide PtsDiff, SameTime;
    SameTimeShift(z + e, y, d);
    SameTimeTransitive(z + e + d, y + d, x);
    SameTimeBack(z + e + d, x);
    assert z + (d + e) == z + e + d;
    ShortDiff(x, z, d + e);
  }

  lemma SameTimeBack(x: real, y: real)
    requires SameTime(x, y)
    ensures SameTime(y, x)
  {
    var k: int :| x - y == Turns(k);
    assert y - x == Turns(-k);
  }

  /** Near times have opposite differences. */
  lemma DiffBack(x: real, y: real)
    requires 0.0 <= x < LIMIT && 0.0 <= y < LIMIT && Abs(PtsDiff(x, y)) <= 180_000.0
    ensures PtsDiff(y, x) == -PtsDiff(x, y)
  {
  }

  // ---------------------------------------------------------------- a steady queue

  lemma HeadTimes(q: Queue)
    requires Even(q.audio, q.video) && |q.audio| > 0 && |q.video| > 0
    ensures 0.0 <= q.A(0) < TWO_32 as real + FORERUN && 0.0 <= q.V(0) < TWO_32 as real
    ensures |q.audio| > 1 ==> 0.0 <= q.A(1) < TWO_32 as real + FORERUN && 0.0 <= PtsDiff(q.A(1), q.A(0)) <= SECOND
    ensures |q.video| > 1 ==> 0.0 <= q.V(1) < TWO_32 as real && 0.0 <= PtsDiff(q.V(1), q.V(0)) <= SECOND
  {
    TimesInRange(false, q.audio[0]);
    TimesInRange(true, q.video[0]);
    if |q.audio| > 1 { TimesInRange(false, q.audio[1]); }
    if |q.video| > 1 { TimesInRange(true, q.video[1]); }
    hide Timed, StampOf, PtsDiff;
  }

  /** The clock of a steady queue is near the next packet, and so near the video. */
  lemma ClockIsNear(q: Queue)
    requires Steady(q)
    ensures q.clock < LIMIT && PtsDiff(q.V(0), q.clock) == PtsDiff(q.V(0), Lead(q)) && Near(q.V(0), q.clock)
  {
    HeadTimes(q);
    hide Even, Time;
    DiffBack(q.A(0), q.V(0));
    DiffBack(q.V(0), q.A(0));
    var d := PtsDiff(q.V(0), Lead(q));
    DifferenceLeads(q.V(0), Lead(q));
    assert PtsDiff(Lead(q), Lead(q)) == 0.0;
    assert 0.0 <= PtsDiff(q.A(0), Lead(q)) <= SECOND && 0.0 <= d <= SECOND;
    hide PtsDiff, SameTime;
    SameTimeShift(q.clock, Lead(q), d);
    SameTimeTransitive(q.clock + d, Lead(q) + d, q.V(0));
    SameTimeBack(q.clock + d, q.V(0));
    ShortDiff(q.V(0), q.clock, d);
  }

  /** A steady queue needs no new start. */
  lemma SteadyIsSound(q: Queue)
    requires Steady(q) && q.Ready()
    ensures WithinASecond(q) && !q.Broken()
  {
    ClockIsNear(q);
    HeadTimes(q);
    hide Even, PtsDiff, Time, OnTime;
  }

  lemma CloseTail(video: bool, ps: seq<seq<Byte>>)
    requires Close(video, ps) && ps != []
    ensures Close(video, ps[1..])
  {
    hide Time, PtsDiff;
    var tail := ps[1..];
    forall i | 0 <= i < |tail| - 1
      ensures Near(Time(video, tail[i + 1]), Time(video, tail[i]))
    {
      assert tail[i] == ps[i + 1] && tail[i + 1] == ps[i + 1 + 1];
    }
  }

  lemma RestIsEven(q: Queue)
    requires q.Ready() && Even(q.audio, q.video)
    ensures Even(Rest(q).audio, Rest(q).video)
  {
    RestOrderly(q);
    CloseTail(false, q.audio);
    CloseTail(true, q.video);
    hide AllTimed, Ascends, Close, Time, PtsDiff;
  }

  /** Where the differences of the first packets stand to each other. */
  lemma Differences(q: Queue)
    requires Steady(q) && q.Ready()
    ensures var a, v, d := PtsDiff(q.A(1), q.A(0)), PtsDiff(q.V(1), q.V(0)), PtsDiff(q.A(0), q.V(0));
            && 0.0 <= a <= SECOND && 0.0 <= v <= SECOND && -SECOND <= d <= SECOND
            && PtsDiff(q.V(0), q.A(0)) == -d
            && PtsDiff(q.A(1), q.V(0)) == a + d && PtsDiff(q.V(0), q.A(1)) == -(a + d)
            && PtsDiff(q.V(1), q.A(0)) == v - d && PtsDiff(q.A(0), q.V(1)) == d - v
    ensures 0.0 <= q.A(0) < TWO_32 as real + FORERUN
  {
    HeadTimes(q);
    hide Even, Time, OnTime;
    DiffBack(q.V(0), q.A(0));
    hide PtsDiff;
    DiffsAdd(q.A(1), q.A(0), q.V(0));
    DiffsAdd(q.V(1), q.V(0), q.A(0));
    DiffBack(q.A(1), q.V(0));
    DiffBack(q.V(1), q.A(0));
  }

  lemma SelfDiff(x: real)
    requires x >= 0.0
    ensures PtsDiff(x, x) == 0.0
  {
  }

  /** What is left of a steady queue is steady. */
  lemma SteadyGoesOn(q: Queue)
    requires Steady(q) && q.Ready()
    ensures Steady(Rest(q))
  {
    RestIsEven(q);
    StepOnTime(q) by { hide Ascends, Close, Near, PtsDiff, SameTime, Time; }
    Differences(q);
    HeadTimes(q);
    SelfDiff(q.A(0));
    SelfDiff(q.A(1));
    hide Even, Time, OnTime, PtsDiff;
  }

  /** A steady queue never breaks, however many packets are written. */
  lemma {:induction false} SteadyRuns(q: Queue, n: nat)
    requires Steady(q) && Merges(q, n)
    ensures Steady(After(q, n)) && !(After(q, n).Ready() && After(q, n).Broken())
    decreases n
  {
    hide Steady, Rest;
    if n > 0 {
      SteadyGoesOn(q);
      SteadyRuns(Rest(q), n - 1);
    } else if q.Ready() {
      SteadyIsSound(q);
    }
  }

  /** The head of an even queue at a common start. */
  lemma SyncIsSteady(q: Queue)
    requires Even(q.audio, q.video) && |q.audio| > 0 && |q.video| > 0
    requires WellFormed(q.audio[0]) && WellFormed(q.video[0])
    requires InSync(q.audio[0], q.video[0]) && q.clock == StampOf(q.video[0])
    ensures Steady(q)
  {
    SyncIsOnTime(q);
    HeadTimes(q);
    StampBound(q.audio[0]);
    hide Even, OnTime, StampOf;
  }

  // ---------------------------------------------------------------- what is written

  /** Every packet is written when it is within a second of its surroundings. */
  lemma {:induction false} WrittenWithin(q: Queue, n: nat, i: nat)
    requires Merges(q, n) && i < n
    ensures Merges(q, i) && After(q, i).Ready() && WithinASecond(After(q, i))
    ensures Trace(q, n)[i] == Next(After(q, i))
    decreases n
  {
    if i == 0 {
      NotBroken(q);
      hide Rest, Next, PtsDiff, Time;
    } else {
      hide Rest, Next, PtsDiff, Time;
      WrittenWithin(Rest(q), n - 1, i - 1);
    }
  }

  lemma NotBroken(q: Queue)
    requires q.Ready()
    ensures q.Broken() <==> !WithinASecond(q)
  {
    hide PtsDiff, Time;
  }
}
