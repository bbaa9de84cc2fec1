/** The multiplex loop of ggrab (`generate_program_stream`): which stream's pack goes out next, with which
    clock reference, and into which file. */
module Multiplex {
  import opened Bytes
  import opened Timestamps
  import opened Propack

  /** A filled pack of one stream, waiting to go out. */
  datatype Waiting = Waiting(wanted: real, flag: StartFlag, bytes: seq<Byte>)

  /** A pack that went out. */
  datatype Sent = Sent(stream: nat, wanted: real, scr: real, flag: StartFlag, bytes: seq<Byte>)

  // ---------------------------------------------------------------- the clock

  function Max(x: real, y: real): real { if x < y then y else x }

  /** `act_scr` after packs that wanted these clock references, from 0. */
  function Clock(wanted: seq<real>): real {
    if wanted == [] then 0.0 else Scr(wanted, |wanted| - 1) + TICKS
  }

  /** The clock reference pack `j` gets. */
  function Scr(wanted: seq<real>, j: nat): real
    requires j < |wanted|
    decreases j
  {
    Max(if j == 0 then 0.0 else Scr(wanted, j - 1) + TICKS, wanted[j])
  }

  /** Times that keep the multiplex rate and send no pack before it wants to go out. */
  ghost predicate Admissible(wanted: seq<real>, x: seq<real>) {
    && |x| == |wanted|
    && (forall j :: 0 <= j < |x| ==> x[j] >= wanted[j] && x[j] >= 0.0)
    && (forall i, j :: 0 <= i < |x| && j == i + 1 < |x| ==> x[j] - x[i] >= TICKS)
  }

  function Scrs(wanted: seq<real>): (x: seq<real>)
    ensures |x| == |wanted|
  {
    seq(|wanted|, j requires 0 <= j < |wanted| => Scr(wanted, j))
  }

  /** The references given are admissible ... */
  lemma ScrsAreAdmissible(wanted: seq<real>)
    ensures Admissible(wanted, Scrs(wanted))
  {
    forall j | 0 <= j < |wanted|
      ensures Scr(wanted, j) >= wanted[j] && Scr(wanted, j) >= 0.0
    {
      NotBeforeZero(wanted, j);
    }
  }

  lemma {:induction false} NotBeforeZero(wanted: seq<real>, j: nat)
    requires j < |wanted|
    ensures Scr(wanted, j) >= 0.0
  {
    if j > 0 { NotBeforeZero(wanted, j - 1); }
  }

  /** ... and no admissible ones are earlier. */
  lemma {:induction false} ScrsAreEarliest(wanted: seq<real>, x: seq<real>, j: nat)
    requires Admissible(wanted, x) && j < |wanted|
    ensures Scr(wanted, j) <= x[j]
  {
    if j > 0 { ScrsAreEarliest(wanted, x, j - 1); }
  }

  /** Whatever the packs want, from pack `i` to pack `j` the references advance by at least the time the
      multiplex rate allows for the packs in between. */
  lemma {:induction false} RateIsKept(wanted: seq<real>, i: nat, j: nat)
    requires i <= j < |wanted|
    ensures (j - i) as real * (PACK * 8) as real * 90_000.0
         <= MPLEX_RATE as real * (Scr(wanted, j) - Scr(wanted, i))
  {
    hide Scr;
    if i < j {
      RateIsKept(wanted, i, j - 1);
      assert Scr(wanted, j) >= Scr(wanted, j - 1) + TICKS by { Advance(wanted, j); }
    }
  }

  lemma Advance(wanted: seq<real>, j: nat)
    requires 0 < j < |wanted|
    ensures Scr(wanted, j) >= Scr(wanted, j - 1) + TICKS
  {
  }

  /** The low 32 bits of the reference a reader finds in a pack. */
  function AsRead(scr: real): nat { ClockRef(ScrBytes(ScrTicks(scr))) }

  /** The last tick before 2^33, in which the written reference already starts again. */
  predicate LastTick(scr: real) { (TWO_33 - 1) as real < scr < TWO_33 as real }

  /** References are read back rounded down, modulo 2^32. */
  lemma ReadsBack(scr: real)
    requires scr >= 0.0
    ensures AsRead(scr) == (scr.Floor + if LastTick(scr) then 1 else 0) % TWO_32
  {
    hide ScrBytes, ClockRef, ScrTicks;
    ScrRoundTrip(ScrTicks(scr));
    if LastTick(scr) {
      assert scr.Floor == TWO_33 - 1;
    } else if scr >= TWO_33 as real {
      assert scr.Floor == ScrTicks(scr) + 2 * TWO_32;
    }
  }

  /** The same of the references as a reader of two packs less than 2^32 ticks apart gets them, modulo 2^32
      and up to the tick that rounding down, and the one that starting again, may lose. */
  lemma RateAsRead(wanted: seq<real>, i: nat, j: nat)
    requires i <= j < |wanted| && Scr(wanted, j) - Scr(wanted, i) < (TWO_32 - 2) as real
    ensures var elapsed := (AsRead(Scr(wanted, j)) - AsRead(Scr(wanted, i))) % TWO_32;
            (j - i) * PACK * 8 * 90_000 <= MPLEX_RATE * (elapsed + if i < j && LastTick(Scr(wanted, i)) then 2 else 1)
  {
    hide Scr, AsRead, LastTick;
    if i == j { return; }
    var s, t := Scr(wanted, i), Scr(wanted, j);
    RateIsKept(wanted, i, j);
    NotBeforeZero(wanted, i);
    NotBeforeZero(wanted, j);
    ReadsBack(s);
    ReadsBack(t);
    Later(i, j, s, t);
    Elapsed(s, t, if LastTick(s) then 1 else 0, if LastTick(t) then 1 else 0);
    Scaled(j - i, t - s, t.Floor - s.Floor + 1);
  }

  lemma Later(i: nat, j: nat, s: real, t: real)
    requires i < j && (j - i) as real * (PACK * 8) as real * 90_000.0 <= MPLEX_RATE as real * (t - s)
    ensures s + 1.0 < t
  {
    assert (j - i) as real >= 1.0;
  }

  /** From reals to integers. */
  lemma Scaled(n: nat, d: real, e: int)
    requires n as real * (PACK * 8) as real * 90_000.0 <= MPLEX_RATE as real * d && d <= e as real
    ensures n * PACK * 8 * 90_000 <= MPLEX_RATE * e
  {
    assert n as real * (PACK * 8) as real * 90_000.0 == (n * PACK * 8 * 90_000) as real;
    assert (MPLEX_RATE * e) as real == MPLEX_RATE as real * e as real;
  }

  lemma Elapsed(s: real, t: real, x: int, y: int)
    requires 0.0 <= s && s + 1.0 < t && t - s < (TWO_32 - 2) as real && 0 <= x <= 1 && 0 <= y <= 1
    ensures t - s <= (t.Floor - s.Floor + 1) as real
    ensures ((t.Floor + y) % TWO_32 - (s.Floor + x) % TWO_32) % TWO_32 == t.Floor - s.Floor + y - x
  {
    var a, b := s.Floor + x, t.Floor + y;
    assert 0 <= b - a < TWO_32;
    var u, v := a % TWO_32, b % TWO_32;
    assert v - u == b - a || v - u == b - a - TWO_32;
  }

  // ---------------------------------------------------------------- the files

  function All(files: seq<seq<Sent>>): seq<Sent> {
    if files == [] then [] else All(files[..|files| - 1]) + files[|files| - 1]
  }

  function Wants(sent: seq<Sent>): (w: seq<real>)
    ensures |w| == |sent|
  {
    seq(|sent|, j requires 0 <= j < |sent| => sent[j].wanted)
  }

  /** Every file but the first begins with a video pack that starts a sequence. */
  ghost predicate CutAtStarts(files: seq<seq<Sent>>) {
    forall f :: 0 < f < |files| ==> files[f] != [] && files[f][0].stream == 0 && files[f][0].flag == StartSeq
  }

  /** The pack that is sent is the one that wants to go first; of several, the one of the first stream.
      If no pack wants a reference of 33 bits, the last stream served is served again. */
  ghost predicate Choice(waiting: seq<Waiting>, last: nat, n: nat) {
    && n < |waiting|
    && if exists i :: 0 <= i < |waiting| && waiting[i].wanted < TWO_33 as real then
         && (forall i :: 0 <= i < |waiting| ==> waiting[n].wanted <= waiting[i].wanted)
         && (forall i :: 0 <= i < n ==> waiting[n].wanted < waiting[i].wanted)
       else n == last
  }

  /** Lines 445-454. */
  method ChooseNext(waiting: seq<Waiting>, last: nat) returns (n: nat)
    requires last < |waiting|
    ensures Choice(waiting, last, n)
  {
    n := last;
    var least := TWO_33 as real;
    for i := 0 to |waiting|
      invariant n < |waiting| && least <= TWO_33 as real
      invariant forall j :: 0 <= j < i ==> least <= waiting[j].wanted
      invariant if least < TWO_33 as real then
                  n < i && waiting[n].wanted == least && forall j :: 0 <= j < n ==> least < waiting[j].wanted
                else n == last
    {
      if waiting[i].wanted < least {
        least, n := waiting[i].wanted, i;
      }
    }
  }

  lemma {:induction false} AllAppend(files: seq<seq<Sent>>, s: Sent)
    requires files != []
    ensures var n := |files| - 1;
            All(files[n := files[n] + [s]]) == All(files) + [s] && All(files + [[s]]) == All(files) + [s]
  {
    var n := |files| - 1;
    var longer := files[n := files[n] + [s]];
    assert longer[..n] == files[..n];
    assert (files + [[s]])[..n + 1] == files;
  }

  /** What is fixed about the packs before the last stays fixed. */
  lemma {:induction false} ScrOfPrefix(wanted: seq<real>, w: real, j: nat)
    requires j < |wanted|
    ensures Scr(wanted + [w], j) == Scr(wanted, j)
  {
    if j > 0 { ScrOfPrefix(wanted, w, j - 1); }
  }

  /** All packs sent carry the references `Scr` gives them, in their headers too. */
  ghost predicate OnSchedule(sent: seq<Sent>) {
    forall j :: 0 <= j < |sent| ==> Timed(sent, j)
  }

  ghost predicate Timed(sent: seq<Sent>, j: nat)
    requires j < |sent|
  {
    && |sent[j].bytes| == PACK && sent[j].scr == Scr(Wants(sent), j)
    && sent[j].bytes[4..10] == ScrBytes(ScrTicks(sent[j].scr))
  }

  lemma ScheduleGrows(sent: seq<Sent>, s: Sent)
    requires OnSchedule(sent) && |s.bytes| == PACK
    requires s.scr == Max(Clock(Wants(sent)), s.wanted) && s.bytes[4..10] == ScrBytes(ScrTicks(s.scr))
    ensures OnSchedule(sent + [s]) && Clock(Wants(sent + [s])) == s.scr + TICKS
  {
    var all := sent + [s];
    assert Wants(all) == Wants(sent) + [s.wanted];
    forall j | 0 <= j < |sent|
      ensures Timed(all, j)
    {
      assert Timed(sent, j);
      ScrOfPrefix(Wants(sent), s.wanted, j);
    }
    if sent != [] { ScrOfPrefix(Wants(sent), s.wanted, |sent| - 1); }
  }

  /** One round, seen from the waiting packs: some pack is in range, the chosen stream's pack is replaced by
      one that does not want to go earlier. */
  ghost predicate Serves(waiting: seq<Waiting>, last: nat, n: nat, after: seq<Waiting>) {
    && Choice(waiting, last, n) && |after| == |waiting|
    && (exists i :: 0 <= i < |waiting| && waiting[i].wanted < TWO_33 as real)
    && waiting[n].wanted <= after[n].wanted
    && (forall i :: 0 <= i < |waiting| && i != n ==> after[i] == waiting[i])
  }

  /** If no stream goes back in time, the packs go out in the order they want to: the merge is sorted. */
  lemma {:induction false} ServedInOrder(rounds: seq<seq<Waiting>>, served: seq<nat>, i: nat, j: nat, x: nat)
    requires |rounds| == |served|
    requires forall r :: 0 <= r < |served| ==> served[r] < |rounds[r]|
    requires forall r :: 0 < r < |served| ==> Serves(rounds[r - 1], if r < 2 then 0 else served[r - 2], served[r - 1], rounds[r])
    requires i < j < |served| && x < |rounds[j]|
    ensures rounds[i][served[i]].wanted <= rounds[j][x].wanted
  {
    assert Serves(rounds[j - 1], if j < 2 then 0 else served[j - 2], served[j - 1], rounds[j]);
    if i < j - 1 {
      ServedInOrder(rounds, served, i, j - 1, x);
    }
  }

  ghost predicate Whole(packs: seq<Waiting>) {
    forall i :: 0 <= i < |packs| ==> |packs[i].bytes| == PACK
  }

  lemma Chosen(waiting: seq<Waiting>, last: nat, n: nat)
    requires Choice(waiting, last, n)
    ensures n < |waiting|
  {
  }

  /** A waiting pack with its clock reference filled in. */
  function Dispatch(n: nat, w: Waiting, scr: real): (s: Sent)
    requires |w.bytes| == PACK
    ensures s.stream == n && s.wanted == w.wanted && s.scr == scr && s.flag == w.flag
    ensures |s.bytes| == PACK && s.bytes[4..10] == ScrBytes(ScrTicks(scr))
    ensures s.bytes[..4] == w.bytes[..4] && s.bytes[10..] == w.bytes[10..]
  {
    Sent(n, w.wanted, scr, w.flag, w.bytes[..4] + ScrBytes(ScrTicks(scr)) + w.bytes[10..])
  }

  class Multiplexer {
    const maxFileSize: nat
    var waiting: seq<Waiting>
    var next: nat
    var actScr: real
    var files: seq<seq<Sent>>
    var fileSize: nat
    var newFile: bool
    var term: bool

    ghost predicate Valid()
      reads this
    {
      && next < |waiting| && Whole(waiting)
      && files != [] && CutAtStarts(files) && fileSize == PACK * |files[|files| - 1]|
      && OnSchedule(All(files)) && actScr == Clock(Wants(All(files)))
    }

    constructor (packs: seq<Waiting>, limit: nat)
      requires |packs| > 0 && Whole(packs)
      ensures Valid() && All(files) == [] && waiting == packs
    {
      waiting, maxFileSize := packs, limit;
      next, actScr, files, fileSize, newFile, term := 0, 0.0, [[]], 0, false, false;
    }

    /** Lines 467-471 and 481-482: the pack goes to the current file, or to a new one. */
    method Put(s: Sent)
      requires files != [] && CutAtStarts(files) && fileSize == PACK * |files[|files| - 1]| && |s.bytes| == PACK
      modifies this`files, this`fileSize, this`newFile
      ensures files != [] && CutAtStarts(files) && fileSize == PACK * |files[|files| - 1]|
      ensures All(files) == All(old(files)) + [s]
      ensures var cut := old(newFile) && s.stream == 0 && s.flag == StartSeq;
              |files| == |old(files)| + (if cut then 1 else 0) && newFile == (old(newFile) && !cut)
    {
      hide All;
      AllAppend(files, s);
      if newFile && s.stream == 0 && s.flag == StartSeq {
        files, newFile, fileSize := files + [[]], false, 0;
      }
      files := files[|files| - 1 := files[|files| - 1] + [s]];
      fileSize := fileSize + |s.bytes|;
      assert [] + [s] == [s];
      assert |files| > |old(files)| ==> files == old(files) + [[s]];
    }

    /** Lines 441-465: the stream to be served next. Nothing more goes out when the recording ends, which is
        before a sequence start. `stop` and `cut` are requests that signals or the clock made since the last
        round. */
    method Select(stop: bool, cut: bool) returns (done: bool)
      requires Valid()
      modifies this`term, this`newFile, this`next
      ensures Valid() && Choice(waiting, old(next), next)
      ensures term == (old(term) || stop) && newFile == (old(newFile) || cut || fileSize > maxFileSize)
      ensures done == (term && next == 0 && waiting[next].flag == StartSeq)
    {
      hide OnSchedule, Clock, Wants, All, CutAtStarts, Choice, Whole;
      term := term || stop;
      newFile := newFile || cut;
      if fileSize > maxFileSize { newFile := true; }
      next := ChooseNext(waiting, next);
      assert next < |waiting| by { Chosen(waiting, old(next), next); }
      done := term && next == 0 && waiting[next].flag == StartSeq;
    }

    /** Lines 473-482: the pack of the chosen stream gets its reference and goes out. */
    method Send()
      requires Valid()
      modifies this`files, this`fileSize, this`newFile, this`actScr
      ensures Valid() && Whole(waiting)
      ensures All(files) == All(old(files)) + [Dispatch(next, waiting[next], Max(old(actScr), waiting[next].wanted))]
      ensures var cut := old(newFile) && next == 0 && waiting[next].flag == StartSeq;
              |files| == |old(files)| + (if cut then 1 else 0)
    {
      hide OnSchedule, Clock, Wants, All, CutAtStarts, ScrBytes, ScrTicks, Dispatch;
      var w := waiting[next];
      if actScr < w.wanted { actScr := w.wanted; }
      var s := Dispatch(next, w, actScr);
      ScheduleGrows(All(files), s);
      actScr := actScr + TICKS;
      Put(s);
    }

    /** What `fill_pp` makes of the stream served takes the place of the pack that went out. */
    method Refill(refill: Waiting)
      requires Valid() && |refill.bytes| == PACK
      modifies this`waiting
      ensures Valid() && waiting == old(waiting)[next := refill]
    {
      waiting := waiting[next := refill];
    }

    /** One round of the loop. */
    method Round(refill: Waiting, stop: bool, cut: bool) returns (done: bool)
      requires Valid() && |refill.bytes| == PACK
      modifies this
      ensures Valid() && Choice(old(waiting), old(next), next) && Whole(old(waiting))
      ensures var w := old(waiting)[next];
              var seqStart := next == 0 && w.flag == StartSeq;
              && done == ((old(term) || stop) && seqStart)
              && (if done then files == old(files) && waiting == old(waiting)
                  else && waiting == old(waiting)[next := refill]
                       && All(files) == All(old(files)) + [Dispatch(next, w, Max(old(actScr), w.wanted))])
              && var another := !done && seqStart && (old(newFile) || cut || old(fileSize) > maxFileSize);
                 |files| == |old(files)| + (if another then 1 else 0)
    {
      hide OnSchedule, Clock, Wants, All, CutAtStarts, ScrBytes, ScrTicks, Choice, Dispatch, Max, Whole;
      done := Select(stop, cut);
      if !done {
        Send();
        Refill(refill);
      }
    }
  }
}
