/** The hand-over of audio and video buffers in grab, in every interleaving of the reader thread
    (`AVReadThreadDBox2`) and the main loop.

    Each slot has a mutex. The reader always holds the slot it fills and takes the next one only by
    `trylock`; the main loop takes the slot at `read_idx` by `trylock`, uses it, clears it and
    releases it. A step is one operation on a mutex or one use of a slot under it. */
module Handover {
  import opened Bytes
  import opened Cyclic

  /** The contents of an `AVBuf`; the `*_valid` fields are the lengths. */
  datatype Slot = Slot(resync: bool, video: seq<Byte>, audio: seq<Byte>, aux: seq<Byte>)
  {
    predicate IsUsed() { video != [] || audio != [] || aux != [] || resync }
    predicate HasData() { video != [] || audio != [] }
  }

  /** The result of `clear`. */
  const CLEAR := Slot(false, [], [], [])

  datatype Owner = Free | Reader | Main

  datatype ReaderPc = Polling | Filled | HoldingNext
  datatype MainPc = Looking | Holding | Taken | Cleared | Released

  /** What the reader did with a filled buffer. */
  datatype Event = Dropped(lost: Slot) | Passed(slot: Slot)

  datatype State = State(
    slots: seq<Slot>,
    owner: seq<Owner>,
    rec: nat,              // rec_idx
    rpc: ReaderPc,
    read: nat,             // read_idx
    mpc: MainPc,
    log: seq<Event>,       // the reader's decisions so far
    received: seq<Slot>)   // what the main loop has been given so far
  {
    function N(): nat { |slots| }
    /** The index after `i`, as both threads compute it. */
    function After(i: nat): nat { if i + 1 >= |slots| then 0 else i + 1 }
  }

  datatype Step =
    | Poll(video: seq<Byte>, audio: seq<Byte>)  // what the reads return; empty when not up to date
    | TryNext
    | CheckNext
    | TryRead | Take | Clear | Release | Advance

  predicate Shape(s: State) {
    s.N() > 0 && |s.owner| == s.N() && s.rec < s.N() && s.read < s.N()
  }

  predicate Enabled(s: State, step: Step) {
    match step
    case Poll(_, _) => s.rpc.Polling?
    case TryNext => s.rpc.Filled?
    case CheckNext => s.rpc.HoldingNext?
    case TryRead => s.mpc.Looking?
    case Take => s.mpc.Holding?
    case Clear => s.mpc.Taken?
    case Release => s.mpc.Cleared?
    case Advance => s.mpc.Released?
  }

  /** The reader stays with its slot: the data is lost, the slot cleared and marked. */
  function Drop(s: State): State
    requires Shape(s)
  {
    s.(slots := s.slots[s.rec := CLEAR.(resync := true)], rpc := Polling,
       log := s.log + [Dropped(s.slots[s.rec])])
  }

  function Apply(s: State, step: Step): State
    requires Shape(s) && Enabled(s, step)
  {
    match step
    case Poll(video, audio) =>
      var slot := s.slots[s.rec];
      var v := if video != [] then video else slot.video;
      var a := if audio != [] then audio else slot.audio;
      var slot' := slot.(video := v, audio := a);
      s.(slots := s.slots[s.rec := slot'], rpc := if slot'.HasData() then Filled else Polling)
    case TryNext =>
      var next := s.After(s.rec);
      if s.owner[next] != Free then Drop(s) else s.(owner := s.owner[next := Reader], rpc := HoldingNext)
    case CheckNext =>
      var next := s.After(s.rec);
      if s.slots[next].IsUsed() then Drop(s.(owner := s.owner[next := Free]))
      else s.(owner := s.owner[s.rec := Free], rec := next, rpc := Polling,
              log := s.log + [Passed(s.slots[s.rec])])
    case TryRead =>
      if s.owner[s.read] != Free then s else s.(owner := s.owner[s.read := Main], mpc := Holding)
    case Take => s.(received := s.received + [s.slots[s.read]], mpc := Taken)
    case Clear => s.(slots := s.slots[s.read := CLEAR], mpc := Cleared)
    case Release => s.(owner := s.owner[s.read := Free], mpc := Released)
    case Advance => s.(read := s.After(s.read), mpc := Looking)
  }

  /** The thread that takes a step, and the slots whose fields it reads or writes. */
  function Thread(step: Step): Owner {
    if step.Poll? || step.TryNext? || step.CheckNext? then Reader else Main
  }

  function Touched(s: State, step: Step): set<nat>
    requires Shape(s)
  {
    match step
    case Poll(_, _) => {s.rec}
    case TryNext => {s.rec}
    case CheckNext => {s.rec, s.After(s.rec)}
    case TryRead => {}
    case Take => {s.read}
    case Clear => {s.read}
    case Release => {}
    case Advance => {}
  }

  /** The step uses only slots whose mutex its thread holds. */
  predicate Held(s: State, step: Step)
    requires Shape(s)
  {
    forall i :: i in Touched(s, step) ==> i < s.N() && s.owner[i] == Thread(step)
  }

  // ---------------------------------------------------------------- the invariant

  /** The buffers handed over, in order of production. */
  function Handed(log: seq<Event>): (h: seq<Slot>) {
    if log == [] then [] else
    Handed(log[..|log| - 1]) + match log[|log| - 1]
                               case Passed(slot) => [slot]
                               case Dropped(_) => []
  }

  /** A buffer is marked for resync exactly if something was dropped just before it, or it is the
      first. */
  ghost predicate MarkedRight(log: seq<Event>) {
    forall i :: 0 <= i < |log| ==> MarkedAt(log, i)
  }

  ghost predicate MarkedAt(log: seq<Event>, i: nat)
    requires i < |log|
  {
    log[i].Passed? ==> (log[i].slot.resync <==> i == 0 || log[i - 1].Dropped?)
  }

  /** How many buffers the main loop is completely done with. */
  function Done(s: State): int {
    if s.mpc.Looking? || s.mpc.Holding? then |s.received| else |s.received| - 1
  }

  /** The oldest buffer whose slot is not free for the reader. */
  function Oldest(s: State): int {
    if s.mpc.Released? then |s.received| else Done(s)
  }

  predicate MainHolds(s: State) { s.mpc.Holding? || s.mpc.Taken? || s.mpc.Cleared? }

  ghost predicate IndexInv(s: State) {
    var h := |Handed(s.log)|;
    && Shape(s)
    && 0 <= Done(s) && |s.received| <= h < Oldest(s) + s.N()
    && s.rec == h % s.N() && s.read == Done(s) % s.N()
    && (s.mpc.Holding? ==> |s.received| < h)
    && (s.rpc.HoldingNext? ==> s.After(s.rec) != s.rec && (MainHolds(s) ==> s.After(s.rec) != s.read))
  }

  ghost predicate OwnerInv(s: State)
    requires Shape(s)
  {
    forall i :: 0 <= i < s.N() ==>
      s.owner[i] == if i == s.rec || (s.rpc.HoldingNext? && i == s.After(s.rec)) then Reader
                    else if MainHolds(s) && i == s.read then Main
                    else Free
  }

  ghost predicate SlotInv(s: State)
    requires Shape(s) && 0 <= Done(s)
  {
    var h := Handed(s.log);
    && |s.received| <= |h| && s.received == h[..|s.received|]
    // filled slots hold what was handed over
    && (forall j :: |s.received| <= j < |h| ==> s.slots[j % s.N()] == h[j])
    && (forall j :: 0 <= j < |h| ==> h[j].HasData())
    && (s.mpc.Taken? ==> s.received != [] && s.slots[s.read] == s.received[|s.received| - 1])
    // the slot after the last filled one is the reader's, the others are clear
    && (forall j :: |h| < j < (if s.mpc.Taken? then Done(s) else |s.received|) + s.N() ==> s.slots[j % s.N()] == CLEAR)
    && var slot := s.slots[s.rec];
       && slot.aux == [] && slot.HasData() == !s.rpc.Polling?
       && slot.resync == (s.log == [] || s.log[|s.log| - 1].Dropped?)
  }

  ghost predicate Inv(s: State) {
    IndexInv(s) && OwnerInv(s) && SlotInv(s) && MarkedRight(s.log)
  }

  // ---------------------------------------------------------------- preservation

  /** The index after the one of position `x` is that of `x + 1`. */
  lemma AfterIsNext(s: State, x: nat)
    requires s.N() > 0
    ensures s.After(x % s.N()) == (x + 1) % s.N()
  {
    WrapIsRemainder(x, 1, s.N());
  }

  /** Slots of different positions in one turn are different. */
  lemma OtherSlots(s: State, x: nat)
    requires s.N() > 0
    ensures forall j :: x < j < x + s.N() ==> j % s.N() != x % s.N()
    ensures forall j :: 0 <= j < x < j + s.N() ==> j % s.N() != x % s.N()
  {
    forall j | x < j < x + s.N() ensures j % s.N() != x % s.N() {
      CellsDiffer(x, j, s.N());
    }
    forall j | 0 <= j < x < j + s.N() ensures j % s.N() != x % s.N() {
      CellsDiffer(j, x, s.N());
    }
  }

  /** The main loop never holds the reader's slot. */
  lemma MainIsElsewhere(s: State)
    requires IndexInv(s) && MainHolds(s)
    ensures s.read != s.rec
  {
    CellsDiffer(Done(s), |Handed(s.log)|, s.N());
  }

  /** A slot is used only by the thread that holds its mutex. */
  lemma TouchedIsHeld(s: State, step: Step)
    requires Inv(s) && Enabled(s, step)
    ensures Held(s, step)
  {
    hide SlotInv, MarkedRight, Handed;
    if MainHolds(s) {
      MainIsElsewhere(s);
    }
  }

  lemma PollKeeps(s: State, video: seq<Byte>, audio: seq<Byte>)
    requires Inv(s) && Enabled(s, Poll(video, audio))
    ensures Inv(Apply(s, Poll(video, audio)))
  {
    hide Handed;
    var s' := Apply(s, Poll(video, audio));
    OtherSlots(s, |Handed(s.log)|);
  }

  lemma HandedAppend(log: seq<Event>, e: Event)
    ensures Handed(log + [e]) == Handed(log) + if e.Passed? then [e.slot] else []
  {
    assert (log + [e])[..|log|] == log;
  }

  lemma DropKeepsPlaces(s: State)
    requires IndexInv(s.(rpc := Filled)) && OwnerInv(s.(rpc := Filled))
    ensures IndexInv(Drop(s)) && OwnerInv(Drop(s))
  {
    hide Handed;
    HandedAppend(s.log, Dropped(s.slots[s.rec]));
  }

  lemma DropKeepsSlots(s: State)
    requires IndexInv(s.(rpc := Filled)) && SlotInv(s)
    ensures Shape(Drop(s)) && 0 <= Done(Drop(s)) && SlotInv(Drop(s))
  {
    HandedAppend(s.log, Dropped(s.slots[s.rec]));
    OtherSlots(s, |Handed(s.log)|);
    hide Handed;
    var s', h := Drop(s), Handed(s.log);
    assert Handed(s'.log) == h && s'.received == s.received && s'.N() == s.N();
    forall j | |s.received| <= j < |h|
      ensures s'.slots[j % s.N()] == h[j]
    {
    }
    var last := if s.mpc.Taken? then Done(s) else |s.received|;
    forall j | |h| < j < last + s.N()
      ensures s'.slots[j % s.N()] == CLEAR
    {
    }
    if s.mpc.Taken? { OtherSlots(s, Done(s)); }
  }

  /** One more event, which is marked right. */
  lemma MarksGrow(log: seq<Event>, e: Event)
    requires MarkedRight(log)
    requires e.Passed? ==> (e.slot.resync <==> log == [] || log[|log| - 1].Dropped?)
    ensures MarkedRight(log + [e])
  {
    var log' := log + [e];
    forall i | 0 <= i < |log'|
      ensures MarkedAt(log', i)
    {
      if i < |log| { assert MarkedAt(log, i); }
    }
  }

  /** Dropping, from a state in which at most the owners need repair. */
  lemma DropKeeps(s: State)
    requires IndexInv(s.(rpc := Filled)) && SlotInv(s) && MarkedRight(s.log) && OwnerInv(s.(rpc := Filled))
    ensures Inv(Drop(s))
  {
    DropKeepsPlaces(s);
    DropKeepsSlots(s);
    MarksGrow(s.log, Dropped(s.slots[s.rec]));
    hide Handed, OwnerInv, IndexInv, SlotInv, MarkedRight;
  }

  lemma TryNextKeeps(s: State)
    requires Inv(s) && Enabled(s, TryNext)
    ensures Inv(Apply(s, TryNext))
  {
    hide Handed;
    if s.owner[s.After(s.rec)] != Free {
      assert s.(rpc := Filled) == s;
      DropKeeps(s);
    } else if MainHolds(s) {
      MainIsElsewhere(s);
    }
  }

  /** A whole turn leads back to the same slot. */
  lemma SameSlot(s: State, x: nat)
    requires s.N() > 0
    ensures (x + s.N()) % s.N() == x % s.N()
  {
    WrapIsRemainder(x, s.N(), s.N());
  }

  /** The slot after the reader's is unused only if the ring has room for one more. */
  lemma UnusedMeansRoom(s: State)
    requires Inv(s) && s.rpc.HoldingNext? && !s.slots[s.After(s.rec)].IsUsed()
    ensures |Handed(s.log)| + 1 < Oldest(s) + s.N()
  {
    hide Handed;
    var h := |Handed(s.log)|;
    AfterIsNext(s, h);
    SameSlot(s, Oldest(s));
  }

  lemma PassKeepsIndices(s: State)
    requires Inv(s) && Enabled(s, CheckNext) && !s.slots[s.After(s.rec)].IsUsed()
    ensures IndexInv(Apply(s, CheckNext))
  {
    UnusedMeansRoom(s);
    hide Handed, SlotInv, MarkedRight, OwnerInv;
    AfterIsNext(s, |Handed(s.log)|);
    HandedAppend(s.log, Passed(s.slots[s.rec]));
  }

  lemma PassKeepsOwners(s: State)
    requires Inv(s) && Enabled(s, CheckNext) && !s.slots[s.After(s.rec)].IsUsed()
    ensures Shape(Apply(s, CheckNext)) && OwnerInv(Apply(s, CheckNext))
  {
    hide Handed, SlotInv, MarkedRight;
    if MainHolds(s) {
      MainIsElsewhere(s);
    }
  }

  lemma PassKeepsSlots(s: State)
    requires Inv(s) && Enabled(s, CheckNext) && !s.slots[s.After(s.rec)].IsUsed()
    ensures Shape(Apply(s, CheckNext)) && 0 <= Done(Apply(s, CheckNext)) && SlotInv(Apply(s, CheckNext))
  {
    hide Handed, OwnerInv, MarkedRight;
    var s' := Apply(s, CheckNext);
    UnusedMeansRoom(s);
    AfterIsNext(s, |Handed(s.log)|);
    HandedAppend(s.log, Passed(s.slots[s.rec]));
    var h, h' := Handed(s.log), Handed(s'.log);
    assert s'.slots[s'.rec] == CLEAR;
    assert h'[..|s.received|] == h[..|s.received|];
  }

  lemma PassKeeps(s: State)
    requires Inv(s) && Enabled(s, CheckNext) && !s.slots[s.After(s.rec)].IsUsed()
    ensures Inv(Apply(s, CheckNext))
  {
    PassKeepsIndices(s);
    PassKeepsOwners(s);
    PassKeepsSlots(s);
    MarksGrow(s.log, Passed(s.slots[s.rec]));
    hide Handed, OwnerInv, IndexInv, MarkedRight;
  }

  lemma CheckNextKeeps(s: State)
    requires Inv(s) && Enabled(s, CheckNext)
    ensures Inv(Apply(s, CheckNext))
  {
    hide Handed;
    if s.slots[s.After(s.rec)].IsUsed() {
      DropKeeps(s.(owner := s.owner[s.After(s.rec) := Free]));
    } else {
      PassKeeps(s);
    }
  }

  lemma TryReadKeeps(s: State)
    requires Inv(s) && Enabled(s, TryRead)
    ensures Inv(Apply(s, TryRead))
  {
    hide Handed;
  }

  lemma TakeKeeps(s: State)
    requires Inv(s) && Enabled(s, Take)
    ensures Inv(Apply(s, Take))
  {
    hide Handed;
  }

  lemma ClearKeeps(s: State)
    requires Inv(s) && Enabled(s, Clear)
    ensures Inv(Apply(s, Clear))
  {
    hide Handed;
    MainIsElsewhere(s);
    OtherSlots(s, Done(s));
    SameSlot(s, Done(s));
  }

  lemma ReleaseKeeps(s: State)
    requires Inv(s) && Enabled(s, Release)
    ensures Inv(Apply(s, Release))
  {
    hide Handed;
    MainIsElsewhere(s);
  }

  lemma AdvanceKeeps(s: State)
    requires Inv(s) && Enabled(s, Advance)
    ensures Inv(Apply(s, Advance))
  {
    hide Handed;
    AfterIsNext(s, Done(s));
  }

  lemma StepKeeps(s: State, step: Step)
    requires Inv(s) && Enabled(s, step)
    ensures Inv(Apply(s, step))
  {
    hide Inv;
    match step
    case Poll(video, audio) => PollKeeps(s, video, audio);
    case TryNext => TryNextKeeps(s);
    case CheckNext => CheckNextKeeps(s);
    case TryRead => TryReadKeeps(s);
    case Take => TakeKeeps(s);
    case Clear => ClearKeeps(s);
    case Release => ReleaseKeeps(s);
    case Advance => AdvanceKeeps(s);
  }

  // ---------------------------------------------------------------- runs

  /** The reader has locked and marked slot 0, the main loop is about to look at it. */
  ghost predicate Init(s: State) {
    && s.N() > 0 && |s.owner| == s.N() && s.rec == 0 && s.read == 0
    && s.rpc.Polling? && s.mpc.Looking? && s.log == [] && s.received == []
    && (forall i :: 0 <= i < s.N() ==> s.owner[i] == if i == 0 then Reader else Free)
    && (forall i :: 0 <= i < s.N() ==> s.slots[i] == if i == 0 then CLEAR.(resync := true) else CLEAR)
  }

  lemma InitHolds(s: State)
    requires Init(s)
    ensures Inv(s)
  {
    forall j | 0 < j < s.N() ensures s.slots[j % s.N()] == CLEAR {
      OtherSlots(s, 0);
    }
  }

  /** The states a schedule leads through. */
  ghost predicate Run(s: State, steps: seq<Step>, s': State)
    decreases |steps|
  {
    if steps == [] then s == s'
    else Shape(s) && Enabled(s, steps[0]) && Run(Apply(s, steps[0]), steps[1..], s')
  }

  lemma {:induction false} RunKeeps(s: State, steps: seq<Step>, s': State)
    requires Inv(s) && Run(s, steps, s')
    ensures Inv(s')
    decreases |steps|
  {
    hide Inv;
    if steps != [] {
      StepKeeps(s, steps[0]);
      RunKeeps(Apply(s, steps[0]), steps[1..], s');
    }
  }

  /** What holds in every reachable state: a slot is used only by the thread that holds its mutex;
      the slots from the main loop's next one up to the reader's are exactly those filled and not
      yet taken; the main loop has received exactly the first of the buffers handed over, in order
      of production; and a buffer carries the resync mark exactly if data was dropped just before
      it or it is the first. */
  ghost predicate Orderly(s: State) {
    Shape(s) && Exclusive(s) && InOrder(s) && MarkedRight(s.log)
  }

  ghost predicate Exclusive(s: State)
    requires Shape(s)
  {
    forall step :: Enabled(s, step) ==> Held(s, step)
  }

  ghost predicate InOrder(s: State)
    requires Shape(s)
  {
    var h := Handed(s.log);
    && s.received <= h && |h| - |s.received| < s.N() && s.rec == |h| % s.N()
    && 0 <= Done(s) && s.read == Done(s) % s.N()
    && (forall j :: 0 <= j < |h| ==> h[j].HasData())
    && (forall j :: |s.received| <= j < |h| ==> s.slots[j % s.N()] == h[j])
    && (forall j :: |h| < j < |s.received| + s.N() ==> EmptyOrDone(s, j % s.N()))
  }

  /** Slot `i` is clear, or the main loop is about to clear it. */
  predicate EmptyOrDone(s: State, i: nat)
    requires i < s.N()
  {
    s.slots[i] == CLEAR || (s.mpc.Taken? && i == s.read)
  }

  lemma InvIsExclusive(s: State)
    requires Shape(s) && Inv(s)
    ensures Exclusive(s)
  {
    hide Inv;
    forall step | Enabled(s, step) ensures Held(s, step) {
      TouchedIsHeld(s, step);
    }
  }

  lemma InvIsInOrder(s: State)
    requires Inv(s)
    ensures InOrder(s)
  {
    hide Handed, MarkedRight, OwnerInv;
    var h := Handed(s.log);
    forall j | |h| < j < |s.received| + s.N() ensures EmptyOrDone(s, j % s.N()) {
      if s.mpc.Taken? && j == Done(s) + s.N() {
        SameSlot(s, Done(s));
      }
    }
  }

  /** In every interleaving of the two threads, from the start, all of this holds. */
  lemma RunsAreOrderly(s: State, steps: seq<Step>, s': State)
    requires Init(s) && Run(s, steps, s')
    ensures Orderly(s')
  {
    InitHolds(s);
    RunKeeps(s, steps, s');
    InvIsExclusive(s');
    InvIsInOrder(s');
    hide InOrder, Exclusive, SlotInv, OwnerInv, Init, Run;
  }

  // ---------------------------------------------------------------- nothing is lost but by dropping

  /** What one poll returned. */
  datatype Read = Read(video: seq<Byte>, audio: seq<Byte>)

  /** What the polls of a schedule returned, those that returned nothing left out. */
  function Polled(steps: seq<Step>): seq<Read> {
    if steps == [] then [] else
    (match steps[0]
     case Poll(video, audio) => if video != [] || audio != [] then [Read(video, audio)] else []
     case _ => [])
    + Polled(steps[1..])
  }

  function DataOf(slot: Slot): Read { Read(slot.video, slot.audio) }

  function SlotOf(e: Event): Slot {
    match e
    case Dropped(lost) => lost
    case Passed(slot) => slot
  }

  /** The buffers dropped or handed over, in order, and the one waiting, are what was polled. */
  ghost predicate Accounted(s: State, polled: seq<Read>) {
    && s.rec < s.N() && |polled| == |s.log| + (if s.rpc.Polling? then 0 else 1)
    && (forall i :: 0 <= i < |s.log| ==> DataOf(SlotOf(s.log[i])) == polled[i])
    && (!s.rpc.Polling? ==> DataOf(s.slots[s.rec]) == polled[|s.log|])
  }

  /** What the reader's slot holds while it polls. */
  lemma PollsIntoEmpty(s: State)
    requires Inv(s) && s.rpc.Polling?
    ensures s.slots[s.rec].video == [] && s.slots[s.rec].audio == []
  {
    hide Handed;
  }

  lemma StepAccounts(s: State, step: Step, polled: seq<Read>)
    requires Inv(s) && Enabled(s, step) && Accounted(s, polled)
    ensures Accounted(Apply(s, step), polled + Polled([step]))
  {
    assert Polled([step][1..]) == [];
    if step.Poll? { PollsIntoEmpty(s); }
    if MainHolds(s) { MainIsElsewhere(s); }
    assert polled + [] == polled;
    hide Handed, OwnerInv, SlotInv, MarkedRight;
  }

  lemma PolledCons(steps: seq<Step>)
    requires steps != []
    ensures Polled(steps) == Polled([steps[0]]) + Polled(steps[1..])
  {
    assert [steps[0]][1..] == [] && Polled([]) == [];
  }

  /** Whatever is polled is handed over or dropped, once and in order, as it was read. */
  lemma {:induction false} RunAccounts(s: State, steps: seq<Step>, s': State, polled: seq<Read>)
    requires Inv(s) && Run(s, steps, s') && Accounted(s, polled)
    ensures Accounted(s', polled + Polled(steps))
    decreases |steps|
  {
    hide Inv, Accounted, Polled;
    if steps == [] {
      NothingPolled();
      assert polled + [] == polled;
    } else {
      var s1, p1 := Apply(s, steps[0]), polled + Polled([steps[0]]);
      StepKeeps(s, steps[0]);
      StepAccounts(s, steps[0], polled);
      RunAccounts(s1, steps[1..], s', p1);
      PolledCons(steps);
      assert p1 + Polled(steps[1..]) == polled + Polled(steps);
    }
  }

  lemma NothingPolled()
    ensures Polled([]) == []
  {
  }

  lemma PolledIsAccounted(s: State, steps: seq<Step>, s': State)
    requires Init(s) && Run(s, steps, s')
    ensures Accounted(s', Polled(steps))
  {
    InitHolds(s);
    hide Run, Inv;
    RunAccounts(s, steps, s', []);
    assert [] + Polled(steps) == Polled(steps);
  }

  /** The slot after the reader's is free of buffers that are not done with. */
  ghost predicate Room(s: State) { |Handed(s.log)| + 1 < Oldest(s) + s.N() }

  /** A filled buffer is dropped only if the ring is full: at once if the main loop holds the slot it needs,
      and otherwise when that slot has been looked at; if there is room it is handed over. */
  lemma DroppedIfFull(s: State)
    requires Inv(s)
    ensures s.rpc.Filled? ==>
              var log := Apply(s, TryNext).log;
              (Room(s) ==> log == s.log) && (!Room(s) && MainHolds(s) ==> log == s.log + [Dropped(s.slots[s.rec])])
    ensures s.rpc.HoldingNext? ==>
              var slot := s.slots[s.rec];
              Apply(s, CheckNext).log == s.log + [if Room(s) then Passed(slot) else Dropped(slot)]
  {
    if s.rpc.Filled? { NextIsTaken(s); }
    if s.rpc.HoldingNext? {
      if s.slots[s.After(s.rec)].IsUsed() {
        UsedMeansFull(s);
      } else {
        UnusedMeansRoom(s);
      }
    }
    hide Handed, OwnerInv, SlotInv, MarkedRight, IndexInv;
  }

  lemma NextIsTaken(s: State)
    requires Inv(s) && s.rpc.Filled?
    ensures Room(s) ==> s.owner[s.After(s.rec)] == Free
    ensures !Room(s) && MainHolds(s) ==> s.owner[s.After(s.rec)] != Free
  {
    hide Handed, SlotInv, MarkedRight;
    var h := |Handed(s.log)|;
    AfterIsNext(s, h);
    SameSlot(s, Oldest(s));
    if Room(s) {
      OtherSlots(s, h + 1);
      if s.N() > 1 { OtherSlots(s, h); }
    }
  }

  lemma UsedMeansFull(s: State)
    requires Inv(s) && s.rpc.HoldingNext? && s.slots[s.After(s.rec)].IsUsed()
    ensures !Room(s)
  {
    hide Handed, OwnerInv, MarkedRight;
    AfterIsNext(s, |Handed(s.log)|);
  }
}
