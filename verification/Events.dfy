/** The multi-subscriber event queue (driver/event/event.c). */
module Events {
  import opened Bits

  const SIZE := 32
  const MAX_OPEN := 5

  type Event = x: int | 0 <= x < 0x1_0000_0000
  const ALL: Event := 0xffff_ffff

  // ---------------------------------------------------------------- what a subscriber is owed

  /** What happened to one handle since it was opened. */
  datatype Action = Wrote(event: Event) | SetFilter(mask: Event) | Took

  /** `event & filter`, as a condition. */
  predicate Masked(e: Event, mask: Event) { And(e, mask, 32) != 0 }

  /** An event passes a filter exactly if some bit is set in both; the filter a handle starts with stops
      nothing but 0. */
  lemma PassesByBits(e: Event, mask: Event)
    ensures Masked(e, mask) <==> exists k :: 0 <= k < 32 && Bit(e, k) && Bit(mask, k)
    ensures Masked(e, ALL) <==> e != 0
  {
    hide And, Bit, Pow2;
    Pow2Of32();
    AndOnes(e, 32);
    AndIsZero(e, mask, 32);
  }

  /** The filter in force. */
  function FilterAfter(log: seq<Action>): Event {
    if log == [] then ALL else
    match log[|log| - 1]
    case SetFilter(mask) => mask
    case _ => FilterAfter(log[..|log| - 1])
  }

  /** How many events have been read. */
  function Reads(log: seq<Action>): nat {
    if log == [] then 0 else Reads(log[..|log| - 1]) + if log[|log| - 1].Took? then 1 else 0
  }

  /** The events the handle gets to read: those that matched its filter when they were written, while
      fewer than 32 were unread. */
  function Owed(log: seq<Action>): seq<Event> {
    if log == [] then [] else
    var before := log[..|log| - 1];
    match log[|log| - 1]
    case Wrote(e) =>
      if Masked(e, FilterAfter(before)) && |Owed(before)| - Reads(before) < SIZE then Owed(before) + [e]
      else Owed(before)
    case _ => Owed(before)
  }

  /** All events that matched the filter when they were written. */
  function Matching(log: seq<Action>): seq<Event> {
    if log == [] then [] else
    var before := log[..|log| - 1];
    match log[|log| - 1]
    case Wrote(e) => if Masked(e, FilterAfter(before)) then Matching(before) + [e] else Matching(before)
    case _ => Matching(before)
  }

  /** A matching event was written while 32 were unread. */
  ghost predicate Overrun(log: seq<Action>) {
    log != [] &&
    var before := log[..|log| - 1];
    (Overrun(before) ||
      (log[|log| - 1].Wrote? && Masked(log[|log| - 1].event, FilterAfter(before)) &&
        |Matching(before)| - Reads(before) >= SIZE))
  }

  /** A subscriber misses nothing exactly if it never falls 32 matching events behind; and what it gets is
      never more than what matched. */
  lemma {:induction false} OwedIsComplete(log: seq<Action>)
    ensures |Owed(log)| <= |Matching(log)|
    ensures Overrun(log) <==> |Owed(log)| < |Matching(log)|
    ensures !Overrun(log) ==> Owed(log) == Matching(log)
    ensures Within(Owed(log), Matching(log))
  {
    OwedIsWithin(log);
    hide Masked, Within;
    if log != [] { OwedIsComplete(log[..|log| - 1]); }
  }

  lemma {:induction false} OwedIsWithin(log: seq<Action>)
    ensures Within(Owed(log), Matching(log))
  {
    if log != [] {
      var before := log[..|log| - 1];
      OwedIsWithin(before);
      var s, t := Owed(before), Matching(before);
      match log[|log| - 1]
      case Wrote(e) => WithinAppend(s, t, e);
      case _ =>
    }
  }

  lemma WithinAppend(s: seq<Event>, t: seq<Event>, e: Event)
    requires Within(s, t)
    ensures Within(s, t + [e]) && Within(s + [e], t + [e])
  {
    assert (t + [e])[..|t|] == t && (s + [e])[..|s|] == s;
  }

  /** `s` is `t` with some events left out. */
  predicate Within(s: seq<Event>, t: seq<Event>) {
    if s == [] then true
    else if t == [] then false
    else Within(s, t[..|t| - 1]) || (s[|s| - 1] == t[|t| - 1] && Within(s[..|s| - 1], t[..|t| - 1]))
  }

  lemma Appended(log: seq<Action>, a: Action)
    ensures var l := log + [a];
            && FilterAfter(l) == (if a.SetFilter? then a.mask else FilterAfter(log))
            && Reads(l) == Reads(log) + (if a.Took? then 1 else 0)
            && Owed(l) == (if a.Wrote? && Masked(a.event, FilterAfter(log)) && |Owed(log)| - Reads(log) < SIZE
                           then Owed(log) + [a.event] else Owed(log))
  {
    hide Masked;
    assert (log + [a])[..|log|] == log;
  }

  function Writes(es: seq<Event>): (w: seq<Action>)
    ensures |w| == |es|
  {
    seq(|es|, i requires 0 <= i < |es| => Wrote(es[i]))
  }

  // ---------------------------------------------------------------- one handle

  /** The `n` cells of the ring from `from` on. */
  function Cells(ring: seq<Event>, from: nat, n: nat): (s: seq<Event>)
    requires |ring| == SIZE
    ensures |s| == n
  {
    seq(n, i requires 0 <= i < n => ring[(from + i) % SIZE])
  }

  lemma CellsPush(ring: seq<Event>, from: nat, n: nat, e: Event)
    requires |ring| == SIZE && from < SIZE && n < SIZE
    ensures Cells(ring[(from + n) % SIZE := e], from, n + 1) == Cells(ring, from, n) + [e]
  {
    var ring' := ring[(from + n) % SIZE := e];
    forall i | 0 <= i < n
      ensures Cells(ring', from, n + 1)[i] == Cells(ring, from, n)[i]
    {
      assert (from + i) % SIZE != (from + n) % SIZE;
    }
  }

  lemma NextPlace(from: nat, n: nat)
    requires from < SIZE
    ensures var p := (from + n) % SIZE;
            (from + (n + 1)) % SIZE == if p + 1 == SIZE then 0 else p + 1
  {
  }

  lemma CellsPop(ring: seq<Event>, from: nat, n: nat)
    requires |ring| == SIZE && from < SIZE && 0 < n <= SIZE
    ensures Cells(ring, from, n) == [ring[from]] + Cells(ring, (from + 1) % SIZE, n - 1)
  {
    var rest := Cells(ring, (from + 1) % SIZE, n - 1);
    forall i | 0 <= i < |rest|
      ensures rest[i] == Cells(ring, from, n)[1..][i]
    {
      assert ((from + 1) % SIZE + i) % SIZE == (from + 1 + i) % SIZE;
    }
  }

  datatype ReadResult = TooSmall | Data(event: Event) | Fault | Again | Interrupted | Sleeping

  class Handle {
    var ring: seq<Event>
    var free: nat
    var ptr: nat
    var readPtr: nat
    var filter: Event
    ghost var log: seq<Action>
    ghost var taken: seq<Event>

    ghost function Pending(): seq<Event>
      requires |ring| == SIZE && free <= SIZE
      reads this
    {
      Cells(ring, readPtr, SIZE - free)
    }

    /** What has been read, and what is waiting, is what the subscriber is owed. */
    ghost predicate Valid()
      reads this
    {
      && |ring| == SIZE && free <= SIZE && readPtr < SIZE && ptr == (readPtr + (SIZE - free)) % SIZE
      && filter == FilterAfter(log) && |taken| == Reads(log) && taken + Pending() == Owed(log)
    }

    /** As `event_open` leaves it. */
    constructor ()
      ensures Valid() && log == [] && taken == []
    {
      ring := seq(SIZE, _ => 0);
      free, ptr, readPtr, filter := SIZE, 0, 0, ALL;
      log, taken := [], [];
    }

    /** Lines 74-81 of `event_write_message`. */
    method Offer(e: Event)
      requires Valid()
      modifies this
      ensures Valid() && log == old(log) + [Wrote(e)] && taken == old(taken)
    {
      hide Owed, FilterAfter, Reads, Masked, Cells;
      Appended(log, Wrote(e));
      ghost var p := Pending();
      if free > 0 && Masked(e, filter) {
        CellsPush(ring, readPtr, SIZE - free, e);
        NextPlace(readPtr, SIZE - free);
        free := free - 1;
        ring := ring[ptr := e];
        ptr := ptr + 1;
        if ptr == SIZE { ptr := 0; }
        assert Pending() == p + [e];
        assert taken + (p + [e]) == (taken + p) + [e];
      }
      log := log + [Wrote(e)];
    }

    /** `EVENT_SET_FILTER`. */
    method SetMask(mask: Event)
      requires Valid()
      modifies this`filter, this`log
      ensures Valid() && log == old(log) + [SetFilter(mask)] && taken == old(taken)
    {
      hide Owed, FilterAfter, Reads;
      Appended(log, SetFilter(mask));
      filter := mask;
      log := log + [SetFilter(mask)];
    }

    /** One pass of the loop in `event_read`; `Sleeping` means another one after the next wake-up.
        `copied` says whether `put_user` works. Only data that arrives is taken from the queue. */
    method Read(count: nat, copied: bool, nonblocking: bool, signalled: bool) returns (r: ReadResult)
      requires Valid()
      modifies this
      ensures Valid()
      ensures r.Data? ==> log == old(log) + [Took] && taken == old(taken) + [r.event]
      ensures !r.Data? ==> log == old(log) && taken == old(taken)
      ensures var some := |old(taken)| < |Owed(old(log))|;
              && (r.TooSmall? <==> count < 4)
              && (r.Data? <==> count >= 4 && some && copied) && (r.Fault? <==> count >= 4 && some && !copied)
              && (r.Again? <==> count >= 4 && !some && nonblocking)
              && (r.Interrupted? <==> count >= 4 && !some && !nonblocking && signalled)
    {
      hide Owed, FilterAfter, Reads, Cells;
      if count < 4 { return TooSmall; }
      if free != SIZE {
        if !copied { return Fault; }
        ghost var p := Pending();
        Appended(log, Took);
        CellsPop(ring, readPtr, SIZE - free);
        r := Data(ring[readPtr]);
        free := free + 1;
        readPtr := readPtr + 1;
        if readPtr == SIZE { readPtr := 0; }
        log := log + [Took];
        taken := taken + [r.event];
        assert [r.event] + Pending() == p;
        assert taken + Pending() == old(taken) + ([r.event] + Pending());
        return;
      }
      if nonblocking { return Again; }
      if signalled { return Interrupted; }
      return Sleeping;
    }
  }

  // ---------------------------------------------------------------- the table of handles

  function Count(slots: seq<Handle?>): nat {
    if slots == [] then 0 else Count(slots[..|slots| - 1]) + if slots[|slots| - 1] == null then 0 else 1
  }

  lemma {:induction false} CountFull(slots: seq<Handle?>)
    ensures Count(slots) <= |slots|
    ensures Count(slots) == |slots| <==> forall i :: 0 <= i < |slots| ==> slots[i] != null
  {
    if slots != [] { CountFull(slots[..|slots| - 1]); }
  }

  lemma {:induction false} CountNone(slots: seq<Handle?>)
    requires forall i :: 0 <= i < |slots| ==> slots[i] == null
    ensures Count(slots) == 0
  {
    if slots != [] { CountNone(slots[..|slots| - 1]); }
  }

  lemma {:induction false} CountUpdate(slots: seq<Handle?>, i: nat, h: Handle?)
    requires i < |slots|
    ensures Count(slots[i := h]) == Count(slots) - (if slots[i] == null then 0 else 1) + (if h == null then 0 else 1)
  {
    var n := |slots| - 1;
    if i < n {
      CountUpdate(slots[..n], i, h);
      assert slots[i := h][..n] == slots[..n][i := h];
    } else {
      assert slots[i := h][..n] == slots[..n];
    }
  }

  /** Filling or emptying a slot. */
  lemma SlotUpdate(slots: seq<Handle?>, i: nat, h: Handle?)
    requires i < |slots| && Distinct(slots) && (h == null || h !in slots)
    ensures Distinct(slots[i := h])
    ensures forall g: Handle :: g in slots[i := h] <==> (g in slots && g != slots[i]) || g == h
  {
    var s := slots[i := h];
    forall g: Handle | g in slots && g != slots[i]
      ensures g in s
    {
      var j :| 0 <= j < |slots| && slots[j] == g;
      assert s[j] == g;
    }
    assert s[i] == h;
  }

  ghost predicate Distinct(slots: seq<Handle?>) {
    forall i, j :: 0 <= i < j < |slots| && slots[i] != null ==> slots[i] != slots[j]
  }

  class Driver {
    var openHandle: int
    var slots: seq<Handle?>

    ghost function Handles(): set<Handle>
      reads this
    {
      set h: Handle | h in slots
    }

    ghost predicate Valid()
      reads this, Handles()
    {
      && |slots| == MAX_OPEN && Distinct(slots) && openHandle == Count(slots)
      && forall h: Handle :: h in slots ==> h.Valid()
    }

    constructor ()
      ensures Valid() && Handles() == {}
    {
      openHandle := 0;
      slots := [null, null, null, null, null];
      new;
      CountNone(slots);
    }

    /** `event_open`. It fails exactly if no slot is free: when the count allows it, one is found. */
    method Open() returns (h: Handle?)
      requires Valid()
      modifies this
      ensures Valid()
      ensures h == null <==> null !in old(slots)
      ensures h == null ==> slots == old(slots)
      ensures h != null ==> fresh(h) && Handles() == old(Handles()) + {h} && h.log == [] && h.taken == []
    {
      CountFull(slots);
      if openHandle == MAX_OPEN { return null; }
      openHandle := openHandle + 1;
      h := new Handle();
      ghost var k :| 0 <= k < MAX_OPEN && slots[k] == null;
      var i := 0;
      while slots[i] != null
        invariant 0 <= i <= k
        decreases k - i
      {
        i := i + 1;
      }
      CountUpdate(slots, i, h);
      SlotUpdate(slots, i, h);
      slots := slots[i := h];
    }

    /** `event_release` of an open handle: only that one goes. */
    method Release(h: Handle)
      requires Valid() && h in slots
      modifies this
      ensures Valid() && Handles() == old(Handles()) - {h}
    {
      openHandle := openHandle - 1;
      ghost var k :| 0 <= k < MAX_OPEN && slots[k] == h;
      var i := 0;
      while slots[i] != h
        invariant 0 <= i <= k
        decreases k - i
      {
        i := i + 1;
      }
      CountUpdate(slots, i, null);
      SlotUpdate(slots, i, null);
      slots := slots[i := null];
    }

    /** `event_write_message`: every open handle is offered every event, in order. */
    method WriteMessage(events: seq<Event>)
      requires Valid()
      modifies Handles()
      ensures Valid()
      ensures forall h: Handle :: h in slots ==> h.log == old(h.log) + Writes(events) && h.taken == old(h.taken)
    {
      for s := 0 to |events|
        invariant Valid()
        invariant forall h: Handle :: h in slots ==> h.log == old(h.log) + Writes(events[..s]) && h.taken == old(h.taken)
      {
        OfferAll(events[s]);
        assert Writes(events[..s + 1]) == Writes(events[..s]) + [Wrote(events[s])];
      }
      assert events[..|events|] == events;
    }

    /** The inner loop: one event for all handles. */
    method OfferAll(e: Event)
      requires Valid()
      modifies Handles()
      ensures Valid()
      ensures forall h: Handle :: h in slots ==> h.log == old(h.log) + [Wrote(e)] && h.taken == old(h.taken)
    {
      for i := 0 to MAX_OPEN
        invariant Valid()
        invariant forall j :: 0 <= j < MAX_OPEN && slots[j] != null ==>
                    slots[j].log == (if j < i then old(slots[j].log) + [Wrote(e)] else old(slots[j].log))
                    && slots[j].taken == old(slots[j].taken)
      {
        if slots[i] != null { slots[i].Offer(e); }
      }
    }
  }
}
