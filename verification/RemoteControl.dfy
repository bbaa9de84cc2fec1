/** The two infrared remotes of the front processor (driver/fp/dbox2_fp_rc.c), one at a time: what the
    handlers tell the input layer. A key is named by its row in the key table. */
module RemoteControl {
  import opened Options

  datatype KeyEvent = Pressed(key: nat) | Repeated(key: nat) | Released(key: nat)

  // ---------------------------------------------------------------- orderly traces

  datatype Phase = Up | Down(key: nat) | Broken

  /** Which key is down after a trace; a trace that is not made of blocks "pressed, repeated any number of
      times, released" for one key after the other is broken. */
  function After(trace: seq<KeyEvent>): Phase {
    if trace == [] then Up else
    match (After(trace[..|trace| - 1]), trace[|trace| - 1])
    case (Up, Pressed(k)) => Down(k)
    case (Down(j), Repeated(k)) => if j == k then Down(k) else Broken
    case (Down(j), Released(k)) => if j == k then Up else Broken
    case _ => Broken
  }

  /** Event `i` belongs to a block that event `j` opened. */
  ghost predicate OpenedBy(trace: seq<KeyEvent>, j: nat, i: nat, key: nat)
    requires i <= |trace|
  {
    j < i && trace[j] == Pressed(key) && forall m :: j < m < i ==> trace[m] == Repeated(key)
  }

  /** While a key is down, its block is open. */
  lemma {:induction false} OpenBlock(trace: seq<KeyEvent>)
    requires After(trace).Down?
    ensures exists j :: 0 <= j < |trace| && OpenedBy(trace, j, |trace|, After(trace).key)
  {
    var n := |trace| - 1;
    var key := After(trace).key;
    if trace[n].Repeated? {
      OpenBlock(trace[..n]);
      var j :| 0 <= j < n && OpenedBy(trace[..n], j, n, key);
      forall m | j < m < n
        ensures trace[m] == Repeated(key)
      {
        assert trace[..n][m] == trace[m];
      }
      assert trace[..n][j] == trace[j];
      assert OpenedBy(trace, j, |trace|, key);
    } else {
      assert OpenedBy(trace, n, |trace|, key);
    }
  }

  lemma {:induction false} PrefixIsWhole(trace: seq<KeyEvent>, n: nat)
    requires n <= |trace| && !After(trace).Broken?
    ensures !After(trace[..n]).Broken?
  {
    if n < |trace| {
      PrefixIsWhole(trace[..|trace| - 1], n);
      assert trace[..|trace| - 1][..n] == trace[..n];
    } else {
      assert trace[..n] == trace;
    }
  }

  /** What an unbroken trace looks like: a key is pressed only when none is down, and repeated or released
      only in the block its own press opened. */
  lemma UnbrokenIsBlocks(trace: seq<KeyEvent>, i: nat)
    requires i < |trace| && !After(trace).Broken?
    ensures trace[i].Pressed? ==> i == 0 || trace[i - 1].Released?
    ensures !trace[i].Pressed? ==> exists j :: 0 <= j < i && OpenedBy(trace, j, i, trace[i].key)
  {
    PrefixIsWhole(trace, i + 1);
    PrefixIsWhole(trace, i);
    var before := trace[..i];
    assert trace[..i + 1][..i] == before;
    if trace[i].Pressed? {
      if i > 0 { assert After(before) == Up && before[i - 1] == trace[i - 1]; }
    } else {
      OpenBlock(before);
      var j :| 0 <= j < i && OpenedBy(before, j, i, trace[i].key);
      forall m | j < m < i
        ensures trace[m] == Repeated(trace[i].key)
      {
        assert before[m] == trace[m];
      }
      assert before[j] == trace[j];
      assert OpenedBy(trace, j, i, trace[i].key);
    }
  }

  // ---------------------------------------------------------------- the key table

  /** What the new and the old remote send for each key. */
  const KEYS: seq<(nat, nat)> :=
    [(0x00, 0x00), (0x01, 0x01), (0x02, 0x02), (0x03, 0x03), (0x04, 0x04), (0x05, 0x05), (0x06, 0x06), (0x07, 0x07),
     (0x08, 0x08), (0x09, 0x09), (0x0a, 0x2e), (0x0b, 0x2f), (0x0c, 0x0e), (0x0d, 0x0f), (0x0e, 0x30), (0x0f, 0x28),
     (0x10, 0x0c), (0x11, 0x55), (0x12, 0x52), (0x13, 0x2d), (0x14, 0x3b), (0x15, 0x16), (0x16, 0x17), (0x17, 0x82),
     (0x18, 0x27), (0x1b, 0xff), (0x1c, 0xfb), (0x1d, 0xfd), (0x1e, 0xfc), (0x1f, 0x20), (0x19, 0x53), (0x1a, 0x54)]

  function OldValue(i: nat): nat
    requires i < 32
  {
    KEYS[i].1
  }

  const RELEASE_CODE := 0x5cfe
  const NO_TOGGLE := 0xff

  /** The key the new remote means: every five-bit value is one. */
  function NewKey(v: nat): (k: nat)
    requires v < 32
    ensures k < 32
  {
    if v < 0x19 then v else if v < 0x1b then v + 5 else v - 2
  }

  lemma NewKeys(i: nat)
    requires i < |KEYS|
    ensures KEYS[i].0 < 32 && NewKey(KEYS[i].0) == i
  {
  }

  lemma NewKeyBack(v: nat)
    requires v < 32
    ensures KEYS[NewKey(v)].0 == v
  {
  }

  /** The key the old remote means, or 32. */
  function OldKey(v: nat): nat {
    if v < 10 then v else
    match v
    case 0x2e => 10 case 0x2f => 11 case 0x0e => 12 case 0x0f => 13
    case 0x30 => 14 case 0x28 => 15 case 0x0c => 16 case 0x55 => 17
    case 0x52 => 18 case 0x2d => 19 case 0x3b => 20 case 0x16 => 21
    case 0x17 => 22 case 0x82 => 23 case 0x27 => 24 case 0xff => 25
    case 0xfb => 26 case 0xfd => 27 case 0xfc => 28 case 0x20 => 29
    case 0x53 => 30 case 0x54 => 31
    case _ => 32
  }

  /** No two keys of the old remote have the same value. */
  lemma OldKeys(i: nat, v: nat)
    requires i < 32
    ensures OldKey(v) == i <==> OldValue(i) == v
    ensures OldKey(v) <= 32
  {
    hide OldKey, OldValue;
    OldKeyOfValue(i);
    OldValueOfKey(v);
  }

  lemma OldKeyOfValue(i: nat)
    requires i < 32
    ensures OldKey(OldValue(i)) == i
  {
  }

  lemma OldValueOfKey(v: nat)
    ensures OldKey(v) <= 32 && (OldKey(v) < 32 ==> OldValue(OldKey(v)) == v)
  {
  }

  /** The row of a value, by looking through the table. */
  method FindOld(v: nat) returns (row: nat)
    ensures row == OldKey(v)
  {
    hide OldKey, OldValue;
    row := 0;
    while row < 32
      invariant 0 <= row <= 32 && row <= OldKey(v)
    {
      OldKeys(row, v);
      if OldValue(row) == v { return; }
      row := row + 1;
    }
    OldKeys(0, v);
  }

  // ---------------------------------------------------------------- the handlers

  class Remote {
    var last: Option<nat>
    var toggle: nat
    var timerPending: bool
    var bits: set<nat>           // the keys the input layer takes to be down
    var trace: seq<KeyEvent>

    /** The trace is in order, at most one key is down, and it is so only while the timer runs. */
    ghost predicate Valid()
      reads this
    {
      InOrder() && (timerPending <==> last.Some?)
    }

    /** `Valid` but for the timer. */
    ghost predicate InOrder()
      reads this
    {
      && After(trace) == (match last case None => Up case Some(k) => Down(k))
      && bits == (match last case None => {} case Some(k) => {k})
      && (last.Some? ==> last.value < 32)
    }

    /** The new remote also keeps the toggle bits of the key that is down. */
    ghost predicate ValidNew()
      reads this
    {
      Valid() && (toggle == NO_TOGGLE <==> last.None?)
    }

    constructor (t: nat)
      ensures Valid() && trace == [] && last == None && toggle == t
    {
      last, toggle, timerPending, bits, trace := None, t, false, {}, [];
    }

    /** `input_event`. */
    method Tell(e: KeyEvent)
      modifies this`trace, this`bits
      ensures trace == old(trace) + [e]
      ensures After(trace) == (match (After(old(trace)), e)
                               case (Up, Pressed(k)) => Down(k)
                               case (Down(j), Repeated(k)) => if j == k then Down(k) else Broken
                               case (Down(j), Released(k)) => if j == k then Up else Broken
                               case _ => Broken)
      ensures bits == (match e case Pressed(k) => old(bits) + {k} case Repeated(k) => old(bits) case Released(k) => old(bits) - {k})
    {
      assert (trace + [e])[..|trace|] == trace;
      trace := trace + [e];
      match e
      case Pressed(k) => bits := bits + {k};
      case Repeated(_) =>
      case Released(k) => bits := bits - {k};
    }

    /** `dbox2_fp_rc_keyup`: the timer has expired. */
    method KeyUp()
      requires Valid() && timerPending
      modifies this
      ensures Valid() && last == None && toggle == NO_TOGGLE
      ensures trace == old(trace) + [Released(old(last).value)]
    {
      timerPending := false;
      if last.None? || last.value !in bits { return; }
      toggle := NO_TOGGLE;
      Tell(Released(last.value));
      last := None;
    }

    /** `timer_pending` and `del_timer_sync`: the timer may still expire in between. */
    method StopTimer(late: bool)
      requires Valid()
      modifies this
      ensures InOrder() && !timerPending
      ensures if old(timerPending) && late then
                last == None && toggle == NO_TOGGLE && trace == old(trace) + [Released(old(last).value)]
              else last == old(last) && toggle == old(toggle) && trace == old(trace)
    {
      if timerPending {
        if late { KeyUp(); }
        timerPending := false;
      }
    }

    /** What a code of the new remote tells: the key is repeated if it is down and the toggle bits are the
        same; otherwise what is down is released and the key is pressed. */
    static function NewEvents(down: Option<nat>, toggle: nat, late: bool, key: nat, bits: nat): seq<KeyEvent> {
      if down == None then [Pressed(key)]
      else if down == Some(key) && toggle == bits && !late then [Repeated(key)]
      else [Released(down.value), Pressed(key)]
    }

    /** Lines 184-204, for the key whose code has come. */
    method NewKeyCode(key: nat, t: nat, late: bool)
      requires ValidNew() && key < 32 && t < 4
      modifies this
      ensures ValidNew() && last == Some(key) && toggle == t
      ensures trace == old(trace) + NewEvents(old(last), old(toggle), late, key, t)
    {
      if timerPending {
        StopTimer(late);
        if last.Some? && (last.value != key || toggle != t) && toggle != NO_TOGGLE {
          Tell(Released(last.value));
          toggle := NO_TOGGLE;
        }
      }
      if toggle != NO_TOGGLE && toggle == t {
        Tell(Repeated(key));
      } else {
        Tell(Pressed(key));
      }
      last, toggle := Some(key), t;
      timerPending := true;
    }

    /** `dbox2_fp_new_rc_queue_handler` for one code. `ignored` says that the remote is disabled or that the
        filter for Philips boxes drops the code. Rows are looked through to the end. */
    method NewCode(code: nat, ignored: bool, late: bool)
      requires ValidNew() && code < 0x1_0000
      modifies this
      ensures ValidNew()
      ensures var key, t := NewKey(code % 0x20), code / 0x40 % 4;
              trace == old(trace) + (if ignored then [] else NewEvents(old(last), old(toggle), late, key, t))
    {
      if ignored { return; }
      ghost var key := NewKey(code % 0x20);
      for row := 0 to |KEYS|
        invariant ValidNew()
        invariant row <= key ==> last == old(last) && toggle == old(toggle) && trace == old(trace)
        invariant row > key ==> trace == old(trace) + NewEvents(old(last), old(toggle), late, key, code / 0x40 % 4)
      {
        NewKeys(row);
        NewKeyBack(code % 0x20);
        if KEYS[row].0 == code % 0x20 {
          NewKeyCode(row, code / 0x40 % 4, late);
        }
      }
    }

    /** What a code of the old remote tells. The release code, and any code that is not the one of the key
        that is down, releases that key. */
    static function OldEvents(down: Option<nat>, late: bool, code: nat): (es: seq<KeyEvent>)
      requires down.Some? ==> down.value < 32
    {
      var key := OldKey(code % 0x100);
      var same := down.Some? && code != RELEASE_CODE && OldValue(down.value) == code % 0x100;
      if same && !late then [Repeated(down.value)] else
      (if down.Some? then [Released(down.value)] else []) +
      (if code != RELEASE_CODE && key < 32 then [Pressed(key)] else [])
    }

    /** Lines 133-143, for the key whose code has come. */
    method OldKeyCode(key: nat, late: bool)
      requires Valid() && key < 32 && (last.Some? ==> last.value == key)
      modifies this
      ensures Valid() && last == Some(key)
      ensures trace == old(trace) + (if old(last).None? then [Pressed(key)]
                                     else if late then [Released(key), Pressed(key)] else [Repeated(key)])
    {
      StopTimer(late);
      if last.Some? && last.value == key {
        Tell(Repeated(key));
      } else {
        Tell(Pressed(key));
        last := Some(key);
      }
      timerPending := true;
    }

    /** `dbox2_fp_old_rc_queue_handler` for one code. */
    method OldCode(code: nat, ignored: bool, late: bool)
      requires Valid() && code < 0x1_0000
      modifies this
      ensures Valid()
      ensures old(last).Some? ==> old(last).value < 32
      ensures trace == old(trace) + (if ignored then [] else OldEvents(old(last), late, code))
    {
      if ignored { return; }
      hide OldKey, OldValue, After;
      if code == RELEASE_CODE || (last.Some? && code % 0x100 != OldValue(last.value)) {
        Release(late);
        if code == RELEASE_CODE { return; }
      } else if last.Some? {
        OldKeys(last.value, code % 0x100);
      }
      var row := FindOld(code % 0x100);
      if row < 32 {
        OldKeyCode(row, late);
      }
    }

    /** Lines 121-126: whatever is down is released. */
    method Release(late: bool)
      requires Valid()
      modifies this
      ensures Valid() && last == None
      ensures trace == old(trace) + (if old(last).Some? then [Released(old(last).value)] else [])
    {
      StopTimer(late);
      if last.Some? {
        Tell(Released(last.value));
        last := None;
      }
    }
  }

  /** What the new remote tells of key `k` when a code for `key` comes: it is repeated exactly if it is down, the
      toggle bits are those it was pressed with, and the timer has not expired; otherwise the key of the code is
      pressed, and whatever was down is released. */
  lemma NewTells(down: Option<nat>, toggle: nat, late: bool, key: nat, bits: nat, k: nat)
    ensures var es := Remote.NewEvents(down, toggle, late, key, bits);
            var held := down == Some(key) && toggle == bits && !late;
            && (Pressed(k) in es <==> k == key && !held)
            && (Repeated(k) in es <==> k == key && held)
            && (Released(k) in es <==> down == Some(k) && !held)
  {
  }

  /** What the old remote tells of key `k`: it is pressed exactly if the code is its own and it is not down or
      the timer has expired, repeated if it is down and has not, and released if it is down and the code is not
      its own or the timer has expired. The release code is nobody's. */
  lemma OldTells(down: Option<nat>, late: bool, code: nat, k: nat)
    requires (down.Some? ==> down.value < 32) && k < 32
    ensures var es := Remote.OldEvents(down, late, code);
            var own := code != RELEASE_CODE && OldValue(k) == code % 0x100;
            && (Pressed(k) in es <==> own && (down != Some(k) || late))
            && (Repeated(k) in es <==> own && down == Some(k) && !late)
            && (Released(k) in es <==> down == Some(k) && (!own || late))
  {
    OldKeys(k, code % 0x100);
    if down.Some? { OldKeys(down.value, code % 0x100); }
    hide OldKey, OldValue;
  }
}
