/** Draining the read-ahead FIFO between an IDE drive and the processor (driver/ide/main.c). */
module IdeFifo {
  type Word = bv16

  /** What the FIFO holds when its level reads 15. */
  const FULL := 4

  function RoundUp(n: nat): nat { (n + 3) / 4 * 4 }

  lemma RoundUpStep(n: nat)
    requires n >= 4
    ensures RoundUp(n) == RoundUp(n - 4) + 4
  {
  }

  lemma RoundUpLast(n: nat)
    requires 1 <= n <= 4
    ensures RoundUp(n) == 4
  {
  }

  /** The words that are read and stored: from four on, in groups of four. */
  function Moved(count: nat): nat {
    if count < 4 then count else RoundUp(count)
  }

  /** The transfer moves what was asked for exactly if that is less than four words or a multiple of
      four; otherwise it moves up to three words too many. */
  lemma MovedIsExact(count: nat)
    ensures Moved(count) == count <==> count < 4 || count % 4 == 0
    ensures count <= Moved(count) <= count + 3
  {
  }

  /** The programmable logic: while reading is repeated it fetches words from the drive on its own, at any
      time, as long as there is room. `source` is the drive's data register: its value on each read. */
  class Cpld {
    const source: nat -> Word
    var fetched: nat
    var fifo: seq<Word>
    var repeating: bool

    ghost predicate Valid()
      reads this
    {
      |fifo| <= FULL && |fifo| <= fetched && forall i :: 0 <= i < |fifo| ==> fifo[i] == source(fetched - |fifo| + i)
    }

    /** Number of words that have come out. */
    ghost function Out(): int
      reads this
    {
      fetched - |fifo|
    }

    constructor (data: nat -> Word)
      ensures Valid() && source == data && fifo == [] && fetched == 0 && !repeating
    {
      source, fetched, fifo, repeating := data, 0, [], false;
    }

    /** The hardware fetches one word. */
    method Fetch()
      requires Valid() && |fifo| < FULL
      modifies this`fetched, this`fifo
      ensures Valid() && Out() == old(Out()) && |fifo| == old(|fifo|) + 1
    {
      fifo := fifo + [source(fetched)];
      fetched := fetched + 1;
    }

    /** Time passes: the hardware may fetch any number of words it is allowed to. */
    method Pass(n: nat)
      requires Valid()
      modifies this`fetched, this`fifo
      ensures Valid() && Out() == old(Out()) && old(|fifo|) <= |fifo|
      ensures !repeating ==> fetched == old(fetched)
    {
      if repeating {
        for i := 0 to n
          invariant Valid() && Out() == old(Out()) && old(|fifo|) <= |fifo|
        {
          if |fifo| < FULL { Fetch(); }
        }
      }
    }

    /** Polling until the level is 15. */
    method WaitFull()
      requires Valid() && repeating
      modifies this`fetched, this`fifo
      ensures Valid() && Out() == old(Out()) && |fifo| == FULL
    {
      while |fifo| < FULL
        invariant Valid() && Out() == old(Out())
      {
        Fetch();
      }
    }

    /** Two words come out. */
    method ReadPair() returns (a: Word, b: Word)
      requires Valid() && |fifo| >= 2
      modifies this`fifo
      ensures Valid() && Out() == old(Out()) + 2 && |fifo| == old(|fifo|) - 2
      ensures a == source(old(Out())) && b == source(old(Out()) + 1)
    {
      a, b := fifo[0], fifo[1];
      fifo := fifo[2..];
    }

    /** `dboxide_inw`: one word, without repetition. */
    method Inw() returns (w: Word)
      requires Valid() && fifo == []
      modifies this`fetched, this`fifo, this`repeating
      ensures Valid() && fifo == [] && fetched == old(fetched) + 1 && !repeating
      ensures w == source(old(fetched))
    {
      repeating := false;
      Fetch();
      w := fifo[0];
      fifo := [];
    }

    /** The data in `dest` is what came out of the drive from word `start` on. */
    ghost predicate Stored(dest: array<Word>, start: nat, n: nat)
      reads dest
    {
      n <= dest.Length && forall j :: 0 <= j < n ==> dest[j] == source(start + j)
    }

    /** Waits for four words and reads them. `last` stops the repetition before that. */
    method ReadFour(last: bool) returns (a: Word, b: Word, c: Word, d: Word)
      requires Valid() && repeating
      modifies this`fetched, this`fifo, this`repeating
      ensures Valid() && repeating == !last && Out() == old(Out()) + 4
      ensures var o := old(Out()); a == source(o) && b == source(o + 1) && c == source(o + 2) && d == source(o + 3)
      ensures last ==> fifo == []
    {
      WaitFull();
      if last { repeating := false; }
      var n: nat := *;
      Pass(n);
      a, b := ReadPair();
      n := *;
      Pass(n);
      c, d := ReadPair();
    }

    /** ... and stores them. */
    method Quad(dest: array<Word>, ghost start: nat, at: nat, last: bool)
      requires Valid() && repeating && at + 4 <= dest.Length
      requires Out() == start + at && Stored(dest, start, at)
      modifies this`fetched, this`fifo, this`repeating, dest
      ensures Valid() && repeating == !last && Out() == start + at + 4 && Stored(dest, start, at + 4)
      ensures forall j :: at + 4 <= j < dest.Length ==> dest[j] == old(dest[j])
      ensures last ==> fifo == []
    {
      hide Valid;
      var a, b, c, d := ReadFour(last);
      dest[at], dest[at + 1], dest[at + 2], dest[at + 3] := a, b, c, d;
    }

    /** The case of less than four words. */
    method Few(dest: array<Word>, count: nat)
      requires Valid() && fifo == [] && count < 4 && count <= dest.Length
      modifies this`fetched, this`fifo, this`repeating, dest
      ensures Valid() && fifo == [] && fetched == old(fetched) + count
      ensures repeating == (count == 0 && old(repeating))
      ensures Stored(dest, old(fetched), count) && forall j :: count <= j < dest.Length ==> dest[j] == old(dest[j])
    {
      for at := 0 to count
        invariant Valid() && fifo == [] && fetched == old(fetched) + at
        invariant repeating == (at == 0 && old(repeating))
        invariant Stored(dest, old(fetched), at) && forall j :: count <= j < dest.Length ==> dest[j] == old(dest[j])
      {
        var w := Inw();
        dest[at] := w;
      }
    }

    /** `dboxide_insw`: the next words of the drive arrive in order, whenever the logic fetches them, and no
        more have left the drive when it returns. `odd` is the complaint of line 269. */
    method Insw(dest: array<Word>, count: nat) returns (odd: bool)
      requires Valid() && !repeating && (count < 4 ==> fifo == []) && Moved(count) <= dest.Length
      modifies this`fetched, this`fifo, this`repeating, dest
      ensures Valid() && fifo == [] && !repeating && fetched == old(Out()) + Moved(count)
      ensures Stored(dest, old(Out()), Moved(count))
      ensures forall j :: Moved(count) <= j < dest.Length ==> dest[j] == old(dest[j])
      ensures odd <==> Moved(count) != count
    {
      if count < 4 {
        Few(dest, count);
        return false;
      }
      odd := Many(dest, count);
    }

    /** Four words and more. Words left in the FIFO would come first. */
    method Many(dest: array<Word>, count: nat) returns (odd: bool)
      requires Valid() && 4 <= count && RoundUp(count) <= dest.Length
      modifies this`fetched, this`fifo, this`repeating, dest
      ensures Valid() && fifo == [] && !repeating && fetched == old(Out()) + RoundUp(count)
      ensures Stored(dest, old(Out()), RoundUp(count))
      ensures forall j :: RoundUp(count) <= j < dest.Length ==> dest[j] == old(dest[j])
      ensures odd <==> RoundUp(count) != count
    {
      ghost var start: nat, moved := Out(), RoundUp(count);
      var at, left := 0, count;
      repeating := true;
      assert Valid() && Stored(dest, start, 0);
      hide Valid, RoundUp, Stored;
      while left > 16
        invariant left >= 4 && at + left == count && RoundUp(left) + at == moved
        invariant Valid() && repeating && Out() == start + at && Stored(dest, start, at)
        invariant forall j :: moved <= j < dest.Length ==> dest[j] == old(dest[j])
      {
        RoundUpStep(left);
        RoundUpStep(left - 4);
        Quad(dest, start, at, false);
        Quad(dest, start, at + 4, false);
        at, left := at + 8, left - 8;
      }
      while left > 4
        invariant 1 <= left && at + left == count && RoundUp(left) + at == moved
        invariant Valid() && repeating && Out() == start + at && Stored(dest, start, at)
        invariant forall j :: moved <= j < dest.Length ==> dest[j] == old(dest[j])
      {
        RoundUpStep(left);
        Quad(dest, start, at, false);
        at, left := at + 4, left - 4;
      }
      odd := left != 4;
      RoundUpLast(left);
      Quad(dest, start, at, true);
    }
  }
}
