/** The stream ring buffer of ggrab: a physical ring of `size` bytes followed by a three-byte
    mirror, addressed by 64-bit logical stream positions.

    `stream` is every byte ever committed. The class invariant says that the ring shows the window
    `[lOut, lIn)` of it; each method is stated in terms of that stream and those positions. */
module RingBuffer {
  import opened Bytes
  import opened Cyclic
  import opened Bits

  /** `b & mask`. */
  function Masked(b: Byte, mask: Byte): Byte
  {
    AndBounds(b, mask, 8);
    And(b, mask, 8)
  }

  /** A bit of a masked byte is set exactly if it is set in the byte and in the mask. */
  lemma MaskedBit(b: Byte, mask: Byte, k: nat)
    requires k < 8
    ensures Bit(Masked(b, mask), k) <==> Bit(b, k) && Bit(mask, k)
  {
    AndBit(b, mask, 8, k);
  }

  lemma NothingMasked(b: Byte)
    ensures Masked(b, 0) == 0
  {
    AndBounds(b, 0, 8);
  }

  /** The upper half of a byte. */
  lemma UpperHalf(b: Byte)
    ensures Masked(b, 0xf0) == b / 16 * 16
  {
    AndEven(b, 0x78, 8);
    AndEven(b / 2, 0x3c, 7);
    AndEven(b / 2 / 2, 0x1e, 6);
    AndEven(b / 2 / 2 / 2, 0xf, 5);
    assert b / 2 / 2 / 2 / 2 == b / 16;
    assert Pow2(1) == 2 && Pow2(2) == 4 && Pow2(3) == 8 && Pow2(4) == 16;
    hide And;
    AndOnes(b / 16, 4);
  }

  /** The ids of video streams, as the mask 0xf0 tells them. */
  lemma VideoIds(b: Byte)
    ensures Masked(b, 0xf0) == 0xe0 <==> 0xe0 <= b < 0xf0
  {
    UpperHalf(b);
  }

  /** The flag of a time stamp, as the mask 0x80 tells it. */
  lemma StampFlag(b: Byte)
    ensures Masked(b, 0x80) != 0 <==> b >= 0x80
  {
    AndEven(b, 0x40, 8);
    AndEven(b / 2, 0x20, 7);
    AndEven(b / 2 / 2, 0x10, 6);
    AndEven(b / 2 / 2 / 2, 8, 5);
    AndEven(b / 2 / 2 / 2 / 2, 4, 4);
    AndEven(b / 2 / 2 / 2 / 2 / 2, 2, 3);
    AndEven(b / 2 / 2 / 2 / 2 / 2 / 2, 1, 2);
    assert b / 2 / 2 / 2 / 2 / 2 / 2 / 2 == b / 128;
    assert Pow2(1) == 2;
    hide And;
    AndOnes(b / 128, 1);
  }

  /** Bytes `q .. q + 3` of `s` are a start code whose id matches under the mask. */
  predicate StartCodeAt(s: seq<Byte>, q: nat, pattern: Byte, mask: Byte) {
    q + 3 < |s| && s[q] == 0 && s[q + 1] == 0 && s[q + 2] == 1 && Masked(s[q + 3], mask) == pattern
  }

  /** The bytes 0, 0, 1 and the id of a video stream. */
  predicate VideoCodeAt(s: seq<Byte>, q: nat) {
    q + 3 < |s| && s[q..q + 3] == [0, 0, 1] && 0xe0 <= s[q + 3] < 0xf0
  }

  /** What the search for 0xe0 under the mask 0xf0 finds. */
  lemma VideoCodes(s: seq<Byte>, q: nat)
    ensures StartCodeAt(s, q, 0xe0, 0xf0) <==> VideoCodeAt(s, q)
  {
    if q + 3 < |s| { VideoIds(s[q + 3]); }
  }

  /** The bytes 0, 0, 1 and any id. */
  predicate CodeAt(s: seq<Byte>, q: nat) { q + 3 < |s| && s[q..q + 3] == [0, 0, 1] }

  /** What the search without a mask finds. */
  lemma AnyCodes(s: seq<Byte>, q: nat)
    ensures StartCodeAt(s, q, 0, 0) <==> CodeAt(s, q)
  {
    if q + 3 < |s| { NothingMasked(s[q + 3]); }
  }

  /** No start code at any of the positions `from <= q < to`. */
  ghost predicate NoStartCode(s: seq<Byte>, from: nat, to: int, pattern: Byte, mask: Byte) {
    forall q :: from <= q < to ==> !StartCodeAt(s, q, pattern, mask)
  }

  lemma NoStartCodeNext(s: seq<Byte>, from: nat, to: nat, pattern: Byte, mask: Byte)
    requires NoStartCode(s, from, to, pattern, mask) && !StartCodeAt(s, to, pattern, mask)
    ensures NoStartCode(s, from, to + 1, pattern, mask)
  {
  }

  lemma NoStartCodeEmpty(s: seq<Byte>, from: nat, pattern: Byte, mask: Byte)
    ensures NoStartCode(s, from, from, pattern, mask)
  {
  }

  lemma NoStartCodeJoin(s: seq<Byte>, from: nat, mid: int, to: int, pattern: Byte, mask: Byte)
    requires from <= mid <= to
    requires NoStartCode(s, from, mid, pattern, mask) && NoStartCode(s, mid, to, pattern, mask)
    ensures NoStartCode(s, from, to, pattern, mask)
  {
  }

  /** Candidates all of whose bytes were there stay as they are when the stream grows. */
  lemma NoStartCodeGrows(s: seq<Byte>, s': seq<Byte>, from: nat, to: int, pattern: Byte, mask: Byte)
    requires s <= s' && (to <= from || to + 3 <= |s|)
    requires NoStartCode(s, from, to, pattern, mask)
    ensures NoStartCode(s', from, to, pattern, mask)
  {
    forall q | from <= q < to ensures !StartCodeAt(s', q, pattern, mask) {
      assert !StartCodeAt(s, q, pattern, mask);
    }
  }

  /** How many zero bytes `s` ends with. */
  function TrailingZeros(s: seq<Byte>): (n: nat)
    ensures n <= |s|
    ensures forall k :: |s| - n <= k < |s| ==> s[k] == 0
    ensures n < |s| ==> s[|s| - n - 1] != 0
  {
    if s == [] || s[|s| - 1] != 0 then 0 else 1 + TrailingZeros(s[..|s| - 1])
  }

  /** The length of an element once its zero padding, all but four bytes of it, is cut off. */
  function Unpadded(element: seq<Byte>): (n: nat)
    ensures n <= |element|
    ensures forall k :: n <= k < |element| ==> element[k] == 0
    ensures n < |element| ==> n >= 4 && forall k :: n - 4 <= k < n ==> element[k] == 0
    ensures 4 < n < |element| ==> element[n - 5] != 0
    ensures n == |element| >= 5 ==> exists k :: n - 5 <= k < n && element[k] != 0
  {
    var zeros := TrailingZeros(element);
    if zeros > 4 then |element| - (zeros - 4) else |element|
  }

  /** How many bytes the network thread is granted. */
  function Granted(size: nat, pIn: nat, pOut: nat, used: nat): int {
    var n := if pOut > pIn then pOut - pIn else size - pIn;
    if used + n == size then n - 1 else n
  }

  /** `d` with the bytes from `at` on replaced by `s`. */
  function Splice(d: seq<Byte>, at: nat, s: seq<Byte>): (r: seq<Byte>)
    requires at + |s| <= |d|
    ensures |r| == |d|
  {
    d[..at] + s + d[at + |s|..]
  }

  lemma SpliceTwice(d: seq<Byte>, at: nat, a: seq<Byte>, b: seq<Byte>)
    requires at + |a| + |b| <= |d|
    ensures Splice(Splice(d, at, a), at + |a|, b) == Splice(d, at, a + b)
  {
  }

  lemma SliceJoin(s: seq<Byte>, a: nat, b: nat, c: nat)
    requires a <= b <= c <= |s|
    ensures s[a..b] + s[b..c] == s[a..c]
  {
  }

  /** The cell of position `q` of a ring that has been read up to `lOut`, in cell `pOut`. */
  function Cell(size: nat, pOut: nat, lOut: nat, q: nat): (i: nat)
    requires pOut < size && lOut <= q < lOut + size
    ensures i < size
  {
    Wrap(pOut + (q - lOut), size)
  }

  /** The cells of a ring show a stream from `lOut` on. */
  ghost predicate Holds(cells: seq<Byte>, size: nat, pOut: nat, lOut: nat, stream: seq<Byte>)
    requires pOut < size <= |cells| && lOut <= |stream| < lOut + size
  {
    forall q :: lOut <= q < |stream| ==> cells[Cell(size, pOut, lOut, q)] == stream[q]
  }

  /** Bytes behind the last one shown become part of the stream. */
  lemma CommitHolds(cells: seq<Byte>, size: nat, pOut: nat, pIn: nat, lOut: nat, stream: seq<Byte>, len: nat)
    requires pOut < size <= |cells| && lOut <= |stream| && |stream| + len < lOut + size
    requires Holds(cells, size, pOut, lOut, stream)
    requires pIn == Cell(size, pOut, lOut, |stream|) && pIn + len <= size
    ensures Holds(cells, size, pOut, lOut, stream + cells[pIn..pIn + len])
  {
    var stream' := stream + cells[pIn..pIn + len];
    forall q | lOut <= q < |stream'|
      ensures cells[Cell(size, pOut, lOut, q)] == stream'[q]
    {
      if q >= |stream| {
        assert Cell(size, pOut, lOut, q) == pIn + (q - |stream|);
      }
    }
  }

  /** Writing where nothing is shown changes nothing that is. */
  lemma WriteHolds(cells: seq<Byte>, size: nat, pOut: nat, lOut: nat, stream: seq<Byte>, at: nat, data: seq<Byte>)
    requires pOut < size <= |cells| && lOut <= |stream| < lOut + size && at + |data| <= |cells|
    requires Holds(cells, size, pOut, lOut, stream)
    requires forall q :: lOut <= q < |stream| ==> !(at <= Cell(size, pOut, lOut, q) < at + |data|)
    ensures Holds(Splice(cells, at, data), size, pOut, lOut, stream)
  {
    var cells' := Splice(cells, at, data);
    forall q | lOut <= q < |stream|
      ensures cells'[Cell(size, pOut, lOut, q)] == stream[q]
    {
      var i := Cell(size, pOut, lOut, q);
      assert cells'[i] == cells[i];
    }
  }

  /** The write index after a commit. */
  lemma CommitIndex(size: nat, pOut: nat, pIn: nat, lOut: nat, lIn: nat, len: nat)
    requires pOut < size && lOut <= lIn && lIn + len < lOut + size
    requires pIn == Cell(size, pOut, lOut, lIn) && pIn + len <= size
    ensures Cell(size, pOut, lOut, lIn + len) == if pIn + len == size then 0 else pIn + len
  {
  }

  lemma SubSlices(s: seq<Byte>, t: seq<Byte>, p: nat, q: nat, n: nat, m: nat)
    requires n <= m && p + m <= |s| && q + m <= |t| && s[p..p + m] == t[q..q + m]
    ensures s[p..p + n] == t[q..q + n]
  {
    var a, b := s[p..p + n], t[q..q + n];
    forall i | 0 <= i < n
      ensures a[i] == b[i]
    {
      assert a[i] == s[p..p + m][i] && b[i] == t[q..q + m][i];
    }
  }

  /** What `errexit` stops the program for, and what the calls give otherwise. */
  datatype Search = Found(pos: nat, id: Byte) | NotFound | BadPosition | TimedOut
  datatype Copy = Copied | Unavailable | NoData

  /** What other threads do to the buffer while a reader waits on the condition variable: the
      network thread fills and commits, the consumer discards. */
  datatype Act = Commit(data: seq<Byte>) | Discard(to: nat)

  class CBuffer {
    const size: nat
    const buf: array<Byte>
    var pIn: nat
    var pOut: nat
    var lIn: nat
    var lOut: nat
    ghost var stream: seq<Byte>

    /** The physical index of a logical position in `[lOut, lIn]`. */
    ghost function At(q: nat): (i: nat)
      requires pOut < size && lOut <= q < lOut + size
      reads this
      ensures i < size
    {
      Cell(size, pOut, lOut, q)
    }

    /** The ring indices are the logical positions modulo the ring size. */
    ghost predicate Aligned()
      requires size > 0
      reads this
    {
      pOut == lOut % size && pIn == lIn % size
    }

    /** Every live byte of the stream is in its cell. */
    ghost predicate Faithful()
      requires pOut < size <= buf.Length && lOut <= lIn < lOut + size && |stream| == lIn
      reads this, buf
    {
      forall q :: lOut <= q < lIn ==> buf[At(q)] == stream[q]
    }

    ghost predicate Valid()
      reads this, buf
    {
      && size > 0 && buf.Length == size + 3
      && lOut <= lIn < lOut + size
      && |stream| == lIn
      && pOut < size && pIn == At(lIn)
      && Aligned() && Faithful()
    }

    constructor (size: nat)
      requires size > 0
      ensures Valid() && fresh(buf)
      ensures this.size == size && stream == [] && lIn == 0 && lOut == 0
    {
      this.size := size;
      buf := new Byte[size + 3];
      pIn, pOut, lIn, lOut := 0, 0, 0, 0;
      stream := [];
    }

    /** The region the network thread may write: contiguous, disjoint from every live byte, and
        small enough that committing all of it leaves the ring short of full. It cannot be longer, and is
        empty only when the ring holds its maximum of `size - 1` bytes. */
    method GetNextFillBuffer() returns (at: nat, len: nat)
      requires Valid()
      ensures at == pIn && len == Granted(size, pIn, pOut, lIn - lOut)
      ensures at + len <= size
      ensures lIn + len < lOut + size
      ensures at + len == size || lIn + len + 1 == lOut + size
      ensures len == 0 ==> lIn - lOut == size - 1
      ensures forall q :: lOut <= q < lIn ==> !(at <= At(q) < at + len)
    {
      at := pIn;
      var n: int;
      if pOut > pIn {
        n := pOut - pIn;
      } else {
        n := size - pIn;
      }
      if lIn - lOut + n == size {
        n := n - 1;
      }
      len := n;
    }

    /** Makes the first `len` bytes of the granted region part of the stream. */
    method CommitFillBuffer(len: nat)
      requires Valid()
      requires pIn + len <= size && lIn + len < lOut + size
      modifies this`pIn, this`lIn, this`stream
      ensures Valid()
      ensures stream == old(stream) + buf[old(pIn)..old(pIn) + len]
    {
      FaithfulIsHolds();
      CommitHolds(buf[..], size, pOut, pIn, lOut, stream, len);
      CommitIndex(size, pOut, pIn, lOut, lIn, len);
      WrapIsRemainder(lIn, len, size);
      assert buf[..][pIn..pIn + len] == buf[pIn..pIn + len];
      hide Faithful, Holds, Cell;
      stream := stream + buf[pIn..pIn + len];
      pIn := pIn + len;
      lIn := lIn + len;
      if pIn == size {
        pIn := pIn - size;
      }
      FaithfulIsHolds();
    }

    lemma FaithfulIsHolds()
      requires pOut < size <= buf.Length && lOut <= lIn < lOut + size && |stream| == lIn
      ensures Faithful() <==> Holds(buf[..], size, pOut, lOut, stream)
    {
      assert forall q :: lOut <= q < lIn ==> buf[..][At(q)] == buf[At(q)];
    }

    method DiscardToPtr(ptr: nat) returns (ok: bool)
      requires Valid()
      modifies this`pOut, this`lOut
      ensures Valid()
      ensures ok == (old(lOut) <= ptr <= lIn)
      ensures lOut == if ok then ptr else old(lOut)
      ensures forall q :: lOut <= q <= lIn ==> At(q) == old(At(q))
    {
      if ptr < lOut || ptr > lIn {
        return false;
      }
      var bytes := ptr - lOut;
      WrapIsRemainder(lOut, bytes, size);
      lOut := ptr;
      pOut := pOut + bytes;
      if pOut >= size {
        pOut := pOut - size;
      }
      return true;
    }

    method GetByteCount() returns (bytes: nat)
      requires Valid()
      ensures bytes == |stream| - lOut < size
    {
      bytes := lIn - lOut;
    }

    // -------------------------------------------------------------- waiting

    /** The network thread's round: it writes what fits of `data` into the granted region and
        commits it. */
    method Fill(data: seq<Byte>)
      requires Valid()
      modifies this`pIn, this`lIn, this`stream, buf
      ensures Valid()
      ensures old(stream) <= stream <= old(stream) + data
      ensures |data| <= old(Granted(size, pIn, pOut, lIn - lOut)) ==> stream == old(stream) + data
    {
      var at, len := GetNextFillBuffer();
      var n := if |data| < len then |data| else len;
      FaithfulIsHolds();
      WriteHolds(buf[..], size, pOut, lOut, stream, at, data[..n]);
      hide Faithful, Holds, Cell, Aligned;
      ghost var cells := buf[..];
      forall i | 0 <= i < n {
        buf[at + i] := data[i];
      }
      assert buf[..] == Splice(cells, at, data[..n]);
      FaithfulIsHolds();
      assert buf[at..at + n] == data[..n];
      CommitFillBuffer(n);
    }

    /** The same for data known to fit. */
    method Commit(data: seq<Byte>)
      requires Valid() && |data| <= Granted(size, pIn, pOut, lIn - lOut)
      modifies this`pIn, this`lIn, this`stream, buf
      ensures Valid() && stream == old(stream) + data
    {
      Fill(data);
    }

    /** What happens during one wait on the condition variable: any commits, and any discards that
        stay at or before `limit`. */
    method Wait(acts: seq<Act>, limit: nat)
      requires Valid() && lOut <= limit <= lIn
      modifies this`pIn, this`lIn, this`pOut, this`lOut, this`stream, buf
      ensures Valid() && lOut <= limit <= lIn
      ensures old(stream) <= stream && old(lOut) <= lOut
      ensures forall q :: limit <= q <= old(lIn) ==> At(q) == old(At(q))
    {
      for i := 0 to |acts|
        invariant Valid() && lOut <= limit <= lIn
        invariant old(stream) <= stream && old(lOut) <= lOut
        invariant forall q :: limit <= q <= old(lIn) ==> At(q) == old(At(q))
      {
        match acts[i]
        case Commit(data) => Fill(data);
        case Discard(to) =>
          if lOut <= to <= limit {
            var ok := DiscardToPtr(to);
          }
      }
    }
  
    // -------------------------------------------------------------- searching

    /** The scanning loop: steps over at most `lens` physical positions, reading four bytes at
        each. */
    method Scan(start: nat, lens: nat, pattern: Byte, mask: Byte) returns (found: bool, p: nat)
      requires start + lens + 3 <= buf.Length || lens == 0
      ensures start <= p <= start + lens
      ensures found ==> p < start + lens && StartCodeAt(buf[..], p, pattern, mask)
      ensures !found ==> p == start + lens
      ensures NoStartCode(buf[..], start, p, pattern, mask)
    {
      hide Masked, NoStartCode;
      found := false;
      p := start;
      var left := lens;
      NoStartCodeEmpty(buf[..], start, pattern, mask);
      ghost var cells := buf[..];
      while left > 0 && !found
        invariant start <= p && p + left == start + lens
        invariant found ==> left > 0 && StartCodeAt(cells, p, pattern, mask)
        invariant NoStartCode(cells, start, p, pattern, mask)
        decreases left, !found
      {
        if buf[p] == 0 && buf[p + 1] == 0 && buf[p + 2] == 1 && Masked(buf[p + 3], mask) == pattern {
          found := true;
        } else {
          assert !StartCodeAt(cells, p, pattern, mask);
          NoStartCodeNext(cells, start, p, pattern, mask);
          p := p + 1;
          left := left - 1;
        }
      }
    }

    /** Physical cells `p ..` hold the stream from logical position `q` on, for `n` bytes. */
    ghost predicate Shows(p: nat, q: nat, n: nat)
      reads this, buf
    {
      p + n <= buf.Length && q + n <= |stream| && buf[p..p + n] == stream[q..q + n]
    }

    /** Where the cells show the stream, a start code in the one is a start code in the other. */
    lemma ShownStartCode(p: nat, q: nat, n: nat, k: nat, pattern: Byte, mask: Byte)
      requires Shows(p, q, n) && k + 3 < n
      ensures StartCodeAt(buf[..], p + k, pattern, mask) <==> StartCodeAt(stream, q + k, pattern, mask)
    {
      var cells, window := buf[p..p + n], stream[q..q + n];
      assert cells[k] == window[k] && cells[k + 1] == window[k + 1]
          && cells[k + 2] == window[k + 2] && cells[k + 3] == window[k + 3];
    }

    lemma ShownNoStartCode(p: nat, q: nat, n: nat, lens: nat, pattern: Byte, mask: Byte)
      requires Shows(p, q, n) && lens + 3 <= n
      requires NoStartCode(buf[..], p, p + lens, pattern, mask)
      ensures NoStartCode(stream, q, q + lens, pattern, mask)
    {
      forall j | q <= j < q + lens ensures !StartCodeAt(stream, j, pattern, mask) {
        ShownStartCode(p, q, n, j - q, pattern, mask);
      }
    }

    /** The address computation shared by the readers. */
    method Locate(ptr: nat) returns (pAct: nat)
      requires Valid() && lOut <= ptr <= lIn
      ensures pAct == At(ptr)
    {
      pAct := pOut + (ptr - lOut);
      if pAct >= size {
        pAct := pAct - size;
      }
    }

    /** Up to the write index the ring shows the stream contiguously. */
    lemma ShowsUpToIn(q: nat)
      requires Valid() && lOut <= q <= lIn && At(q) <= pIn
      ensures lIn - q == pIn - At(q)
      ensures Shows(At(q), q, lIn - q)
    {
      var cells, window := buf[At(q)..pIn], stream[q..];
      forall i | 0 <= i < lIn - q ensures cells[i] == window[i] {
        assert At(q + i) == At(q) + i;
      }
    }

    /** Past the write index the ring shows the stream up to its physical end. */
    lemma ShowsUpToEnd(q: nat)
      requires Valid() && lOut <= q <= lIn && At(q) > pIn
      ensures pOut <= At(q) && q - lOut == At(q) - pOut
      ensures lIn - q == size - At(q) + pIn
      ensures Shows(At(q), q, size - At(q))
    {
      var cells, window := buf[At(q)..size], stream[q..q + (size - At(q))];
      forall i | 0 <= i < size - At(q) ensures cells[i] == window[i] {
        assert At(q + i) == At(q) + i;
      }
    }

    /** ... and three bytes further once the mirror is up to date. */
    lemma ShowsMirror(q: nat)
      requires Valid() && lOut <= q <= lIn && At(q) > pIn && pIn >= 3
      requires buf[size..size + 3] == buf[..3]
      ensures Shows(At(q), q, size - At(q) + 3)
    {
      ShowsUpToEnd(q);
      var e := q + (size - At(q));
      assert At(e) == 0 && At(e + 1) == 1 && At(e + 2) == 2;
      assert buf[..3] == stream[e..e + 3];
      assert buf[At(q)..size + 3] == buf[At(q)..size] + buf[size..size + 3];
      assert stream[q..e + 3] == stream[q..e] + stream[e..e + 3];
    }

    /** Copies the first three bytes behind the physical end. */
    method Mirror()
      requires Valid() && pIn >= 3
      modifies buf
      ensures Valid() && buf[size..size + 3] == buf[..3]
    {
      buf[size], buf[size + 1], buf[size + 2] := buf[0], buf[1], buf[2];
    }
  
    /** The four bytes at `q` reach over the physical end, where fewer than three bytes are committed: the
        mirror is not refreshed, and the search does not look at this candidate. */
    ghost predicate Straddles(q: nat)
      requires pOut < size && lOut <= q < lOut + size
      reads this
    {
      At(q) > pIn && At(q) + 3 >= size && pIn < 3
    }

    /** Behind a candidate the search does not look at there are only others of that kind. */
    lemma StraddlesOn(cur: nat, q: nat)
      requires Valid() && lOut <= cur <= q && q + 3 < lIn
      requires lIn - cur <= 3 || Straddles(cur)
      ensures Straddles(q)
    {
      hide Faithful, Aligned;
      if lIn - cur > 3 { ShowsUpToEnd(cur); }
    }

    /** The search branch for a scan position at or before the write index. */
    method ScanToIn(pAct: nat, len: nat, pattern: Byte, mask: Byte, ghost cur: nat)
      returns (found: bool, p: nat, left: nat)
      requires Valid() && lOut <= cur <= lIn && pAct == At(cur) <= pIn
      ensures pAct <= p && cur + (p - pAct) <= lIn && p == At(cur + (p - pAct))
      ensures NoStartCode(stream, cur, cur + (p - pAct), pattern, mask)
      ensures found ==> p - pAct < len && StartCodeAt(stream, cur + (p - pAct), pattern, mask)
      ensures found ==> p <= pIn && buf[p + 3] == stream[cur + (p - pAct) + 3]
      ensures !found ==> left == len - (p - pAct)
      ensures p > pAct ==> cur + (p - pAct) + 3 <= lIn
      ensures !found && left > 0 ==> lIn - (cur + (p - pAct)) <= 3
    {
      hide Aligned, Faithful, StartCodeAt, NoStartCode;
      ShowsUpToIn(cur);
      var len2 := if pIn - pAct - 3 > 0 then pIn - pAct - 3 else 0;
      var lens := if len2 > len then len else len2;
      left := len - lens;
      found, p := Scan(pAct, lens, pattern, mask);
      if lens > 0 {
        ShownNoStartCode(pAct, cur, lIn - cur, p - pAct, pattern, mask);
      } else {
        NoStartCodeEmpty(stream, cur, pattern, mask);
      }
      if found {
        ShownStartCode(pAct, cur, lIn - cur, p - pAct, pattern, mask);
        assert buf[pAct..pIn][p - pAct + 3] == stream[cur..][p - pAct + 3];
      }
    }

    /** How many candidates are left before the physical end, the mirror refreshed if possible. */
    method UsableToEnd(pAct: nat, ghost cur: nat) returns (len2: nat, ghost shown: nat)
      requires Valid() && lOut <= cur <= lIn && pAct == At(cur) > pIn
      modifies buf
      ensures Valid()
      ensures pAct + len2 <= size && len2 + 3 <= buf.Length - pAct
      ensures pOut <= pAct && lOut + (pAct - pOut) == cur && lIn - cur == size - pAct + pIn
      ensures Shows(pAct, cur, shown) && (len2 > 0 ==> len2 + 3 <= shown)
      ensures pAct + len2 < size ==> pIn < 3 && (len2 > 0 ==> pAct + len2 + 3 == size) && size - (pAct + len2) <= 3
    {
      ShowsUpToEnd(cur);
      len2 := size - pAct;
      shown := len2;
      if pIn >= 3 {
        Mirror();
        ShowsMirror(cur);
        shown := shown + 3;
      } else {
        len2 := if len2 - 3 < 0 then 0 else len2 - 3;
      }
    }

    /** The search branch for a scan position beyond the write index: up to the physical end, the
        last three candidates reading the mirror. */
    method ScanToEnd(pAct: nat, len: nat, pattern: Byte, mask: Byte, ghost cur: nat)
      returns (found: bool, p: nat, left: nat)
      requires Valid() && lOut <= cur <= lIn && pAct == At(cur) > pIn
      modifies buf
      ensures Valid()
      ensures pAct <= p <= size && cur + (p - pAct) <= lIn
      ensures At(cur + (p - pAct)) == if p == size then 0 else p
      ensures NoStartCode(stream, cur, cur + (p - pAct), pattern, mask)
      ensures found ==> p < size && p - pAct < len && StartCodeAt(stream, cur + (p - pAct), pattern, mask)
      ensures found ==> pOut <= p && lOut + (p - pOut) == cur + (p - pAct)
      ensures found ==> buf[p + 3] == stream[cur + (p - pAct) + 3]
      ensures !found ==> left == len - (p - pAct)
      ensures p > pAct ==> cur + (p - pAct) + 3 <= lIn
      ensures found ==> p + 3 < size || pIn >= 3
      ensures !found && left > 0 && p < size ==> p + 3 >= size && pIn < 3
    {
      hide Aligned, Faithful, StartCodeAt, NoStartCode;
      var len2, shown := UsableToEnd(pAct, cur);
      var lens := if len2 > len then len else len2;
      left := len - lens;
      found, p := Scan(pAct, lens, pattern, mask);
      if lens > 0 {
        ShownNoStartCode(pAct, cur, shown, p - pAct, pattern, mask);
      } else {
        NoStartCodeEmpty(stream, cur, pattern, mask);
      }
      if found {
        ShownStartCode(pAct, cur, shown, p - pAct, pattern, mask);
        assert buf[pAct..pAct + shown][p - pAct + 3] == stream[cur..cur + shown][p - pAct + 3];
      }
    }

    /** One round of the search loop: scans as far as the committed bytes allow. `again` asks for
        another round at once, at the start of the ring. */
    method ScanOnce(pAct: nat, len: nat, pattern: Byte, mask: Byte, ghost cur: nat)
      returns (found: bool, p: nat, left: nat, lfound: int, again: bool, ghost cur': nat)
      requires Valid() && lOut <= cur <= lIn && pAct == At(cur) && len > 0
      modifies buf
      ensures Valid()
      ensures cur <= cur' <= lIn && p == At(cur')
      ensures cur' > cur ==> cur' + 3 <= lIn
      ensures NoStartCode(stream, cur, cur', pattern, mask)
      ensures found ==> cur' - cur < len && lfound == cur' && StartCodeAt(stream, cur', pattern, mask)
      ensures found ==> cur' + 3 < lIn && p + 3 < buf.Length && buf[p + 3] == stream[cur' + 3]
      ensures !found ==> left == len - (cur' - cur)
      ensures again ==> !found && pAct > pIn && p <= pIn
      ensures !again ==> (p > pIn <==> pAct > pIn)
      ensures found ==> !Straddles(cur')
      ensures !found && !again && left > 0 ==> lIn - cur' <= 3 || Straddles(cur')
    {
      hide Aligned, Faithful, NoStartCode;
      again, lfound := false, -1;
      if pAct <= pIn {
        found, p, left := ScanToIn(pAct, len, pattern, mask, cur);
        if found {
          lfound := lIn - (pIn - p);
        }
        cur' := cur + (p - pAct);
      } else {
        found, p, left := ScanToEnd(pAct, len, pattern, mask, cur);
        if found {
          lfound := lOut + (p - pOut);
        }
        cur' := cur + (p - pAct);
        if p == size {
          p := p - size;
          again := true;
        }
      }
    }

    /** The first match at or after `ptr`. */
    ghost predicate First(ptr: nat, q: nat, pattern: Byte, mask: Byte)
      reads this
    {
      StartCodeAt(stream, q, pattern, mask) && NoStartCode(stream, ptr, q, pattern, mask)
    }

    lemma IsFirst(ptr: nat, q: nat, pattern: Byte, mask: Byte)
      requires StartCodeAt(stream, q, pattern, mask) && NoStartCode(stream, ptr, q, pattern, mask)
      ensures First(ptr, q, pattern, mask)
    {
    }

    lemma FoundFirst(ptr: nat, cur: nat, n: nat, pattern: Byte, mask: Byte)
      requires pOut < size && lOut <= ptr <= cur && |stream| <= lOut + size
      requires First(ptr, cur, pattern, mask) && !Straddles(cur)
      ensures forall q :: ptr <= q < ptr + n && First(ptr, q, pattern, mask) ==> !Straddles(q)
    {
      hide Straddles;
      forall q | ptr <= q < ptr + n && First(ptr, q, pattern, mask)
        ensures q == cur
      {
      }
    }

    lemma NothingFirst(ptr: nat, n: nat, pattern: Byte, mask: Byte)
      requires NoStartCode(stream, ptr, ptr + n, pattern, mask)
      ensures forall q :: ptr <= q < ptr + n ==> !First(ptr, q, pattern, mask)
    {
    }

    lemma OnlyStraddlersLeft(ptr: nat, cur: nat, n: nat, pattern: Byte, mask: Byte)
      requires Valid() && lOut <= ptr <= cur <= lIn && NoStartCode(stream, ptr, cur, pattern, mask)
      requires lIn - cur <= 3 || Straddles(cur)
      ensures forall q :: ptr <= q < ptr + n && StartCodeAt(stream, q, pattern, mask) ==> Straddles(q)
      ensures forall q :: ptr <= q < ptr + n && First(ptr, q, pattern, mask) ==> Straddles(q)
    {
      forall q | ptr <= q < ptr + n && StartCodeAt(stream, q, pattern, mask)
        ensures Straddles(q)
      {
        StraddlesOn(cur, q);
      }
    }

    /** Finds the next start code. The result is exact: the least position at or after `ptr`, among
        the first `len` candidates (a whole ring's worth when `len` is 0), at which the committed
        stream holds a matching start code - whatever is committed, and whatever is discarded at or
        before `ptr`, while the search waits.

        A match that is committed is missed, until the search times out, exactly if it straddles the
        physical end with fewer than three bytes beyond it. */
    method SearchStreamId(ptr: nat, len: nat, pattern: Byte, mask: Byte, waits: seq<seq<Act>>)
      returns (r: Search)
      requires Valid()
      modifies this`pIn, this`lIn, this`pOut, this`lOut, this`stream, buf
      ensures Valid() && old(stream) <= stream && old(lOut) <= lOut
      ensures r == BadPosition <==> !(old(lOut) <= ptr <= old(lIn))
      ensures r != BadPosition ==> lOut <= ptr <= lIn
      ensures var n := if len == 0 then size else len;
              match r
              case Found(q, id) =>
                && ptr <= q < ptr + n
                && StartCodeAt(stream, q, pattern, mask) && id == stream[q + 3]
                && NoStartCode(stream, ptr, q, pattern, mask) && !Straddles(q)
              case NotFound =>
                && ptr + n + 3 <= lIn
                && NoStartCode(stream, ptr, ptr + n, pattern, mask)
              case TimedOut =>
                && (forall q :: ptr <= q < ptr + n && StartCodeAt(stream, q, pattern, mask) ==> Straddles(q))
                && (lIn < ptr + n + 3 || exists q :: ptr <= q < ptr + n && Straddles(q))
              case BadPosition => true
      ensures r != BadPosition ==>
                var n := if len == 0 then size else len;
                forall q :: ptr <= q < ptr + n && First(ptr, q, pattern, mask) ==> (r == TimedOut <==> Straddles(q))
      ensures waits == [] ==>
                && stream == old(stream) && pIn == old(pIn) && pOut == old(pOut)
                && lIn == old(lIn) && lOut == old(lOut)
    {
      hide Aligned, Faithful, NoStartCode, At, Straddles, Masked;
      NoStartCodeEmpty(stream, ptr, pattern, mask);
      var left := if len == 0 then size else len;
      ghost var n := left;
      if ptr < lOut || ptr > lIn {
        return BadPosition;
      }
      var pAct := Locate(ptr);
      var found := false;
      var lfound := 0;
      ghost var cur := ptr;
      var w := 0;
      while !found && left > 0
        invariant Valid() && old(stream) <= stream && old(lOut) <= lOut
        invariant lOut <= ptr <= cur <= lIn && cur <= ptr + n && w <= |waits|
        invariant pAct == At(cur)
        invariant NoStartCode(stream, ptr, cur, pattern, mask)
        invariant !found ==> left == n - (cur - ptr)
        invariant cur > ptr ==> cur + 3 <= lIn
        invariant found ==> cur < ptr + n && lfound == cur && StartCodeAt(stream, cur, pattern, mask)
        invariant found ==> buf[pAct + 3] == stream[cur + 3] && !Straddles(cur)
        invariant w == 0 ==>
                    && stream == old(stream) && pIn == old(pIn) && pOut == old(pOut)
                    && lIn == old(lIn) && lOut == old(lOut)
        decreases !found, |waits| - w, if pAct > pIn then 1 else 0, left
      {
        ghost var cur0 := cur;
        var again;
        found, pAct, left, lfound, again, cur := ScanOnce(pAct, left, pattern, mask, cur);
        NoStartCodeJoin(stream, ptr, cur0, cur, pattern, mask);
        if again {
          continue;
        }
        if !found && left > 0 {
          if w == |waits| {
            OnlyStraddlersLeft(ptr, cur, n, pattern, mask);
            assert lIn < ptr + n + 3 || Straddles(cur);
            return TimedOut;
          }
          ghost var before := stream;
          Wait(waits[w], ptr);
          NoStartCodeGrows(before, stream, ptr, cur, pattern, mask);
          w := w + 1;
        }
      }
      hide First;
      if found {
        assert First(ptr, cur, pattern, mask) by { IsFirst(ptr, cur, pattern, mask); }
        FoundFirst(ptr, cur, n, pattern, mask);
        return Found(lfound, buf[pAct + 3]);
      }
      NothingFirst(ptr, n, pattern, mask);
      return NotFound;
    }
  
    // -------------------------------------------------------------- copying

    /** Copies `len` bytes of the stream from logical position `ptr`, in at most two pieces, after
        waiting until they are all committed. */
    method CopyBuffer(ptr: nat, dest: array<Byte>, at: nat, len: nat, waits: seq<seq<Act>>)
      returns (r: Copy)
      requires Valid() && dest != buf && at + len <= dest.Length
      modifies this`pIn, this`lIn, this`pOut, this`lOut, this`stream, buf, dest
      ensures Valid() && old(stream) <= stream && old(lOut) <= lOut
      ensures r == Unavailable <==> ptr < old(lOut)
      ensures r == NoData ==> ptr + len > lIn
      ensures r == Copied ==> lOut <= ptr && ptr + len <= lIn && dest[..] == Splice(old(dest[..]), at, stream[ptr..ptr + len])
      ensures r != Copied ==> dest[..] == old(dest[..])
    {
      hide Aligned;
      if ptr < lOut {
        return Unavailable;
      }
      var w := 0;
      while ptr + len > lIn
        invariant Valid() && old(stream) <= stream && old(lOut) <= lOut <= ptr && w <= |waits|
        invariant dest[..] == old(dest[..])
        decreases |waits| - w
      {
        if w == |waits| {
          return NoData;
        }
        Wait(waits[w], if ptr < lIn then ptr else lIn);
        w := w + 1;
      }
      var pAct := Locate(ptr);
      CopyPieces(ptr, pAct, dest, at, len);
      return Copied;
    }

    /** `memcpy` out of cells that show the stream. */
    method CopyShown(p: nat, ghost q: nat, ghost shown: nat, dest: array<Byte>, at: nat, n: nat)
      requires dest != buf && at + n <= dest.Length && n <= shown && Shows(p, q, shown)
      modifies dest
      ensures dest[..] == Splice(old(dest[..]), at, stream[q..q + n])
    {
      SubSlices(buf[..], stream, p, q, n, shown);
      forall i | 0 <= i < n {
        dest[at + i] := buf[p + i];
      }
      assert dest[at..at + n] == buf[p..p + n];
    }

    /** Behind the last cell the ring goes on with the first. */
    lemma FirstCell(q: nat)
      requires Valid() && lOut <= q <= lIn && At(q) > pIn
      ensures q + (size - At(q)) <= lIn && At(q + (size - At(q))) == 0
    {
    }

    /** The copy itself, once the bytes are there: up to the physical end, then from the start. */
    method CopyPieces(ghost ptr: nat, pAct: nat, dest: array<Byte>, at: nat, len: nat)
      requires Valid() && dest != buf && at + len <= dest.Length
      requires lOut <= ptr && ptr + len <= lIn && pAct == At(ptr)
      modifies dest
      ensures dest[..] == Splice(old(dest[..]), at, stream[ptr..ptr + len])
    {
      hide Aligned, Faithful, Splice;
      if pAct > pIn {
        ShowsUpToEnd(ptr);
        FirstCell(ptr);
        var len2 := size - pAct;
        var lens := if len2 > len then len else len2;
        CopyShown(pAct, ptr, len2, dest, at, lens);
        if len - lens > 0 {
          ShowsUpToIn(ptr + lens);
          CopyRest(ptr, lens, dest, at, len, old(dest[..]));
        }
      } else {
        ShowsUpToIn(ptr);
        CopyShown(pAct, ptr, lIn - ptr, dest, at, len);
      }
    }

    /** The second piece, from the first cell on. */
    method CopyRest(ghost ptr: nat, lens: nat, dest: array<Byte>, at: nat, len: nat, ghost d: seq<Byte>)
      requires dest != buf && at + len <= dest.Length == |d| && lens <= len && ptr + len <= lIn == |stream|
      requires Shows(0, ptr + lens, lIn - (ptr + lens))
      requires dest[..] == Splice(d, at, stream[ptr..ptr + lens])
      modifies dest
      ensures dest[..] == Splice(d, at, stream[ptr..ptr + len])
    {
      hide Splice, Shows;
      CopyShown(0, ptr + lens, lIn - (ptr + lens), dest, at + lens, len - lens);
      SpliceTwice(d, at, stream[ptr..ptr + lens], stream[ptr + lens..ptr + len]);
      SliceJoin(stream, ptr, ptr + lens, ptr + len);
    }

    /** The ring's bytes from `q` on, committed or not. */
    ghost function Cells(q: nat, n: nat): (s: seq<Byte>)
      requires pOut < size <= buf.Length && lOut <= q && q + n < lOut + size
      reads this, buf
      ensures |s| == n && forall i :: 0 <= i < n ==> s[i] == buf[At(q + i)]
    {
      if n == 0 then [] else Cells(q, n - 1) + [buf[At(q + n - 1)]]
    }

    /** The cell before a position's. */
    lemma CellBefore(q: nat)
      requires pOut < size && lOut <= q && q + 1 < lOut + size
      ensures At(q) == if At(q + 1) == 0 then size - 1 else At(q + 1) - 1
    {
    }

    lemma CellsCommitted(q: nat, n: nat)
      requires Valid() && lOut <= q && q + n <= lIn
      ensures Cells(q, n) == stream[q..q + n]
    {
      hide Aligned, Cells, At;
    }

    /** Counts zeros backwards from the end. */
    method CountZeros(lptr: nat, len: nat, end: nat) returns (n: nat)
      requires pOut < size <= buf.Length && lOut <= lptr && lptr + len < lOut + size && end == At(lptr + len)
      ensures n == TrailingZeros(Cells(lptr, len))
    {
      hide Cells, At;
      ghost var element := Cells(lptr, len);
      var pAct := end;
      n := 0;
      while n < len
        invariant n <= len && pAct == At(lptr + len - n)
        invariant forall k :: len - n <= k < len ==> element[k] == 0
      {
        CellBefore(lptr + len - n - 1);
        if pAct == 0 {
          pAct := size - 1;
        } else {
          pAct := pAct - 1;
        }
        assert element[len - n - 1] == buf[At(lptr + (len - n - 1))];
        if buf[pAct] != 0 {
          break;
        }
        n := n + 1;
      }
      ZerosCounted(element, n);
    }

    /** The length of an element without the zero padding at its end, all but four bytes of it. */
    method RemovePadding(lptr: nat, len: nat) returns (ok: bool, r: nat)
      requires Valid() && (lOut <= lptr < lIn ==> lptr + len < lOut + size)
      ensures ok <==> lOut <= lptr < lIn
      ensures ok ==> r == Unpadded(Cells(lptr, len))
      ensures ok && lptr + len <= lIn ==> r == Unpadded(stream[lptr..lptr + len])
    {
      hide Aligned, Faithful, Cells, TrailingZeros;
      if lptr < lOut || lptr >= lIn {
        return false, len;
      }
      var pAct := pOut + (lptr - lOut) + len;
      if pAct >= size {
        pAct := pAct - size;
      }
      var n := CountZeros(lptr, len, pAct);
      r := if n > 4 then len - (n - 4) else len;
      ok := true;
      if lptr + len <= lIn {
        CellsCommitted(lptr, len);
      }
    }
  }

  lemma ZerosCounted(s: seq<Byte>, n: nat)
    requires n <= |s| && (forall k :: |s| - n <= k < |s| ==> s[k] == 0) && (n < |s| ==> s[|s| - n - 1] != 0)
    ensures n == TrailingZeros(s)
  {
    hide TrailingZeros;
  }

  /** The case in which a committed match is missed: the start code lies in the last three cells of a ring of
      eight and in the first one, which holds the only byte beyond the physical end. */
  method MissedAtTheEnd() returns (b: CBuffer, r: Search)
    ensures b.Valid() && b.size == 8 && b.stream == [1, 1, 1, 1, 1, 0, 0, 1, 0xe0]
    ensures b.lOut == 5 && b.First(5, 5, 0xe0, 0xf0) && b.Straddles(5)
    ensures r == TimedOut
  {
    b := OverTheEnd();
    assert b.At(5) == 5 && b.pIn == 1;
    VideoIds(0xe0);
    assert b.First(5, 5, 0xe0, 0xf0);
    hide StartCodeAt, NoStartCode, Masked;
    r := b.SearchStreamId(5, 0, 0xe0, 0xf0, []);
  }

  method OverTheEnd() returns (b: CBuffer)
    ensures b.Valid() && b.size == 8 && b.stream == [1, 1, 1, 1, 1, 0, 0, 1, 0xe0]
    ensures b.lOut == 5 && b.pOut == 5 && fresh(b) && fresh(b.buf)
  {
    b := new CBuffer(8);
    FiveAndOut(b);
    FourMore(b);
  }

  method FiveAndOut(b: CBuffer)
    requires b.Valid() && b.size == 8 && b.stream == [] && b.lOut == 0
    modifies b, b.buf
    ensures b.Valid() && b.stream == [1, 1, 1, 1, 1] && b.lOut == 5 && b.pOut == 5
  {
    b.Commit([1, 1, 1, 1, 1]);
    var ok := b.DiscardToPtr(5);
  }

  method FourMore(b: CBuffer)
    requires b.Valid() && b.size == 8 && b.stream == [1, 1, 1, 1, 1] && b.lOut == 5 && b.pOut == 5
    modifies b, b.buf
    ensures b.Valid() && b.stream == [1, 1, 1, 1, 1, 0, 0, 1, 0xe0] && b.lOut == 5 && b.pOut == 5
  {
    b.Commit([0, 0, 1]);
    b.Commit([0xe0]);
  }
}
