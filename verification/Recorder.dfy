/** Every run of ggrab's three threads over one ring buffer: the network thread that fills it, the
    indexer (`m_fill_video`) that cuts the stream into pictures, and the multiplexer that copies
    the pictures out and discards them.

    A step is one mutex-protected section, or one unprotected access to the ring's memory. The
    search and trimming steps use what the `RingBuffer` methods are proved to return. */
module Recorder {
  import opened Bytes
  import opened Cyclic
  import opened RingBuffer
  import opened Propack

  const MAX_ELEMENTS := 100
  /** What `CopyBuffer` copies when no length is given. */
  const HEADER := 16

  /** The PES header whose stamp a picture bears, and the kind of start code it begins with. */
  datatype Mark = Mark(head: nat, flag: StartFlag)

  /** One picture in the index: where it starts in the stream, its length, and its marks. */
  datatype Element = Element(lptr: nat, len: nat, mark: Mark)

  datatype Producer = Idle | Filling(len: nat)

  /** Program counter and live locals of `m_fill_video`. For `pts` there is the position of the PES header
      it was read from, -1 before the first one. */
  datatype Indexer =
    | Seeking(from: nat, last: int)
    | SeekHeader(at: nat, id: Byte, last: int)
    | SeekDiscard(at: nat, id: Byte, last: int)
    | WaitRoom(lstart: nat, lptr: nat, mark: Mark)
    | FindEnd(lstart: nat, lptr: nat, mark: Mark)
    | Trim(lstart: nat, end: nat, mark: Mark)
    | Append(lstart: nat, len: nat, end: nat, mark: Mark)
    | ReadHeader(lptr: nat)
    | FindStart(lptr: nat)
    | Peek(lstart: nat, lptr: nat, id: Byte)

  /** Program counter and live locals of the multiplexer: `cursor` is `ml_act`. */
  datatype Consumer =
    | Fetch
    | Ready(elem: Element, cursor: nat)
    | Copying(elem: Element, cursor: nat, n: nat, pAct: nat, pHelp: nat, done: nat)
    | Shifting(elem: Element)

  datatype State = State(
    size: nat,
    mem: seq<Byte>,
    stream: seq<Byte>,
    lOut: nat,
    producer: Producer,
    list: seq<Element>,
    indexer: Indexer,
    consumer: Consumer,
    removed: seq<Element>,     // elements already copied and discarded
    delivered: seq<Byte>)      // every byte copied so far
  {
    function LIn(): nat { |stream| }
  }

  datatype Step =
    | Grant | Write(k: nat, b: Byte) | Committed(r: nat)
    | SeekHit(q: nat) | SeekRead | SeekNext
    | HaveRoom | EndHit(q: nat) | Trimmed | Appended | HeaderRead | StartHit(q: nat) | Peeked
    | Get | BeginCopy(n: nat) | CopyByte | EndCopy | DropElement | ShiftList

  // ---------------------------------------------------------------- the steps

  /** `pes_pts` finds a stamp in the header at `last`. */
  predicate HasPts(stream: seq<Byte>, last: int) {
    0 <= last && last + 7 < |stream| && Masked(stream[last + 7], 0x80) != 0
  }

  /** `SearchStreamId(ptr, 0, pattern, mask)` may return `q`. */
  ghost predicate SearchResult(s: State, ptr: nat, q: nat, pattern: Byte, mask: Byte) {
    && ptr <= q < ptr + s.size
    && StartCodeAt(s.stream, q, pattern, mask) && NoStartCode(s.stream, ptr, q, pattern, mask)
  }

  /** The cell `CopyBuffer` reads for byte `i`, from its snapshot of the indices. */
  function CopyCell(size: nat, pAct: nat, pHelp: nat, n: nat, i: nat): int {
    if pAct > pHelp then
      var lens := if size - pAct > n then n else size - pAct;
      if i < lens then pAct + i else i - lens
    else pAct + i
  }

  ghost predicate ProducerEnabled(s: State, step: Step) {
    match step
    case Grant => s.producer.Idle?
    case Write(k, b) => s.producer.Filling? && k < s.producer.len
    case Committed(r) => s.producer.Filling? && r <= s.producer.len
    case _ => false
  }

  ghost predicate IndexerEnabled(s: State, step: Step) {
    match step
    case SeekHit(q) => s.indexer.Seeking? && SearchResult(s, s.indexer.from, q, 0, 0)
    case SeekRead => s.indexer.SeekHeader? && s.indexer.at + HEADER <= s.LIn()
    case SeekNext => s.indexer.SeekDiscard?
    case HaveRoom => s.indexer.WaitRoom? && |s.list| < MAX_ELEMENTS
    case EndHit(q) => s.indexer.FindEnd? && SearchResult(s, s.indexer.lptr + 1, q, 0xe0, 0xf0)
    case Trimmed => s.indexer.Trim?
    case Appended => s.indexer.Append?
    case HeaderRead => s.indexer.ReadHeader? && s.indexer.lptr + HEADER <= s.LIn()
    case StartHit(q) => s.indexer.FindStart? && SearchResult(s, s.indexer.lptr + 1, q, 0, 0)
    case Peeked => s.indexer.Peek? && s.indexer.lstart + HEADER <= s.LIn()
    case _ => false
  }

  ghost predicate ConsumerEnabled(s: State, step: Step) {
    match step
    case Get => s.consumer.Fetch? && |s.list| > 0
    case BeginCopy(n) =>
      && s.consumer.Ready? && 0 < n && s.consumer.cursor + n <= s.consumer.elem.lptr + s.consumer.elem.len
      && s.consumer.cursor + n <= s.LIn()
    case CopyByte => s.consumer.Copying? && s.consumer.done < s.consumer.n
    case EndCopy => s.consumer.Copying? && s.consumer.done == s.consumer.n
    case DropElement => s.consumer.Ready? && s.consumer.cursor == s.consumer.elem.lptr + s.consumer.elem.len
    case ShiftList => s.consumer.Shifting?
    case _ => false
  }

  ghost predicate Shape(s: State) {
    s.size > 0 && |s.mem| == s.size && s.lOut <= s.LIn()
  }

  /** The next operation of a thread would take one of the `errexit` calls for a position outside
      the buffer, or leave an array. Timeouts are not faults. */
  ghost predicate Fault(s: State)
    requires Shape(s)
  {
    || (match s.producer
        case Idle => Granted(s.size, s.LIn() % s.size, s.lOut % s.size, s.LIn() - s.lOut) < 0
        case Filling(len) => s.LIn() % s.size + len > s.size)
    || (match s.indexer
        case Seeking(from, _) => !(s.lOut <= from <= s.LIn())
        case SeekHeader(at, _, _) => at < s.lOut
        case SeekDiscard(at, _, _) => !(s.lOut <= at <= s.LIn())
        case WaitRoom(_, _, _) => false
        case FindEnd(_, lptr, _) => !(s.lOut <= lptr + 1 <= s.LIn())
        case Trim(lstart, end, _) => !(s.lOut <= lstart < s.LIn() && lstart <= end <= s.LIn())
        case Append(_, _, _, _) => |s.list| >= MAX_ELEMENTS
        case ReadHeader(lptr) => lptr < s.lOut
        case FindStart(lptr) => !(s.lOut <= lptr + 1 <= s.LIn())
        case Peek(lstart, _, _) => lstart < s.lOut)
    || (match s.consumer
        case Fetch => false
        case Ready(_, cursor) => cursor < s.lOut || |s.list| == 0 || !(s.lOut <= s.list[0].lptr <= s.LIn())
        case Copying(_, _, n, pAct, pHelp, done) => done < n && !(0 <= CopyCell(s.size, pAct, pHelp, n, done) < s.size)
        case Shifting(_) => |s.list| == 0)
  }

  ghost function ProducerStep(s: State, step: Step): State
    requires Shape(s) && ProducerEnabled(s, step) && !Fault(s)
  {
    match step
    case Grant => s.(producer := Filling(Granted(s.size, s.LIn() % s.size, s.lOut % s.size, s.LIn() - s.lOut)))
    case Write(k, b) => s.(mem := s.mem[s.LIn() % s.size + k := b])
    case Committed(r) =>
      var at := s.LIn() % s.size;
      s.(stream := s.stream + s.mem[at..at + r], producer := Idle)
  }

  ghost function IndexerStep(s: State, step: Step): State
    requires Shape(s) && IndexerEnabled(s, step) && !Fault(s)
  {
    match step
    case SeekHit(q) =>
      var id := s.stream[q + 3];
      if Masked(id, 0xf0) == 0xe0 then s.(indexer := SeekHeader(q, id, s.indexer.last))
      else s.(indexer := SeekDiscard(q, id, s.indexer.last))
    case SeekRead =>
      var at := s.indexer.at;
      s.(indexer := SeekDiscard(at, s.indexer.id, at))
    case SeekNext =>
      var at := s.indexer.at;
      var last := s.indexer.last;
      if s.indexer.id == 0xb3 && HasPts(s.stream, last)
      then s.(lOut := at, indexer := WaitRoom(at, at + 1, Mark(last, StartSeq)))
      else s.(lOut := at, indexer := Seeking(at + 1, last))
    case HaveRoom => s.(indexer := FindEnd(s.indexer.lstart, s.indexer.lptr, s.indexer.mark))
    case EndHit(q) => s.(indexer := Trim(s.indexer.lstart, q, s.indexer.mark))
    case Trimmed =>
      var lstart, end := s.indexer.lstart, s.indexer.end;
      s.(indexer := Append(lstart, Unpadded(s.stream[lstart..end]), end, s.indexer.mark))
    case Appended =>
      s.(list := s.list + [Element(s.indexer.lstart, s.indexer.len, s.indexer.mark)],
         indexer := ReadHeader(s.indexer.end))
    case HeaderRead => s.(indexer := FindStart(s.indexer.lptr))
    case StartHit(q) => s.(indexer := Peek(q, s.indexer.lptr, s.stream[q + 3]))
    case Peeked =>
      var id := s.indexer.id;
      var flag := if id == 0xb3 then StartSeq else if id == 0xb8 then StartGop else NoStart;
      s.(indexer := WaitRoom(s.indexer.lstart, s.indexer.lptr, Mark(s.indexer.lptr, flag)))
  }

  ghost function ConsumerStep(s: State, step: Step): State
    requires Shape(s) && ConsumerEnabled(s, step) && !Fault(s)
  {
    match step
    case Get => s.(consumer := Ready(s.list[0], s.list[0].lptr))
    case BeginCopy(n) =>
      s.(consumer := Copying(s.consumer.elem, s.consumer.cursor, n,
                             s.consumer.cursor % s.size, s.LIn() % s.size, 0))
    case CopyByte =>
      var c := s.consumer;
      s.(delivered := s.delivered + [s.mem[CopyCell(s.size, c.pAct, c.pHelp, c.n, c.done)]],
         consumer := c.(done := c.done + 1))
    case EndCopy => s.(consumer := Ready(s.consumer.elem, s.consumer.cursor + s.consumer.n))
    case DropElement => s.(lOut := s.list[0].lptr, consumer := Shifting(s.consumer.elem))
    case ShiftList =>
      s.(list := s.list[1..], removed := s.removed + [s.consumer.elem], consumer := Fetch)
  }

  // ---------------------------------------------------------------- the invariant

  /** The ring shows the live window, is never full, and no granted cell is live. */
  ghost predicate RingInv(size: nat, mem: seq<Byte>, stream: seq<Byte>, lOut: nat, producer: Producer) {
    && size > 0 && |mem| == size && lOut <= |stream| < lOut + size
    && (forall q :: lOut <= q < |stream| ==> mem[q % size] == stream[q])
    && (producer.Filling? ==> |stream| % size + producer.len <= size && |stream| + producer.len < lOut + size)
  }

  /** Ascending and disjoint, the last one ending at `upto` at the latest. */
  ghost predicate Ascending(es: seq<Element>, upto: nat) {
    && (forall i :: 0 <= i < |es| ==> es[i].lptr + es[i].len <= upto)
    && (forall i, j :: 0 <= i < j < |es| ==> es[i].lptr < es[j].lptr && es[i].lptr + es[i].len <= es[j].lptr)
  }

  /** The last PES header or sequence start the indexer has passed: everything it has put into the
      list ends there at the latest. */
  function Frontier(x: Indexer): nat {
    match x
    case Seeking(from, _) => from
    case SeekHeader(at, _, _) => at
    case SeekDiscard(at, _, _) => at
    case WaitRoom(lstart, lptr, _) => if lptr < lstart then lptr else lstart
    case FindEnd(lstart, lptr, _) => if lptr < lstart then lptr else lstart
    case Trim(lstart, _, _) => lstart
    case Append(lstart, _, _, _) => lstart
    case ReadHeader(lptr) => lptr
    case FindStart(lptr) => lptr
    case Peek(_, lptr, _) => lptr
  }

  predicate Starting(x: Indexer) { x.Seeking? || x.SeekHeader? || x.SeekDiscard? }

  predicate HasStart(x: Indexer) { x.WaitRoom? || x.FindEnd? || x.Trim? || x.Append? || x.Peek? }

  predicate NeedsRoom(x: Indexer) { x.FindEnd? || x.Trim? || x.Append? }

  /** All elements so far, removed or in the list, lie in order behind the indexer; those in the
      list lie in the live window. */
  ghost predicate ListInv(all: seq<Element>, list: seq<Element>, x: Indexer, lOut: nat, lIn: nat, idle: bool) {
    && |list| <= MAX_ELEMENTS && (NeedsRoom(x) ==> |list| < MAX_ELEMENTS)
    && Ascending(all, Frontier(x))
    && (HasStart(x) ==> forall i :: 0 <= i < |all| ==> all[i].lptr < x.lstart)
    && (forall i :: 0 <= i < |list| ==> lOut <= list[i].lptr)
    && lOut <= Frontier(x) <= lIn
    && (Starting(x) ==> all == [] && idle)
  }

  /** `lstart` is the first start code after the header at `lptr`, or directly before it. */
  ghost predicate Between(stream: seq<Byte>, lptr: nat, lstart: nat) {
    && lptr + 1 <= |stream| && lstart + 3 < |stream|
    && lptr <= lstart + 1 && NoStartCode(stream, lptr + 1, lstart, 0, 0)
  }

  /** Where the indexer's locals point. */
  ghost predicate IndexerInv(x: Indexer, stream: seq<Byte>) {
    match x
    case Seeking(_, _) => true
    case SeekHeader(at, _, _) => at + 3 < |stream|
    case SeekDiscard(at, _, _) => at + 3 < |stream|
    case WaitRoom(lstart, lptr, _) => Between(stream, lptr, lstart)
    case FindEnd(lstart, lptr, _) => Between(stream, lptr, lstart)
    case Trim(lstart, end, _) => lstart <= end && end + 3 < |stream|
    case Append(lstart, len, end, _) => lstart + len <= end && end + 3 < |stream|
    case ReadHeader(lptr) => lptr + 3 < |stream|
    case FindStart(lptr) => lptr + 3 < |stream|
    case Peek(lstart, lptr, _) => lptr < lstart && Between(stream, lptr, lstart)
  }

  /** The consumer works on the first element, and a copy in flight reads the right cells. */
  ghost predicate ConsumerInv(c: Consumer, list: seq<Element>, size: nat) {
    && (!c.Fetch? ==> |list| > 0 && list[0] == c.elem)
    && match c
       case Fetch => true
       case Ready(elem, cursor) => elem.lptr <= cursor <= elem.lptr + elem.len
       case Copying(elem, cursor, n, pAct, pHelp, done) =>
         && elem.lptr <= cursor && cursor + n <= elem.lptr + elem.len && done <= n && size > 0
         && (forall i :: 0 <= i < n ==> CopyCell(size, pAct, pHelp, n, i) == (cursor + i) % size)
       case Shifting(elem) => true
  }

  /** The bytes of the elements, in order. */
  ghost function Text(stream: seq<Byte>, es: seq<Element>): seq<Byte> {
    if es == [] then [] else
    var e := es[|es| - 1];
    Text(stream, es[..|es| - 1]) + Slice(stream, e.lptr, e.lptr + e.len)
  }

  function Slice(stream: seq<Byte>, a: nat, b: nat): seq<Byte> {
    if a <= b <= |stream| then stream[a..b] else []
  }

  /** The part of the current element copied so far. */
  ghost function Current(c: Consumer, stream: seq<Byte>): seq<Byte> {
    match c
    case Fetch => []
    case Ready(elem, cursor) => Slice(stream, elem.lptr, cursor)
    case Copying(elem, cursor, _, _, _, done) => Slice(stream, elem.lptr, cursor + done)
    case Shifting(elem) => Slice(stream, elem.lptr, elem.lptr + elem.len)
  }

  /** What has been copied out is exactly the bytes of the elements, in order. */
  ghost predicate Delivered(s: State) {
    s.delivered == Text(s.stream, s.removed) + Current(s.consumer, s.stream)
  }

  ghost predicate Inv(s: State) {
    && RingInv(s.size, s.mem, s.stream, s.lOut, s.producer)
    && ListInv(s.removed + s.list, s.list, s.indexer, s.lOut, s.LIn(), s.consumer.Fetch?)
    && IndexerInv(s.indexer, s.stream)
    && ConsumerInv(s.consumer, s.list, s.size)
    && Delivered(s)
  }

  /** Elements lie inside the stream. */
  lemma ElementsInside(s: State, i: nat)
    requires Inv(s) && i < |s.list|
    ensures s.lOut <= s.list[i].lptr && s.list[i].lptr + s.list[i].len <= s.LIn()
  {
    assert (s.removed + s.list)[|s.removed| + i] == s.list[i];
  }

  /** No thread ever runs into a data-not-available exit or out of an array. */
  lemma InvIsSafe(s: State)
    requires Inv(s)
    ensures Shape(s) && !Fault(s)
  {
    GrantFits(s);
    if !s.consumer.Fetch? {
      ElementsInside(s, 0);
    }
  }

  /** What the network thread is granted fits before the physical end and leaves the ring short of
      full. */
  lemma GrantFits(s: State)
    requires Shape(s) && s.LIn() < s.lOut + s.size
    ensures var at := s.LIn() % s.size;
            var len := Granted(s.size, at, s.lOut % s.size, s.LIn() - s.lOut);
            0 <= len && at + len <= s.size && s.LIn() + len < s.lOut + s.size
  {
    WrapIsRemainder(s.lOut, s.LIn() - s.lOut, s.size);
  }

  // ---------------------------------------------------------------- preservation

  lemma {:induction false} TextGrows(stream: seq<Byte>, stream': seq<Byte>, es: seq<Element>, upto: nat)
    requires stream <= stream' && upto <= |stream| && Ascending(es, upto)
    ensures Text(stream', es) == Text(stream, es)
  {
    if es != [] {
      TextGrows(stream, stream', es[..|es| - 1], upto);
    }
  }

  /** Writing into the granted region touches no live byte. */
  lemma WriteKeeps(s: State, k: nat, b: Byte)
    requires Inv(s) && ProducerEnabled(s, Write(k, b)) && Shape(s) && !Fault(s)
    ensures Inv(ProducerStep(s, Write(k, b)))
  {
    hide ListInv, IndexerInv, ConsumerInv, Text, Current;
    var s' := ProducerStep(s, Write(k, b));
    WrapIsRemainder(s.LIn(), k, s.size);
    forall q | s.lOut <= q < s.LIn() ensures s'.mem[q % s.size] == s.stream[q] {
      CellsDiffer(q, s.LIn() + k, s.size);
    }
  }

  /** Committing turns the written cells into the next bytes of the stream. */
  lemma CommitKeepsRing(s: State, r: nat)
    requires Inv(s) && ProducerEnabled(s, Committed(r)) && Shape(s) && !Fault(s)
    ensures var s' := ProducerStep(s, Committed(r));
            RingInv(s'.size, s'.mem, s'.stream, s'.lOut, s'.producer)
  {
    hide ListInv, IndexerInv, ConsumerInv, Delivered;
    var s' := ProducerStep(s, Committed(r));
    forall q | s.lOut <= q < s'.LIn() ensures s'.mem[q % s.size] == s'.stream[q] {
      if q >= s.LIn() {
        WrapIsRemainder(s.LIn(), q - s.LIn(), s.size);
      }
    }
  }

  lemma IndexerInvGrows(x: Indexer, stream: seq<Byte>, stream': seq<Byte>)
    requires IndexerInv(x, stream) && stream <= stream'
    ensures IndexerInv(x, stream')
  {
    match x
    case WaitRoom(lstart, lptr, _) => NoStartCodeGrows(stream, stream', lptr + 1, lstart, 0, 0);
    case FindEnd(lstart, lptr, _) => NoStartCodeGrows(stream, stream', lptr + 1, lstart, 0, 0);
    case Peek(lstart, lptr, _) => NoStartCodeGrows(stream, stream', lptr + 1, lstart, 0, 0);
    case _ =>
  }

  lemma DeliveredGrows(s: State, stream': seq<Byte>)
    requires Inv(s) && s.stream <= stream'
    ensures Text(stream', s.removed) == Text(s.stream, s.removed)
    ensures Current(s.consumer, stream') == Current(s.consumer, s.stream)
  {
    hide RingInv, IndexerInv, Delivered, Text;
    var all := s.removed + s.list;
    assert forall i :: 0 <= i < |s.removed| ==> all[i] == s.removed[i];
    TextGrows(s.stream, stream', s.removed, Frontier(s.indexer));
    if !s.consumer.Fetch? {
      ElementsInside(s, 0);
    }
  }

  lemma CommitKeeps(s: State, r: nat)
    requires Inv(s) && ProducerEnabled(s, Committed(r)) && Shape(s) && !Fault(s)
    ensures Inv(ProducerStep(s, Committed(r)))
  {
    hide RingInv, IndexerInv, ConsumerInv, Text, Current, Ascending;
    var s' := ProducerStep(s, Committed(r));
    CommitKeepsRing(s, r);
    IndexerInvGrows(s.indexer, s.stream, s'.stream);
    DeliveredGrows(s, s'.stream);
  }

  lemma ProducerKeeps(s: State, step: Step)
    requires Inv(s) && ProducerEnabled(s, step) && Shape(s) && !Fault(s)
    ensures Inv(ProducerStep(s, step))
  {
    hide ListInv, IndexerInv, ConsumerInv, Delivered;
    match step
    case Grant =>
      GrantFits(s);
      assert Delivered(ProducerStep(s, step)) by { DeliveredSame(s, ProducerStep(s, step)); }
    case Write(k, b) => WriteKeeps(s, k, b);
    case Committed(r) => CommitKeeps(s, r);
  }

  lemma DeliveredSame(s: State, s': State)
    requires Delivered(s)
    requires s'.delivered == s.delivered && s'.stream == s.stream && s'.removed == s.removed
    requires s'.consumer == s.consumer
    ensures Delivered(s')
  {
  }

  /** The next video PES header is not before the next start code of any kind. */
  lemma EndIsBehindStart(stream: seq<Byte>, lptr: nat, lstart: nat, q: nat)
    requires Between(stream, lptr, lstart) && lptr + 1 <= q && StartCodeAt(stream, q, 0xe0, 0xf0)
    ensures lstart <= q
  {
    NothingMasked(stream[q + 3]);
    assert StartCodeAt(stream, q, 0, 0);
  }

  /** The new element lies behind all others and in front of the PES header that ends it. */
  lemma ListAppends(all: seq<Element>, list: seq<Element>, x: Indexer, lOut: nat, lIn: nat, idle: bool)
    requires x.Append? && ListInv(all, list, x, lOut, lIn, idle)
    requires x.lstart + x.len <= x.end <= lIn
    ensures var e := Element(x.lstart, x.len, x.mark);
            ListInv(all + [e], list + [e], ReadHeader(x.end), lOut, lIn, idle)
  {
  }

  lemma AppendKeeps(s: State)
    requires Inv(s) && IndexerEnabled(s, Appended) && Shape(s) && !Fault(s)
    ensures Inv(IndexerStep(s, Appended))
  {
    hide RingInv, Delivered, ListInv, Fault;
    var s' := IndexerStep(s, Appended);
    DeliveredSame(s, s');
    ListAppends(s.removed + s.list, s.list, s.indexer, s.lOut, s.LIn(), s.consumer.Fetch?);
    assert s'.removed + s'.list == s.removed + s.list + [Element(s.indexer.lstart, s.indexer.len, s.indexer.mark)];
  }

  /** Steps of the indexer that move only its own locals. */
  lemma LocalKeeps(s: State, x: Indexer)
    requires Inv(s) && !s.indexer.Seeking?
    requires IndexerInv(x, s.stream) && Frontier(s.indexer) <= Frontier(x) <= s.LIn()
    requires !Starting(x) && (NeedsRoom(x) ==> |s.list| < MAX_ELEMENTS)
    requires HasStart(x) ==> x.lstart > Frontier(s.indexer) || (HasStart(s.indexer) && x.lstart == s.indexer.lstart)
    ensures Inv(s.(indexer := x))
  {
    hide RingInv, ConsumerInv;
    DeliveredSame(s, s.(indexer := x));
  }

  /** Discarding leaves a shorter live window of the same ring. */
  lemma RingDiscards(size: nat, mem: seq<Byte>, stream: seq<Byte>, lOut: nat, lOut': nat, producer: Producer)
    requires RingInv(size, mem, stream, lOut, producer) && lOut <= lOut' <= |stream|
    ensures RingInv(size, mem, stream, lOut', producer)
  {
  }

  /** Steps of the search for the first stamped sequence start. */
  lemma StartingKeeps(s: State, x: Indexer)
    requires Inv(s) && Starting(s.indexer) && Starting(x)
    requires IndexerInv(x, s.stream) && Frontier(s.indexer) <= Frontier(x) <= s.LIn()
    ensures Inv(s.(indexer := x))
  {
    hide ConsumerInv, Delivered, RingInv, IndexerInv;
    DeliveredSame(s, s.(indexer := x));
  }

  lemma SeekHitKeeps(s: State, q: nat)
    requires Inv(s) && IndexerEnabled(s, SeekHit(q)) && Shape(s) && !Fault(s)
    ensures Inv(IndexerStep(s, SeekHit(q)))
  {
    StartingKeeps(s, IndexerStep(s, SeekHit(q)).indexer) by {
      hide Inv, Fault, Masked, NoStartCode, Unpadded, HasPts;
    }
    hide Inv, Fault, Masked, Unpadded, HasPts;
  }

  lemma SeekReadKeeps(s: State)
    requires Inv(s) && IndexerEnabled(s, SeekRead) && Shape(s) && !Fault(s)
    ensures Inv(IndexerStep(s, SeekRead))
  {
    StartingKeeps(s, IndexerStep(s, SeekRead).indexer) by {
      hide Fault, Masked, Unpadded, HasPts, ListInv, RingInv, ConsumerInv, Delivered;
      FrontierBounds(s);
    }
    hide Inv, Fault, Masked, Unpadded, HasPts;
  }

  lemma SeekNextKeeps(s: State)
    requires Inv(s) && IndexerEnabled(s, SeekNext) && Shape(s) && !Fault(s)
    ensures Inv(IndexerStep(s, SeekNext))
  {
    hide ConsumerInv, Delivered, Fault, RingInv, Masked, HasPts, Unpadded;
    var s' := IndexerStep(s, SeekNext);
    DeliveredSame(s, s');
    RingDiscards(s.size, s.mem, s.stream, s.lOut, s'.lOut, s.producer);
  }

  lemma IndexerKeeps(s: State, step: Step)
    requires Inv(s) && IndexerEnabled(s, step) && Shape(s) && !Fault(s)
    ensures Inv(IndexerStep(s, step))
  {
    hide RingInv, ListInv, ConsumerInv, Delivered, Masked, HasPts;
    if step.SeekHit? {
      SeekHitKeeps(s, step.q);
    } else if step.SeekRead? {
      SeekReadKeeps(s);
    } else if step.SeekNext? {
      SeekNextKeeps(s);
    } else if step.Appended? {
      AppendKeeps(s);
    } else {
      if step.EndHit? {
        EndIsBehindStart(s.stream, s.indexer.lptr, s.indexer.lstart, step.q);
      }
      FrontierBounds(s);
      LocalKeeps(s, IndexerStep(s, step).indexer);
    }
  }

  lemma FrontierBounds(s: State)
    requires Inv(s)
    ensures s.lOut <= Frontier(s.indexer) <= s.LIn()
    ensures NeedsRoom(s.indexer) ==> |s.list| < MAX_ELEMENTS
  {
  }

  /** The two pieces of `CopyBuffer` read the cells of consecutive stream positions. */
  lemma CopyCellIsRemainder(size: nat, ptr: nat, n: nat, lIn: nat, i: nat)
    requires size > 0 && ptr + n <= lIn < ptr + size && i < n
    ensures CopyCell(size, ptr % size, lIn % size, n, i) == (ptr + i) % size
  {
    WrapIsRemainder(ptr, i, size);
    WrapIsRemainder(ptr, lIn - ptr, size);
  }

  lemma BeginCopyKeeps(s: State, n: nat)
    requires Inv(s) && ConsumerEnabled(s, BeginCopy(n)) && Shape(s) && !Fault(s)
    ensures Inv(ConsumerStep(s, BeginCopy(n)))
  {
    hide IndexerInv, Text;
    var c := ConsumerStep(s, BeginCopy(n)).consumer;
    ElementsInside(s, 0);
    forall i | 0 <= i < n ensures CopyCell(s.size, c.pAct, c.pHelp, n, i) == (c.cursor + i) % s.size {
      CopyCellIsRemainder(s.size, c.cursor, n, s.LIn(), i);
    }
  }

  /** One byte read outside the mutex is the next byte of the stream, whatever the network thread
      has written meanwhile. */
  lemma CopyByteKeeps(s: State)
    requires Inv(s) && ConsumerEnabled(s, CopyByte) && Shape(s) && !Fault(s)
    ensures Inv(ConsumerStep(s, CopyByte))
  {
    hide IndexerInv, ListInv, Text;
    var c := s.consumer;
    ElementsInside(s, 0);
    var q := c.cursor + c.done;
    assert s.mem[CopyCell(s.size, c.pAct, c.pHelp, c.n, c.done)] == s.stream[q];
    assert s.stream[c.elem.lptr..q] + [s.stream[q]] == s.stream[c.elem.lptr..q + 1];
  }

  lemma DropKeeps(s: State)
    requires Inv(s) && ConsumerEnabled(s, DropElement) && Shape(s) && !Fault(s)
    ensures Inv(ConsumerStep(s, DropElement))
  {
    hide IndexerInv, Text, RingInv, ListInv, Ascending, Slice;
    ElementsInside(s, 0);
    RingDiscards(s.size, s.mem, s.stream, s.lOut, s.list[0].lptr, s.producer);
    DiscardedList(s.removed, s.list, s.indexer, s.lOut, s.LIn());
  }

  /** The elements in the list lie behind the start of the first one. */
  lemma DiscardedList(removed: seq<Element>, list: seq<Element>, x: Indexer, lOut: nat, lIn: nat)
    requires list != [] && ListInv(removed + list, list, x, lOut, lIn, false)
    ensures ListInv(removed + list, list, x, list[0].lptr, lIn, false)
  {
    hide Frontier;
    var all := removed + list;
    assert all[|removed|] == list[0];
    forall i | 0 <= i < |list| ensures list[0].lptr <= list[i].lptr {
      assert all[|removed| + i] == list[i];
    }
  }

  lemma ShiftKeeps(s: State)
    requires Inv(s) && ConsumerEnabled(s, ShiftList) && Shape(s) && !Fault(s)
    ensures Inv(ConsumerStep(s, ShiftList))
  {
    hide IndexerInv, RingInv, Ascending, ListInv, Text, Slice, Frontier;
    var s' := ConsumerStep(s, ShiftList);
    assert s'.removed + s'.list == s.removed + s.list;
    ShorterList(s.removed + s.list, s.list, s.indexer, s.lOut, s.LIn());
    TextAppend(s.stream, s.removed, s.list[0]);
  }

  lemma ShorterList(all: seq<Element>, list: seq<Element>, x: Indexer, lOut: nat, lIn: nat)
    requires ListInv(all, list, x, lOut, lIn, false) && list != []
    ensures ListInv(all, list[1..], x, lOut, lIn, true)
  {
    hide Ascending, Frontier;
  }

  lemma TextAppend(stream: seq<Byte>, es: seq<Element>, e: Element)
    ensures Text(stream, es + [e]) == Text(stream, es) + Slice(stream, e.lptr, e.lptr + e.len)
  {
    assert (es + [e])[..|es|] == es;
  }

  lemma ConsumerKeeps(s: State, step: Step)
    requires Inv(s) && ConsumerEnabled(s, step) && Shape(s) && !Fault(s)
    ensures Inv(ConsumerStep(s, step))
  {
    hide IndexerInv, RingInv, Text, Ascending;
    match step
    case BeginCopy(n) => BeginCopyKeeps(s, n);
    case CopyByte => CopyByteKeeps(s);
    case DropElement => DropKeeps(s);
    case ShiftList => ShiftKeeps(s);
    case Get => ElementsInside(s, 0);
    case EndCopy =>
  }

  // ---------------------------------------------------------------- runs

  ghost predicate Init(s: State) {
    && s.size > 0 && |s.mem| == s.size && s.stream == [] && s.lOut == 0
    && s.producer.Idle? && s.list == [] && s.indexer == Seeking(0, -1) && s.consumer.Fetch?
    && s.removed == [] && s.delivered == []
  }

  ghost predicate Next(s: State, s': State) {
    && Shape(s) && !Fault(s)
    && exists step ::
         || (ProducerEnabled(s, step) && s' == ProducerStep(s, step))
         || (IndexerEnabled(s, step) && s' == IndexerStep(s, step))
         || (ConsumerEnabled(s, step) && s' == ConsumerStep(s, step))
  }

  /** A run in which every state but the last has been left by a step. */
  ghost predicate Run(states: seq<State>) {
    && |states| > 0 && Init(states[0])
    && forall i :: 0 <= i < |states| - 1 ==> Next(states[i], states[i + 1])
  }

  lemma NextKeeps(s: State, s': State)
    requires Inv(s) && Next(s, s')
    ensures Inv(s')
  {
    hide Inv;
    var step :| || (ProducerEnabled(s, step) && s' == ProducerStep(s, step))
                || (IndexerEnabled(s, step) && s' == IndexerStep(s, step))
                || (ConsumerEnabled(s, step) && s' == ConsumerStep(s, step));
    if ProducerEnabled(s, step) {
      ProducerKeeps(s, step);
    } else if IndexerEnabled(s, step) {
      IndexerKeeps(s, step);
    } else {
      ConsumerKeeps(s, step);
    }
  }

  lemma {:induction false} RunKeeps(states: seq<State>, k: nat)
    requires Run(states) && k < |states|
    ensures Inv(states[k])
  {
    if k > 0 {
      RunKeeps(states, k - 1);
      assert Next(states[k - 1], states[(k - 1) + 1]);
      NextKeeps(states[k - 1], states[k]);
    }
  }

  /** Stream position `q` has its cell in the region the network thread may write. */
  ghost predicate Overwritable(s: State, q: nat)
    requires s.size > 0
  {
    s.producer.Filling? && s.LIn() % s.size <= q % s.size < s.LIn() % s.size + s.producer.len
  }

  lemma LiveIsNotOverwritable(s: State, q: nat)
    requires Inv(s) && s.lOut <= q < s.LIn()
    ensures !Overwritable(s, q)
  {
    hide ListInv, IndexerInv, ConsumerInv, Delivered;
    if Overwritable(s, q) {
      var j := q % s.size - s.LIn() % s.size;
      WrapIsRemainder(s.LIn(), j, s.size);
      CellsDiffer(q, s.LIn() + j, s.size);
    }
  }

  /** What holds in every reachable state: no thread is about to fault; the ring is never full and
      shows the live window, none of which the network thread may overwrite; the elements are
      ascending, disjoint and inside the stream, those in the list inside the live window; and what
      the multiplexer has copied out is the bytes of the elements, in order. */
  ghost predicate Safe(s: State) {
    && Shape(s) && !Fault(s) && s.LIn() < s.lOut + s.size
    && (forall q :: s.lOut <= q < s.LIn() ==> s.mem[q % s.size] == s.stream[q])
    && (forall q :: s.lOut <= q < s.LIn() ==> !Overwritable(s, q))
    && Ascending(s.removed + s.list, s.LIn())
    && (forall i :: 0 <= i < |s.list| ==> s.lOut <= s.list[i].lptr)
    && Delivered(s)
  }

  lemma RunsAreSafe(states: seq<State>, k: nat)
    requires Run(states) && k < |states|
    ensures Safe(states[k])
  {
    hide Run, Fault, Delivered, Overwritable;
    RunKeeps(states, k);
    var s := states[k];
    InvIsSafe(s);
    forall q | s.lOut <= q < s.LIn() ensures !Overwritable(s, q) {
      LiveIsNotOverwritable(s, q);
    }
  }

  /** The indexer's searches, which pass a length of 0, never report -1: that would need more
      committed bytes after the search position than the ring holds. */
  lemma SearchNeverGivesUp(states: seq<State>, k: nat, ptr: nat)
    requires Run(states) && k < |states| && states[k].lOut <= ptr
    ensures !(ptr + states[k].size + 3 <= states[k].LIn())
  {
    RunsAreSafe(states, k);
  }
}
