/** Every run of `fill_video_pp`: what a reader of the packs finds in them. */
module VideoRuns {
  import opened Options
  import opened Bytes
  import opened Timestamps
  import opened Propack
  import opened VideoPacks

  // ---------------------------------------------------------------- reading a pack

  /** The packet length field, and the six bytes before what it counts. */
  function ReadLength(pes: seq<Byte>): nat
    requires |pes| >= 9
  {
    var hi: int, lo: int := pes[4], pes[5];
    6 + hi * 0x100 + lo
  }

  /** The payload: what follows the header the packet declares, without padding. */
  function ReadPayload(pes: seq<Byte>, fill: nat): seq<Byte> {
    if |pes| < 9 then [] else
    var from: int := pes[8] as int + 9;
    if from + fill <= |pes| then pes[from..|pes| - fill] else []
  }

  function ReadStamp(pes: seq<Byte>): Option<nat>
    requires |pes| >= 9
  {
    if pes[7] >= 0x80 && |pes| >= 14 then Some(FullPts(pes[9..14])) else None
  }

  lemma HeaderReads(len: nat, stamp: Option<real>)
    requires 6 <= len < 0x1_0000
    ensures var h := VideoHeader(len, stamp);
            && h[..4] == [0, 0, 1, 0xe0] && ReadLength(h) == len && h[6] == 0x80
            && (h[8] as int) + 9 == |h|
            && ReadStamp(h) == match stamp case None => None case Some(t) => Some(FullPts(PtsBytesG(PtsTicks(t))))
  {
    hide FullPts, PtsBytesG, PtsTicks;
    var h := VideoHeader(len, stamp);
    if stamp.Some? { assert h[9..14] == PtsBytesG(PtsTicks(stamp.value)); }
  }

  lemma ReadsFromHeader(h: seq<Byte>, d: seq<Byte>, fill: nat)
    requires |h| >= 9 && (h[8] as int) + 9 == |h| && (h[7] >= 0x80 <==> |h| >= 14)
    ensures var pes := h + d + Zeros(fill);
            ReadLength(pes) == ReadLength(h) && ReadPayload(pes, fill) == d && ReadStamp(pes) == ReadStamp(h)
  {
    var pes := h + d + Zeros(fill);
    hide FullPts;
    assert pes[|h|..|pes| - fill] == d;
    if h[7] >= 0x80 { assert pes[9..14] == h[9..14]; }
  }

  /** The packet that `Filled` describes, as a reader sees it: its length field covers it, its payload is
      the stretch of the stream, and its stamp, where there is one, is at most 96 ticks early. */
  lemma PackReads(pics: seq<Picture>, c: real, p: Place, pack: Pack, fill: nat, q: Place)
    requires Filled(pics, c, p, pack, fill, q)
    ensures |pack.pes| >= 9 && pack.pes[..4] == [0, 0, 1, 0xe0] && ReadLength(pack.pes) == |pack.pes|
    ensures pack.pes[6] == 0x80
    ensures ReadPayload(pack.pes, fill) == Stream(pics)[p.at..q.at]
    ensures fill <= |pack.pes| && pack.pes[|pack.pes| - fill..] == Zeros(fill)
    ensures var stamp := Stamp(pics, c, p, Last(pics, p, q));
            && (ReadStamp(pack.pes).None? <==> stamp.None?)
            && (stamp.Some? && 0.0 <= stamp.value <= (TWO_33 - 1) as real ==>
                  0 <= stamp.value.Floor - ReadStamp(pack.pes).value <= 96)
  {
    var len, stamp, d := |pack.pes|, Stamp(pics, c, p, Last(pics, p, q)), Stream(pics)[p.at..q.at];
    var h := VideoHeader(len, stamp);
    assert pack.pes == h + d + Zeros(fill);
    HeaderReads(len, stamp);
    assert h[7] >= 0x80 <==> |h| >= 14;
    ReadsFromHeader(h, d, fill);
    if stamp.Some? && 0.0 <= stamp.value <= (TWO_33 - 1) as real { PtsGIsClose(PtsTicks(stamp.value)); }
    hide Filled, VideoHeader, ReadLength, ReadPayload, ReadStamp, Stream, Stamp, Last, FullPts, PtsBytesG;
  }

  // ---------------------------------------------------------------- runs

  datatype Call = Call(from: Place, pack: Pack, fill: nat, to: Place)

  /** Any number of calls, from the first one on. */
  ghost predicate Run(pics: seq<Picture>, c: real, calls: seq<Call>) {
    && |pics| > 0
    && (calls != [] ==>
          var before, call := calls[..|calls| - 1], calls[|calls| - 1];
          && Run(pics, c, before) && call.from == EndOf(pics, c, before)
          && Filled(pics, c, call.from, call.pack, call.fill, call.to))
  }

  /** Where a run has got to. */
  ghost function EndOf(pics: seq<Picture>, c: real, calls: seq<Call>): Place
    requires |pics| > 0
  {
    if calls == [] then Initially(pics, c) else calls[|calls| - 1].to
  }

  /** What is proved of the last pack of a run is proved of every pack. */
  lemma {:induction false} RunPrefix(pics: seq<Picture>, c: real, calls: seq<Call>, n: nat)
    requires Run(pics, c, calls) && n <= |calls|
    ensures Run(pics, c, calls[..n])
  {
    hide Filled;
    if n < |calls| {
      RunPrefix(pics, c, calls[..|calls| - 1], n);
      assert calls[..|calls| - 1][..n] == calls[..n];
    } else {
      assert calls[..n] == calls;
    }
  }

  /** A run always stops in an orderly place. */
  lemma RunStops(pics: seq<Picture>, c: real, calls: seq<Call>)
    requires Run(pics, c, calls)
    ensures PlaceOk(pics, EndOf(pics, c, calls))
  {
    hide Filled, PlaceOk, Initially;
    InitiallyFits(pics, c);
    if calls != [] {
      var call := calls[|calls| - 1];
      FilledFits(pics, c, call.from, call.pack, call.fill, call.to);
    }
  }

  /** What a reader gets from all the packs. */
  function Payloads(calls: seq<Call>): seq<Byte> {
    if calls == [] then [] else
    var call := calls[|calls| - 1];
    Payloads(calls[..|calls| - 1]) + ReadPayload(call.pack.pes, call.fill)
  }

  /** The payloads, padding left out, are the pictures one after the other: nothing is lost, repeated or
      reordered, wherever the packs end and wherever a stamp was put in late. */
  lemma {:induction false} RunCarriesStream(pics: seq<Picture>, c: real, calls: seq<Call>)
    requires Run(pics, c, calls)
    ensures EndOf(pics, c, calls).at <= |Stream(pics)|
    ensures Payloads(calls) == Stream(pics)[..EndOf(pics, c, calls).at]
  {
    hide Filled, ReadPayload, Stream;
    if calls != [] {
      var call := calls[|calls| - 1];
      RunCarriesStream(pics, c, calls[..|calls| - 1]);
      PackReads(pics, c, call.from, call.pack, call.fill, call.to);
      FilledMoves(pics, c, call);
      var s := Stream(pics);
      assert s[..call.from.at] + s[call.from.at..call.to.at] == s[..call.to.at];
    }
  }

  lemma FilledMoves(pics: seq<Picture>, c: real, call: Call)
    requires Filled(pics, c, call.from, call.pack, call.fill, call.to)
    ensures call.from.at <= call.to.at <= |Stream(pics)| && call.from.k <= call.to.k < |pics|
    ensures forall i :: 0 <= i < |pics| && BeginsWithin(pics, call.from, call.to, i) ==> pics[i].flag != StartSeq
  {
    hide PlaceOk, Stream, Start, PackBytes, Roomy, Due, Stamp;
  }

  /** Picture `i` has begun by the time a run has got to `q`. */
  ghost predicate Begun(pics: seq<Picture>, q: Place, i: nat)
    requires i < |pics|
  {
    i < q.k || (i == q.k && Start(pics, i) < q.at)
  }

  /** Picture `i` is the first thing in the call's pack, which says so and carries its stamp. */
  ghost predicate Announces(pics: seq<Picture>, c: real, call: Call, i: nat)
    requires i < |pics|
  {
    && call.from.k == i && AtStart(pics, call.from) && call.pack.flag == StartSeq && |call.pack.pes| >= 9
    && var due := Due(pics, c, i);
       && ReadStamp(call.pack.pes).Some?
       && (0.0 <= due <= (TWO_33 - 1) as real ==> 0 <= due.Floor - ReadStamp(call.pack.pes).value <= 96)
       && call.pack.scr == due - VIDEO_FORERUN
  }

  /** A sequence start about to begin has its clock reference set. */
  lemma WantedClock(pics: seq<Picture>, c: real, calls: seq<Call>)
    requires Run(pics, c, calls)
    ensures var p := EndOf(pics, c, calls);
            p.flag == StartSeq ==> p.k < |pics| && p.scr == Due(pics, c, p.k) - VIDEO_FORERUN
  {
    if calls != [] {
      hide PlaceOk, Stream, Start, PackBytes, Roomy, Due, Stamp;
    }
  }

  /** A sequence start at the front of a pack. */
  lemma FrontAnnounced(pics: seq<Picture>, c: real, call: Call)
    requires Filled(pics, c, call.from, call.pack, call.fill, call.to) && PlaceOk(pics, call.from)
    requires AtStart(pics, call.from) && pics[call.from.k].flag == StartSeq
    requires call.from.scr == Due(pics, c, call.from.k) - VIDEO_FORERUN
    ensures call.from.flag == StartSeq && Announces(pics, c, call, call.from.k)
  {
    PackReads(pics, c, call.from, call.pack, call.fill, call.to);
    hide Stream, Start, PackBytes, Roomy, Due, ReadStamp;
  }

  /** Every sequence start that has been sent begins a pack, which carries its stamp and the flag. */
  lemma {:induction false} SequenceStartsBeginPacks(pics: seq<Picture>, c: real, calls: seq<Call>, i: nat)
    requires Run(pics, c, calls) && i < |pics| && pics[i].flag == StartSeq && Begun(pics, EndOf(pics, c, calls), i)
    ensures exists j :: 0 <= j < |calls| && Announces(pics, c, calls[j], i)
  {
    hide Filled, Stream, UpTo, PlaceOk, Announces, Initially, Due;
    if calls == [] {
      InitiallyFits(pics, c);
      assert Initially(pics, c).k == 0 && Initially(pics, c).at == 0 by { First(pics, c); }
      assert false;
    } else {
      var n := |calls| - 1;
      var call := calls[n];
      RunStops(pics, c, calls[..n]);
      FilledMoves(pics, c, call);
      if Begun(pics, call.from, i) {
        SequenceStartsBeginPacks(pics, c, calls[..n], i);
        var j :| 0 <= j < n && Announces(pics, c, calls[..n][j], i);
        assert calls[..n][j] == calls[j];
      } else {
        FlagAt(pics, call.from);
        WantedClock(pics, c, calls[..n]);
        FrontAnnounced(pics, c, call);
      }
    }
  }

  /** The last pack of a run, as `Filled` describes it: exactly full; padded only before a picture about to
      begin, and then with less than 30 bytes unless a sequence starts; flagged only if a sequence
      starts at its front; none starts further on. */
  lemma LastPack(pics: seq<Picture>, c: real, calls: seq<Call>)
    requires Run(pics, c, calls) && calls != []
    ensures var call := calls[|calls| - 1];
            && PlaceOk(pics, call.from) && PlaceOk(pics, call.to)
            && |call.pack.pes| >= 9 && ReadLength(call.pack.pes) == |call.pack.pes|
            && (call.fill > 0 ==> AtStart(pics, call.to) && (pics[call.to.k].flag == StartSeq || call.fill < MIN_ROOM))
            && (call.pack.flag == StartSeq <==> AtStart(pics, call.from) && pics[call.from.k].flag == StartSeq)
            && (forall i :: 0 <= i < |pics| && BeginsWithin(pics, call.from, call.to, i) ==> pics[i].flag != StartSeq)
  {
    var call := calls[|calls| - 1];
    RunStops(pics, c, calls);
    RunStops(pics, c, calls[..|calls| - 1]);
    PackReads(pics, c, call.from, call.pack, call.fill, call.to);
    FilledMoves(pics, c, call);
    hide Run, Start, Stream, PackBytes, Due, Stamp, Roomy, Moved, ReadLength;
  }

  /** A picture at the front of a pack gets its stamp there exactly if it is the first of all, starts a
      sequence, or follows padding. */
  lemma FrontStamp(pics: seq<Picture>, c: real, calls: seq<Call>)
    requires Run(pics, c, calls) && AtStart(pics, EndOf(pics, c, calls))
    ensures var p := EndOf(pics, c, calls);
            p.setPts <==> calls == [] || pics[p.k].flag == StartSeq || calls[|calls| - 1].fill > 0
  {
    hide Start, Stream, PackBytes, Due, Stamp, Roomy, Moved;
  }

  /** So a picture that ends exactly with its pack leaves the next one without a stamp: the next pack
      begins with that picture, and carries no stamp or that of the picture after it. */
  lemma ExactFitLosesStamp(pics: seq<Picture>, c: real, p: Place, pack: Pack, fill: nat, q: Place, next: Call)
    requires PlaceOk(pics, p) && Filled(pics, c, p, pack, fill, q)
    requires p.k + 1 < |pics| && pics[p.k + 1].flag != StartSeq
    requires |pack.pes| == (if p.setPts then 14 else 9) + (Start(pics, p.k + 1) - p.at)
    requires next.from == q && Filled(pics, c, q, next.pack, next.fill, next.to)
    ensures q.k == p.k + 1 && AtStart(pics, q) && !q.setPts
    ensures Stamp(pics, c, q, Last(pics, q, next.to)) in
              if q.k + 1 < |pics| then {None, Some(Due(pics, c, q.k + 1))} else {None}
  {
    Rooms(pics, c, p, pack, fill, q, p.k + 1);
    Lengths(pics, c, p, pack, fill, q);
    Lengths(pics, c, q, next.pack, next.fill, next.to);
    if q.k + 1 < |pics| { Rooms(pics, c, p, pack, fill, q, q.k + 1); }
    hide Start, Stream, PackBytes, Due, Roomy;
  }

  /** A sequence start that just fills the first pack, a picture of one byte, and a long one. */
  function FittingPictures(a: real, b: real, c: real): seq<Picture> {
    [Picture(seq(2020, _ => 1), a, StartSeq), Picture([1], b, NoStart), Picture(seq(3000, _ => 1), c, NoStart)]
  }

  lemma FittingStarts(a: real, b: real, c: real)
    ensures var pics := FittingPictures(a, b, c);
            && Start(pics, 0) == 0 && Start(pics, 1) == 2020 && Start(pics, 2) == 2021 && Start(pics, 3) == 5021
            && |Stream(pics)| == 5021
  {
    var pics := FittingPictures(a, b, c);
    assert UpTo(pics, 1) == UpTo(pics, 0) + pics[0].data;
    assert UpTo(pics, 2) == UpTo(pics, 1) + pics[1].data;
    assert UpTo(pics, 3) == UpTo(pics, 2) + pics[2].data;
  }

  /** Of these the first pack holds the first picture; the second begins with the second picture and carries the
      stamp of the third. */
  lemma ExactFitHappens(a: real, b: real, c: real) returns (first: Call, second: Call)
    ensures var pics := FittingPictures(a, b, c);
            && Run(pics, 0.0, [first, second]) && |first.pack.pes| == PACK - 14
            && second.from.k == 1 && AtStart(pics, second.from) && Last(pics, second.from, second.to) == 2
            && Stamp(pics, 0.0, second.from, 2) == Some(Due(pics, 0.0, 2))
  {
    var pics := FittingPictures(a, b, c);
    FittingStarts(a, b, c);
    var p := Initially(pics, 0.0);
    InitiallyFits(pics, 0.0);
    var pes := VideoHeader(2034, Some(Due(pics, 0.0, 0))) + Stream(pics)[0..2020];
    var q := Resume(pics, 0.0, 1, 0, PackScr(p));
    first := Call(p, Pack(pes + Zeros(0), PackScr(p), p.flag), 0, q);
    FullBefore(pics, 0.0, p, 0, pes, 2034);
    second := SecondGoesOn(a, b, c, q);
    hide Filled, VideoHeader, Due, Stream, UpTo, Start;
    assert Run(pics, 0.0, []);
    assert [first][..0] == [] && [first, second][..1] == [first];
    assert Run(pics, 0.0, [first]);
  }

  lemma SecondGoesOn(a: real, b: real, c: real, q: Place) returns (second: Call)
    requires q.k == 1 && q.at == 2020 && !q.setPts && q.flag == NoStart
    ensures var pics := FittingPictures(a, b, c);
            && second.from == q && Filled(pics, 0.0, q, second.pack, second.fill, second.to)
            && second.to.k == 2 && Last(pics, q, second.to) == 2
  {
    var pics := FittingPictures(a, b, c);
    FittingStarts(a, b, c);
    var scr := PackScr(q);
    var header := VideoHeader(2034, None);
    var q0, q1 := Place(1, 2020, false, NoStart, scr), Place(2, 2021, false, NoStart, scr);
    var late := VideoHeader(2034, Some(Due(pics, 0.0, 2)));
    hide VideoHeader, UpTo, Stream, Start, Due;
    Begins(pics, 0.0, q, q0, header, 2034);
    Finishes(pics, 0.0, q, q0, header, 2034);
    var pes := header + Stream(pics)[2020..2021];
    GoesOn(pics, 0.0, q, 1, pes, 2034, q1);
    FullWithin(pics, 0.0, q, q1, late + pes[9..], 2034);
    var q' := q1.(at := 4040);
    second := Call(q, Pack(late + pes[9..] + Stream(pics)[2021..4040], scr, NoStart), 0, q');
  }

  lemma First(pics: seq<Picture>, c: real)
    requires |pics| > 0
    ensures Initially(pics, c).k == 0 && Initially(pics, c).at == 0
  {
  }

  lemma FlagAt(pics: seq<Picture>, p: Place)
    requires PlaceOk(pics, p)
    ensures Fits(pics, p) && (p.flag == StartSeq <==> AtStart(pics, p) && pics[p.k].flag == StartSeq)
  {
  }

  // ---------------------------------------------------------------- stamps that wrap

  /** What a 33-bit stamp shows of a time less than two turns of the clock. */
  function Wrapped(t: real): real { if t < TWO_33 as real then t else t - TWO_33 as real }

  /** Pictures with these times: they ascend in steps of less than 200000 ticks from one within the first turn,
      and end within the second. */
  ghost predicate TimesOf(pics: seq<Picture>, times: seq<real>) {
    && |times| == |pics| > 0 && 200_000.0 <= times[0] < TWO_33 as real
    && (forall i :: 0 <= i < |pics| ==> times[i] < 2.0 * TWO_33 as real && pics[i].pts == Wrapped(times[i]))
    && (forall i :: 0 <= i < |pics| - 1 ==> times[i] <= times[i + 1] < times[i] + 200_000.0)
  }

  lemma {:induction false} OffsetFollows(pics: seq<Picture>, c: real, times: seq<real>, k: nat)
    requires TimesOf(pics, times) && TWO_32 as real < c < TWO_33 as real && k < |pics|
    ensures times[0] <= times[k] && Offset(pics, c, k) == if times[k] < TWO_33 as real then c else c - TWO_33 as real
  {
    if k > 0 {
      OffsetFollows(pics, c, times, k - 1);
      assert times[k - 1] <= times[(k - 1) + 1] < times[k - 1] + 200_000.0;
    }
  }

  /** If the time it is counted from is beyond 2^32, a recording's stamps stay right when the 33-bit clock
      wraps. */
  lemma WrapIsCorrected(pics: seq<Picture>, c: real, times: seq<real>, k: nat)
    requires TimesOf(pics, times) && TWO_32 as real < c < TWO_33 as real && k < |pics|
    ensures Due(pics, c, k) == times[k] - c
  {
    OffsetFollows(pics, c, times, k);
  }

  /** If it is not, they are not corrected, and fall back by a whole turn. */
  lemma {:induction false} WrapIsMissed(pics: seq<Picture>, c: real, k: nat)
    requires c <= TWO_32 as real && k < |pics|
    ensures Offset(pics, c, k) == c && Due(pics, c, k) == pics[k].pts - c
  {
    if k > 0 { WrapIsMissed(pics, c, k - 1); }
  }
}
