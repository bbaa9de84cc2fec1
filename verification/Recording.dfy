/** A whole recording by ggrab: the multiplex loop with the video stream that fills its packs. What a reader
    finds in the files are the indexed pictures. */
module Recording {
  import opened Bytes
  import opened Timestamps
  import opened Propack
  import opened VideoPacks
  import opened VideoRuns
  import opened Multiplex

  // ---------------------------------------------------------------- the video packs in the files

  function VideoOnly(sent: seq<Sent>): seq<Sent> {
    if sent == [] then [] else
    VideoOnly(sent[..|sent| - 1]) + if sent[|sent| - 1].stream == 0 then [sent[|sent| - 1]] else []
  }

  lemma VideoOnlyAppend(sent: seq<Sent>, s: Sent)
    ensures VideoOnly(sent + [s]) == VideoOnly(sent) + if s.stream == 0 then [s] else []
  {
    assert (sent + [s])[..|sent|] == sent;
  }

  /** A video pack that was sent is one of the video packs. */
  lemma {:induction false} VideoOnlyHas(sent: seq<Sent>, s: Sent)
    requires s in sent && s.stream == 0
    ensures s in VideoOnly(sent)
  {
    var n := |sent| - 1;
    if s != sent[n] {
      assert s in sent[..n];
      VideoOnlyHas(sent[..n], s);
    }
  }

  /** The packet of a call stands at `start` of the bytes sent, with its flag and its wanted reference. */
  ghost predicate CarriesCall(bytes: seq<Byte>, wanted: real, flag: StartFlag, start: nat, call: Call) {
    && start <= |bytes| && bytes[start..] == call.pack.pes && wanted == call.pack.scr && flag == call.pack.flag
  }

  ghost predicate Carry(vs: seq<Sent>, starts: seq<nat>, calls: seq<Call>) {
    && |vs| == |starts| == |calls|
    && forall j :: 0 <= j < |vs| ==> CarriesCall(vs[j].bytes, vs[j].wanted, vs[j].flag, starts[j], calls[j])
  }

  /** What a reader of the packs gets: the payloads without their padding. `starts` is where the PES packets
      begin, behind the pack header and, in the first pack, the system header. */
  function ReadVideo(vs: seq<Sent>, starts: seq<nat>, fills: seq<nat>): seq<Byte>
    requires |vs| == |starts| == |fills|
  {
    if vs == [] then [] else
    var n := |vs| - 1;
    ReadVideo(vs[..n], starts[..n], fills[..n]) +
    if starts[n] <= |vs[n].bytes| then ReadPayload(vs[n].bytes[starts[n]..], fills[n]) else []
  }

  function Fills(calls: seq<Call>): (f: seq<nat>)
    ensures |f| == |calls|
  {
    seq(|calls|, j requires 0 <= j < |calls| => calls[j].fill)
  }

  /** Packs that carry the packets of calls read like the calls. */
  lemma {:induction false} CarriedPayloads(vs: seq<Sent>, starts: seq<nat>, calls: seq<Call>)
    requires Carry(vs, starts, calls)
    ensures ReadVideo(vs, starts, Fills(calls)) == Payloads(calls)
  {
    hide ReadPayload;
    if vs != [] {
      var n := |vs| - 1;
      CarriedPayloads(vs[..n], starts[..n], calls[..n]);
      assert Fills(calls)[..n] == Fills(calls[..n]);
      assert CarriesCall(vs[n].bytes, vs[n].wanted, vs[n].flag, starts[n], calls[n]);
    }
  }

  lemma CarryAppend(vs: seq<Sent>, starts: seq<nat>, calls: seq<Call>, v: Sent, start: nat, call: Call)
    requires Carry(vs, starts, calls) && CarriesCall(v.bytes, v.wanted, v.flag, start, call)
    ensures Carry(vs + [v], starts + [start], calls + [call])
  {
    hide CarriesCall;
  }

  /** Filling in the clock reference leaves the packet alone. */
  lemma DispatchCarries(w: Waiting, scr: real, start: nat, call: Call)
    requires |w.bytes| == PACK && 10 <= start && CarriesCall(w.bytes, w.wanted, w.flag, start, call)
    ensures var s := Dispatch(0, w, scr); CarriesCall(s.bytes, s.wanted, s.flag, start, call)
  {
    var s := Dispatch(0, w, scr);
    assert s.bytes[start..] == s.bytes[10..][start - 10..];
    assert w.bytes[start..] == w.bytes[10..][start - 10..];
  }

  // ---------------------------------------------------------------- the recording

  class Session {
    const mux: Multiplexer
    const video: VideoStream
    const pp: Propack
    /** The calls of `fill_video_pp`, the last of which filled the pack now waiting. */
    ghost var calls: seq<Call>
    ghost var starts: seq<nat>

    ghost predicate Valid()
      reads this, mux, video, pp, pp.buffer
    {
      && mux.Valid() && pp.Valid() && pp.act == PACK && Whole(mux.waiting)
      && mux.waiting[0] == Waiting(pp.scrWanted, pp.flag, pp.buffer[..])
      && |video.pics| > 0 && video.Valid() && Run(video.pics, video.offset, calls)
      && video.Here() == EndOf(video.pics, video.offset, calls)
      && |starts| == |calls| > 0
      && var n := |calls| - 1;
         && 10 <= starts[n] && CarriesCall(pp.buffer[..], pp.scrWanted, pp.flag, starts[n], calls[n])
         && Carry(VideoOnly(All(mux.files)), starts[..n], calls[..n])
    }

    constructor (m: Multiplexer, v: VideoStream, p: Propack, ghost start: nat, ghost call: Call)
      requires m.Valid() && Whole(m.waiting) && All(m.files) == [] && p.Valid() && p.act == PACK
      requires m.waiting[0] == Waiting(p.scrWanted, p.flag, p.buffer[..])
      requires |v.pics| > 0 && v.Valid() && Run(v.pics, v.offset, [call]) && v.Here() == call.to
      requires 10 <= start && CarriesCall(p.buffer[..], p.scrWanted, p.flag, start, call)
      ensures Valid() && mux == m && video == v && pp == p && calls == [call]
    {
      mux, video, pp, calls, starts := m, v, p, [call], [start];
    }

    /** Between sending a pack of the video stream and filling the next one. */
    ghost predicate Emptied()
      reads this, mux, video, pp, pp.buffer
    {
      && mux.Valid() && mux.next == 0 && pp.Valid() && pp.act == 14 && Whole(mux.waiting)
      && |video.pics| > 0 && video.Valid() && Run(video.pics, video.offset, calls)
      && video.Here() == EndOf(video.pics, video.offset, calls)
      && Carry(VideoOnly(All(mux.files)), starts, calls)
    }

    /** Lines 473-484: the video pack gets its reference and goes out as it stands. */
    method SendVideo()
      requires Valid() && mux.next == 0
      modifies mux, pp, pp.buffer
      ensures Emptied() && mux.next == 0 && |All(mux.files)| == |old(All(mux.files))| + 1
    {
      hide Run, Carry, CarriesCall, All, VideoOnly, Dispatch, EndOf;
      ghost var n, start, sent := |calls| - 1, starts[|starts| - 1], All(mux.files);
      var scr := if mux.actScr < pp.scrWanted then pp.scrWanted else mux.actScr;
      mux.Send();
      ghost var w := mux.waiting[0];
      ghost var s := Dispatch(0, w, scr);
      pp.FillScr(scr);
      assert pp.buffer[..] == s.bytes by { SameBytes(w.bytes, pp.buffer[..], s.bytes); }
      DispatchCarries(w, scr, start, calls[n]);
      VideoOnlyAppend(sent, s);
      CarryAppend(VideoOnly(sent), starts[..n], calls[..n], s, start, calls[n]);
      assert calls[..n] + [calls[n]] == calls && starts[..n] + [start] == starts;
      pp.Reset();
    }

    /** Line 485 for the video stream. */
    method RefillVideo() returns (ok: bool)
      requires Emptied()
      modifies this`calls, this`starts, mux, video, pp, pp.buffer
      ensures ok ==> Valid() && |calls| == |old(calls)| + 1 && old(calls) == calls[..|old(calls)|]
      ensures !ok ==> video.list == []
      ensures ok <==> !Exhausted(video.pics, old(video.Here()), PACK - 14)
      ensures mux.files == old(mux.files) && mux.next == old(mux.next)
    {
      hide Run, CarriesCall, All, VideoOnly, EndOf, Filled, Exhausted;
      ghost var here, fill := video.Here(), 0;
      ok, fill := video.FillVideo(pp);
      if !ok { return; }
      ghost var call := Call(here, Pack(pp.buffer[14..], pp.scrWanted, pp.flag), fill, video.Here());
      RunAppend(video.pics, video.offset, calls, call);
      CarriedFrom(pp.buffer[..], 14, call);
      mux.Refill(Waiting(pp.scrWanted, pp.flag, pp.buffer[..]));
      calls, starts := calls + [call], starts + [14];
      assert calls[..|calls| - 1] == old(calls) && starts[..|starts| - 1] == old(starts);
    }

    /** The same for another stream, whose pack `fill_pp` fills with `refill`. */
    method ServeAudio(refill: Waiting)
      requires Valid() && mux.next != 0 && |refill.bytes| == PACK
      modifies mux
      ensures Valid() && mux.next == old(mux.next) && |All(mux.files)| == |old(All(mux.files))| + 1
    {
      hide Run, Carry, CarriesCall, All, VideoOnly, Dispatch, EndOf;
      ghost var sent := All(mux.files);
      mux.Send();
      ghost var s := All(mux.files)[|sent|];
      VideoOnlyAppend(sent, s);
      assert VideoOnly(sent) + [] == VideoOnly(sent);
      mux.Refill(refill);
    }

    /** One round of the recording. `ok` is false exactly if the pictures end before the next pack is full. */
    method Round(refill: Waiting, stop: bool, cut: bool) returns (done: bool, ok: bool)
      requires Valid() && |refill.bytes| == PACK
      modifies this`calls, this`starts, mux, video, pp, pp.buffer
      ensures ok ==> Valid()
      ensures !ok ==> video.list == []
      ensures !done && mux.next == 0 ==> (ok <==> !Exhausted(video.pics, old(video.Here()), PACK - 14))
      ensures done || mux.next != 0 ==> ok
      ensures if done then ok && mux.files == old(mux.files) else |All(mux.files)| == |old(All(mux.files))| + 1
      ensures done ==> mux.next == 0 && pp.flag == StartSeq
      ensures ok && !done ==> |calls| == |old(calls)| + (if mux.next == 0 then 1 else 0)
    {
      hide Run, Carry, CarriesCall, All, VideoOnly, EndOf, Exhausted;
      ok := true;
      done := mux.Select(stop, cut);
      if done { return; }
      if mux.next == 0 {
        SendVideo();
        ok := RefillVideo();
      } else {
        ServeAudio(refill);
      }
    }

    /** The payloads of the video packs in the files are the pictures, one after the other, up to where the
        pack now waiting begins. */
    lemma PicturesAreRecorded()
      requires Valid()
      ensures var n := |calls| - 1;
              var to := EndOf(video.pics, video.offset, calls[..n]).at;
              && to <= |Stream(video.pics)| && |VideoOnly(All(mux.files))| == n
              && ReadVideo(VideoOnly(All(mux.files)), starts[..n], Fills(calls[..n])) == Stream(video.pics)[..to]
    {
      var n := |calls| - 1;
      RunPrefix(video.pics, video.offset, calls, n);
      RunCarriesStream(video.pics, video.offset, calls[..n]);
      CarriedPayloads(VideoOnly(All(mux.files)), starts[..n], calls[..n]);
    }

    /** Every file but the first begins with a pack at whose front a sequence starts. */
    lemma FilesBeginWithSequences(f: nat)
      requires Valid() && 0 < f < |mux.files|
      ensures mux.files[f] != []
      ensures exists j :: 0 <= j < |calls| - 1 && mux.files[f][0] == VideoOnly(All(mux.files))[j]
                && BeginsSequence(video.pics, calls[j])
    {
      hide Filled, Run, All, VideoOnly, EndOf, OnSchedule, Clock, ReadLength, BeginsWithin;
      var s, n := mux.files[f][0], |calls| - 1;
      var vs := VideoOnly(All(mux.files));
      AllHas(mux.files, f, 0);
      VideoOnlyHas(All(mux.files), s);
      var j :| 0 <= j < |vs| && vs[j] == s;
      assert CarriesCall(vs[j].bytes, vs[j].wanted, vs[j].flag, starts[..n][j], calls[..n][j]);
      assert calls[..n][j] == calls[j];
      RunPrefix(video.pics, video.offset, calls, j + 1);
      assert calls[..j + 1][|calls[..j + 1]| - 1] == calls[j];
      LastPack(video.pics, video.offset, calls[..j + 1]);
      assert BeginsSequence(video.pics, calls[j]);
    }
  }

  /** The first thing in the call's pack is a picture that starts a sequence. */
  ghost predicate BeginsSequence(pics: seq<Picture>, call: Call) {
    call.from.k < |pics| && AtStart(pics, call.from) && pics[call.from.k].flag == StartSeq
  }

  lemma {:induction false} AllHas(files: seq<seq<Sent>>, f: nat, i: nat)
    requires f < |files| && i < |files[f]|
    ensures files[f][i] in All(files)
  {
    var n := |files| - 1;
    if f < n {
      AllHas(files[..n], f, i);
    }
  }

  lemma SameBytes(w: seq<Byte>, b: seq<Byte>, s: seq<Byte>)
    requires |w| == |b| == |s| == PACK && b[4..10] == s[4..10]
    requires b[..4] == w[..4] == s[..4] && b[10..] == w[10..] == s[10..]
    ensures b == s
  {
    assert b == b[..4] + b[4..10] + b[10..];
    assert s == s[..4] + s[4..10] + s[10..];
  }

  lemma RunAppend(pics: seq<Picture>, c: real, calls: seq<Call>, call: Call)
    requires Run(pics, c, calls) && call.from == EndOf(pics, c, calls)
    requires Filled(pics, c, call.from, call.pack, call.fill, call.to)
    ensures Run(pics, c, calls + [call]) && EndOf(pics, c, calls + [call]) == call.to
  {
    hide Filled;
    assert (calls + [call])[..|calls|] == calls;
  }

  lemma CarriedFrom(bytes: seq<Byte>, start: nat, call: Call)
    requires start <= |bytes| && call.pack.pes == bytes[start..]
    ensures CarriesCall(bytes, call.pack.scr, call.pack.flag, start, call)
  {
  }

  /** The start of a recording: the first video pack also holds the system header. There is none exactly if
      the pictures end before that pack is full. */
  method Open(index: seq<Picture>, startPts: real, header: seq<Byte>, audio: seq<Waiting>, limit: nat)
    returns (r: Session?)
    requires |header| <= 42 && Whole(audio)
    ensures r == null <==> |index| == 0 || Exhausted(index, Initially(index, startPts), PACK - 14 - |header|)
    ensures r != null ==> r.Valid() && r.video.pics == index && r.video.offset == startPts && r.calls != []
  {
    hide Run, Carry, CarriesCall, Filled, EndOf, Exhausted;
    var v := new VideoStream(index, startPts);
    var pp := new Propack();
    pp.Store(14, header);
    assert pp.buffer[10..14] == pp.buffer[..14][10..];
    assert pp.buffer[..4] == pp.buffer[..14][..4];
    var start := 14 + |header|;
    pp.act := start;
    var ok, fill := v.FillVideo(pp);
    if !ok { return null; }
    ghost var call := Call(Initially(index, startPts), Pack(pp.buffer[start..], pp.scrWanted, pp.flag), fill, v.Here());
    FirstRun(index, startPts, call);
    assert CarriesCall(pp.buffer[..], pp.scrWanted, pp.flag, start, call) by { CarriedFrom(pp.buffer[..], start, call); }
    var m := new Multiplexer([Waiting(pp.scrWanted, pp.flag, pp.buffer[..])] + audio, limit);
    r := new Session(m, v, pp, start, call);
  }

  lemma FirstRun(pics: seq<Picture>, c: real, call: Call)
    requires |pics| > 0 && call.from == Initially(pics, c)
    requires Filled(pics, c, call.from, call.pack, call.fill, call.to)
    ensures Run(pics, c, [call]) && EndOf(pics, c, [call]) == call.to
  {
    assert Run(pics, c, []);
    RunAppend(pics, c, [], call);
    assert [] + [call] == [call];
  }
}
