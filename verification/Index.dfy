/** The link between the two halves of ggrab: the elements of `Recorder`'s index are the pictures that
    `VideoPacks` packs. */
module Index {
  import opened Bytes
  import opened Propack
  import opened Timestamps
  import opened VideoPacks
  import opened Indexing
  import R = Recorder

  /** `pes_pts` of the header at `head`: its stamp, or -1 if it has none. */
  function PesPts(stream: seq<Byte>, head: nat): real {
    if head + HEADER <= |stream| && stream[head + 7] >= 0x80 then FullPts(stream[head + 9..head + 14]) as real else -1.0
  }

  function PictureOf(stream: seq<Byte>, e: R.Element): Picture {
    Picture(R.Slice(stream, e.lptr, e.lptr + e.len), PesPts(stream, e.mark.head), e.mark.flag)
  }

  function Pictures(stream: seq<Byte>, es: seq<R.Element>): (p: seq<Picture>)
    ensures |p| == |es|
  {
    seq(|es|, i requires 0 <= i < |es| => PictureOf(stream, es[i]))
  }

  lemma PicturesAppend(stream: seq<Byte>, es: seq<R.Element>, e: R.Element)
    ensures Pictures(stream, es + [e]) == Pictures(stream, es) + [PictureOf(stream, e)]
  {
  }

  lemma {:induction false} UpToPrefix(ps: seq<Picture>, p: Picture, k: nat)
    requires k <= |ps|
    ensures UpTo(ps + [p], k) == UpTo(ps, k)
  {
    if k > 0 { UpToPrefix(ps, p, k - 1); }
  }

  lemma StreamAppend(ps: seq<Picture>, p: Picture)
    ensures Stream(ps + [p]) == Stream(ps) + p.data
  {
    UpToPrefix(ps, p, |ps|);
  }

  /** The pictures one after the other are the bytes of the elements one after the other. */
  lemma {:induction false} PicturesAreText(stream: seq<Byte>, es: seq<R.Element>)
    ensures Stream(Pictures(stream, es)) == R.Text(stream, es)
  {
    hide Stream, R.Text, R.Slice, Pictures, UpTo;
    if es == [] {
      NoPictures(stream);
    } else {
      var n := |es| - 1;
      var front, last := es[..n], es[n];
      PicturesAreText(stream, front);
      PicturesAppend(stream, front, last);
      StreamAppend(Pictures(stream, front), PictureOf(stream, last));
      R.TextAppend(stream, front, last);
      assert front + [last] == es;
    }
  }

  lemma NoPictures(stream: seq<Byte>)
    ensures Stream(Pictures(stream, [])) == [] && R.Text(stream, []) == []
  {
  }

  /** What has been copied out is the beginning of the elements' bytes. */
  lemma DeliveredIsPrefix(s: R.State)
    requires R.Inv(s)
    ensures s.delivered <= R.Text(s.stream, Elements(s))
  {
    hide R.Inv, R.Text, R.Current, R.Slice;
    var es, n := Elements(s), |s.removed|;
    assert es[..n] == s.removed;
    TextPrefix(s.stream, es, n);
    if s.consumer.Fetch? {
      NothingCurrent(s);
    } else {
      CurrentIsPrefix(s);
      assert es[..n + 1] == s.removed + [s.list[0]];
      TextPrefix(s.stream, es, n + 1);
      R.TextAppend(s.stream, s.removed, s.list[0]);
    }
  }

  lemma NothingCurrent(s: R.State)
    requires R.Inv(s) && s.consumer.Fetch?
    ensures s.delivered == R.Text(s.stream, s.removed)
  {
    hide R.RingInv, R.IndexerInv, R.ListInv, R.ConsumerInv, R.Text;
  }

  /** What has been copied of the current element is the beginning of it. */
  lemma CurrentIsPrefix(s: R.State)
    requires R.Inv(s) && !s.consumer.Fetch?
    ensures s.list != [] && var e := s.list[0];
            && R.Current(s.consumer, s.stream) <= R.Slice(s.stream, e.lptr, e.lptr + e.len)
            && s.delivered == R.Text(s.stream, s.removed) + R.Current(s.consumer, s.stream)
  {
    R.ElementsInside(s, 0);
    hide R.RingInv, R.IndexerInv, R.ListInv, R.Text;
  }

  /** In every reachable state what the multiplexer has copied out of the ring is the beginning of the
      pictures. */
  lemma CopiesArePictures(states: seq<R.State>, k: nat)
    requires R.Run(states) && k < |states|
    ensures var s := states[k]; s.delivered <= Stream(Pictures(s.stream, Elements(s)))
  {
    R.RunKeeps(states, k);
    var s := states[k];
    hide R.Inv, R.Run, R.Text;
    DeliveredIsPrefix(s);
    PicturesAreText(s.stream, Elements(s));
  }

  /** The first picture starts a sequence and has a stamp. */
  lemma FirstPicture(states: seq<R.State>, k: nat)
    requires R.Run(states) && k < |states| && Elements(states[k]) != []
    ensures var s := states[k]; var p := Pictures(s.stream, Elements(s))[0]; p.flag == StartSeq && p.pts >= 0.0
  {
    RunsAreIndexed(states, k);
    var s := states[k];
    hide R.Run, NoVideoCode, NoStampedStart, FullPts, NextHeader;
    assert ElementAt(s.stream, Elements(s), 0);
  }

  /** A picture is flagged by the start code it begins with. */
  lemma FlaggedByCode(states: seq<R.State>, k: nat, i: nat)
    requires R.Run(states) && k < |states| && i < |Elements(states[k])|
    ensures var s := states[k]; var p := Pictures(s.stream, Elements(s))[i];
            |p.data| >= 4 ==>
              && p.data[..3] == [0, 0, 1]
              && (p.flag == StartSeq <==> p.data[3] == 0xb3)
              && (p.flag == StartGop <==> p.data[3] == 0xb8)
  {
    RunsAreIndexed(states, k);
    var s := states[k];
    var e := Elements(s)[i];
    hide R.Run, Follows, NextHeader, Trimmed, NoVideoCode;
    assert ElementAt(s.stream, Elements(s), i);
    var p := PictureOf(s.stream, e);
    assert |p.data| >= 4 ==> p.data[..3] == s.stream[e.lptr..e.lptr + 3];
  }

  /** One step adds at most one picture at the end, and changes none of those there are. */
  lemma PicturesStay(states: seq<R.State>, k: nat)
    requires R.Run(states) && k + 1 < |states|
    ensures var s, s' := states[k], states[k + 1];
            && Pictures(s.stream, Elements(s)) <= Pictures(s'.stream, Elements(s'))
            && |Elements(s')| <= |Elements(s)| + 1
  {
    RunsAreIndexed(states, k);
    R.RunKeeps(states, k);
    var s, s' := states[k], states[k + 1];
    hide R.Inv, R.Next, Elements, Indexed;
    StepExtends(s, s');
    HeadsRead(s.stream, Elements(s)) by { assert Elements(s) == s.removed + s.list; }
    SamePictures(s.stream, s'.stream, Elements(s), Elements(s'));
  }

  lemma HeadsRead(stream: seq<Byte>, es: seq<R.Element>)
    requires Indexed(stream, es)
    ensures forall i :: 0 <= i < |es| ==> es[i].mark.head + HEADER <= |stream|
  {
    hide Follows;
    forall i | 0 <= i < |es|
      ensures es[i].mark.head + HEADER <= |stream|
    {
      assert ElementAt(stream, es, i);
    }
  }

  lemma SamePictures(stream: seq<Byte>, stream': seq<Byte>, es: seq<R.Element>, es': seq<R.Element>)
    requires stream <= stream' && es <= es'
    requires forall i :: 0 <= i < |es| ==> es[i].lptr + es[i].len <= |stream| && es[i].mark.head + HEADER <= |stream|
    ensures Pictures(stream, es) <= Pictures(stream', es')
  {
    hide FullPts;
    forall i | 0 <= i < |es|
      ensures Pictures(stream, es)[i] == Pictures(stream', es')[i]
    {
      var a, b, h := es[i].lptr, es[i].lptr + es[i].len, es[i].mark.head;
      assert es'[i] == es[i];
      assert stream[a..b] == stream'[a..b];
      assert stream[h + 9..h + 14] == stream'[h + 9..h + 14];
    }
  }

  lemma StepExtends(s: R.State, s': R.State)
    requires R.Inv(s) && R.Next(s, s')
    ensures s.stream <= s'.stream && Elements(s) <= Elements(s') && |Elements(s')| <= |Elements(s)| + 1
    ensures forall i :: 0 <= i < |Elements(s)| ==> Elements(s)[i].lptr + Elements(s)[i].len <= |s.stream|
  {
    ElementsCommitted(s);
    hide R.Fault;
    var step :| || (R.ProducerEnabled(s, step) && s' == R.ProducerStep(s, step))
                || (R.IndexerEnabled(s, step) && s' == R.IndexerStep(s, step))
                || (R.ConsumerEnabled(s, step) && s' == R.ConsumerStep(s, step));
    if R.ProducerEnabled(s, step) {
      ProducerExtends(s, step);
    } else if R.IndexerEnabled(s, step) {
      IndexerExtends(s, step);
    } else {
      ConsumerExtends(s, step);
    }
  }

  lemma ElementsCommitted(s: R.State)
    requires R.Inv(s)
    ensures forall i :: 0 <= i < |Elements(s)| ==> Elements(s)[i].lptr + Elements(s)[i].len <= |s.stream|
  {
    hide R.RingInv, R.IndexerInv, R.ConsumerInv, R.Delivered, R.Frontier;
  }

  lemma ProducerExtends(s: R.State, step: R.Step)
    requires R.Shape(s) && !R.Fault(s) && R.ProducerEnabled(s, step)
    ensures var s' := R.ProducerStep(s, step); s.stream <= s'.stream && Elements(s) == Elements(s')
  {
    hide R.Fault;
  }

  lemma IndexerExtends(s: R.State, step: R.Step)
    requires R.Shape(s) && !R.Fault(s) && R.IndexerEnabled(s, step)
    ensures var s' := R.IndexerStep(s, step);
            s.stream == s'.stream && Elements(s) <= Elements(s') && |Elements(s')| <= |Elements(s)| + 1
  {
    hide R.Fault, R.SearchResult;
    var s' := R.IndexerStep(s, step);
    assert step.Appended? ==> Elements(s') == Elements(s) + [s'.list[|s.list|]];
  }

  lemma ConsumerExtends(s: R.State, step: R.Step)
    requires R.Inv(s) && R.Shape(s) && !R.Fault(s) && R.ConsumerEnabled(s, step)
    ensures var s' := R.ConsumerStep(s, step); s.stream == s'.stream && Elements(s) == Elements(s')
  {
    hide R.Fault, R.RingInv, R.IndexerInv, R.ListInv, R.Delivered;
    if step.ShiftList? {
      assert s.list == [s.consumer.elem] + s.list[1..];
    }
  }

  lemma {:induction false} TextPrefix(stream: seq<Byte>, es: seq<R.Element>, k: nat)
    requires k <= |es|
    ensures R.Text(stream, es[..k]) <= R.Text(stream, es)
  {
    hide R.Text, R.Slice;
    if k < |es| {
      var n := |es| - 1;
      var front := es[..n];
      TextPrefix(stream, front, k);
      assert front[..k] == es[..k] && front + [es[n]] == es;
      R.TextAppend(stream, front, es[n]);
    } else {
      assert es[..k] == es;
    }
  }
}
