/** Cutting a transport stream that arrives in two fragments into UDP datagrams
    (driver/dvb2eth/dvb2eth.c). */
module Dvb2eth {
  import opened Bytes

  /** Seven transport stream packets. */
  const DATAGRAM := 1316
  const HEADERS := 32

  datatype Datagram = Datagram(slot: nat, id: nat, payload: seq<Byte>)

  /** The sum of two lengths as an `unsigned` holds it. */
  function Sum32(a: nat, b: nat): (n: nat)
    ensures n <= a + b && (n == a + b <==> a + b < 0x1_0000_0000)
  {
    (a + b) % 0x1_0000_0000
  }

  /** Datagram `i` of those a stream is cut into, when the first gets header slot `slot` and number `id`. */
  ghost predicate IsPiece(stream: seq<Byte>, slot: nat, id: nat, d: Datagram, i: nat) {
    && DATAGRAM * (i + 1) <= |stream| && d.payload == stream[DATAGRAM * i..DATAGRAM * (i + 1)]
    && d.slot == (slot + i) % HEADERS && d.id == (id + i) % 0x1_0000
  }

  /** The whole datagrams of a stream. */
  ghost predicate IsCut(stream: seq<Byte>, slot: nat, id: nat, ds: seq<Datagram>) {
    forall i :: 0 <= i < |ds| ==> IsPiece(stream, slot, id, ds[i], i)
  }

  function Payload(ds: seq<Datagram>): seq<Byte> {
    if ds == [] then [] else Payload(ds[..|ds| - 1]) + ds[|ds| - 1].payload
  }

  /** What is sent is a prefix of the stream. */
  lemma {:induction false} CutIsPrefix(stream: seq<Byte>, slot: nat, id: nat, ds: seq<Datagram>)
    requires IsCut(stream, slot, id, ds)
    ensures DATAGRAM * |ds| <= |stream| && Payload(ds) == stream[..DATAGRAM * |ds|]
  {
    if ds != [] {
      var n := |ds| - 1;
      CutIsPrefix(stream, slot, id, ds[..n]);
      assert IsPiece(stream, slot, id, ds[n], n);
      var a, b := DATAGRAM * n, DATAGRAM * (n + 1);
      assert stream[..a] + stream[a..b] == stream[..b];
    }
  }

  lemma CutEmpty(stream: seq<Byte>, slot: nat, id: nat)
    ensures IsCut(stream, slot, id, [])
  {
  }

  lemma NextSlot(slot: nat, id: nat, n: nat)
    ensures ((slot + n) % HEADERS + 1) % HEADERS == (slot + (n + 1)) % HEADERS
    ensures ((id + n) % 0x1_0000 + 1) % 0x1_0000 == (id + (n + 1)) % 0x1_0000
  {
  }

  /** One more datagram. */
  lemma CutGrows(stream: seq<Byte>, slot: nat, id: nat, ds: seq<Datagram>, d: Datagram, rest: seq<Byte>)
    requires IsCut(stream, slot, id, ds) && DATAGRAM * |ds| <= |stream| && rest == stream[DATAGRAM * |ds|..]
    requires |rest| >= DATAGRAM && d.payload == rest[..DATAGRAM]
    requires d.slot == (slot + |ds|) % HEADERS && d.id == (id + |ds|) % 0x1_0000
    ensures IsCut(stream, slot, id, ds + [d])
    ensures DATAGRAM * (|ds| + 1) <= |stream| && rest[DATAGRAM..] == stream[DATAGRAM * (|ds| + 1)..]
  {
    assert IsPiece(stream, slot, id, d, |ds|);
    forall i | 0 <= i < |ds|
      ensures IsPiece(stream, slot, id, (ds + [d])[i], i)
    {
      assert (ds + [d])[i] == ds[i];
    }
  }

  lemma WholeDatagrams(total: nat, n: nat, left: nat)
    requires total == DATAGRAM * n + left && left < DATAGRAM
    ensures total / DATAGRAM == n && DATAGRAM * n / DATAGRAM == n
  {
  }

  class Sender {
    var headerIndex: nat
    var udpId: nat
    var sent: seq<Datagram>

    ghost predicate Valid()
      reads this
    {
      headerIndex < HEADERS && udpId < 0x1_0000
    }

    constructor ()
      ensures Valid() && sent == []
    {
      headerIndex, udpId, sent := 0, 15796, [];
    }

    /** `scc_enet_multiple_xmit` of a header and up to two pieces. */
    method Transmit(a: seq<Byte>, b: seq<Byte>)
      requires Valid()
      modifies this
      ensures Valid() && sent == old(sent) + [Datagram(old(headerIndex), old(udpId), a + b)]
      ensures headerIndex == (old(headerIndex) + 1) % HEADERS && udpId == (old(udpId) + 1) % 0x1_0000
    {
      sent := sent + [Datagram(headerIndex, udpId, a + b)];
      udpId := (udpId + 1) % 0x1_0000;
      headerIndex := (headerIndex + 1) % HEADERS;
    }

    /** Lines 151-177: what is left of the fragments after one datagram. */
    method SendOne(first: seq<Byte>, second: seq<Byte>) returns (first': seq<Byte>, second': seq<Byte>)
      requires Valid() && |first| + |second| >= DATAGRAM
      modifies this
      ensures Valid() && sent == old(sent) + [Datagram(old(headerIndex), old(udpId), (first + second)[..DATAGRAM])]
      ensures headerIndex == (old(headerIndex) + 1) % HEADERS && udpId == (old(udpId) + 1) % 0x1_0000
      ensures first' + second' == (first + second)[DATAGRAM..]
    {
      first', second' := first, second;
      if |first| >= DATAGRAM {
        Transmit(first[..DATAGRAM], []);
        first' := first[DATAGRAM..];
        assert first[..DATAGRAM] + [] == (first + second)[..DATAGRAM];
      } else {
        var n := DATAGRAM - |first|;
        Transmit(first, second[..n]);
        first', second' := [], second[n..];
        assert first + second[..n] == (first + second)[..DATAGRAM];
      }
      assert first' + second' == (first + second)[DATAGRAM..];
      if first' == [] {
        first', second' := second', [];
        assert first' + second' == [] + first';
      }
    }

    /** `dvb2eth_send`. The two lengths are added in 32 bits: the whole datagrams of the two fragments go out
        unless that runs over. */
    method Send(first: seq<Byte>, second: seq<Byte>) returns (done: nat)
      requires Valid()
      modifies this
      ensures Valid() && done == Sum32(|first|, |second|) / DATAGRAM * DATAGRAM
      ensures |sent| == |old(sent)| + done / DATAGRAM && sent[..|old(sent)|] == old(sent)
      ensures IsCut(first + second, old(headerIndex), old(udpId), sent[|old(sent)|..])
      ensures headerIndex == (old(headerIndex) + done / DATAGRAM) % HEADERS
      ensures udpId == (old(udpId) + done / DATAGRAM) % 0x1_0000
    {
      hide IsCut, Sum32;
      var len := Sum32(|first|, |second|);
      ghost var stream, was := first + second, sent;
      done := 0;
      var a, b := first, second;
      ghost var ds: seq<Datagram> := [];
      CutEmpty(stream, headerIndex, udpId);
      while len >= DATAGRAM
        invariant Valid() && sent == was + ds && done == DATAGRAM * |ds|
        invariant len >= 0 && len + done == Sum32(|first|, |second|) <= |stream| && a + b == stream[done..]
        invariant headerIndex == (old(headerIndex) + |ds|) % HEADERS && udpId == (old(udpId) + |ds|) % 0x1_0000
        invariant IsCut(stream, old(headerIndex), old(udpId), ds)
      {
        ghost var rest, d := a + b, Datagram(headerIndex, udpId, (a + b)[..DATAGRAM]);
        a, b := SendOne(a, b);
        CutGrows(stream, old(headerIndex), old(udpId), ds, d, rest);
        NextSlot(old(headerIndex), old(udpId), |ds|);
        ds := ds + [d];
        len := len - DATAGRAM;
        done := done + DATAGRAM;
      }
      assert sent[|was|..] == ds;
      WholeDatagrams(Sum32(|first|, |second|), |ds|, len);
    }
  }
}
