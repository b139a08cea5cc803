/** DataBatch: a collector id and packets, each a length-delimited field (aggregate/tsdata.pb.go). */
module TsBatch {
  import opened Hashing
  import opened Packets
  import opened TsData
  import opened TsPackets
  import opened Varints
  import opened Wrappers

  datatype Batch = Batch(collectorId: Bytes, packets: seq<Packet>)

  const COLLECTOR_TAG: u64 := 0x0a
  const PACKET_TAG: u64 := 0x12

  predicate IsBatch(x: Batch) {
    |x.collectorId| < TWO_63 && forall p <- x.packets :: IsPacket(p)
  }

  function Delimited(tag: u64, s: Bytes): Bytes {
    Varint(tag) + (Varint(|s|) + s)
  }

  function EncodeId(id: Bytes): Bytes {
    if id == [] then [] else Delimited(COLLECTOR_TAG, id)
  }

  /** The field of each packet. */
  function Parts(ps: seq<Packet>): (parts: seq<Bytes>)
    requires forall p <- ps :: IsPacket(p)
    ensures |parts| == |ps|
  {
    seq(|ps|, i requires 0 <= i < |ps| => Delimited(PACKET_TAG, EncodePacket(ps[i])))
  }

  /** The parts from index k on, joined. */
  function Join(parts: seq<Bytes>, k: nat): Bytes
    requires k <= |parts|
    decreases |parts| - k
  {
    if k == |parts| then [] else parts[k] + Join(parts, k + 1)
  }

  function EncodeBatch(x: Batch): Bytes
    requires IsBatch(x)
  {
    EncodeId(x.collectorId) + Join(Parts(x.packets), 0)
  }

  function PacketSize(p: Packet): nat
    requires IsPacket(p)
  {
    Size(ToMessage(p))
  }

  function PacketsSize(ps: seq<Packet>, k: nat): nat
    requires k <= |ps| && forall p <- ps :: IsPacket(p)
    decreases |ps| - k
  {
    if k == |ps| then 0 else 1 + PacketSize(ps[k]) + Sov(PacketSize(ps[k])) + PacketsSize(ps, k + 1)
  }

  function BatchSize(x: Batch): nat
    requires IsBatch(x)
  {
    var l := |x.collectorId|;
    (if l > 0 then 1 + l + Sov(l) else 0) + PacketsSize(x.packets, 0)
  }

  lemma DelimitedLength(tag: u64, s: Bytes)
    requires tag < 128
    ensures |Delimited(tag, s)| == 1 + |s| + Sov(|s|)
  {
    SovIsLength(|s|);
  }

  lemma PacketSizeIsLength(p: Packet)
    requires IsPacket(p)
    ensures PacketSize(p) == |EncodePacket(p)|
  {
    ToMessageFits(p);
    SizeIsLength(ToMessage(p), 0);
  }

  lemma {:induction false} PacketsSizeIsLength(ps: seq<Packet>, k: nat)
    requires k <= |ps| && forall p <- ps :: IsPacket(p)
    ensures PacketsSize(ps, k) == |Join(Parts(ps), k)|
    decreases |ps| - k
  {
    if k < |ps| {
      PacketSizeIsLength(ps[k]);
      DelimitedLength(PACKET_TAG, EncodePacket(ps[k]));
      PacketsSizeIsLength(ps, k + 1);
    }
  }

  /** Size is the length of the encoding. */
  lemma BatchSizeIsLength(x: Batch)
    requires IsBatch(x)
    ensures BatchSize(x) == |EncodeBatch(x)|
  {
    DelimitedLength(COLLECTOR_TAG, x.collectorId);
    PacketsSizeIsLength(x.packets, 0);
  }

  // ----- decoding -----

  /** One round of the loop of Unmarshal. */
  function ReadIntoBatch(b: Bytes, i: nat, x: Batch): (r: Read<Batch>)
    ensures r.Ok? ==> i < r.next <= |b|
  {
    match ReadVarint(b, i)
    case Fail(e) => Fail(e)
    case Ok(wire, j) =>
      if wire % 8 == 4 then Fail(EndGroup)
      else if ToInt32(wire / 8) <= 0 then Fail(IllegalTag)
      else if ToInt32(wire / 8) <= 2 then StoreInBatch(b, j, ToInt32(wire / 8), wire % 8, x)
      else Pass(b, i, x)
  }

  /** A collector id replaces the one before; a packet is decoded from its own bytes and appended. */
  function StoreInBatch(b: Bytes, j: nat, n: nat, wireType: nat, x: Batch): (r: Read<Batch>)
    ensures r.Ok? ==> j < r.next <= |b|
  {
    if wireType != 2 then Fail(WrongWireType)
    else
      match ReadBytes(b, j)
      case Fail(e) => Fail(e)
      case Ok(s, k) =>
        if n == 1 then Ok(x.(collectorId := s), k)
        else
          match DecodePacket(s)
          case Failed(e) => Fail(e)
          case Done(p) => Ok(x.(packets := x.packets + [p]), k)
  }

  function DecodeBatchFrom(b: Bytes, i: nat, x: Batch): Decoded<Batch>
    decreases |b| - i
  {
    if i >= |b| then Done(x)
    else
      match ReadIntoBatch(b, i, x)
      case Fail(e) => Failed(e)
      case Ok(x', j) => DecodeBatchFrom(b, j, x')
  }

  function DecodeBatch(b: Bytes): Decoded<Batch> {
    DecodeBatchFrom(b, 0, Batch([], []))
  }

  // ----- round trip -----

  lemma ReadDelimited(b: Bytes, i: nat, tag: u64, s: Bytes)
    requires |b| < TWO_63 && StartsAt(b, i, Delimited(tag, s))
    ensures ReadVarint(b, i) == Ok(tag, i + |Varint(tag)|)
    ensures ReadBytes(b, i + |Varint(tag)|) == Ok(s, i + |Delimited(tag, s)|)
  {
    var j := i + |Varint(tag)|;
    SplitAt(b, i, Varint(tag), Varint(|s|) + s);
    assert ReadVarint(b, i) == Ok(tag, j) by {
      ReadVarintOfVarint(b, i, tag);
    }
    assert ReadBytes(b, j) == Ok(s, i + |Delimited(tag, s)|) by {
      ReadDelimitedBytes(b, j, s);
    }
  }

  lemma ReadId(b: Bytes, i: nat, id: Bytes, x: Batch)
    requires |b| < TWO_63 && StartsAt(b, i, Delimited(COLLECTOR_TAG, id))
    ensures ReadIntoBatch(b, i, x) == Ok(x.(collectorId := id), i + |Delimited(COLLECTOR_TAG, id)|)
  {
    ReadDelimited(b, i, COLLECTOR_TAG, id);
  }

  lemma ReadPart(b: Bytes, i: nat, s: Bytes, p: Packet, x: Batch)
    requires |b| < TWO_63 && StartsAt(b, i, Delimited(PACKET_TAG, s)) && DecodePacket(s) == Done(p)
    ensures ReadIntoBatch(b, i, x) == Ok(x.(packets := x.packets + [p]), i + |Delimited(PACKET_TAG, s)|)
  {
    ReadDelimited(b, i, PACKET_TAG, s);
  }

  lemma ReadPacket(b: Bytes, i: nat, p: Packet, x: Batch)
    requires |b| < TWO_63 && IsPacket(p) && StartsAt(b, i, Delimited(PACKET_TAG, EncodePacket(p)))
    ensures ReadIntoBatch(b, i, x) == Ok(x.(packets := x.packets + [p]), i + |Delimited(PACKET_TAG, EncodePacket(p))|)
  {
    PacketRoundTrip(p);
    ReadPart(b, i, EncodePacket(p), p, x);
  }

  /** At i, with the id and k packets read, the other packets follow and end the buffer. */
  ghost predicate ReadyAt(b: Bytes, i: nat, x: Batch, parts: seq<Bytes>, k: nat, acc: Batch) {
    && |b| < TWO_63 && k <= |parts| == |x.packets|
    && StartsAt(b, i, Join(parts, k)) && i + |Join(parts, k)| == |b|
    && acc == Batch(x.collectorId, x.packets[..k])
  }

  lemma ReadyNextPacket(b: Bytes, i: nat, x: Batch, parts: seq<Bytes>, k: nat, acc: Batch)
    requires ReadyAt(b, i, x, parts, k, acc) && k < |x.packets|
    ensures StartsAt(b, i, parts[k])
    ensures ReadyAt(b, i + |parts[k]|, x, parts, k + 1, acc.(packets := acc.packets + [x.packets[k]]))
  {
    SplitAt(b, i, parts[k], Join(parts, k + 1));
    assert acc.packets + [x.packets[k]] == x.packets[..k + 1];
  }

  lemma DecodeRound(b: Bytes, i: nat, acc: Batch, i': nat, acc': Batch)
    requires i < |b| && ReadIntoBatch(b, i, acc) == Ok(acc', i')
    ensures DecodeBatchFrom(b, i, acc) == DecodeBatchFrom(b, i', acc')
  {
  }

  lemma DecodeOnePacket(b: Bytes, i: nat, x: Batch, k: nat, acc: Batch, i': nat, acc': Batch)
    requires IsBatch(x) && k < |x.packets| && ReadyAt(b, i, x, Parts(x.packets), k, acc)
    requires i' == i + |Parts(x.packets)[k]| && acc' == acc.(packets := acc.packets + [x.packets[k]])
    ensures DecodeBatchFrom(b, i, acc) == DecodeBatchFrom(b, i', acc')
  {
    ReadyNextPacket(b, i, x, Parts(x.packets), k, acc);
    ReadPacket(b, i, x.packets[k], acc);
    DecodeRound(b, i, acc, i', acc');
  }

  lemma {:induction false} DecodePackets(b: Bytes, i: nat, x: Batch, parts: seq<Bytes>, k: nat, acc: Batch)
    requires IsBatch(x) && parts == Parts(x.packets) && ReadyAt(b, i, x, parts, k, acc)
    ensures DecodeBatchFrom(b, i, acc) == Done(x)
    decreases |parts| - k
  {
    if k == |x.packets| {
      assert acc == x;
    } else {
      var i', acc' := i + |parts[k]|, acc.(packets := acc.packets + [x.packets[k]]);
      DecodeOnePacket(b, i, x, k, acc, i', acc');
      ReadyNextPacket(b, i, x, parts, k, acc);
      DecodePackets(b, i', x, parts, k + 1, acc');
    }
  }

  /** The id, or nothing where it is empty. */
  lemma DecodeId(b: Bytes, id: Bytes)
    requires |b| < TWO_63 && StartsAt(b, 0, EncodeId(id))
    ensures DecodeBatch(b) == DecodeBatchFrom(b, |EncodeId(id)|, Batch(id, []))
  {
    if id != [] {
      ReadId(b, 0, id, Batch([], []));
      DecodeRound(b, 0, Batch([], []), |EncodeId(id)|, Batch(id, []));
    }
  }

  /** Every batch is unmarshalled from its own bytes. */
  lemma BatchRoundTrip(x: Batch)
    requires IsBatch(x) && |EncodeBatch(x)| < TWO_63
    ensures DecodeBatch(EncodeBatch(x)) == Done(x)
  {
    var b, id, parts := EncodeBatch(x), EncodeId(x.collectorId), Parts(x.packets);
    SplitAt(b, 0, id, Join(parts, 0));
    DecodeId(b, x.collectorId);
    DecodePackets(b, |id|, x, parts, 0, Batch(x.collectorId, []));
  }

  // ----- the loops -----

  lemma {:induction false} JoinTailFits(parts: seq<Bytes>, k: nat)
    requires k <= |parts|
    ensures |Join(parts, k)| <= |Join(parts, 0)|
  {
    if k > 0 {
      JoinTailFits(parts, k - 1);
    }
  }

  /** A packet in place, its size, and its tag in front. */
  method PutPacket(dAtA: array<byte>, at: nat, p: Packet) returns (i: nat)
    requires IsPacket(p) && |EncodePacket(p)| < TWO_63
    requires |Delimited(PACKET_TAG, EncodePacket(p))| <= at <= dAtA.Length
    modifies dAtA
    ensures Wrote(dAtA[..], i, at, Delimited(PACKET_TAG, EncodePacket(p)), old(dAtA[..]))
  {
    ghost var s := EncodePacket(p);
    ToMessageFits(p);
    PacketSizeIsLength(p);
    var size := MarshalToSizedBuffer(ToMessage(p), dAtA, at);
    ghost var b1 := dAtA[..];
    var front := PutVarint(dAtA, at - size, size);
    ghost var b2 := dAtA[..];
    WroteInFront(old(dAtA[..]), b1, b2, front, at - size, at, Varint(|s|), s);
    i := PutByte(dAtA, front, PACKET_TAG);
    WroteInFront(old(dAtA[..]), b2, dAtA[..], i, front, at, Varint(PACKET_TAG), Varint(|s|) + s);
  }

  lemma PartFits(parts: seq<Bytes>, k: nat)
    requires k < |parts|
    ensures |parts[k]| + |Join(parts, k + 1)| <= |Join(parts, 0)|
  {
    JoinTailFits(parts, k);
  }

  /** The packets from the last to the first. */
  method MarshalPackets(ps: seq<Packet>, dAtA: array<byte>, end: nat) returns (i: nat)
    requires forall p <- ps :: IsPacket(p)
    requires |Join(Parts(ps), 0)| <= end <= dAtA.Length && |Join(Parts(ps), 0)| < TWO_63
    modifies dAtA
    ensures Wrote(dAtA[..], i, end, Join(Parts(ps), 0), old(dAtA[..]))
  {
    ghost var parts := Parts(ps);
    var k: nat := |ps|;
    i := end;
    while k > 0
      invariant k <= |ps| && Wrote(dAtA[..], i, end, Join(parts, k), old(dAtA[..]))
    {
      k := k - 1;
      PartFits(parts, k);
      assert parts[k] == Delimited(PACKET_TAG, EncodePacket(ps[k]));
      ghost var mid, b1 := i, dAtA[..];
      i := PutPacket(dAtA, i, ps[k]);
      WroteInFront(old(dAtA[..]), b1, dAtA[..], i, mid, end, parts[k], Join(parts, k + 1));
    }
  }

  method PutId(dAtA: array<byte>, at: nat, id: Bytes) returns (i: nat)
    requires |id| < TWO_63 && |EncodeId(id)| <= at <= dAtA.Length
    modifies dAtA
    ensures Wrote(dAtA[..], i, at, EncodeId(id), old(dAtA[..]))
  {
    i := at;
    if |id| > 0 {
      var front := PutBytes(dAtA, at, id);
      ghost var b1 := dAtA[..];
      i := PutByte(dAtA, front, COLLECTOR_TAG);
      WroteInFront(old(dAtA[..]), b1, dAtA[..], i, front, at, Varint(COLLECTOR_TAG), Varint(|id|) + id);
    }
  }

  /** MarshalToSizedBuffer of a batch: its last Size() bytes become the encoding, and nothing else changes. */
  method MarshalBatch(x: Batch, dAtA: array<byte>) returns (n: nat)
    requires IsBatch(x) && BatchSize(x) <= dAtA.Length && BatchSize(x) < TWO_63
    modifies dAtA
    ensures n == BatchSize(x)
    ensures Wrote(dAtA[..], dAtA.Length - n, dAtA.Length, EncodeBatch(x), old(dAtA[..]))
  {
    BatchSizeIsLength(x);
    var end := dAtA.Length;
    var mid := MarshalPackets(x.packets, dAtA, end);
    ghost var b1 := dAtA[..];
    var i := PutId(dAtA, mid, x.collectorId);
    WroteInFront(old(dAtA[..]), b1, dAtA[..], i, mid, end, EncodeId(x.collectorId), Join(Parts(x.packets), 0));
    n := end - i;
  }

  /** Unmarshal of a batch into a fresh one. */
  method UnmarshalBatch(dAtA: Bytes) returns (r: Decoded<Batch>)
    ensures r == DecodeBatch(dAtA)
  {
    var x, i: nat := Batch([], []), 0;
    while i < |dAtA|
      invariant i <= |dAtA| && DecodeBatch(dAtA) == DecodeBatchFrom(dAtA, i, x)
      decreases |dAtA| - i
    {
      var wire := DecodeVarint(dAtA, i);
      if wire.Fail? {
        return Failed(wire.error);
      }
      var fieldNum, wireType := ToInt32(wire.value / 8), wire.value % 8;
      if wireType == 4 {
        return Failed(EndGroup);
      }
      if fieldNum <= 0 {
        return Failed(IllegalTag);
      }
      if fieldNum <= 2 {
        if wireType != 2 {
          return Failed(WrongWireType);
        }
        var s := UnmarshalBytes(dAtA, wire.next);
        if s.Fail? {
          return Failed(s.error);
        }
        if fieldNum == 1 {
          x := x.(collectorId := s.value);
        } else {
          var m := Unmarshal(s.value);
          if m.Failed? {
            return Failed(m.error);
          }
          x := x.(packets := x.packets + [FromMessage(m.value)]);
        }
        i := s.next;
      } else {
        var p := PassField(dAtA, i);
        PassKeeps(dAtA, i, x);
        if p.Fail? {
          return Failed(p.error);
        }
        i := p.next;
      }
    }
    return Done(x);
  }
}
