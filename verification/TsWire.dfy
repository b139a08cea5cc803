/** The bytes on the wire, field by field, with the numbers of aggregate/tsdata.proto. */
module TsWire {
  import opened Hashing
  import opened Packets
  import opened SpanSummary
  import opened TsData
  import opened TsPackets
  import opened TsBatch
  import opened Varints
  import opened Wrappers

  // ----- varints -----

  /** The number that groups of seven bits stand for, lowest first. */
  function ValueOf(b: Bytes): nat {
    if b == [] then 0 else b[0] % 128 + 128 * ValueOf(b[1..])
  }

  /** A varint has its number in groups of seven bits, a mark on all bytes but the last, and no byte too many. */
  lemma {:induction false} VarintMeans(v: nat)
    ensures var b := Varint(v);
            && b != [] && ValueOf(b) == v && b[|b| - 1] < 128
            && (forall i :: 0 <= i < |b| - 1 ==> b[i] >= 128)
            && (|b| > 1 ==> b[|b| - 1] != 0)
  {
    if v >= 128 {
      var (b, c) := (Varint(v), Varint(v / 128));
      VarintMeans(v / 128);
      assert b[1..] == c && b[|b| - 1] == c[|c| - 1];
      forall i | 0 < i < |b| - 1
        ensures b[i] >= 128
      {
        assert b[i] == c[i - 1];
      }
    }
  }

  // ----- one packet -----

  /** A field as it is written: the bytes of its tag, and its value. */
  datatype WireField = WireField(tag: Bytes, value: Field)

  /** The 64 bits of a signed number. */
  function Bits(x: i64): Field {
    Num(x % TWO_64)
  }

  function OneOrZero(f: bool): Field {
    if f then Num(1) else Num(0)
  }

  /** The fields of a packet under their numbers, in order. */
  function Fields(p: Packet): (fs: seq<WireField>)
    requires IsPacket(p)
    ensures |fs| == FIELDS
  {
    [ WireField([0x08], Num(p.groupIdHash)), WireField([0x12], TsData.Raw(p.rawGroupId)), WireField([0x1a], TsData.Raw(p.token)),
      WireField([0x22], TsData.Raw(p.source)), WireField([0x2a], TsData.Raw(p.dataType)), WireField([0x30], Bits(p.configVersion)),
      WireField([0x38], OneOrZero(p.hasError)), WireField([0x42], TsData.Raw(p.groupKey)), WireField([0x48], Bits(p.pointCount)),
      WireField([0x50], Bits(p.traceStart)), WireField([0x58], Bits(p.traceEnd)), WireField([0x62], TsData.Raw(p.payload)),
      WireField([0x68], Bits(p.maxPointTime)), WireField([0x70], Bits(p.compression)), WireField([0x78], OneOrZero(p.summary.error)),
      WireField([0x80, 0x01], OneOrZero(p.summary.httpError)), WireField([0x88, 0x01], OneOrZero(p.summary.bizError)),
      WireField([0x90, 0x01], OneOrZero(p.summary.traceKeep)), WireField([0x98, 0x01], Bits(p.summary.maxSpan)),
      WireField([0xa0, 0x01], Bits(p.summary.root)), WireField([0xa8, 0x01], Bits(p.summary.maxNonroot)) ]
  }

  /** A number is a varint behind its tag, and bytes are their length and themselves; zero and empty are left out. */
  function Written(f: WireField): Bytes {
    match f.value
    case Num(u) => if u == 0 then [] else f.tag + Varint(u)
    case Raw(b) => if b == [] then [] else f.tag + Varint(|b|) + b
  }

  function WrittenAll(fs: seq<WireField>): Bytes {
    if fs == [] then [] else Written(fs[0]) + WrittenAll(fs[1..])
  }

  lemma SameBits(x: i64)
    ensures SignedField(x) == Bits(x)
  {
  }

  lemma FirstSame(p: Packet)
    requires IsPacket(p)
    ensures forall i :: 0 <= i < 11 ==> ToMessage(p)[i] == Fields(p)[i].value
  {
    SameBits(p.configVersion);
    SameBits(p.pointCount);
    SameBits(p.traceStart);
    SameBits(p.traceEnd);
  }

  lemma LastSame(p: Packet)
    requires IsPacket(p)
    ensures forall i :: 11 <= i < FIELDS ==> ToMessage(p)[i] == Fields(p)[i].value
  {
    SameBits(p.maxPointTime);
    SameBits(p.compression);
    SameBits(p.summary.maxSpan);
    SameBits(p.summary.root);
    SameBits(p.summary.maxNonroot);
  }

  lemma SameTags(p: Packet, i: nat)
    requires IsPacket(p) && i < FIELDS
    ensures Varint(Tag(i)) == Fields(p)[i].tag
  {
  }

  lemma FieldIsWritten(i: nat, tag: Bytes, f: Field)
    requires i < FIELDS && Fits(KindOf(i), f) && Varint(Tag(i)) == tag
    ensures EncodeField(i, f) == Written(WireField(tag, f))
  {
    if f.Raw? {
      assert tag + Varint(|f.b|) + f.b == tag + (Varint(|f.b|) + f.b);
    }
  }

  lemma {:induction false} FieldsFrom(p: Packet, i: nat)
    requires IsPacket(p) && i <= FIELDS
    ensures EncodeFrom(ToMessage(p), i) == WrittenAll(Fields(p)[i..])
    decreases FIELDS - i
  {
    if i < FIELDS {
      FirstSame(p);
      LastSame(p);
      SameTags(p, i);
      ToMessageFits(p);
      FieldIsWritten(i, Fields(p)[i].tag, ToMessage(p)[i]);
      assert Fields(p)[i..][1..] == Fields(p)[i + 1..];
      FieldsFrom(p, i + 1);
    }
  }

  /** A packet on the wire is its fields, each under its own number, in order. */
  lemma PacketOnTheWire(p: Packet)
    requires IsPacket(p)
    ensures EncodePacket(p) == WrittenAll(Fields(p))
  {
    FieldsFrom(p, 0);
    assert Fields(p)[0..] == Fields(p);
  }

  // ----- a batch -----

  /** A packet in a batch, also one of default values alone. */
  function PacketField(p: Packet): Bytes
    requires IsPacket(p)
  {
    [0x12] + Varint(|WrittenAll(Fields(p))|) + WrittenAll(Fields(p))
  }

  function PacketFields(ps: seq<Packet>): Bytes
    requires forall p <- ps :: IsPacket(p)
  {
    if ps == [] then [] else PacketField(ps[0]) + PacketFields(ps[1..])
  }

  lemma PacketIsField(p: Packet)
    requires IsPacket(p)
    ensures Delimited(PACKET_TAG, EncodePacket(p)) == PacketField(p)
  {
    PacketOnTheWire(p);
    var w := WrittenAll(Fields(p));
    assert [0x12] + Varint(|w|) + w == [0x12] + (Varint(|w|) + w);
  }

  lemma {:induction false} PacketsFrom(ps: seq<Packet>, k: nat)
    requires k <= |ps| && forall p <- ps :: IsPacket(p)
    ensures Join(Parts(ps), k) == PacketFields(ps[k..])
    decreases |ps| - k
  {
    if k < |ps| {
      PacketIsField(ps[k]);
      assert ps[k..][1..] == ps[k + 1..];
      PacketsFrom(ps, k + 1);
    }
  }

  /** A batch on the wire is its collector id under number 1 and its packets under number 2, in order. */
  lemma BatchOnTheWire(x: Batch)
    requires IsBatch(x)
    ensures EncodeBatch(x) == Written(WireField([0x0a], TsData.Raw(x.collectorId))) + PacketFields(x.packets)
  {
    PacketsFrom(x.packets, 0);
    assert x.packets[0..] == x.packets;
    assert [0x0a] + Varint(|x.collectorId|) + x.collectorId == Delimited(COLLECTOR_TAG, x.collectorId);
  }
}
