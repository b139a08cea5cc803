/** DataPacket on the wire, and the loops that write and read it (aggregate/tsdata.pb.go). */
module TsPackets {
  import opened Hashing
  import opened Packets
  import opened SpanSummary
  import opened TsData
  import opened Varints
  import opened Wrappers

  // ----- packets as messages -----

  function FlagField(f: bool): Field {
    Num(if f then 1 else 0)
  }

  function SignedField(x: i64): Field {
    Num(Pattern(x))
  }

  function Flag(f: Field): bool {
    f.Num? && f.u != 0
  }

  function Signed(f: Field): i64 {
    if f.Num? then if f.u < TWO_63 then f.u else f.u - TWO_64 else 0
  }

  function Signed32(f: Field): i32 {
    if f.Num? then ToInt32(f.u) else 0
  }

  function Unsigned(f: Field): u64 {
    if f.Num? then f.u else 0
  }

  function Text(f: Field): Bytes {
    if f.Raw? then f.b else []
  }

  /** The three durations are int64, and strings have an int length. */
  predicate IsPacket(p: Packet) {
    && -TWO_63 <= p.summary.maxSpan < TWO_63
    && -TWO_63 <= p.summary.root < TWO_63
    && -TWO_63 <= p.summary.maxNonroot < TWO_63
    && |p.rawGroupId| < TWO_63 && |p.token| < TWO_63 && |p.source| < TWO_63 && |p.dataType| < TWO_63
    && |p.groupKey| < TWO_63 && |p.payload| < TWO_63
  }

  function ToMessage(p: Packet): (m: Message)
    requires IsPacket(p)
    ensures |m| == FIELDS
  {
    [ Num(p.groupIdHash), Raw(p.rawGroupId), Raw(p.token), Raw(p.source), Raw(p.dataType),
      SignedField(p.configVersion), FlagField(p.hasError), Raw(p.groupKey), SignedField(p.pointCount),
      SignedField(p.traceStart), SignedField(p.traceEnd), Raw(p.payload), SignedField(p.maxPointTime),
      SignedField(p.compression), FlagField(p.summary.error), FlagField(p.summary.httpError),
      FlagField(p.summary.bizError), FlagField(p.summary.traceKeep), SignedField(p.summary.maxSpan),
      SignedField(p.summary.root), SignedField(p.summary.maxNonroot) ]
  }

  function FromMessage(m: Message): Packet
    requires |m| == FIELDS
  {
    Packet(
      Unsigned(m[0]), Text(m[1]), Text(m[2]), Text(m[3]), Text(m[4]),
      Signed(m[5]), Flag(m[6]), Text(m[7]), Signed32(m[8]),
      Signed(m[9]), Signed(m[10]), Text(m[11]), Signed(m[12]), Signed32(m[13]),
      Summary(Flag(m[14]), Flag(m[15]), Flag(m[16]), Flag(m[17]), Signed(m[18]), Signed(m[19]), Signed(m[20])))
  }

  lemma Signed32Back(x: i32)
    ensures Signed32(SignedField(x)) == x && Fits(I32, SignedField(x))
  {
  }

  /** The first ten fields have their kinds. */
  ghost predicate FirstFit(m: Message) {
    && |m| == FIELDS && Fits(U64, m[0])
    && Fits(Kind.Text, m[1]) && Fits(Kind.Text, m[2]) && Fits(Kind.Text, m[3]) && Fits(Kind.Text, m[4])
    && Fits(I64, m[5]) && Fits(Bool, m[6]) && Fits(Kind.Text, m[7]) && Fits(I32, m[8]) && Fits(I64, m[9])
  }

  /** The others have theirs. */
  ghost predicate LastFit(m: Message) {
    && |m| == FIELDS && Fits(I64, m[10]) && Fits(Kind.Text, m[11]) && Fits(I64, m[12]) && Fits(I32, m[13])
    && Fits(Bool, m[14]) && Fits(Bool, m[15]) && Fits(Bool, m[16]) && Fits(Bool, m[17])
    && Fits(I64, m[18]) && Fits(I64, m[19]) && Fits(I64, m[20])
  }

  lemma EachFits(m: Message)
    requires FirstFit(m) && LastFit(m)
    ensures IsMessage(m)
  {
  }

  lemma FirstFits(p: Packet)
    requires IsPacket(p)
    ensures FirstFit(ToMessage(p))
  {
    Signed32Back(p.pointCount);
  }

  lemma LastFits(p: Packet)
    requires IsPacket(p)
    ensures LastFit(ToMessage(p))
  {
  }

  lemma ToMessageFits(p: Packet)
    requires IsPacket(p)
    ensures IsMessage(ToMessage(p))
  {
    FirstFits(p);
    LastFits(p);
    EachFits(ToMessage(p));
  }

  lemma FromToMessage(p: Packet)
    requires IsPacket(p)
    ensures FromMessage(ToMessage(p)) == p
  {
  }

  function EncodePacket(p: Packet): Bytes
    requires IsPacket(p)
  {
    Encode(ToMessage(p))
  }

  function DecodePacket(b: Bytes): Decoded<Packet> {
    match Decode(b)
    case Failed(e) => Failed(e)
    case Done(m) => Done(FromMessage(m))
  }

  /** Every packet, negative numbers included, is unmarshalled from its own bytes. */
  lemma PacketRoundTrip(p: Packet)
    requires IsPacket(p) && |EncodePacket(p)| < TWO_63
    ensures DecodePacket(EncodePacket(p)) == Done(p)
  {
    ToMessageFits(p);
    RoundTrip(ToMessage(p));
    FromToMessage(p);
  }

  // ----- writing backwards -----

  /** The bytes i..end are part now, and the others are what they were before. */
  ghost predicate Wrote(now: Bytes, i: int, end: int, part: Bytes, before: Bytes) {
    && 0 <= i <= end <= |before| == |now|
    && now[i..end] == part
    && forall j :: 0 <= j < |before| && !(i <= j < end) ==> now[j] == before[j]
  }

  /** Writing y and then x in front of it. */
  lemma WroteInFront(b0: Bytes, b1: Bytes, b2: Bytes, i: nat, mid: nat, end: nat, x: Bytes, y: Bytes)
    requires Wrote(b1, mid, end, y, b0) && Wrote(b2, i, mid, x, b1)
    ensures Wrote(b2, i, end, x + y, b0)
  {
  }

  method PutByte(dAtA: array<byte>, at: nat, x: byte) returns (i: nat)
    requires 0 < at <= dAtA.Length
    modifies dAtA
    ensures i == at - 1 && Wrote(dAtA[..], i, at, [x], old(dAtA[..]))
  {
    i := at - 1;
    dAtA[i] := x;
  }

  method PutVarint(dAtA: array<byte>, at: nat, v: u64) returns (i: nat)
    requires |Varint(v)| <= at <= dAtA.Length
    modifies dAtA
    ensures Wrote(dAtA[..], i, at, Varint(v), old(dAtA[..]))
  {
    SovIsLength(v);
    i := EncodeVarint(dAtA, at, v);
    assert dAtA[..][i..at] == dAtA[i..at];
  }

  /** The bytes themselves, then in front of them their length. */
  method PutBytes(dAtA: array<byte>, at: nat, s: Bytes) returns (i: nat)
    requires |s| < TWO_63 && |Varint(|s|)| + |s| <= at <= dAtA.Length
    modifies dAtA
    ensures Wrote(dAtA[..], i, at, Varint(|s|) + s, old(dAtA[..]))
  {
    var mid := at - |s|;
    forall j | 0 <= j < |s| {
      dAtA[mid + j] := s[j];
    }
    ghost var b1 := dAtA[..];
    assert b1[mid..at] == s;
    i := PutVarint(dAtA, mid, |s|);
    WroteInFront(old(dAtA[..]), b1, dAtA[..], i, mid, at, Varint(|s|), s);
  }

  /** The one or two bytes of a tag, the last one first. */
  method PutTag(dAtA: array<byte>, at: nat, k: nat) returns (i: nat)
    requires k < FIELDS && |Varint(Tag(k))| <= at <= dAtA.Length
    modifies dAtA
    ensures Wrote(dAtA[..], i, at, Varint(Tag(k)), old(dAtA[..]))
  {
    TagLength(k);
    i := at;
    if k >= 15 {
      i := PutByte(dAtA, i, 1);
    }
    ghost var b1 := dAtA[..];
    i := PutByte(dAtA, i, Tag(k));
    if k >= 15 {
      WroteInFront(old(dAtA[..]), b1, dAtA[..], i, at - 1, at, [Tag(k)], [1]);
    }
  }

  method PutValue(dAtA: array<byte>, at: nat, k: Kind, f: Field) returns (i: nat)
    requires Fits(k, f) && f != Default(k) && |EncodeValue(f)| <= at <= dAtA.Length
    modifies dAtA
    ensures Wrote(dAtA[..], i, at, EncodeValue(f), old(dAtA[..]))
  {
    match f
    case Num(u) =>
      if k.Bool? {
        i := PutByte(dAtA, at, 1);
      } else {
        i := PutVarint(dAtA, at, u);
      }
    case Raw(b) =>
      i := PutBytes(dAtA, at, b);
  }

  /** The block of one field: nothing for the default, otherwise the value and then its tag. */
  method PutField(dAtA: array<byte>, at: nat, k: nat, f: Field) returns (i: nat)
    requires k < FIELDS && Fits(KindOf(k), f) && |EncodeField(k, f)| <= at <= dAtA.Length
    modifies dAtA
    ensures Wrote(dAtA[..], i, at, EncodeField(k, f), old(dAtA[..]))
  {
    i := at;
    if f != Default(KindOf(k)) {
      var mid := PutValue(dAtA, at, KindOf(k), f);
      ghost var b1 := dAtA[..];
      i := PutTag(dAtA, mid, k);
      WroteInFront(old(dAtA[..]), b1, dAtA[..], i, mid, at, Varint(Tag(k)), EncodeValue(f));
    }
  }

  lemma {:induction false} TailFits(m: Message, k: nat)
    requires |m| == FIELDS && k <= FIELDS
    ensures |EncodeFrom(m, k)| <= |Encode(m)|
  {
    if k > 0 {
      TailFits(m, k - 1);
    }
  }

  lemma FieldFits(m: Message, k: nat)
    requires |m| == FIELDS && k < FIELDS
    ensures EncodeFrom(m, k) == EncodeField(k, m[k]) + EncodeFrom(m, k + 1)
    ensures |EncodeField(k, m[k])| + |EncodeFrom(m, k + 1)| <= |Encode(m)|
  {
    TailFits(m, k);
  }

  /** MarshalToSizedBuffer on dAtA[..end]: the last Size() bytes become the encoding, and nothing else changes. */
  method MarshalToSizedBuffer(m: Message, dAtA: array<byte>, end: nat) returns (n: nat)
    requires IsMessage(m) && Size(m) <= end <= dAtA.Length
    modifies dAtA
    ensures n == Size(m) && Wrote(dAtA[..], end - n, end, Encode(m), old(dAtA[..]))
  {
    SizeIsLength(m, 0);
    var i, k: nat := end, FIELDS;
    while k > 0
      invariant k <= FIELDS && Wrote(dAtA[..], i, end, EncodeFrom(m, k), old(dAtA[..]))
    {
      k := k - 1;
      FieldFits(m, k);
      ghost var mid, b1 := i, dAtA[..];
      i := PutField(dAtA, i, k, m[k]);
      WroteInFront(old(dAtA[..]), b1, dAtA[..], i, mid, end, EncodeField(k, m[k]), EncodeFrom(m, k + 1));
    }
    n := end - i;
  }

  // ----- reading forwards -----

  /** skipTsdata on the slice that starts at the unknown field. */
  method SkipField(dAtA: Bytes) returns (r: Read<()>)
    ensures r == Skip(dAtA, 0, 0)
  {
    var i, depth: nat := 0, 0;
    while i < |dAtA|
      invariant Skip(dAtA, 0, 0) == Skip(dAtA, i, depth)
      decreases |dAtA| - i
    {
      var wire := DecodeVarint(dAtA, i);
      if wire.Fail? {
        return Fail(wire.error);
      }
      var at := wire.next;
      match wire.value % 8 {
        case 0 =>
          var v := DecodeVarint(dAtA, at);
          if v.Fail? {
            return Fail(v.error);
          }
          at := v.next;
        case 1 => at := at + 8;
        case 2 =>
          var len := DecodeVarint(dAtA, at);
          if len.Fail? {
            return Fail(len.error);
          }
          if len.value >= TWO_63 || len.next + len.value >= TWO_63 {
            return Fail(InvalidLength);
          }
          at := len.next + len.value;
        case 3 => depth := depth + 1;
        case 4 =>
          if depth == 0 {
            return Fail(EndGroup);
          }
          depth := depth - 1;
        case 5 => at := at + 4;
        case _ => return Fail(WrongWireType);
      }
      if depth == 0 {
        return Ok((), at);
      }
      i := at;
    }
    return Fail(UnexpectedEOF);
  }

  method UnmarshalBytes(dAtA: Bytes, i: nat) returns (r: Read<Bytes>)
    ensures r == ReadBytes(dAtA, i)
  {
    var len := DecodeVarint(dAtA, i);
    if len.Fail? {
      return Fail(len.error);
    }
    var post := len.next + len.value;
    if len.value >= TWO_63 || post >= TWO_63 {
      return Fail(InvalidLength);
    }
    if post > |dAtA| {
      return Fail(UnexpectedEOF);
    }
    return Ok(dAtA[len.next..post], post);
  }

  method UnmarshalField(dAtA: Bytes, i: nat, k: Kind, wireType: nat) returns (r: Read<Field>)
    ensures r == ReadField(dAtA, i, k, wireType)
  {
    if wireType != if k.Text? then 2 else 0 {
      return Fail(WrongWireType);
    }
    if k.Text? {
      var s := UnmarshalBytes(dAtA, i);
      return if s.Fail? then Fail(s.error) else Ok(Raw(s.value), s.next);
    }
    var v := DecodeVarint(dAtA, i);
    return if v.Fail? then Fail(v.error) else Ok(Num(Stored(k, v.value)), v.next);
  }

  method PassField(dAtA: Bytes, i: nat) returns (r: Read<()>)
    requires i <= |dAtA|
    ensures r == Pass(dAtA, i, ())
  {
    var skippy := SkipField(dAtA[i..]);
    if skippy.Fail? {
      return skippy;
    }
    if i + skippy.next >= TWO_63 {
      return Fail(InvalidLength);
    }
    if i + skippy.next > |dAtA| {
      return Fail(UnexpectedEOF);
    }
    return Ok((), i + skippy.next);
  }

  lemma PassKeeps<T>(b: Bytes, i: nat, m: T)
    ensures Pass(b, i, m) == match Pass(b, i, ()) case Fail(e) => Fail(e) case Ok(_, j) => Ok(m, j)
  {
  }

  /** Unmarshal into a fresh message. */
  method Unmarshal(dAtA: Bytes) returns (r: Decoded<Message>)
    ensures r == Decode(dAtA)
  {
    var m, i: nat := ZeroMessage(), 0;
    while i < |dAtA|
      invariant |m| == FIELDS && i <= |dAtA| && Decode(dAtA) == DecodeFrom(dAtA, i, m)
      decreases |dAtA| - i
    {
      var wire := DecodeVarint(dAtA, i);
      if wire.Fail? {
        return Failed(wire.error);
      }
      var fieldNum, wireType := ToInt32(wire.value / 8), wire.value % 8;
      if wireType == 4 {
        return Failed(EndGroup);
      }
      if fieldNum <= 0 {
        return Failed(IllegalTag);
      }
      if fieldNum <= FIELDS {
        var f := UnmarshalField(dAtA, wire.next, KindOf(fieldNum - 1), wireType);
        if f.Fail? {
          return Failed(f.error);
        }
        assert ReadInto(dAtA, i, m) == Ok(m[fieldNum - 1 := f.value], f.next);
        m := m[fieldNum - 1 := f.value];
        i := f.next;
      } else {
        var p := PassField(dAtA, i);
        PassKeeps(dAtA, i, m);
        if p.Fail? {
          return Failed(p.error);
        }
        assert ReadInto(dAtA, i, m) == Ok(m, p.next);
        i := p.next;
      }
    }
    return Done(m);
  }
}
