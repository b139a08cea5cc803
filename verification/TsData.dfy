/**
 The wire form of DataPacket and DataBatch (aggregate/tsdata.pb.go): the generated
 code repeats one block per field, which is modelled as one block over the field table.
 */
module TsData {
  import opened Hashing
  import opened Packets
  import opened SpanSummary
  import opened Varints
  import opened Wrappers

  datatype Kind = U64 | I64 | I32 | Bool | Text

  /** The kind of the field at index i, whose number is i + 1. */
  function KindOf(i: nat): Kind {
    if i == 0 then U64
    else if i in {1, 2, 3, 4, 7, 11} then Text
    else if i == 6 || 14 <= i <= 17 then Bool
    else if i == 8 || i == 13 then I32
    else I64
  }

  const FIELDS: nat := 21

  /** A field's value: the 64-bit pattern of a number, or bytes. */
  datatype Field = Num(u: u64) | Raw(b: Bytes)

  type Message = seq<Field>

  function Default(k: Kind): Field {
    if k.Text? then Raw([]) else Num(0)
  }

  /** A fresh message. */
  function ZeroMessage(): Message {
    seq(FIELDS, i requires 0 <= i < FIELDS => Default(KindOf(i)))
  }

  /** uint64(x) of a signed integer, so that negative values get a ten-byte varint. */
  function Pattern(x: i64): (u: u64)
    ensures (u - x) % TWO_64 == 0
  {
    if x >= 0 then x else x + TWO_64
  }

  /** The pattern a decoded number is stored as: int32 fields keep 32 bits, bool fields only whether it is zero. */
  function Stored(k: Kind, u: u64): u64 {
    match k
    case I32 => Pattern(ToInt32(u))
    case Bool => if u == 0 then 0 else 1
    case _ => u
  }

  predicate Fits(k: Kind, f: Field) {
    if k.Text? then f.Raw? && |f.b| < TWO_63 else f.Num? && Stored(k, f.u) == f.u
  }

  predicate IsMessage(m: Message) {
    |m| == FIELDS && forall i :: 0 <= i < FIELDS ==> Fits(KindOf(i), m[i])
  }

  // ----- encoding -----

  function Tag(i: nat): u64
    requires i < FIELDS
  {
    (i + 1) * 8 + if KindOf(i).Text? then 2 else 0
  }

  function EncodeValue(f: Field): Bytes {
    match f
    case Num(u) => Varint(u)
    case Raw(b) => Varint(|b|) + b
  }

  /** One field: nothing for a default value, otherwise its tag and value. */
  function EncodeField(i: nat, f: Field): Bytes
    requires i < FIELDS
  {
    if f == Default(KindOf(i)) then [] else Varint(Tag(i)) + EncodeValue(f)
  }

  /** The fields from number i + 1 on. */
  function EncodeFrom(m: Message, i: nat): Bytes
    requires |m| == FIELDS && i <= FIELDS
    decreases |m| - i
  {
    if i == |m| then [] else EncodeField(i, m[i]) + EncodeFrom(m, i + 1)
  }

  function Encode(m: Message): Bytes
    requires |m| == FIELDS
  {
    EncodeFrom(m, 0)
  }

  /** Size, from tag lengths and sovTsdata. */
  function FieldSize(i: nat, f: Field): nat
    requires i < FIELDS
  {
    if f == Default(KindOf(i)) then 0
    else
      (if i < 15 then 1 else 2) +
      match f
      case Num(u) => if KindOf(i).Bool? then 1 else Sov(u)
      case Raw(b) => |b| + Sov(|b|)
  }

  function SizeFrom(m: Message, i: nat): nat
    requires |m| == FIELDS && i <= FIELDS
    decreases |m| - i
  {
    if i == |m| then 0 else FieldSize(i, m[i]) + SizeFrom(m, i + 1)
  }

  function Size(m: Message): nat
    requires |m| == FIELDS
  {
    SizeFrom(m, 0)
  }

  lemma TagLength(i: nat)
    requires i < FIELDS
    ensures |Varint(Tag(i))| == if i < 15 then 1 else 2
  {
  }

  lemma FieldSizeIsLength(i: nat, f: Field)
    requires i < FIELDS && Fits(KindOf(i), f)
    ensures FieldSize(i, f) == |EncodeField(i, f)|
  {
    TagLength(i);
    match f
    case Num(u) => SovIsLength(u);
    case Raw(b) => SovIsLength(|b|);
  }

  /** Size is the length of the encoding. */
  lemma {:induction false} SizeIsLength(m: Message, i: nat)
    requires IsMessage(m) && i <= FIELDS
    ensures SizeFrom(m, i) == |EncodeFrom(m, i)|
    decreases FIELDS - i
  {
    if i < FIELDS {
      FieldSizeIsLength(i, m[i]);
      SizeIsLength(m, i + 1);
    }
  }

  // ----- decoding -----

  datatype Decoded<T> = Done(value: T) | Failed(error: WireError)

  /** A length-delimited value: the length must be a non-negative int that stays inside the buffer. */
  function ReadBytes(b: Bytes, i: nat): (r: Read<Bytes>)
    ensures r.Ok? ==> i < r.next <= |b|
  {
    match ReadVarint(b, i)
    case Fail(e) => Fail(e)
    case Ok(len, j) =>
      if len >= TWO_63 || j + len >= TWO_63 then Fail(InvalidLength)
      else if j + len > |b| then Fail(UnexpectedEOF)
      else Ok(b[j..j + len], j + len)
  }

  /** The value of a known field. */
  function ReadField(b: Bytes, i: nat, k: Kind, wireType: nat): (r: Read<Field>)
    ensures r.Ok? ==> i < r.next <= |b|
  {
    if k.Text? then
      if wireType != 2 then Fail(WrongWireType)
      else match ReadBytes(b, i) case Fail(e) => Fail(e) case Ok(s, j) => Ok(Raw(s), j)
    else
      if wireType != 0 then Fail(WrongWireType)
      else match ReadVarint(b, i) case Fail(e) => Fail(e) case Ok(u, j) => Ok(Num(Stored(k, u)), j)
  }

  /** skipTsdata: one unknown field, with nested groups. */
  function Skip(b: Bytes, i: nat, depth: nat): (r: Read<()>)
    ensures r.Ok? ==> i < r.next
    decreases if i < |b| then |b| - i else 0, 0
  {
    if i >= |b| then Fail(UnexpectedEOF)
    else
      match ReadVarint(b, i)
      case Fail(e) => Fail(e)
      case Ok(wire, j) =>
        match wire % 8
        case 0 => (match ReadVarint(b, j) case Fail(e) => Fail(e) case Ok(_, k) => SkipOn(b, k, depth, i))
        case 1 => SkipOn(b, j + 8, depth, i)
        case 2 =>
          (match ReadVarint(b, j)
           case Fail(e) => Fail(e)
           case Ok(len, k) => if len >= TWO_63 || k + len >= TWO_63 then Fail(InvalidLength) else SkipOn(b, k + len, depth, i))
        case 3 => Skip(b, j, depth + 1)
        case 4 => if depth == 0 then Fail(EndGroup) else SkipOn(b, j, depth - 1, i)
        case 5 => SkipOn(b, j + 4, depth, i)
        case _ => Fail(WrongWireType)
  }

  /** The end of one round of skipTsdata. */
  function SkipOn(b: Bytes, i: nat, depth: nat, from: nat): (r: Read<()>)
    requires from < i && from < |b|
    ensures r.Ok? ==> from < r.next
    decreases if i < |b| then |b| - i else 0, 1
  {
    if depth == 0 then Ok((), i) else Skip(b, i, depth)
  }

  /** One round of the loop of Unmarshal: the field that starts at i. */
  function ReadInto(b: Bytes, i: nat, m: Message): (r: Read<Message>)
    requires |m| == FIELDS
    ensures r.Ok? ==> i < r.next <= |b| && |r.value| == FIELDS
  {
    match ReadVarint(b, i)
    case Fail(e) => Fail(e)
    case Ok(wire, j) =>
      if wire % 8 == 4 then Fail(EndGroup)
      else if ToInt32(wire / 8) <= 0 then Fail(IllegalTag)
      else if ToInt32(wire / 8) <= FIELDS then Store(b, j, ToInt32(wire / 8) - 1, wire % 8, m)
      else Pass(b, i, m)
  }

  /** A known field: its value replaces the one before. */
  function Store(b: Bytes, j: nat, n: nat, wireType: nat, m: Message): (r: Read<Message>)
    requires |m| == FIELDS && n < FIELDS
    ensures r.Ok? ==> j < r.next <= |b| && |r.value| == FIELDS
  {
    match ReadField(b, j, KindOf(n), wireType)
    case Fail(e) => Fail(e)
    case Ok(f, k) => Ok(m[n := f], k)
  }

  /** An unknown field, with its tag: passed over. */
  function Pass<T>(b: Bytes, i: nat, m: T): (r: Read<T>)
    ensures r.Ok? ==> i < r.next <= |b| && r.value == m
  {
    if i > |b| then Fail(UnexpectedEOF)
    else
      match Skip(b[i..], 0, 0)
      case Fail(e) => Fail(e)
      case Ok(_, n) =>
        if i + n >= TWO_63 then Fail(InvalidLength)
        else if i + n > |b| then Fail(UnexpectedEOF)
        else Ok(m, i + n)
  }

  function DecodeFrom(b: Bytes, i: nat, m: Message): (d: Decoded<Message>)
    requires |m| == FIELDS
    ensures d.Done? ==> |d.value| == FIELDS
    decreases |b| - i
  {
    if i >= |b| then Done(m)
    else
      match ReadInto(b, i, m)
      case Fail(e) => Failed(e)
      case Ok(m', j) => DecodeFrom(b, j, m')
  }

  /** Unmarshal into a fresh message. */
  function Decode(b: Bytes): (d: Decoded<Message>)
    ensures d.Done? ==> |d.value| == FIELDS
  {
    DecodeFrom(b, 0, ZeroMessage())
  }

  // ----- round trip -----

  predicate StartsAt(b: Bytes, i: nat, part: Bytes) {
    i + |part| <= |b| && b[i..i + |part|] == part
  }

  lemma SplitAt(b: Bytes, i: nat, x: Bytes, y: Bytes)
    requires StartsAt(b, i, x + y)
    ensures StartsAt(b, i, x) && StartsAt(b, i + |x|, y)
  {
    assert b[i..i + |x|] == (x + y)[..|x|];
    assert b[i + |x|..i + |x| + |y|] == (x + y)[|x|..];
  }

  lemma ReadDelimitedBytes(b: Bytes, i: nat, s: Bytes)
    requires |b| < TWO_63 && StartsAt(b, i, Varint(|s|) + s)
    ensures ReadBytes(b, i) == Ok(s, i + |Varint(|s|)| + |s|)
  {
    SplitAt(b, i, Varint(|s|), s);
    ReadVarintOfVarint(b, i, |s|);
  }

  lemma ReadFieldOfValue(b: Bytes, i: nat, k: Kind, f: Field)
    requires Fits(k, f) && StartsAt(b, i, EncodeValue(f)) && |b| < TWO_63
    ensures ReadField(b, i, k, if k.Text? then 2 else 0) == Ok(f, i + |EncodeValue(f)|)
  {
    match f
    case Num(u) => ReadVarintOfVarint(b, i, u);
    case Raw(s) => ReadDelimitedBytes(b, i, s);
  }

  lemma TagParts(k: nat)
    requires k < FIELDS
    ensures Tag(k) / 8 == k + 1 && Tag(k) % 8 == (if KindOf(k).Text? then 2 else 0) && ToInt32(Tag(k) / 8) == k + 1
  {
  }

  /** A tag followed by a value is read as that field. */
  lemma ReadTagged(b: Bytes, i: nat, m: Message, k: nat, j: nat)
    requires |m| == FIELDS && k < FIELDS && ReadVarint(b, i) == Ok(Tag(k), j)
    ensures ReadInto(b, i, m) == Store(b, j, k, if KindOf(k).Text? then 2 else 0, m)
  {
    TagParts(k);
  }

  /** Reading at the start of an encoded field finds its tag and behind it its value. */
  lemma ReadParts(b: Bytes, i: nat, tag: Bytes, k: nat, f: Field)
    requires k < FIELDS && Fits(KindOf(k), f) && |b| < TWO_63
    requires tag == Varint(Tag(k)) && StartsAt(b, i, tag + EncodeValue(f))
    ensures ReadVarint(b, i) == Ok(Tag(k), i + |tag|)
    ensures ReadField(b, i + |tag|, KindOf(k), if KindOf(k).Text? then 2 else 0) == Ok(f, i + |tag| + |EncodeValue(f)|)
  {
    SplitAt(b, i, tag, EncodeValue(f));
    assert ReadVarint(b, i) == Ok(Tag(k), i + |tag|) by {
      ReadVarintOfVarint(b, i, Tag(k));
    }
    ReadFieldOfValue(b, i + |tag|, KindOf(k), f);
  }

  /** Reading at the start of an encoded field stores its value and goes on behind it. */
  lemma ReadEncodedField(b: Bytes, i: nat, m: Message, k: nat, f: Field)
    requires |m| == FIELDS && k < FIELDS && Fits(KindOf(k), f) && f != Default(KindOf(k))
    requires StartsAt(b, i, EncodeField(k, f)) && |b| < TWO_63
    ensures ReadInto(b, i, m) == Ok(m[k := f], i + |EncodeField(k, f)|)
  {
    var tag := Varint(Tag(k));
    var j := i + |tag|;
    ReadParts(b, i, tag, k, f);
    ReadTagged(b, i, m, k, j);
    assert Store(b, j, k, if KindOf(k).Text? then 2 else 0, m) == Ok(m[k := f], j + |EncodeValue(f)|);
  }

  /** The first k fields of m and defaults behind them. */
  ghost predicate Filled(m: Message, k: nat, acc: Message) {
    |m| == |acc| && forall j :: 0 <= j < |m| ==> acc[j] == if j < k then m[j] else Default(KindOf(j))
  }

  lemma FillNext(m: Message, k: nat, acc: Message)
    requires Filled(m, k, acc) && k < |m|
    ensures Filled(m, k + 1, acc[k := m[k]])
    ensures m[k] == Default(KindOf(k)) ==> acc[k := m[k]] == acc
  {
  }

  /** An encoded field, or nothing where it has its default, decodes into the next state. */
  lemma DecodeNext(m: Message, b: Bytes, i: nat, k: nat, acc: Message)
    requires IsMessage(m) && k < FIELDS && |b| < TWO_63 && Filled(m, k, acc)
    requires StartsAt(b, i, EncodeField(k, m[k]))
    ensures DecodeFrom(b, i, acc) == DecodeFrom(b, i + |EncodeField(k, m[k])|, acc[k := m[k]])
  {
    FillNext(m, k, acc);
    if m[k] != Default(KindOf(k)) {
      ReadEncodedField(b, i, acc, k, m[k]);
    }
  }

  lemma DecodeAll(m: Message, b: Bytes, i: nat, acc: Message)
    requires |m| == FIELDS && Filled(m, FIELDS, acc) && i == |b|
    ensures DecodeFrom(b, i, acc) == Done(m)
  {
    assert acc == m;
  }

  /** At i, with the first k fields read, the rest of the encoding follows and ends the buffer. */
  ghost predicate Ready(m: Message, b: Bytes, i: nat, k: nat, acc: Message) {
    && IsMessage(m) && k <= FIELDS && |b| < TWO_63 && |acc| == FIELDS && Filled(m, k, acc)
    && StartsAt(b, i, EncodeFrom(m, k)) && i + |EncodeFrom(m, k)| == |b|
  }

  lemma ReadyNext(m: Message, b: Bytes, i: nat, k: nat, acc: Message)
    requires Ready(m, b, i, k, acc) && k < FIELDS
    ensures StartsAt(b, i, EncodeField(k, m[k]))
    ensures Ready(m, b, i + |EncodeField(k, m[k])|, k + 1, acc[k := m[k]])
  {
    SplitAt(b, i, EncodeField(k, m[k]), EncodeFrom(m, k + 1));
    FillNext(m, k, acc);
  }

  lemma DecodeReady(m: Message, b: Bytes, i: nat, k: nat, acc: Message) returns (i': nat, acc': Message)
    requires Ready(m, b, i, k, acc) && k < FIELDS
    ensures Ready(m, b, i', k + 1, acc') && DecodeFrom(b, i, acc) == DecodeFrom(b, i', acc')
  {
    i', acc' := i + |EncodeField(k, m[k])|, acc[k := m[k]];
    ReadyNext(m, b, i, k, acc);
    DecodeNext(m, b, i, k, acc);
  }

  lemma {:induction false} DecodeEncoded(m: Message, b: Bytes, i: nat, k: nat, acc: Message)
    requires Ready(m, b, i, k, acc)
    ensures DecodeFrom(b, i, acc) == Done(m)
    decreases FIELDS - k
  {
    if k == FIELDS {
      DecodeAll(m, b, i, acc);
    } else {
      var i', acc' := DecodeReady(m, b, i, k, acc);
      DecodeEncoded(m, b, i', k + 1, acc');
    }
  }

  /** Decoding what was encoded gives the message back. */
  lemma RoundTrip(m: Message)
    requires IsMessage(m) && |Encode(m)| < TWO_63
    ensures Decode(Encode(m)) == Done(m)
  {
    DecodeEncoded(m, Encode(m), 0, 0, ZeroMessage());
  }
}
