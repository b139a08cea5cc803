/** Fields of a newer schema: whatever they hold, groups within groups included, they are passed over whole. */
module TsUnknown {
  import opened TsData
  import opened Varints
  import opened Wrappers

  /** A value as the wire format knows it; numbers and lengths are varints, in any form the decoder takes. */
  datatype Value = Number(raw: Bytes) | Fixed64(b: Bytes) | Chunk(len: Bytes, b: Bytes) | Fixed32(b: Bytes) | Group(fields: seq<Entry>, end: Bytes)

  /** A field: the bytes of its tag, and its value. */
  datatype Entry = Entry(tag: Bytes, value: Value)

  /** x is one whole varint, and v its number. */
  predicate IsVarint(x: Bytes, v: nat) {
    ReadVarint(x, 0) == Ok(v, |x|)
  }

  function WireType(v: Value): nat {
    match v
    case Number(_) => 0
    case Fixed64(_) => 1
    case Chunk(_, _) => 2
    case Group(_, _) => 3
    case Fixed32(_) => 5
  }

  /** The tag is a varint with the value's wire type. */
  predicate Tagged(tag: Bytes, wireType: nat) {
    var r := ReadVarint(tag, 0);
    r.Ok? && r.next == |tag| && r.value % 8 == wireType
  }

  predicate WellFormed(e: Entry) {
    Tagged(e.tag, WireType(e.value)) &&
    match e.value
    case Number(raw) => ReadVarint(raw, 0).Ok? && ReadVarint(raw, 0).next == |raw|
    case Fixed64(b) => |b| == 8
    case Chunk(len, b) => IsVarint(len, |b|)
    case Fixed32(b) => |b| == 4
    case Group(fields, end) => Tagged(end, 4) && forall f <- fields :: WellFormed(f)
  }

  function Wire(e: Entry): Bytes {
    e.tag +
    match e.value
    case Number(raw) => raw
    case Fixed64(b) => b
    case Chunk(len, b) => len + b
    case Fixed32(b) => b
    case Group(fields, end) => WireAll(fields) + end
  }

  function WireAll(es: seq<Entry>): Bytes {
    if es == [] then [] else Wire(es[0]) + WireAll(es[1..])
  }

  // ----- varints inside a buffer -----

  /** A varint is read the same wherever it stands. */
  lemma {:induction false} ReadInside(b: Bytes, i: nat, x: Bytes, k: nat, shift: nat, acc: nat)
    requires StartsAt(b, i, x) && k <= |x| && ReadFrom(x, k, shift, acc).Ok?
    ensures var r := ReadFrom(x, k, shift, acc); ReadFrom(b, i + k, shift, acc) == Ok(r.value, i + r.next)
    decreases |x| - k
  {
    assert b[i + k] == b[i..i + |x|][k] == x[k];
    if x[k] >= 128 {
      ReadInside(b, i, x, k + 1, shift + 7, (acc + Shl(x[k] % 128, shift)) % TWO_64);
    }
  }

  lemma ReadAt(b: Bytes, i: nat, x: Bytes, v: nat)
    requires StartsAt(b, i, x) && IsVarint(x, v)
    ensures i < |b| && ReadVarint(b, i) == Ok(v, i + |x|)
  {
    ReadInside(b, i, x, 0, 0, 0);
  }

  // ----- skipping -----

  /** From i the skip is over at j, or, inside a group, goes on there. */
  ghost predicate SkipsTo(b: Bytes, i: nat, depth: nat, j: nat) {
    Skip(b, i, depth) == if depth == 0 then Ok((), j) else Skip(b, j, depth)
  }

  /** One round of the skip, by wire type. */
  lemma SkipRound(b: Bytes, i: nat, depth: nat, wire: nat, j: nat)
    requires i < |b| && ReadVarint(b, i) == Ok(wire, j)
    ensures wire % 8 == 0 && ReadVarint(b, j).Ok? ==> SkipsTo(b, i, depth, ReadVarint(b, j).next)
    ensures wire % 8 == 1 ==> SkipsTo(b, i, depth, j + 8)
    ensures wire % 8 == 2 && ReadVarint(b, j).Ok? && ReadVarint(b, j).next + ReadVarint(b, j).value < TWO_63 ==>
              SkipsTo(b, i, depth, ReadVarint(b, j).next + ReadVarint(b, j).value)
    ensures wire % 8 == 3 ==> Skip(b, i, depth) == Skip(b, j, depth + 1)
    ensures wire % 8 == 4 && depth > 0 ==> Skip(b, i, depth) == if depth == 1 then Ok((), j) else Skip(b, j, depth - 1)
    ensures wire % 8 == 5 ==> SkipsTo(b, i, depth, j + 4)
  {
  }

  lemma SkipNumber(b: Bytes, i: nat, depth: nat, tag: Bytes, raw: Bytes)
    requires Tagged(tag, 0) && ReadVarint(raw, 0).Ok? && ReadVarint(raw, 0).next == |raw| && StartsAt(b, i, tag + raw)
    ensures SkipsTo(b, i, depth, i + |tag| + |raw|)
  {
    var wire := ReadVarint(tag, 0).value;
    SplitAt(b, i, tag, raw);
    ReadAt(b, i, tag, wire);
    ReadAt(b, i + |tag|, raw, ReadVarint(raw, 0).value);
    SkipRound(b, i, depth, wire, i + |tag|);
  }

  lemma SkipFixed(b: Bytes, i: nat, depth: nat, tag: Bytes, x: Bytes)
    requires (Tagged(tag, 1) && |x| == 8) || (Tagged(tag, 5) && |x| == 4)
    requires StartsAt(b, i, tag + x)
    ensures SkipsTo(b, i, depth, i + |tag| + |x|)
  {
    var wire := ReadVarint(tag, 0).value;
    SplitAt(b, i, tag, x);
    ReadAt(b, i, tag, wire);
    SkipRound(b, i, depth, wire, i + |tag|);
  }

  lemma SkipChunk(b: Bytes, i: nat, depth: nat, tag: Bytes, len: Bytes, x: Bytes)
    requires Tagged(tag, 2) && IsVarint(len, |x|) && |b| < TWO_63 && StartsAt(b, i, tag + (len + x))
    ensures SkipsTo(b, i, depth, i + |tag| + |len| + |x|)
  {
    var wire := ReadVarint(tag, 0).value;
    SplitAt(b, i, tag, len + x);
    SplitAt(b, i + |tag|, len, x);
    ReadAt(b, i, tag, wire);
    ReadAt(b, i + |tag|, len, |x|);
    SkipRound(b, i, depth, wire, i + |tag|);
  }

  lemma SkipPlain(b: Bytes, i: nat, depth: nat, e: Entry)
    requires WellFormed(e) && !e.value.Group? && |b| < TWO_63 && StartsAt(b, i, Wire(e))
    ensures SkipsTo(b, i, depth, i + |Wire(e)|)
  {
    match e.value
    case Number(raw) => SkipNumber(b, i, depth, e.tag, raw);
    case Fixed64(x) => SkipFixed(b, i, depth, e.tag, x);
    case Chunk(len, x) => SkipChunk(b, i, depth, e.tag, len, x);
    case Fixed32(x) => SkipFixed(b, i, depth, e.tag, x);
  }

  /** Into a group, over its fields, and out again. */
  lemma SkipGroup(b: Bytes, i: nat, depth: nat, tag: Bytes, inner: Bytes, end: Bytes)
    requires Tagged(tag, 3) && Tagged(end, 4) && StartsAt(b, i, tag + (inner + end))
    requires Skip(b, i + |tag|, depth + 1) == Skip(b, i + |tag| + |inner|, depth + 1)
    ensures SkipsTo(b, i, depth, i + |tag| + |inner| + |end|)
  {
    var k := i + |tag| + |inner|;
    SplitAt(b, i, tag, inner + end);
    SplitAt(b, i + |tag|, inner, end);
    ReadAt(b, i, tag, ReadVarint(tag, 0).value);
    ReadAt(b, k, end, ReadVarint(end, 0).value);
    SkipRound(b, i, depth, ReadVarint(tag, 0).value, i + |tag|);
    SkipRound(b, k, depth + 1, ReadVarint(end, 0).value, k + |end|);
  }

  lemma GroupParts(b: Bytes, i: nat, tag: Bytes, inner: Bytes, end: Bytes)
    requires StartsAt(b, i, tag + (inner + end))
    ensures StartsAt(b, i + |tag|, inner)
  {
    SplitAt(b, i, tag, inner + end);
    SplitAt(b, i + |tag|, inner, end);
  }

  lemma FirstOfAll(b: Bytes, i: nat, es: seq<Entry>)
    requires es != [] && StartsAt(b, i, WireAll(es))
    ensures var k := |Wire(es[0])|;
            StartsAt(b, i, Wire(es[0])) && StartsAt(b, i + k, WireAll(es[1..])) && |WireAll(es)| == k + |WireAll(es[1..])|
  {
    var (first, rest) := (Wire(es[0]), WireAll(es[1..]));
    assert WireAll(es) == first + rest;
    SplitAt(b, i, first, rest);
  }

  /** f is the same before and behind the field, wherever it stands. */
  ghost predicate Passes<T(!new)>(b: Bytes, e: Entry, f: nat -> T) {
    forall at: nat :: StartsAt(b, at, Wire(e)) ==> f(at) == f(at + |Wire(e)|)
  }

  /** What is the same before and behind every field of a list is the same before and behind the list. */
  lemma {:induction false} Along<T(!new)>(b: Bytes, i: nat, es: seq<Entry>, f: nat -> T)
    requires StartsAt(b, i, WireAll(es)) && forall e <- es :: Passes(b, e, f)
    ensures f(i) == f(i + |WireAll(es)|)
    decreases |es|
  {
    if es != [] {
      FirstOfAll(b, i, es);
      assert Passes(b, es[0], f);
      Along(b, i + |Wire(es[0])|, es[1..], f);
    }
  }

  /** A well-formed field is skipped to its end, at any depth. */
  lemma {:induction false} SkipEntry(b: Bytes, i: nat, depth: nat, e: Entry)
    requires WellFormed(e) && |b| < TWO_63 && StartsAt(b, i, Wire(e))
    ensures SkipsTo(b, i, depth, i + |Wire(e)|)
    decreases e, 1
  {
    if e.value.Group? {
      forall x <- e.value.fields
        ensures Passes(b, x, at => Skip(b, at, depth + 1))
      {
        SkipInner(b, depth + 1, x);
      }
      SkipGroupEntry(b, i, depth, e);
    } else {
      SkipPlain(b, i, depth, e);
    }
  }

  lemma {:induction false} SkipInner(b: Bytes, depth: nat, e: Entry)
    requires WellFormed(e) && |b| < TWO_63 && depth > 0
    ensures Passes(b, e, at => Skip(b, at, depth))
    decreases e, 2
  {
    forall at: nat | StartsAt(b, at, Wire(e))
      ensures Skip(b, at, depth) == Skip(b, at + |Wire(e)|, depth)
    {
      SkipEntry(b, at, depth, e);
    }
  }

  lemma FieldsSkipped(b: Bytes, i: nat, depth: nat, es: seq<Entry>, end: nat)
    requires StartsAt(b, i, WireAll(es)) && end == i + |WireAll(es)| && forall x <- es :: Passes(b, x, at => Skip(b, at, depth))
    ensures Skip(b, i, depth) == Skip(b, end, depth)
  {
    Along(b, i, es, at => Skip(b, at, depth));
  }

  lemma SkipGroupEntry(b: Bytes, i: nat, depth: nat, e: Entry)
    requires e.value.Group? && Tagged(e.tag, 3) && Tagged(e.value.end, 4) && StartsAt(b, i, Wire(e))
    requires forall x <- e.value.fields :: Passes(b, x, at => Skip(b, at, depth + 1))
    ensures SkipsTo(b, i, depth, i + |Wire(e)|)
  {
    var (tag, inner, end) := (e.tag, WireAll(e.value.fields), e.value.end);
    assert Wire(e) == tag + (inner + end);
    GroupParts(b, i, tag, inner, end);
    FieldsSkipped(b, i + |tag|, depth + 1, e.value.fields, i + |tag| + |inner|);
    SkipGroup(b, i, depth, tag, inner, end);
  }

  // ----- decoding -----

  /** The field is well-formed and its number is not one of the packet's. */
  predicate Unknown(e: Entry) {
    WellFormed(e) && ToInt32(ReadVarint(e.tag, 0).value / 8) > FIELDS
  }

  /**
   A field of a newer schema, of any wire type and with any groups inside it, is passed
   over wherever it stands in whatever buffer: the round of Unmarshal that finds it leaves
   the message as it was and goes on right behind it.
   */
  lemma UnknownIsPassed(b: Bytes, i: nat, m: Message, e: Entry)
    requires |m| == FIELDS && Unknown(e) && |b| < TWO_63 && StartsAt(b, i, Wire(e))
    ensures ReadInto(b, i, m) == Ok(m, i + |Wire(e)|)
  {
    var rest := Wire(e)[|e.tag|..];
    assert Wire(e) == e.tag + rest;
    SplitAt(b, i, e.tag, rest);
    ReadAt(b, i, e.tag, ReadVarint(e.tag, 0).value);
    assert StartsAt(b[i..], 0, Wire(e));
    SkipEntry(b[i..], 0, 0, e);
  }
}
