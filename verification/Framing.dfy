/**
 The on-disk record format of diskcache (diskcache/put.go:61-83, diskcache/rotate.go:51-57):
 a four-byte little-endian length before each record, and a marker that ends a sealed file.
 Also the binary form of .pos (diskcache/pos.go:72-98).
 */
module Framing {
  import opened Wrappers

  const HEADER := 4
  const EOF_HINT := 0xdeadbeef

  function LE32(n: int): (b: Bytes)
    requires 0 <= n < TWO_32
    ensures |b| == HEADER
  {
    [n % 256, n / 256 % 256, n / 65536 % 256, n / 16777216]
  }

  function Read32(b: Bytes): (n: int)
    requires |b| >= HEADER
    ensures 0 <= n < TWO_32
  {
    var (b0: int, b1: int, b2: int, b3: int) := (b[0], b[1], b[2], b[3]);
    b0 + 256 * b1 + 65536 * b2 + 16777216 * b3
  }

  lemma FourBytes(n: int)
    requires 0 <= n < TWO_32
    ensures n % 256 + 256 * (n / 256 % 256) + 65536 * (n / 65536 % 256) + 16777216 * (n / 16777216) == n
  {
  }

  lemma Read32OfLE32(n: int, rest: Bytes)
    requires 0 <= n < TWO_32
    ensures Read32(LE32(n) + rest) == n
  {
    var b := LE32(n) + rest;
    assert b[0] == n % 256 && b[1] == n / 256 % 256 && b[2] == n / 65536 % 256 && b[3] == n / 16777216;
    FourBytes(n);
  }

  const EOF_MARK: Bytes := LE32(EOF_HINT)

  /** One record as Put writes it; the length is cut to 32 bits. */
  function Frame(d: Bytes): Bytes {
    LE32(|d| % TWO_32) + d
  }

  function Frames(rs: seq<Bytes>): Bytes {
    if rs == [] then [] else Frame(rs[0]) + Frames(rs[1..])
  }

  /** The records a reader finds from here on: up to the marker, a short header or a short body. */
  function Records(b: Bytes): seq<Bytes> {
    if |b| < HEADER then []
    else
      var n := Read32(b);
      if n == EOF_HINT || HEADER + n > |b| then [] else [b[HEADER..HEADER + n]] + Records(b[HEADER + n..])
  }

  /** Lengths the format can tell from its end marker. */
  predicate Good(d: Bytes) {
    |d| < TWO_32 && |d| != EOF_HINT
  }

  predicate AllGood(rs: seq<Bytes>) {
    forall i :: 0 <= i < |rs| ==> Good(rs[i])
  }

  lemma RecordsOfFrame(d: Bytes, rest: Bytes)
    requires Good(d)
    ensures Records(Frame(d) + rest) == [d] + Records(rest)
  {
    var b := Frame(d) + rest;
    Read32OfLE32(|d|, d + rest);
    assert b == LE32(|d|) + (d + rest);
    assert b[HEADER..HEADER + |d|] == d && b[HEADER + |d|..] == rest;
  }

  /** What was framed is read back, in order, whatever follows. */
  lemma {:induction false} RecordsOfFrames(rs: seq<Bytes>, rest: Bytes)
    requires AllGood(rs)
    ensures Records(Frames(rs) + rest) == rs + Records(rest)
  {
    if rs == [] {
      assert Frames(rs) + rest == rest;
    } else {
      assert Frames(rs) + rest == Frame(rs[0]) + (Frames(rs[1..]) + rest);
      RecordsOfFrame(rs[0], Frames(rs[1..]) + rest);
      RecordsOfFrames(rs[1..], rest);
      assert [rs[0]] + (rs[1..] + Records(rest)) == rs + Records(rest);
    }
  }

  lemma NothingAfterMark()
    ensures Records(EOF_MARK) == []
  {
  }

  /** A sealed file holds exactly the records put into it. */
  lemma SealedRoundTrip(rs: seq<Bytes>)
    requires AllGood(rs)
    ensures Records(Frames(rs) + EOF_MARK) == rs
  {
    RecordsOfFrames(rs, EOF_MARK);
    NothingAfterMark();
  }

  /** A single record survives the format exactly when its length is below 2^32 and is not the marker. */
  lemma FrameRoundTripExactly(d: Bytes)
    ensures Records(Frame(d) + EOF_MARK) == [d] <==> Good(d)
  {
    if Good(d) {
      RecordsOfFrame(d, EOF_MARK);
      NothingAfterMark();
    } else {
      var (b, n) := (Frame(d) + EOF_MARK, |d| % TWO_32);
      assert b == LE32(n) + (d + EOF_MARK);
      Read32OfLE32(n, d + EOF_MARK);
      assert Records(b) != [] ==> |Records(b)[0]| == n;
    }
  }

  lemma {:induction false} FramesAppend(rs: seq<Bytes>, d: Bytes)
    ensures Frames(rs + [d]) == Frames(rs) + Frame(d)
  {
    if rs == [] {
      assert [d][1..] == [];
    } else {
      assert (rs + [d])[1..] == rs[1..] + [d];
      FramesAppend(rs[1..], d);
    }
  }

  // ----- .pos -----

  /** An int64 as eight little-endian bytes. */
  function LE64(x: int): (b: Bytes)
    requires -TWO_63 <= x < TWO_63
    ensures |b| == 8
  {
    var u := x % TWO_64;
    LE32(u % TWO_32) + LE32(u / TWO_32)
  }

  function Read64(b: Bytes): int
    requires |b| >= 8
  {
    var u := Read32(b) + TWO_32 * Read32(b[4..]);
    if u < TWO_63 then u else u - TWO_64
  }

  /** MarshalBinary. */
  function MarshalPos(seek: int, name: Bytes): Bytes
    requires -TWO_63 <= seek < TWO_63
  {
    LE64(seek) + name
  }

  /** posFromFile: eight bytes or fewer hold no position. */
  function UnmarshalPos(b: Bytes): Option<(int, Bytes)> {
    if |b| <= 8 then None else Some((Read64(b), b[8..]))
  }

  /** A position is read back exactly when it names a file; a reset position reads as none. */
  lemma PosRoundTrip(seek: int, name: Bytes)
    requires -TWO_63 <= seek < TWO_63
    ensures UnmarshalPos(MarshalPos(seek, name)) == if name == [] then None else Some((seek, name))
  {
    var u := seek % TWO_64;
    var b := MarshalPos(seek, name);
    assert b == LE32(u % TWO_32) + (LE32(u / TWO_32) + name);
    Read32OfLE32(u % TWO_32, LE32(u / TWO_32) + name);
    assert b[4..] == LE32(u / TWO_32) + name;
    Read32OfLE32(u / TWO_32, name);
    assert b[8..] == name;
  }

  /** The bytes themselves: lengths lowest byte first, and the end marker 0xdeadbeef the same way. */
  lemma FormatBytes(d: Bytes)
    ensures EOF_MARK == [0xef, 0xbe, 0xad, 0xde]
    ensures |d| < 65536 ==> Frame(d) == [|d| % 256, |d| / 256, 0, 0] + d
  {
  }
}
