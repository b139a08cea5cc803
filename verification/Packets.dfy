/**
 Packets (aggregate/tsdata.pb.go:29-57), their payloads, and the libraries around
 them as oracles: regular expressions, xxhash, zstd and the PBPoints decoder.
 Go strings are byte sequences.
 */
module Packets {
  import opened Filter
  import opened Hashing
  import opened SpanSummary
  import opened Wrappers

  type i64 = x: int | -TWO_63 <= x < TWO_63
  type i32 = x: int | -TWO_31 <= x < TWO_31

  datatype Packet = Packet(
    groupIdHash: u64, rawGroupId: Bytes, token: Bytes, source: Bytes, dataType: Bytes,
    configVersion: i64, hasError: bool, groupKey: Bytes, pointCount: i32,
    traceStart: i64, traceEnd: i64, payload: Bytes, maxPointTime: i64, compression: i32,
    summary: Summary)

  /** One element of a PBPoints payload: it unmarshals to a span or it does not. */
  datatype Raw = Point(span: Span) | Corrupt

  /** The elements of a payload in order, and whether the framing held to the end. */
  datatype Parsed = Parsed(points: seq<Raw>, framed: bool)

  datatype Env = Env(
    re: Matcher,
    sum: Sum64,
    zstd: Bytes -> Bytes,
    unzstd: Bytes -> Option<Bytes>,
    parse: Bytes -> Parsed)

  const COMPRESSION_NONE: i32 := 0
  const COMPRESSION_ZSTD: i32 := 1

  /** DecompressPointsPayload (aggregate/zstd.go:61-79). */
  function Decompress(env: Env, payload: Bytes, compression: i32): Option<Bytes> {
    if payload == [] || compression == COMPRESSION_NONE then Some(payload)
    else if compression != COMPRESSION_ZSTD then None
    else env.unzstd(payload)
  }

  /** CompressPointsPayload (aggregate/zstd.go:41-57): kept raw unless zstd is smaller. */
  function Compress(env: Env, payload: Bytes): (Bytes, i32) {
    if payload == [] || |env.zstd(payload)| >= |payload| then (payload, COMPRESSION_NONE)
    else (env.zstd(payload), COMPRESSION_ZSTD)
  }

  /** Decompression undoes compression, a frame is never empty, and a concatenation of payloads parses to both parts. */
  ghost predicate Lawful(env: Env) {
    && (forall x :: env.unzstd(env.zstd(x)) == Some(x))
    && (forall x :: x != [] ==> env.zstd(x) != [])
    && env.parse([]) == Parsed([], true)
    && (forall a, b :: env.parse(a).framed && env.parse(b).framed ==>
                         env.parse(a + b) == Parsed(env.parse(a).points + env.parse(b).points, true))
  }

  lemma CompressThenDecompress(env: Env, payload: Bytes)
    requires Lawful(env)
    ensures var (p, c) := Compress(env, payload); Decompress(env, p, c) == Some(payload)
  {
  }

  /** What is kept is the shorter of the payload and its compressed form. */
  lemma CompressIsShorter(env: Env, payload: Bytes)
    ensures var (p, c) := Compress(env, payload);
            && |p| <= |payload| && (payload != [] ==> |p| <= |env.zstd(payload)|)
            && ((p == payload && c == 0) || (p == env.zstd(payload) && c == 1))
  {
  }
}
