/** ComputeSpanPredicates (aggregate/tail-sampling.go:669-716): summaries for packets that came without one. */
module Backfill {
  import Filter
  import opened Packets
  import opened DecisionProofs
  import opened SpanSummary
  import opened Wrappers

  /**
   The packet is completed only when its whole payload decodes; otherwise it is
   returned unchanged with an error, so no partial summary is ever trusted.
   */
  method ComputeSpanPredicates(env: Env, p: Packet) returns (q: Packet, ok: bool)
    ensures q == p.(summary := q.summary)
    ensures HasPredicates(p.summary) ==> ok && q == p
    ensures !HasPredicates(p.summary) ==>
              if ok then exists spans :: Honest(env, q, spans) else q == p && !exists spans :: Honest(env, p.(summary := Summarize(spans)), spans)
  {
    if HasPredicates(p.summary) {
      return p, true;
    }
    var payload := Decompress(env, p.payload, p.compression);
    if payload.None? {
      return p, false;
    }
    var parsed := env.parse(payload.value);
    var tmp := ZERO;
    ghost var seen: seq<Filter.Span> := [];
    var i := 0;
    while i < |parsed.points| && parsed.points[i].Point?
      invariant 0 <= i <= |parsed.points| && |seen| == i
      invariant forall j :: 0 <= j < i ==> parsed.points[j] == Point(seen[j])
      invariant tmp == Summarize(seen)
    {
      SummarizeMore(seen, parsed.points[i].span);
      seen := seen + [parsed.points[i].span];
      tmp := Absorb(tmp, parsed.points[i].span);
      i := i + 1;
    }
    if i < |parsed.points| || !parsed.framed {
      forall spans
        ensures !Honest(env, p.(summary := Summarize(spans)), spans)
      {
        NotHonest(env, p, parsed, i, spans);
      }
      return p, false;
    }
    q := p.(summary := tmp);
    assert parsed.points == Points(seen);
    assert Honest(env, q, seen);
    return q, true;
  }

  lemma SummarizeMore(spans: seq<Filter.Span>, span: Filter.Span)
    ensures Summarize(spans + [span]) == Absorb(Summarize(spans), span)
  {
  }

  /** A payload with a point that does not decode, or a broken frame, is no list of spans. */
  lemma NotHonest(env: Env, p: Packet, parsed: Parsed, i: nat, spans: seq<Filter.Span>)
    requires Decompress(env, p.payload, p.compression).Some? && parsed == env.parse(Decompress(env, p.payload, p.compression).value)
    requires (i < |parsed.points| && parsed.points[i].Corrupt?) || !parsed.framed
    ensures !Honest(env, p.(summary := Summarize(spans)), spans)
  {
  }
}
