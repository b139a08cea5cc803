/** Deciding a packet with sampling pipelines (aggregate/tail-sampling.go:81-247, 443-458). */
module Decisions {
  import opened Filter
  import opened SpanSummary
  import opened Compiler
  import opened Packets
  import opened Hashing
  import opened Wrappers

  /** evaluatePipelines: no pipeline matched, or the first match kept or dropped the packet. */
  datatype Decision = NoMatch | Kept | Dropped | Crashed

  const SAMPLE_RANGE := 10000

  /** pipelineMatchedPacket. */
  function Verdicts(groupIdHash: u64, p: Pipeline): Decision {
    match p.kind
    case Probabilistic =>
      if p.rate <= 0.0 then Kept
      else if groupIdHash % SAMPLE_RANGE < (p.rate * (SAMPLE_RANGE as real)).Floor then Kept
      else Dropped
    case Condition => if p.action.Drop? then Dropped else Kept
    case OtherKind => Kept
  }

  function VerdictOf(groupIdHash: u64, p: Option<Pipeline>): Decision {
    if p.None? then Dropped else Verdicts(groupIdHash, p.value)
  }

  /** How many of the residues below n a pipeline keeps. */
  function KeptBelow(p: Pipeline, n: nat): nat
    requires n <= SAMPLE_RANGE
  {
    if n == 0 then 0 else KeptBelow(p, n - 1) + if Verdicts(n - 1, p).Kept? then 1 else 0
  }

  /** Only the residue of the group hash matters, and of the first n residues a rate keeps those below its share. */
  lemma {:induction false} SampledShare(p: Pipeline, groupIdHash: u64, n: nat)
    requires p.kind.Probabilistic? && 0.0 < p.rate <= 1.0 && n <= SAMPLE_RANGE
    ensures Verdicts(groupIdHash, p) == Verdicts(groupIdHash % SAMPLE_RANGE, p)
    ensures var share := (p.rate * (SAMPLE_RANGE as real)).Floor; KeptBelow(p, n) == if n <= share then n else share
  {
    if n > 0 {
      SampledShare(p, groupIdHash, n - 1);
    }
  }

  // ----- the fast path -----

  /** The first pipeline whose predicate holds of the summary decides. */
  function FirstFast(es: seq<SummaryExpr>, ps: seq<Option<Pipeline>>, s: Summary, groupIdHash: u64): Decision
    requires |es| == |ps|
  {
    if es == [] then NoMatch
    else if Test(es[0], s) then VerdictOf(groupIdHash, ps[0])
    else FirstFast(es[1..], ps[1..], s, groupIdHash)
  }

  /** decideWithPredicates (aggregate/timewheel.go:539-555). */
  function DecideWithPredicates(td: Packet, ps: seq<Option<Pipeline>>): Decision {
    var es := CompileAll(ps);
    if es.None? then NoMatch
    else
      CompileAllLength(ps);
      FirstFast(es.value, ps, td.summary, td.groupIdHash)
  }

  lemma CompileAllLength(ps: seq<Option<Pipeline>>)
    ensures CompileAll(ps).Some? ==> |CompileAll(ps).value| == |ps|
  {
  }

  /** The loop of decideWithPredicates: the first predicate that holds decides. */
  method DecideLoop(td: Packet, ps: seq<Option<Pipeline>>) returns (d: Decision)
    ensures d == DecideWithPredicates(td, ps)
  {
    var es := CompileAll(ps);
    if es.None? {
      return NoMatch;
    }
    CompileAllLength(ps);
    for i := 0 to |ps|
      invariant FirstFast(es.value, ps, td.summary, td.groupIdHash) == FirstFast(es.value[i..], ps[i..], td.summary, td.groupIdHash)
    {
      if Test(es.value[i], td.summary) {
        return VerdictOf(td.groupIdHash, ps[i]);
      }
      assert es.value[i..][1..] == es.value[i + 1..] && ps[i..][1..] == ps[i + 1..];
    }
    return NoMatch;
  }

  // ----- the walk -----

  /** pipelineMatchesPoint. */
  function PipelineMatches(re: Matcher, p: Option<Pipeline>, span: Span): Verdict {
    if p.None? || (p.value.conds.None? && !IsMatchAll(p.value)) then No
    else
      var v := if p.value.conds.Some? then EvalAny(re, p.value.conds.value, span) else Yes;
      if v.Yes? && p.value.kind.Probabilistic? && p.value.rate <= 0.0 then No else v
  }

  /** One point of the walk: pipelines already matched are not evaluated again. */
  function MarkPoint(re: Matcher, ps: seq<Option<Pipeline>>, span: Span, matched: seq<bool>): Option<seq<bool>>
    requires |matched| == |ps|
  {
    if exists i :: 0 <= i < |ps| && !matched[i] && PipelineMatches(re, ps[i], span).Panics? then None
    else Some(seq(|ps|, i requires 0 <= i < |ps| => matched[i] || PipelineMatches(re, ps[i], span).Yes?))
  }

  /** The walk stops, without error, at the first point that does not decode. */
  function Walk(re: Matcher, ps: seq<Option<Pipeline>>, points: seq<Raw>, matched: seq<bool>): (r: Option<seq<bool>>)
    requires |matched| == |ps|
    ensures r.Some? ==> |r.value| == |ps|
    decreases points
  {
    if points == [] || points[0].Corrupt? then Some(matched)
    else
      var next := MarkPoint(re, ps, points[0].span, matched);
      if next.None? then None else Walk(re, ps, points[1..], next.value)
  }

  function FirstMatched(ps: seq<Option<Pipeline>>, matched: seq<bool>, groupIdHash: u64): Decision
    requires |matched| == |ps|
  {
    if ps == [] then NoMatch
    else if matched[0] then VerdictOf(groupIdHash, ps[0])
    else FirstMatched(ps[1..], matched[1..], groupIdHash)
  }

  /** A broken frame is reached only when every earlier point decoded. */
  predicate FrameError(parsed: Parsed) {
    !parsed.framed && Corrupt !in parsed.points
  }

  /** The decompressed walk over every span. */
  function WalkDecision(env: Env, td: Packet, ps: seq<Option<Pipeline>>): Decision {
    var payload := Decompress(env, td.payload, td.compression);
    if payload.None? then NoMatch
    else
      var parsed := env.parse(payload.value);
      var matched := Walk(env.re, ps, parsed.points, seq(|ps|, _ => false));
      if matched.None? then Crashed
      else if FrameError(parsed) then NoMatch
      else FirstMatched(ps, matched.value, td.groupIdHash)
  }

  /** payloadHasDecodablePoint. */
  predicate FirstPointDecodes(env: Env, payload: Bytes) {
    env.parse(payload).points != [] && env.parse(payload).points[0].Point?
  }

  /** evaluatePipelines. */
  function EvaluatePipelines(env: Env, td: Packet, ps: seq<Option<Pipeline>>): Decision {
    if ps == [] then NoMatch
    else if td.payload != [] && HasPredicates(td.summary) &&
            td.compression == COMPRESSION_NONE && !FirstPointDecodes(env, td.payload) then NoMatch
    else if td.payload != [] && HasPredicates(td.summary) && CompileAll(ps).Some? then DecideWithPredicates(td, ps)
    else WalkDecision(env, td, ps)
  }

  /** normalizeSamplingPipelines drops probabilistic pipelines without a positive rate. */
  predicate Survives(p: Option<Pipeline>) {
    !(p.Some? && p.value.kind.Probabilistic? && p.value.rate <= 0.0)
  }

  function Normalize(ps: seq<Option<Pipeline>>): (r: seq<Option<Pipeline>>)
    ensures forall p :: p in r <==> p in ps && Survives(p)
  {
    if ps == [] then []
    else if Survives(ps[0]) then [ps[0]] + Normalize(ps[1..])
    else Normalize(ps[1..])
  }

  /** The filtering loop of normalizeSamplingPipelines. */
  method NormalizeLoop(ps: seq<Option<Pipeline>>) returns (normalized: seq<Option<Pipeline>>)
    ensures normalized == Normalize(ps)
  {
    normalized := [];
    for i := 0 to |ps|
      invariant Normalize(ps) == normalized + Normalize(ps[i..])
    {
      assert ps[i..][0] == ps[i] && ps[i..][1..] == ps[i + 1..];
      if Survives(ps[i]) {
        normalized := normalized + [ps[i]];
      }
    }
  }

  /** The inner loop of the walk: one point marks the pipelines it matches. */
  method MarkLoop(re: Matcher, ps: seq<Option<Pipeline>>, span: Span, matched: array<bool>) returns (panics: bool)
    requires matched.Length == |ps|
    modifies matched
    ensures panics == MarkPoint(re, ps, span, old(matched[..])).None?
    ensures !panics ==> MarkPoint(re, ps, span, old(matched[..])) == Some(matched[..])
  {
    ghost var was := matched[..];
    for i := 0 to |ps|
      invariant forall j :: 0 <= j < i ==> matched[j] == (was[j] || PipelineMatches(re, ps[j], span).Yes?)
      invariant forall j :: 0 <= j < i ==> was[j] || !PipelineMatches(re, ps[j], span).Panics?
      invariant forall j :: i <= j < |ps| ==> matched[j] == was[j]
    {
      if !matched[i] {
        var v := PipelineMatches(re, ps[i], span);
        if v.Panics? {
          return true;
        }
        matched[i] := v.Yes?;
      }
    }
    assert MarkPoint(re, ps, span, was).Some?;
    assert MarkPoint(re, ps, span, was).value == matched[..];
    return false;
  }

  /** The walk of evaluatePipelines, with its match array updated point by point. */
  method WalkLoop(env: Env, td: Packet, ps: seq<Option<Pipeline>>) returns (d: Decision)
    ensures d == WalkDecision(env, td, ps)
  {
    var payload := Decompress(env, td.payload, td.compression);
    if payload.None? {
      return NoMatch;
    }
    var parsed := env.parse(payload.value);
    var matched := new bool[|ps|](_ => false);
    ghost var start := seq(|ps|, _ => false);
    assert matched[..] == start;
    var k := 0;
    while k < |parsed.points| && parsed.points[k].Point?
      invariant 0 <= k <= |parsed.points|
      invariant Corrupt !in parsed.points[..k]
      invariant Walk(env.re, ps, parsed.points, start) == Walk(env.re, ps, parsed.points[k..], matched[..])
    {
      assert parsed.points[k..][1..] == parsed.points[k + 1..];
      assert parsed.points[..k + 1] == parsed.points[..k] + [parsed.points[k]];
      var panics := MarkLoop(env.re, ps, parsed.points[k].span, matched);
      if panics {
        return Crashed;
      }
      k := k + 1;
    }
    if k == |parsed.points| {
      assert parsed.points[..k] == parsed.points;
      if !parsed.framed {
        return NoMatch;
      }
    }
    d := NoMatch;
    for i := 0 to |ps|
      invariant FirstMatched(ps, matched[..], td.groupIdHash) == FirstMatched(ps[i..], matched[..][i..], td.groupIdHash)
    {
      if matched[i] {
        return VerdictOf(td.groupIdHash, ps[i]);
      }
      assert ps[i..][1..] == ps[i + 1..] && matched[..][i..][1..] == matched[..][i + 1..];
    }
  }

  // ----- what the walk computes, pipeline by pipeline -----

  /** One pipeline on its own: the first point where it does not answer No. */
  function Scan(re: Matcher, p: Option<Pipeline>, points: seq<Raw>): Verdict {
    if points == [] || points[0].Corrupt? then No
    else match PipelineMatches(re, p, points[0].span) case No => Scan(re, p, points[1..]) case v => v
  }

  function FirstHit(re: Matcher, ps: seq<Option<Pipeline>>, points: seq<Raw>, groupIdHash: u64): Decision {
    if ps == [] then NoMatch
    else if Scan(re, ps[0], points).Yes? then VerdictOf(groupIdHash, ps[0])
    else FirstHit(re, ps[1..], points, groupIdHash)
  }

  /** The joint walk is every pipeline's own scan. */
  lemma {:induction false} WalkIsScans(re: Matcher, ps: seq<Option<Pipeline>>, points: seq<Raw>, matched: seq<bool>)
    requires |matched| == |ps|
    ensures Walk(re, ps, points, matched).None? <==>
            exists i :: 0 <= i < |ps| && !matched[i] && Scan(re, ps[i], points).Panics?
    ensures var r := Walk(re, ps, points, matched);
            r.Some? ==> forall i :: 0 <= i < |ps| ==> r.value[i] == (matched[i] || Scan(re, ps[i], points).Yes?)
    decreases points
  {
    if points != [] && points[0].Point? {
      var next := MarkPoint(re, ps, points[0].span, matched);
      if next.Some? {
        WalkIsScans(re, ps, points[1..], next.value);
      } else {
        var i :| 0 <= i < |ps| && !matched[i] && PipelineMatches(re, ps[i], points[0].span).Panics?;
        assert Scan(re, ps[i], points).Panics?;
      }
    }
  }

  lemma {:induction false} FirstMatchedIsFirstHit(re: Matcher, ps: seq<Option<Pipeline>>, points: seq<Raw>, matched: seq<bool>, g: u64)
    requires |matched| == |ps|
    requires forall i :: 0 <= i < |ps| ==> matched[i] == Scan(re, ps[i], points).Yes?
    ensures FirstMatched(ps, matched, g) == FirstHit(re, ps, points, g)
  {
    if ps != [] {
      FirstMatchedIsFirstHit(re, ps[1..], points, matched[1..], g);
    }
  }

  /** The walk's decision in terms of the scans. */
  lemma WalkDecisionMeaning(env: Env, td: Packet, ps: seq<Option<Pipeline>>)
    requires Decompress(env, td.payload, td.compression).Some?
    ensures var parsed := env.parse(Decompress(env, td.payload, td.compression).value);
            WalkDecision(env, td, ps) ==
            if exists i :: 0 <= i < |ps| && Scan(env.re, ps[i], parsed.points).Panics? then Crashed
            else if FrameError(parsed) then NoMatch
            else FirstHit(env.re, ps, parsed.points, td.groupIdHash)
  {
    var parsed := env.parse(Decompress(env, td.payload, td.compression).value);
    var start := seq(|ps|, _ => false);
    WalkIsScans(env.re, ps, parsed.points, start);
    var r := Walk(env.re, ps, parsed.points, start);
    if r.Some? {
      FirstMatchedIsFirstHit(env.re, ps, parsed.points, r.value, td.groupIdHash);
    }
  }

  lemma {:induction false} ExcludedNeverHits(re: Matcher, p: Option<Pipeline>, points: seq<Raw>)
    requires !Survives(p)
    ensures !Scan(re, p, points).Yes?
  {
    if points != [] && points[0].Point? {
      ExcludedNeverHits(re, p, points[1..]);
    }
  }

  lemma {:induction false} NormalizeKeepsFirstHit(re: Matcher, ps: seq<Option<Pipeline>>, points: seq<Raw>, g: u64)
    ensures FirstHit(re, Normalize(ps), points, g) == FirstHit(re, ps, points, g)
  {
    if ps != [] {
      NormalizeKeepsFirstHit(re, ps[1..], points, g);
      if Survives(ps[0]) {
        assert Normalize(ps)[1..] == Normalize(ps[1..]);
      } else {
        ExcludedNeverHits(re, ps[0], points);
      }
    }
  }

  /** Normalising the pipeline list does not change what the walk decides. */
  lemma NormalizeKeepsWalkDecision(env: Env, td: Packet, ps: seq<Option<Pipeline>>)
    requires WalkDecision(env, td, ps) != Crashed
    ensures WalkDecision(env, td, Normalize(ps)) == WalkDecision(env, td, ps)
  {
    if Decompress(env, td.payload, td.compression).Some? {
      var points := env.parse(Decompress(env, td.payload, td.compression).value).points;
      WalkDecisionMeaning(env, td, ps);
      WalkDecisionMeaning(env, td, Normalize(ps));
      NormalizeKeepsFirstHit(env.re, ps, points, td.groupIdHash);
      forall i | 0 <= i < |Normalize(ps)|
        ensures !Scan(env.re, Normalize(ps)[i], points).Panics?
      {
        assert Normalize(ps)[i] in ps;
      }
    }
  }
}
