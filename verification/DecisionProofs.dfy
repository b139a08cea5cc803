/** The fast decision against the walk. */
module DecisionProofs {
  import opened Filter
  import opened SpanSummary
  import opened Compiler
  import opened CompilerProofs
  import opened DisjunctionProofs
  import opened Packets
  import opened Decisions
  import opened Hashing
  import opened Wrappers

  /** What configuration loading leaves behind: no condition text, no parsed conditions. */
  predicate Applied(p: Option<Pipeline>) {
    p.Some? && (p.value.condition == "" ==> p.value.conds.None?)
  }

  ghost predicate Loaded(ps: seq<Option<Pipeline>>) {
    forall i :: 0 <= i < |ps| ==> Applied(ps[i]) && Survives(ps[i])
  }

  /** Every condition of every pipeline is one the summary decides exactly. */
  ghost predicate ExactConditions(ps: seq<Option<Pipeline>>) {
    forall i :: 0 <= i < |ps| && ps[i].Some? && ps[i].value.conds.Some? ==>
                  forall n :: n in ps[i].value.conds.value ==> Decided(n)
  }

  function Points(spans: seq<Span>): seq<Raw> {
    seq(|spans|, i requires 0 <= i < |spans| => Point(spans[i]))
  }

  ghost predicate SpanMatches(re: Matcher, p: Option<Pipeline>, spans: seq<Span>) {
    AnySpan(spans, span => PipelineMatches(re, p, span).Yes?)
  }

  lemma {:induction false} ScanMeaning(re: Matcher, p: Option<Pipeline>, spans: seq<Span>)
    requires forall i :: 0 <= i < |spans| ==> !PipelineMatches(re, p, spans[i]).Panics?
    ensures Scan(re, p, Points(spans)) == Holds(SpanMatches(re, p, spans))
  {
    var matches := (span: Span) => PipelineMatches(re, p, span).Yes?;
    if spans != [] {
      assert Points(spans)[1..] == Points(spans[1..]);
      ScanMeaning(re, p, spans[1..]);
      assert AnySpan(spans, matches) == (matches(spans[0]) || AnySpan(spans[1..], matches)) by {
        if i :| 0 <= i < |spans| && matches(spans[i]) && i > 0 {
          assert spans[1..][i - 1] == spans[i];
        }
      }
    }
  }

  /** On one span a list of compiled conditions does not panic, and holds when one of them does. */
  lemma {:induction false} AnyMeaning(re: Matcher, conds: seq<Node>, spans: seq<Span>, i: nat)
    requires HttpTextsMean4xx5xx(re) && AllShaped(spans) && i < |spans|
    requires forall n :: n in conds ==> CompileCondition(n).Some?
    ensures EvalAny(re, conds, spans[i]) == Holds(exists n :: n in conds && Eval(re, n, spans[i]).Yes?)
  {
    if conds != [] {
      ConditionSound(re, conds[0], spans, i);
      AnyMeaning(re, conds[1..], spans, i);
      assert forall n :: n in conds <==> n == conds[0] || n in conds[1..];
    }
  }

  lemma PipelineDoesNotPanic(re: Matcher, p: Option<Pipeline>, spans: seq<Span>, i: nat)
    requires HttpTextsMean4xx5xx(re) && AllShaped(spans) && i < |spans|
    requires Applied(p) && CompilePipeline(p).Some?
    ensures !PipelineMatches(re, p, spans[i]).Panics?
  {
    if p.value.conds.Some? {
      CompileConditionsTotal(p.value.conds.value);
      AnyMeaning(re, p.value.conds.value, spans, i);
    }
  }

  lemma PipelineScan(re: Matcher, p: Option<Pipeline>, spans: seq<Span>)
    requires HttpTextsMean4xx5xx(re) && AllShaped(spans)
    requires Applied(p) && CompilePipeline(p).Some?
    ensures Scan(re, p, Points(spans)) == Holds(SpanMatches(re, p, spans))
  {
    forall k | 0 <= k < |spans| ensures !PipelineMatches(re, p, spans[k]).Panics? {
      PipelineDoesNotPanic(re, p, spans, k);
    }
    ScanMeaning(re, p, spans);
  }

  /** If the walk would match a pipeline, the compiled predicate holds of the summary. */
  lemma PipelineSound(re: Matcher, p: Option<Pipeline>, spans: seq<Span>)
    requires HttpTextsMean4xx5xx(re) && AllShaped(spans)
    requires Applied(p) && CompilePipeline(p).Some?
    ensures SpanMatches(re, p, spans) ==> Test(CompilePipeline(p).value, Summarize(spans))
  {
    if SpanMatches(re, p, spans) && p.value.conds.Some? {
      var i :| 0 <= i < |spans| && PipelineMatches(re, p, spans[i]).Yes?;
      var conds := p.value.conds.value;
      CompileConditionsTotal(conds);
      AnyMeaning(re, conds, spans, i);
      var n :| n in conds && Eval(re, n, spans[i]).Yes?;
      var k :| 0 <= k < |conds| && conds[k] == n;
      ConditionSound(re, n, spans, i);
      CompileConditionsAt(conds, k);
      assert Test(CompileConditions(conds).value[k], Summarize(spans));
    }
  }

  lemma PipelineExact(re: Matcher, p: Option<Pipeline>, spans: seq<Span>)
    requires HttpTextsMean4xx5xx(re) && AllWellTyped(spans) && spans != []
    requires Applied(p) && Survives(p) && CompilePipeline(p).Some?
    requires p.value.conds.Some? ==> forall n :: n in p.value.conds.value ==> Decided(n)
    ensures Test(CompilePipeline(p).value, Summarize(spans)) <==> SpanMatches(re, p, spans)
  {
    PipelineSound(re, p, spans);
    if Test(CompilePipeline(p).value, Summarize(spans)) {
      if p.value.conds.None? {
        assert PipelineMatches(re, p, spans[0]).Yes?;
      } else {
        var conds := p.value.conds.value;
        var es := CompileConditions(conds).value;
        var k :| 0 <= k < |es| && Test(es[k], Summarize(spans));
        CompileConditionsTotal(conds);
        CompileConditionsAt(conds, k);
        assert conds[k] in conds && Decided(conds[k]);
        ImpliedDecides(re, conds[k], spans);
        var i :| 0 <= i < |spans| && Eval(re, conds[k], spans[i]).Yes?;
        AnyMeaning(re, conds, spans, i);
        assert PipelineMatches(re, p, spans[i]).Yes?;
      }
    }
  }

  lemma {:induction false} SameFirstHit(re: Matcher, ps: seq<Option<Pipeline>>, es: seq<SummaryExpr>, spans: seq<Span>, g: u64)
    requires |es| == |ps|
    requires forall i :: 0 <= i < |ps| ==> Scan(re, ps[i], Points(spans)).Yes? == Test(es[i], Summarize(spans))
    ensures FirstFast(es, ps, Summarize(spans), g) == FirstHit(re, ps, Points(spans), g)
  {
    if ps != [] {
      SameFirstHit(re, ps[1..], es[1..], spans, g);
    }
  }

  /** A packet whose payload decodes to spans and whose summary is theirs. */
  ghost predicate Honest(env: Env, td: Packet, spans: seq<Span>) {
    && Decompress(env, td.payload, td.compression).Some?
    && env.parse(Decompress(env, td.payload, td.compression).value) == Parsed(Points(spans), true)
    && td.summary == Summarize(spans)
  }

  /**
   Compiler exactness: for pipelines that compile into exact conditions and packets
   of well-typed spans, deciding from the summary is deciding from the spans: the
   same pipeline wins, with the same verdict.
   */
  lemma FastEqualsWalk(env: Env, td: Packet, ps: seq<Option<Pipeline>>, spans: seq<Span>)
    requires HttpTextsMean4xx5xx(env.re) && Honest(env, td, spans)
    requires AllWellTyped(spans) && spans != []
    requires Loaded(ps) && CompileAll(ps).Some? && ExactConditions(ps)
    ensures DecideWithPredicates(td, ps) == WalkDecision(env, td, ps)
    ensures WalkDecision(env, td, ps) != Crashed
  {
    CompileAllLength(ps);
    forall i | 0 <= i < |ps|
      ensures !Scan(env.re, ps[i], Points(spans)).Panics?
      ensures Scan(env.re, ps[i], Points(spans)).Yes? == Test(CompileAll(ps).value[i], Summarize(spans))
    {
      CompileAllAt(ps, i);
      PipelineExact(env.re, ps[i], spans);
      PipelineScan(env.re, ps[i], spans);
    }
    SameFirstHit(env.re, ps, CompileAll(ps).value, spans, td.groupIdHash);
    WalkDecisionMeaning(env, td, ps);
  }

  /** evaluatePipelines as a whole, fast path or not, decides as the walk does. */
  lemma EvaluateEqualsWalk(env: Env, td: Packet, ps: seq<Option<Pipeline>>, spans: seq<Span>)
    requires HttpTextsMean4xx5xx(env.re) && Honest(env, td, spans)
    requires AllWellTyped(spans) && spans != []
    requires Loaded(ps) && ExactConditions(ps)
    ensures EvaluatePipelines(env, td, ps) == WalkDecision(env, td, ps)
  {
    if ps == [] {
      WalkDecisionMeaning(env, td, ps);
    } else if CompileAll(ps).Some? {
      FastEqualsWalk(env, td, ps, spans);
    }
  }

  ghost predicate AllApplied(ps: seq<Option<Pipeline>>) {
    forall i :: 0 <= i < |ps| ==> Applied(ps[i])
  }

  lemma ScanReachesTest(re: Matcher, ps: seq<Option<Pipeline>>, spans: seq<Span>, i: nat)
    requires HttpTextsMean4xx5xx(re) && AllShaped(spans)
    requires AllApplied(ps) && CompileAll(ps).Some? && i < |ps|
    ensures |CompileAll(ps).value| == |ps|
    ensures !Scan(re, ps[i], Points(spans)).Panics?
    ensures Scan(re, ps[i], Points(spans)).Yes? ==> Test(CompileAll(ps).value[i], Summarize(spans))
  {
    CompileAllAt(ps, i);
    PipelineScan(re, ps[i], spans);
    PipelineSound(re, ps[i], spans);
  }

  /**
   Over-approximation, for arbitrary nesting of AND, OR and parentheses: whenever
   the walk finds a match, deciding from the summary finds one too.
   */
  lemma FastNeverMisses(env: Env, td: Packet, ps: seq<Option<Pipeline>>, spans: seq<Span>)
    requires HttpTextsMean4xx5xx(env.re) && Honest(env, td, spans) && AllShaped(spans)
    requires AllApplied(ps) && CompileAll(ps).Some?
    ensures WalkDecision(env, td, ps) != Crashed
    ensures WalkDecision(env, td, ps) != NoMatch ==> DecideWithPredicates(td, ps) != NoMatch
  {
    CompileAllLength(ps);
    forall i | 0 <= i < |ps|
      ensures !Scan(env.re, ps[i], Points(spans)).Panics?
      ensures Scan(env.re, ps[i], Points(spans)).Yes? ==> Test(CompileAll(ps).value[i], Summarize(spans))
    {
      ScanReachesTest(env.re, ps, spans, i);
    }
    WalkDecisionMeaning(env, td, ps);
    assert WalkDecision(env, td, ps) == FirstHit(env.re, ps, Points(spans), td.groupIdHash);
    FirstHitReachesFast(env.re, ps, CompileAll(ps).value, spans, td.groupIdHash);
    FirstHitNotCrashed(env.re, ps, Points(spans), td.groupIdHash);
  }

  lemma FirstHitNotCrashed(re: Matcher, ps: seq<Option<Pipeline>>, points: seq<Raw>, g: u64)
    ensures FirstHit(re, ps, points, g) != Crashed
  {
  }

  lemma {:induction false} FirstHitReachesFast(re: Matcher, ps: seq<Option<Pipeline>>, es: seq<SummaryExpr>, spans: seq<Span>, g: u64)
    requires |es| == |ps|
    requires forall i :: 0 <= i < |ps| && Scan(re, ps[i], Points(spans)).Yes? ==> Test(es[i], Summarize(spans))
    ensures FirstHit(re, ps, Points(spans), g) != NoMatch ==> FirstFast(es, ps, Summarize(spans), g) != NoMatch
  {
    if ps != [] {
      FirstHitReachesFast(re, ps[1..], es[1..], spans, g);
    }
  }
}
