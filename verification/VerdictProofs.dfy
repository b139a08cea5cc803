/** What pipelines decide, said in terms of their kinds, actions and rates. */
module VerdictProofs {
  import Filter
  import opened Packets
  import opened SpanSummary
  import opened Compiler
  import opened CompilerProofs
  import opened Decisions
  import opened DecisionProofs
  import opened Sampler
  import opened ConservationProofs
  import opened GroupProofs
  import opened EndToEnd
  import opened Hashing
  import opened Wrappers

  /** A pipeline with conditions matches a span that meets one of them, and one without matches every span if it is probabilistic; a rate that is not positive matches nothing. */
  lemma MatchMeans(re: Filter.Matcher, p: Pipeline, span: Filter.Span)
    ensures PipelineMatches(re, Some(p), span).Yes? <==>
            && (p.kind.Probabilistic? ==> p.rate > 0.0)
            && (if p.conds.Some? then Filter.EvalAny(re, p.conds.value, span).Yes? else p.kind.Probabilistic? && p.condition == "")
    ensures !PipelineMatches(re, None, span).Yes?
  {
  }

  /** Pipeline i matches one of the spans. */
  ghost predicate Matches(re: Filter.Matcher, ps: seq<Option<Pipeline>>, spans: seq<Filter.Span>, i: nat)
    requires i < |ps|
  {
    exists span <- spans :: PipelineMatches(re, ps[i], span).Yes?
  }

  /** Pipeline i is the first that matches one of the spans. */
  ghost predicate Wins(re: Filter.Matcher, ps: seq<Option<Pipeline>>, spans: seq<Filter.Span>, i: nat) {
    i < |ps| && Matches(re, ps, spans, i) && forall j: nat :: j < i ==> !Matches(re, ps, spans, j)
  }

  ghost predicate NobodyWins(re: Filter.Matcher, ps: seq<Option<Pipeline>>, spans: seq<Filter.Span>) {
    forall i: nat :: i < |ps| ==> !Matches(re, ps, spans, i)
  }

  /** Without a panic, a scan finds exactly what matches. */
  lemma {:induction false} ScanFinds(re: Filter.Matcher, p: Option<Pipeline>, spans: seq<Filter.Span>)
    requires !Scan(re, p, Points(spans)).Panics?
    ensures Scan(re, p, Points(spans)).Yes? <==> exists span <- spans :: PipelineMatches(re, p, span).Yes?
  {
    if spans != [] {
      assert Points(spans)[0] == Point(spans[0]) && Points(spans)[1..] == Points(spans[1..]);
      assert forall span :: span in spans <==> span == spans[0] || span in spans[1..];
      if PipelineMatches(re, p, spans[0]).No? {
        ScanFinds(re, p, spans[1..]);
      }
    }
  }

  /** What a decision by pipeline p means for a group. */
  ghost predicate Carried(d: Decision, p: Pipeline, groupIdHash: u64) {
    && (p.kind.Condition? && p.action.Drop? ==> d == Dropped)
    && (p.kind.Condition? && !p.action.Drop? ==> d == Kept)
    && (p.kind.OtherKind? ==> d == Kept)
    && (p.kind.Probabilistic? ==> d == Kept || d == Dropped)
    && (p.kind.Probabilistic? ==> (d == Kept <==> (groupIdHash % 10000) as real + 1.0 <= p.rate * 10000.0))
  }

  lemma BelowFloor(h: nat, r: real)
    ensures h < r.Floor <==> h as real + 1.0 <= r
  {
  }

  lemma {:induction false} WinnerDecides(re: Filter.Matcher, ps: seq<Option<Pipeline>>, spans: seq<Filter.Span>, g: u64, i: nat)
    requires (forall j: nat :: j < |ps| ==> !Scan(re, ps[j], Points(spans)).Panics?) && Wins(re, ps, spans, i)
    ensures ps[i].Some? && Carried(FirstHit(re, ps, Points(spans), g), ps[i].value, g)
  {
    ScanFinds(re, ps[0], spans);
    assert Scan(re, ps[0], Points(spans)).Yes? <==> Matches(re, ps, spans, 0);
    if i > 0 {
      assert !Matches(re, ps, spans, 0);
      assert forall j: nat :: j < |ps| - 1 ==> ps[1..][j] == ps[j + 1] && (Matches(re, ps[1..], spans, j) <==> Matches(re, ps, spans, j + 1));
      WinnerDecides(re, ps[1..], spans, g, i - 1);
    } else {
      VerdictCarried(ps[0].value, g);
    }
  }

  lemma VerdictCarried(p: Pipeline, g: u64)
    requires p.kind.Probabilistic? ==> p.rate > 0.0
    ensures Carried(Verdicts(g, p), p, g)
  {
    BelowFloor(g % 10000, p.rate * 10000.0);
  }

  lemma {:induction false} NobodyDecides(re: Filter.Matcher, ps: seq<Option<Pipeline>>, spans: seq<Filter.Span>, g: u64)
    requires (forall j: nat :: j < |ps| ==> !Scan(re, ps[j], Points(spans)).Panics?) && NobodyWins(re, ps, spans)
    ensures FirstHit(re, ps, Points(spans), g) == NoMatch
  {
    if ps != [] {
      ScanFinds(re, ps[0], spans);
      assert !Matches(re, ps, spans, 0);
      assert forall j: nat :: j < |ps| - 1 ==> ps[1..][j] == ps[j + 1] && (Matches(re, ps[1..], spans, j) <==> Matches(re, ps, spans, j + 1));
      NobodyDecides(re, ps[1..], spans, g);
    }
  }

  // ----- at the outcome -----

  /** The walk of the pipelines over the spans does not panic. */
  lemma NoPanic(env: Env, ps: seq<Option<Pipeline>>, spans: seq<Filter.Span>)
    requires HttpTextsMean4xx5xx(env.re) && AllWellTyped(spans) && Decidable(ps) && (CompileAll(ps).None? ==> Quiet(env, ps, Points(spans)))
    ensures forall j: nat :: j < |ps| ==> !Scan(env.re, ps[j], Points(spans)).Panics?
  {
    if CompileAll(ps).Some? {
      forall j: nat | j < |ps|
        ensures !Scan(env.re, ps[j], Points(spans)).Panics?
      {
        ScanReachesTest(env.re, ps, spans, j);
      }
    }
  }

  /** The conditions of OutcomeFromSpans on a run that collects, freezes and decides the group of k. */
  ghost predicate Collects(env: Env, cfg: Config, n: nat, pre: seq<Op>, mid: seq<Op>, k: Key, home: Homes) {
    && HttpTextsMean4xx5xx(env.re) && Lawful(env)
    && (forall op :: op in pre + [Advance] + mid ==> SoundOp(env, op) && RoutesHome(env, n, op, home))
    && Configured(env, cfg, pre)
    && var s := Run(env, Off, Initial(n), pre);
       home(k) < n && k in Frozen(s.shards[home(k)]) && forall op <- mid :: !(op.Outcomes? && op.batch == s.batches)
  }

  /** The outcome of the group of k in that run, once it is asked for. */
  ghost function OutcomeOf(env: Env, mode: Mode, cfg: Config, n: nat, pre: seq<Op>, mid: seq<Op>, k: Key, home: Homes): (out: Outcome)
    requires Collects(env, cfg, n, pre, mid, k, home)
    ensures Decides(env, cfg, Collected(env, n, pre, home(k), k), out)
  {
    OutcomeFromSpans(env, mode, cfg, n, pre, mid, k, home);
    Results(env, mode, Run(env, mode, Initial(n), pre + [Advance] + mid), Outcomes(cfg, Run(env, Off, Initial(n), pre).batches))[k]
  }

  lemma CollectedNoPanic(env: Env, cfg: Config, n: nat, pre: seq<Op>, mid: seq<Op>, k: Key, home: Homes)
    requires Collects(env, cfg, n, pre, mid, k, home)
    ensures var ps := Collected(env, n, pre, home(k), k);
            ps != [] && forall j: nat :: j < |PipelinesFor(cfg, ps[0])| ==> !Scan(env.re, PipelinesFor(cfg, ps[0])[j], Points(AllSpans(env, ps))).Panics?
  {
    var ps := Collected(env, n, pre, home(k), k);
    OutcomeFromSpans(env, Off, cfg, n, pre, mid, k, home);
    assert forall op :: op in pre ==> op in pre + [Advance] + mid;
    CollectedSound(env, n, pre, home(k), k);
    FirstDecidable(env, cfg, n, pre, home(k), k);
    MergedSound(env, ps);
    if CompileAll(PipelinesFor(cfg, ps[0])).None? {
      AllQuiet(env, PipelinesFor(cfg, ps[0]), ps);
    }
    NoPanic(env, PipelinesFor(cfg, ps[0]), AllSpans(env, ps));
  }

  /**
   End to end, by kind of pipeline: the first pipeline of the group's section that matches a
   span of one of its packets decides. A condition keeps the group unless its action is to
   drop, a rate keeps it by the residue of its hash, and without a match nothing is kept.
   */
  lemma OutcomeByWinner(env: Env, mode: Mode, cfg: Config, n: nat, pre: seq<Op>, mid: seq<Op>, k: Key, home: Homes)
    requires Collects(env, cfg, n, pre, mid, k, home)
    ensures Collected(env, n, pre, home(k), k) != []
    ensures var ps := Collected(env, n, pre, home(k), k);
            var (pipelines, spans, out) := (PipelinesFor(cfg, ps[0]), AllSpans(env, ps), OutcomeOf(env, mode, cfg, n, pre, mid, k, home));
            && (forall i: nat :: Wins(env.re, pipelines, spans, i) ==> pipelines[i].Some? && Carried(out.decision, pipelines[i].value, ps[0].groupIdHash))
            && (NobodyWins(env.re, pipelines, spans) ==> out.decision == NoMatch)
            && out.Kept() == if out.decision == Kept then Merged(env, ps) else None
  {
    CollectedNoPanic(env, cfg, n, pre, mid, k, home);
    var ps := Collected(env, n, pre, home(k), k);
    var (pipelines, spans) := (PipelinesFor(cfg, ps[0]), AllSpans(env, ps));
    forall i: nat | Wins(env.re, pipelines, spans, i)
      ensures pipelines[i].Some? && Carried(Expected(env, cfg, ps), pipelines[i].value, ps[0].groupIdHash)
    {
      WinnerDecides(env.re, pipelines, spans, ps[0].groupIdHash, i);
    }
    if NobodyWins(env.re, pipelines, spans) {
      NobodyDecides(env.re, pipelines, spans, ps[0].groupIdHash);
    }
  }

  lemma {:induction false} SomebodyWins(re: Filter.Matcher, ps: seq<Option<Pipeline>>, spans: seq<Filter.Span>, i: nat) returns (w: nat)
    requires i < |ps| && Matches(re, ps, spans, i)
    ensures Wins(re, ps, spans, w)
    decreases i
  {
    if j: nat :| j < i && Matches(re, ps, spans, j) {
      w := SomebodyWins(re, ps, spans, j);
    } else {
      w := i;
    }
  }

  /** Pipelines that are all conditions, none of them dropping: the group is kept if and only if one of them matches a span, and it is never dropped. */
  lemma KeepersKeepMatches(env: Env, mode: Mode, cfg: Config, n: nat, pre: seq<Op>, mid: seq<Op>, k: Key, home: Homes)
    requires Collects(env, cfg, n, pre, mid, k, home)
    requires forall p <- Collected(env, n, pre, home(k), k), q <- PipelinesFor(cfg, p) :: q.Some? ==> q.value.kind.Condition? && !q.value.action.Drop?
    ensures Collected(env, n, pre, home(k), k) != []
    ensures var ps := Collected(env, n, pre, home(k), k);
            var (pipelines, out) := (PipelinesFor(cfg, ps[0]), OutcomeOf(env, mode, cfg, n, pre, mid, k, home));
            && (out.Kept().Some? <==> exists i: nat :: i < |pipelines| && Matches(env.re, pipelines, AllSpans(env, ps), i))
            && out.decision != Dropped
  {
    OutcomeByWinner(env, mode, cfg, n, pre, mid, k, home);
    var ps := Collected(env, n, pre, home(k), k);
    var (pipelines, spans) := (PipelinesFor(cfg, ps[0]), AllSpans(env, ps));
    assert ps[0] in ps;
    if i: nat :| i < |pipelines| && Matches(env.re, pipelines, spans, i) {
      var w := SomebodyWins(env.re, pipelines, spans, i);
      assert pipelines[w] in pipelines;
    }
  }

  // ----- payloads that do not decode to the end -----

  /** A scan stops at the first point that does not decode: what lies behind it does not count. */
  lemma {:induction false} ScanStops(re: Filter.Matcher, p: Option<Pipeline>, spans: seq<Filter.Span>, rest: seq<Packets.Raw>)
    ensures Scan(re, p, Points(spans) + [Corrupt] + rest) == Scan(re, p, Points(spans))
  {
    var points := Points(spans) + [Corrupt] + rest;
    if spans == [] {
      assert points[0] == Corrupt;
    } else {
      assert points[0] == Point(spans[0]) && points[1..] == Points(spans[1..]) + [Corrupt] + rest;
      assert Points(spans)[0] == Point(spans[0]) && Points(spans)[1..] == Points(spans[1..]);
      ScanStops(re, p, spans[1..], rest);
    }
  }

  lemma {:induction false} HitsSame(re: Filter.Matcher, ps: seq<Option<Pipeline>>, a: seq<Packets.Raw>, b: seq<Packets.Raw>, g: u64)
    requires forall i :: 0 <= i < |ps| ==> Scan(re, ps[i], a) == Scan(re, ps[i], b)
    ensures FirstHit(re, ps, a, g) == FirstHit(re, ps, b, g)
  {
    if ps != [] {
      HitsSame(re, ps[1..], a, b, g);
    }
  }

  /** So the walk of such a payload decides by the points in front, and the walk of an empty one, or of one that does not decompress, decides nothing. */
  lemma BrokenPayload(env: Env, td: Packet, ps: seq<Option<Pipeline>>, spans: seq<Filter.Span>, rest: seq<Packets.Raw>, framed: bool)
    requires Decompress(env, td.payload, td.compression).Some?
    requires env.parse(Decompress(env, td.payload, td.compression).value) == Parsed(Points(spans) + [Corrupt] + rest, framed)
    requires forall i :: 0 <= i < |ps| ==> !Scan(env.re, ps[i], Points(spans)).Panics?
    ensures WalkDecision(env, td, ps) == FirstHit(env.re, ps, Points(spans), td.groupIdHash)
  {
    var points := Points(spans) + [Corrupt] + rest;
    WalkDecisionMeaning(env, td, ps);
    forall i | 0 <= i < |ps|
      ensures Scan(env.re, ps[i], points) == Scan(env.re, ps[i], Points(spans))
    {
      ScanStops(env.re, ps[i], spans, rest);
    }
    HitsSame(env.re, ps, points, Points(spans), td.groupIdHash);
    assert points[|spans|] == Corrupt;
  }

  /** Nothing is decided without a payload, or with one that does not decompress and no summary to go by. */
  lemma NothingToDecide(env: Env, td: Packet, ps: seq<Option<Pipeline>>)
    requires Lawful(env)
    ensures td.payload == [] ==> EvaluatePipelines(env, td, ps) == NoMatch
    ensures Decompress(env, td.payload, td.compression).None? && (HasPredicates(td.summary) ==> CompileAll(ps).None?) ==>
              EvaluatePipelines(env, td, ps) == NoMatch
  {
    if td.payload == [] {
      WalkDecisionMeaning(env, td, ps);
      NoPoints(env.re, ps, td.groupIdHash);
    }
  }

  lemma {:induction false} NoPoints(re: Filter.Matcher, ps: seq<Option<Pipeline>>, g: u64)
    ensures FirstHit(re, ps, [], g) == NoMatch
  {
    if ps != [] {
      NoPoints(re, ps[1..], g);
    }
  }

  // ----- dropping pipelines never keep, whatever the packet, its summary or the store -----

  /** All pipelines are conditions that drop. */
  predicate AllDrop(ps: seq<Option<Pipeline>>) {
    forall i :: 0 <= i < |ps| && ps[i].Some? ==> ps[i].value.kind.Condition? && ps[i].value.action.Drop?
  }

  lemma {:induction false} FastNeverKeeps(es: seq<SummaryExpr>, ps: seq<Option<Pipeline>>, s: Summary, g: u64)
    requires |es| == |ps| && AllDrop(ps)
    ensures FirstFast(es, ps, s, g) != Kept
  {
    if es != [] {
      FastNeverKeeps(es[1..], ps[1..], s, g);
    }
  }

  lemma {:induction false} WalkNeverKeeps(ps: seq<Option<Pipeline>>, matched: seq<bool>, g: u64)
    requires |matched| == |ps| && AllDrop(ps)
    ensures FirstMatched(ps, matched, g) != Kept
  {
    if ps != [] {
      WalkNeverKeeps(ps[1..], matched[1..], g);
    }
  }

  lemma DroppersEvaluate(env: Env, td: Packet, ps: seq<Option<Pipeline>>)
    requires AllDrop(ps)
    ensures DecideWithPredicates(td, ps) != Kept && EvaluatePipelines(env, td, ps) != Kept
  {
    if CompileAll(ps).Some? {
      CompileAllLength(ps);
      FastNeverKeeps(CompileAll(ps).value, ps, td.summary, td.groupIdHash);
    }
    var payload := Decompress(env, td.payload, td.compression);
    if payload.Some? {
      var matched := Walk(env.re, ps, env.parse(payload.value).points, seq(|ps|, _ => false));
      if matched.Some? {
        WalkNeverKeeps(ps, matched.value, td.groupIdHash);
      }
    }
  }

  /** No outcome of such a section keeps anything, in any state and for any packet, spilled or not. */
  lemma DroppersNeverKeep(env: Env, mode: Mode, s: State, cfg: Config, b: nat, k: Key)
    requires k in Results(env, mode, s, Outcomes(cfg, b)) && AllDrop(PipelinesFor(cfg, s.pending[b][k].packet))
    ensures Results(env, mode, s, Outcomes(cfg, b))[k].Kept() == None
  {
    var g := s.pending[b][k];
    DroppersEvaluate(env, g.packet, PipelinesFor(cfg, g.packet));
    DroppersEvaluate(env, HydratedOrSame(mode, s.store, g).packet, PipelinesFor(cfg, g.packet));
  }
}
