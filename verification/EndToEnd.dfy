/**
 The tail sampler as a whole: over every run of honest packets, spilling or not, a group is
 kept or dropped by the first pipeline that matches one of the spans of exactly the packets
 accepted for it.
 */
module EndToEnd {
  import Filter
  import opened Packets
  import opened SpanSummary
  import opened Compiler
  import opened CompilerProofs
  import opened Decisions
  import opened DecisionProofs
  import opened Sampler
  import opened ConservationProofs
  import opened WheelProofs
  import opened SpillProofs
  import opened SpillRuns
  import opened GroupProofs
  import opened Wrappers

  // ----- the spans of packets -----

  /** The spans a payload decodes to, up to the first point that does not. */
  function SpansOf(env: Env, p: Packet): seq<Filter.Span> {
    var raw := Decompress(env, p.payload, p.compression);
    if raw.None? then [] else Decodable(env.parse(raw.value).points)
  }

  function Decodable(points: seq<Packets.Raw>): seq<Filter.Span> {
    if points == [] || points[0].Corrupt? then [] else [points[0].span] + Decodable(points[1..])
  }

  lemma {:induction false} DecodablePoints(spans: seq<Filter.Span>)
    ensures Decodable(Points(spans)) == spans
  {
    if spans != [] {
      assert Points(spans)[1..] == Points(spans[1..]);
      DecodablePoints(spans[1..]);
    }
  }

  /** The packet carries at least one span, each of them decided by its summary, and the summary of them all. */
  ghost predicate Sound(env: Env, p: Packet) {
    SpansOf(env, p) != [] && AllWellTyped(SpansOf(env, p)) && Honest(env, p, SpansOf(env, p))
  }

  ghost predicate SoundOp(env: Env, op: Op) {
    op.Ingest? ==> Sound(env, op.packet)
  }

  /** The spans of a list of packets, in order. */
  function AllSpans(env: Env, ps: seq<Packet>): seq<Filter.Span> {
    if ps == [] then [] else AllSpans(env, ps[..|ps| - 1]) + SpansOf(env, ps[|ps| - 1])
  }

  lemma WellTypedConcat(a: seq<Filter.Span>, b: seq<Filter.Span>)
    requires AllWellTyped(a) && AllWellTyped(b)
    ensures AllWellTyped(a + b)
  {
  }

  /** The merge of sound packets carries the spans of them all, and their summary. */
  lemma {:induction false} MergedSound(env: Env, ps: seq<Packet>)
    requires Lawful(env) && ps != [] && forall p <- ps :: Sound(env, p)
    ensures Merged(env, ps).Some? && Honest(env, Merged(env, ps).value, AllSpans(env, ps))
    ensures AllSpans(env, ps) != [] && AllWellTyped(AllSpans(env, ps))
  {
    var init, last := ps[..|ps| - 1], ps[|ps| - 1];
    assert last in ps && forall p <- init :: p in ps;
    if init == [] {
      assert AllSpans(env, ps) == [] + SpansOf(env, last) == SpansOf(env, last);
    } else {
      MergedSound(env, init);
      MergeHonest(env, Merged(env, init).value, last, AllSpans(env, init), SpansOf(env, last));
      WellTypedConcat(AllSpans(env, init), SpansOf(env, last));
    }
  }

  /** A collected packet is one of the run's. */
  lemma {:induction false} CollectedFrom(env: Env, n: nat, ops: seq<Op>, i: nat, k: Key, p: Packet)
    requires i < n && p in Collected(env, n, ops, i, k)
    ensures exists op <- ops :: op.Ingest? && op.packet == p
  {
    var (init, op) := (ops[..|ops| - 1], ops[|ops| - 1]);
    assert op in ops && forall o <- init :: o in ops;
    if p in Collected(env, n, init, i, k) {
      CollectedFrom(env, n, init, i, k, p);
    }
  }

  lemma CollectedSound(env: Env, n: nat, ops: seq<Op>, i: nat, k: Key)
    requires i < n && forall op <- ops :: SoundOp(env, op)
    ensures forall p <- Collected(env, n, ops, i, k) :: Sound(env, p)
  {
    forall p <- Collected(env, n, ops, i, k)
      ensures Sound(env, p)
    {
      CollectedFrom(env, n, ops, i, k, p);
    }
  }

  // ----- deciding one group -----

  /** Pipelines as configuration loading leaves them; if they all compile, with conditions the summary decides. */
  ghost predicate Decidable(ps: seq<Option<Pipeline>>) {
    Loaded(ps) && (CompileAll(ps).Some? ==> ExactConditions(ps))
  }

  /** No pipeline panics on these points. */
  ghost predicate Quiet(env: Env, ps: seq<Option<Pipeline>>, points: seq<Packets.Raw>) {
    forall i :: 0 <= i < |ps| ==> !Scan(env.re, ps[i], points).Panics?
  }

  /** The pipelines compile, so that they cannot panic, or do not panic on the spans of the packet. */
  ghost predicate QuietOn(env: Env, ps: seq<Option<Pipeline>>, p: Packet) {
    CompileAll(ps).Some? || Quiet(env, ps, Points(SpansOf(env, p)))
  }

  lemma {:induction false} ScanConcat(re: Filter.Matcher, p: Option<Pipeline>, a: seq<Filter.Span>, b: seq<Filter.Span>)
    ensures Scan(re, p, Points(a + b)) == if Scan(re, p, Points(a)).No? then Scan(re, p, Points(b)) else Scan(re, p, Points(a))
  {
    if a == [] {
      assert a + b == b;
    } else {
      assert Points(a + b)[1..] == Points(a[1..] + b) && Points(a)[1..] == Points(a[1..]);
      ScanConcat(re, p, a[1..], b);
    }
  }

  lemma {:induction false} AllQuiet(env: Env, pipelines: seq<Option<Pipeline>>, ps: seq<Packet>)
    requires CompileAll(pipelines).None? && forall p <- ps :: QuietOn(env, pipelines, p)
    ensures Quiet(env, pipelines, Points(AllSpans(env, ps)))
  {
    if ps != [] {
      var init, last := ps[..|ps| - 1], ps[|ps| - 1];
      assert last in ps && forall p <- init :: p in ps;
      AllQuiet(env, pipelines, init);
      forall i | 0 <= i < |pipelines|
        ensures !Scan(env.re, pipelines[i], Points(AllSpans(env, ps))).Panics?
      {
        ScanConcat(env.re, pipelines[i], AllSpans(env, init), SpansOf(env, last));
      }
    }
  }

  lemma HonestFirst(env: Env, td: Packet, spans: seq<Filter.Span>)
    requires Honest(env, td, spans) && spans != [] && td.compression == COMPRESSION_NONE
    ensures FirstPointDecodes(env, td.payload)
  {
    assert Points(spans)[0] == Point(spans[0]);
  }

  lemma WalkFirstHit(env: Env, td: Packet, ps: seq<Option<Pipeline>>, spans: seq<Filter.Span>)
    requires HttpTextsMean4xx5xx(env.re) && Honest(env, td, spans) && AllWellTyped(spans) && spans != [] && Decidable(ps)
    requires CompileAll(ps).None? ==> Quiet(env, ps, Points(spans))
    ensures EvaluatePipelines(env, td, ps) == FirstHit(env.re, ps, Points(spans), td.groupIdHash)
  {
    WalkDecisionMeaning(env, td, ps);
    if CompileAll(ps).Some? {
      EvaluateEqualsWalk(env, td, ps, spans);
      FastEqualsWalk(env, td, ps, spans);
    } else if td.compression == COMPRESSION_NONE {
      HonestFirst(env, td, spans);
    }
  }

  // ----- a group from its packets to its outcome -----

  /** A frozen batch stays as it is until its outcomes are asked for. */
  lemma {:induction false} PendingStays(env: Env, s: State, mid: seq<Op>, b: nat)
    requires WellSized(s) && b in s.pending && b < s.batches
    requires forall op <- mid :: !(op.Outcomes? && op.batch == b)
    ensures var r := Run(env, Off, s, mid); b in r.pending && b < r.batches && r.pending[b] == s.pending[b]
  {
    if mid != [] {
      var (init, op) := (mid[..|mid| - 1], mid[|mid| - 1]);
      assert op in mid && forall o <- init :: o in mid;
      PendingStays(env, s, init, b);
    }
  }

  lemma {:induction false} RunConcat(env: Env, mode: Mode, s: State, a: seq<Op>, b: seq<Op>)
    requires WellSized(s)
    ensures Run(env, mode, s, a + b) == Run(env, mode, Run(env, mode, s, a), b)
    decreases |b|
  {
    if b == [] {
      assert a + b == a;
    } else {
      assert (a + b)[..|a + b| - 1] == a + b[..|b| - 1];
      RunConcat(env, mode, s, a, b[..|b| - 1]);
    }
  }

  /** The group that the tick after pre returns under k, and that is still to be decided after mid. */
  lemma FrozenGroup(env: Env, n: nat, pre: seq<Op>, mid: seq<Op>, k: Key, home: Homes)
    requires forall op :: op in pre ==> RoutesHome(env, n, op, home)
    requires var s := Run(env, Off, Initial(n), pre);
             home(k) < n && k in Frozen(s.shards[home(k)]) && forall op <- mid :: !(op.Outcomes? && op.batch == s.batches)
    ensures var (b, ps) := (Run(env, Off, Initial(n), pre).batches, Collected(env, n, pre, home(k), k));
            var r := Run(env, Off, Initial(n), pre + [Advance] + mid);
            b in r.pending && k in r.pending[b] && ps != [] && Merged(env, ps) == Some(r.pending[b][k].packet)
  {
    var s := Run(env, Off, Initial(n), pre);
    RunConserves(env, Off, n, pre, home);
    FrozenAllMeaning(s.shards, home);
    RunCollects(env, n, pre, home(k), k);
    assert (pre + [Advance])[..|pre|] == pre;
    assert Run(env, Off, Initial(n), pre + [Advance]) == Step(env, Off, s, Advance);
    PendingStays(env, Step(env, Off, s, Advance), mid, s.batches);
    RunConcat(env, Off, Initial(n), pre + [Advance], mid);
  }

  /** What the spans say: the first pipeline of the first packet's section that matches one of them decides. */
  ghost function Expected(env: Env, cfg: Config, ps: seq<Packet>): Decision
    requires ps != []
  {
    FirstHit(env.re, PipelinesFor(cfg, ps[0]), Points(AllSpans(env, ps)), ps[0].groupIdHash)
  }

  /** The group is decided as its spans say, and when it is kept, as the merge of its packets. */
  ghost predicate Decides(env: Env, cfg: Config, ps: seq<Packet>, out: Outcome) {
    && ps != [] && Merged(env, ps).Some?
    && out.decision == Expected(env, cfg, ps)
    && out.Kept() == if Expected(env, cfg, ps).Kept? then Merged(env, ps) else None
  }

  lemma MergedPipelines(env: Env, cfg: Config, ps: seq<Packet>)
    requires ps != [] && Merged(env, ps).Some?
    ensures PipelinesFor(cfg, Merged(env, ps).value) == PipelinesFor(cfg, ps[0]) && Merged(env, ps).value.groupIdHash == ps[0].groupIdHash
  {
    MergedCollects(env, ps);
    SamePipelines(cfg, Merged(env, ps).value, ps[0]);
  }

  lemma SamePipelines(cfg: Config, p: Packet, q: Packet)
    requires p.token == q.token && p.dataType == q.dataType && p.groupKey == q.groupKey
    ensures PipelinesFor(cfg, p) == PipelinesFor(cfg, q)
  {
  }

  lemma DecideExpected(env: Env, cfg: Config, store: Store, g: Group, ps: seq<Packet>)
    requires HttpTextsMean4xx5xx(env.re) && Lawful(env) && ps != [] && (forall p <- ps :: Sound(env, p))
    requires Merged(env, ps) == Some(g.packet) && g.spillKey.None? && Decidable(PipelinesFor(cfg, ps[0]))
    requires forall p <- ps :: QuietOn(env, PipelinesFor(cfg, ps[0]), p)
    ensures Decides(env, cfg, ps, Decide(env, cfg, Off, store, g))
  {
    MergedSound(env, ps);
    MergedPipelines(env, cfg, ps);
    if CompileAll(PipelinesFor(cfg, ps[0])).None? {
      AllQuiet(env, PipelinesFor(cfg, ps[0]), ps);
    }
    WalkFirstHit(env, g.packet, PipelinesFor(cfg, g.packet), AllSpans(env, ps));
  }

  /** What the configuration asks of a run: every packet's pipelines are decidable, and quiet on every packet. */
  ghost predicate Configured(env: Env, cfg: Config, ops: seq<Op>) {
    && (forall op :: op in ops && op.Ingest? ==> Decidable(PipelinesFor(cfg, op.packet)))
    && (forall op, op' :: op in ops && op.Ingest? && op' in ops && op'.Ingest? ==> QuietOn(env, PipelinesFor(cfg, op.packet), op'.packet))
  }

  lemma FirstDecidable(env: Env, cfg: Config, n: nat, ops: seq<Op>, i: nat, k: Key)
    requires i < n && Collected(env, n, ops, i, k) != [] && Configured(env, cfg, ops)
    ensures var ps := Collected(env, n, ops, i, k);
            Decidable(PipelinesFor(cfg, ps[0])) && forall p <- ps :: QuietOn(env, PipelinesFor(cfg, ps[0]), p)
  {
    var ps := Collected(env, n, ops, i, k);
    CollectedFrom(env, n, ops, i, k, ps[0]);
    var op :| op in ops && op.Ingest? && op.packet == ps[0];
    forall p <- ps
      ensures QuietOn(env, PipelinesFor(cfg, ps[0]), p)
    {
      CollectedFrom(env, n, ops, i, k, p);
    }
  }

  lemma {:induction false} OffHasNoFiles(env: Env, n: nat, ops: seq<Op>, at: Place)
    ensures var s := Run(env, Off, Initial(n), ops); Occupied(s, at) ==> GroupAt(s, at).spillKey.None?
  {
    RunPlain(env, On(0), n, ops);
    PlainAt(Run(env, On(0), Initial(n), ops), at);
  }

  /** Without a spiller. */
  lemma PlainOutcome(env: Env, cfg: Config, n: nat, pre: seq<Op>, mid: seq<Op>, k: Key, home: Homes)
    requires HttpTextsMean4xx5xx(env.re) && Lawful(env)
    requires forall op :: op in pre ==> SoundOp(env, op) && RoutesHome(env, n, op, home)
    requires var s := Run(env, Off, Initial(n), pre);
             home(k) < n && k in Frozen(s.shards[home(k)]) && forall op <- mid :: !(op.Outcomes? && op.batch == s.batches)
    requires Configured(env, cfg, pre)
    ensures var (b, ps) := (Run(env, Off, Initial(n), pre).batches, Collected(env, n, pre, home(k), k));
            var out := Results(env, Off, Run(env, Off, Initial(n), pre + [Advance] + mid), Outcomes(cfg, b));
            k in out && Decides(env, cfg, ps, out[k])
  {
    var (b, ps) := (Run(env, Off, Initial(n), pre).batches, Collected(env, n, pre, home(k), k));
    var ops := pre + [Advance] + mid;
    var r := Run(env, Off, Initial(n), ops);
    FrozenGroup(env, n, pre, mid, k, home);
    CollectedSound(env, n, pre, home(k), k);
    FirstDecidable(env, cfg, n, pre, home(k), k);
    OffHasNoFiles(env, n, ops, InBatch(b, k));
    assert Occupied(r, InBatch(b, k)) && GroupAt(r, InBatch(b, k)) == r.pending[b][k];
    DecideExpected(env, cfg, r.store, r.pending[b][k], ps);
  }

  /**
   End to end: packets that carry well-typed spans and their summary arrive in pre, a tick
   returns the group of k, anything happens in mid, and the outcomes of the batch are asked
   for. With a spiller or without, the group is kept exactly when the first pipeline that
   matches one of the spans of the packets accepted for it keeps it, and then as their merge.
   */
  lemma OutcomeFromSpans(env: Env, mode: Mode, cfg: Config, n: nat, pre: seq<Op>, mid: seq<Op>, k: Key, home: Homes)
    requires HttpTextsMean4xx5xx(env.re) && Lawful(env)
    requires forall op :: op in pre + [Advance] + mid ==> SoundOp(env, op) && RoutesHome(env, n, op, home)
    requires var s := Run(env, Off, Initial(n), pre);
             home(k) < n && k in Frozen(s.shards[home(k)]) && forall op <- mid :: !(op.Outcomes? && op.batch == s.batches)
    requires Configured(env, cfg, pre)
    ensures var (b, ps) := (Run(env, Off, Initial(n), pre).batches, Collected(env, n, pre, home(k), k));
            var out := Results(env, mode, Run(env, mode, Initial(n), pre + [Advance] + mid), Outcomes(cfg, b));
            k in out && Decides(env, cfg, ps, out[k])
  {
    var (b, ops) := (Run(env, Off, Initial(n), pre).batches, pre + [Advance] + mid);
    assert forall op :: op in pre ==> op in ops;
    PlainOutcome(env, cfg, n, pre, mid, k, home);
    if mode.On? {
      forall op | op in ops + [Outcomes(cfg, b)]
        ensures GenuineOp(env, op) && RoutesHome(env, n, op, home)
      {
        assert op in ops || op == Outcomes(cfg, b);
      }
      SpillTransparent(env, mode, n, ops, Outcomes(cfg, b), home);
    }
  }
}
