/** Runs of a new sampler in which a spill file leaks and a point counter wraps around. */
module SamplerFailures {
  import opened Boundaries
  import opened Compiler
  import opened Decisions
  import opened Packets
  import opened Sampler
  import opened ConservationProofs
  import opened SpillProofs
  import opened SpillRuns
  import opened SpillFiles
  import opened SpillMemory
  import opened SpanSummary
  import opened WheelProofs
  import opened Wrappers

  /** Two packets of one group, of which the configuration accepts the kind. */
  predicate SameGroup(cfg: Config, p: Packet, q: Packet) {
    && p.token == q.token && p.groupIdHash == q.groupIdHash && p.dataType == q.dataType && p.groupKey == q.groupKey
    && Ttl(cfg, p.dataType, p.token).Some?
  }

  /** What one ingest makes of a new sampler with one shard. */
  lemma AfterFirst(env: Env, mode: Mode, cfg: Config, p: Packet)
    requires Ttl(cfg, p.dataType, p.token).Some?
    ensures var (s, key) := (Step(env, mode, Initial(1), Ingest(cfg, p, true)), KeyOf(env, p));
            && |s.shards| == 1 && ShardOf(p, 1) == 0 && Accepted(env, mode, Initial(1), Ingest(cfg, p, true))
            && key in s.shards[0].active
            && var g := s.shards[0].active[key];
               if mode.On? && |p.payload| > mode.threshold
               then g.packet == p.(payload := []) && g.spillKey == Some(1) && s.store == Store(map[1 := p.payload], 1)
               else g.packet == p && g.spillKey == None
  {
  }

  lemma RunOne(env: Env, mode: Mode, s: State, op: Op)
    requires WellSized(s)
    ensures Run(env, mode, s, [op]) == Step(env, mode, s, op)
  {
    assert [op][..0] == [];
  }

  lemma RunTwo(env: Env, mode: Mode, s: State, op: Op, op': Op)
    requires WellSized(s)
    ensures Run(env, mode, s, [op, op']) == Step(env, mode, Step(env, mode, s, op), op')
  {
    assert [op, op'][..1] == [op];
    RunOne(env, mode, s, op);
  }

  /**
   A new sampler, a spilled packet, and a packet of the same group under a compression that
   is not known: the file of the first is left in the store with nobody referring to it,
   and its bytes are back in memory.
   */
  lemma LeakingRun(env: Env, cfg: Config, threshold: nat, p: Packet, q: Packet)
    requires SameGroup(cfg, p, q) && p.compression == COMPRESSION_NONE && |p.payload| > threshold
    requires q.payload != [] && q.compression == 2
    ensures var r := Run(env, On(threshold), Initial(1), [Ingest(cfg, p, true), Ingest(cfg, q, true)]);
            Orphan(r, 1) && r.store.data[1] == p.payload && !FilesExact(r) && !AllLight(r, threshold)
  {
    var (mode, op, op') := (On(threshold), Ingest(cfg, p, true), Ingest(cfg, q, true));
    var s := Step(env, mode, Initial(1), op);
    AfterFirst(env, mode, cfg, p);
    RunOne(env, mode, Initial(1), op);
    RunTwo(env, mode, Initial(1), op, op');
    RunPlain(env, mode, 1, [op]);
    assert KeyOf(env, q) == KeyOf(env, p);
    assert Leaks(env, s, op');
    LeakMakesOrphan(env, mode, s, op');
    IngestFiles(env, mode, s, op');
    StepLight(env, mode, Initial(1), op);
    StepLight(env, mode, s, op');
  }

  lemma PointsNext(env: Env, mode: Mode, s: State, ops: seq<Op>, op: Op)
    requires WellSized(s)
    ensures AcceptedPoints(env, mode, s, ops + [op]) == AcceptedPoints(env, mode, s, ops) + Brings(env, mode, Run(env, mode, s, ops), op)
    ensures WrappedPoints(env, mode, s, ops + [op]) == WrappedPoints(env, mode, s, ops) + Wrapped(env, mode, Run(env, mode, s, ops), op)
  {
    assert (ops + [op])[..|ops|] == ops;
  }

  lemma PointsOfTwo(env: Env, mode: Mode, s: State, op: Op, op': Op)
    requires WellSized(s)
    ensures AcceptedPoints(env, mode, s, [op, op']) == Brings(env, mode, s, op) + Brings(env, mode, Step(env, mode, s, op), op')
    ensures WrappedPoints(env, mode, s, [op, op']) == Wrapped(env, mode, s, op) + Wrapped(env, mode, Step(env, mode, s, op), op')
  {
    assert [] + [op] == [op] && [op] + [op'] == [op, op'];
    PointsNext(env, mode, s, [], op);
    PointsNext(env, mode, s, [op], op');
    RunOne(env, mode, s, op);
  }

  lemma SecondOverflows(env: Env, cfg: Config, p: Packet, q: Packet)
    requires SameGroup(cfg, p, q) && p.compression == COMPRESSION_NONE && q.compression == COMPRESSION_NONE
    requires !(-TWO_31 <= p.pointCount + q.pointCount < TWO_31)
    ensures var s := Step(env, Off, Initial(1), Ingest(cfg, p, true));
            Accepted(env, Off, s, Ingest(cfg, q, true)) && Overflows(env, Off, s, Ingest(cfg, q, true))
  {
    AfterFirst(env, Off, cfg, p);
    assert KeyOf(env, q) == KeyOf(env, p);
  }

  lemma FirstDoesNot(env: Env, cfg: Config, p: Packet)
    ensures Wrapped(env, Off, Initial(1), Ingest(cfg, p, true)) == 0
  {
  }

  /** A new sampler and two packets of one group whose points together are no int32: the points do not add up. */
  lemma WrappingRun(env: Env, cfg: Config, p: Packet, q: Packet)
    requires SameGroup(cfg, p, q) && p.compression == COMPRESSION_NONE && q.compression == COMPRESSION_NONE
    requires !(-TWO_31 <= p.pointCount + q.pointCount < TWO_31)
    ensures var (s, ops) := (Initial(1), [Ingest(cfg, p, true), Ingest(cfg, q, true)]);
            && AcceptedPoints(env, Off, s, ops) == p.pointCount + q.pointCount
            && SumShards(Run(env, Off, s, ops).shards) + FrozenPoints(env, Off, s, ops) != AcceptedPoints(env, Off, s, ops)
  {
    var (s0, op, op') := (Initial(1), Ingest(cfg, p, true), Ingest(cfg, q, true));
    AfterFirst(env, Off, cfg, p);
    SecondOverflows(env, cfg, p, q);
    FirstDoesNot(env, cfg, p);
    WrappedMeans(env, Off, Step(env, Off, s0, op), op');
    PointsOfTwo(env, Off, s0, op, op');
    RunConserves(env, Off, 1, [op, op'], _ => 0);
  }

  lemma MatchAllKeeps(p: Packet)
    ensures CompileAll([Some(MATCH_ALL)]).Some? && DecideWithPredicates(p, [Some(MATCH_ALL)]).Kept?
  {
    var ps := [Some(MATCH_ALL)];
    assert ps[1..] == [] && CompileAll(ps[1..]) == Some([]);
    assert CompilePipeline(Some(MATCH_ALL)) == Some(Always);
    assert CompileAll(ps) == Some([Always] + []) && [Always] + [] == [Always];
    assert (1.0 * (SAMPLE_RANGE as real)).Floor == SAMPLE_RANGE;
  }

  /** The group of the first packet is returned by the first tick. */
  lemma AfterTick(env: Env, threshold: nat, cfg: Config, p: Packet)
    requires Ttl(cfg, p.dataType, p.token) == Some(1) && |p.payload| > threshold
    ensures var (r, k) := (Run(env, On(threshold), Initial(1), [Ingest(cfg, p, true), Advance]), KeyOf(env, p));
            && 0 in r.pending && k in r.pending[0] && r.store == Store(map[1 := p.payload], 1)
            && r.pending[0][k].spillKey == Some(1) && r.pending[0][k].packet == p.(payload := [])
  {
    var (mode, op, k) := (On(threshold), Ingest(cfg, p, true), KeyOf(env, p));
    var s := Step(env, mode, Initial(1), op);
    AfterFirst(env, mode, cfg, p);
    RunTwo(env, mode, Initial(1), op, Advance);
    RunKeepsConsistent(env, mode, 1, []);
    assert Touches(env, mode, Initial(1), op, 0, k) && Run(env, mode, s, []) == s;
    ReturnedInTheMap(env, mode, Initial(1), op, [], 0, k, _ => 0);
    FrozenAllAt(s.shards, _ => 0, k);
  }

  /**
   A new sampler, a spilled packet whose first point does not decode, one tick and its
   outcomes: the packets kept with the spiller are not those kept without.
   */
  lemma DivergingRun(env: Env, cfg: Config, threshold: nat, p: Packet)
    requires Ttl(cfg, p.dataType, p.token) == Some(1) && PipelinesFor(cfg, p) == [Some(MATCH_ALL)]
    requires p.compression == COMPRESSION_NONE && |p.payload| > threshold && HasPredicates(p.summary) && !FirstPointDecodes(env, p.payload)
    ensures var ops := [Ingest(cfg, p, true), Advance];
            !SameKept(Results(env, On(threshold), Run(env, On(threshold), Initial(1), ops), Outcomes(cfg, 0)),
                      Results(env, Off, Run(env, Off, Initial(1), ops), Outcomes(cfg, 0)))
  {
    var (mode, ops, k) := (On(threshold), [Ingest(cfg, p, true), Advance], KeyOf(env, p));
    var r := Run(env, mode, Initial(1), ops);
    AfterTick(env, threshold, cfg, p);
    RunPlain(env, mode, 1, ops);
    ResultsPlain(env, mode, r, Outcomes(cfg, 0));
    GroupDiverges(env, cfg, p, r.pending[0][k], r.store);
  }

  lemma GroupDiverges(env: Env, cfg: Config, p: Packet, g: Group, store: Store)
    requires PipelinesFor(cfg, p) == [Some(MATCH_ALL)]
    requires p.compression == COMPRESSION_NONE && HasPredicates(p.summary) && !FirstPointDecodes(env, p.payload)
    requires g.packet == p.(payload := []) && g.spillKey == Some(1) && store == Store(map[1 := p.payload], 1)
    ensures Diverges(env, cfg, g, store)
  {
    MatchAllKeeps(g.packet);
    assert PipelinesFor(cfg, g.packet) == PipelinesFor(cfg, p);
  }
}
