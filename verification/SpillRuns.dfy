/** Spill transparency, the spill files and the summaries, over whole runs. */
module SpillRuns {
  import Filter
  import opened Packets
  import opened Sampler
  import opened Decisions
  import opened DecisionProofs
  import opened SpanSummary
  import opened Compiler
  import opened WheelProofs
  import opened ConservationProofs
  import opened SpillProofs
  import opened Hashing
  import opened Wrappers

  // ----- the files in the store -----

  ghost predicate InUse(s: State, file: nat) {
    exists at :: Occupied(s, at) && GroupAt(s, at).spillKey == Some(file)
  }

  /** The stored files are exactly those of the groups not yet decided. */
  ghost predicate FilesExact(s: State) {
    forall file :: file in s.store.data <==> InUse(s, file)
  }

  /** A merge that fails after the old group was read back: its file is never removed. */
  predicate Leaks(env: Env, s: State, op: Op)
    requires WellSized(s)
  {
    op.Ingest? && |s.shards| > 0 && Ttl(op.cfg, op.packet.dataType, op.packet.token).Some? &&
    var (shard, key) := (s.shards[ShardOf(op.packet, |s.shards|)], KeyOf(env, op.packet));
    key in shard.active && shard.active[key].spillKey.Some? &&
    MergePackets(env, Plain(shard.active[key], s.store).packet, op.packet).None?
  }

  /** The files after an ingest: the old group's file is replaced by the new one, unless the merge fails. */
  lemma IngestFiles(env: Env, mode: Mode, s: State, op: Op)
    requires WellSized(s) && SpillOk(s, mode) && op.Ingest? && |s.shards| > 0
    ensures var s' := Step(env, mode, s, op);
            var at := InShard(ShardOf(op.packet, |s.shards|), KeyOf(env, op.packet));
            var before := if Occupied(s, at) then GroupAt(s, at).spillKey else None;
            var after := if Occupied(s', at) then GroupAt(s', at).spillKey else None;
            if Leaks(env, s, op) then s'.store == s.store && after == None && before.Some?
            else forall f :: f in s'.store.data <==> Some(f) == after || (f in s.store.data && Some(f) != before)
  {
    var (i, key) := (ShardOf(op.packet, |s.shards|), KeyOf(env, op.packet));
    var at := InShard(i, key);
    if Occupied(s, at) {
      assert Backed(GroupAt(s, at), s.store, mode.threshold);
      HydrateIsPlain(mode, s.store, GroupAt(s, at));
    }
  }

  lemma IngestKeepsFilesExact(env: Env, mode: Mode, s: State, op: Op)
    requires WellSized(s) && SpillOk(s, mode) && FilesExact(s) && op.Ingest? && |s.shards| > 0
    ensures FilesExact(Step(env, mode, s, op)) <==> !Leaks(env, s, op)
  {
    var s' := Step(env, mode, s, op);
    var own := InShard(ShardOf(op.packet, |s.shards|), KeyOf(env, op.packet));
    IngestFiles(env, mode, s, op);
    if Leaks(env, s, op) {
      var f := GroupAt(s, own).spillKey.value;
      assert InUse(s, f);
      forall at | Occupied(s', at) ensures GroupAt(s', at).spillKey != Some(f) {
        if at != own {
          IngestOthers(env, mode, s, op, at);
          assert !SameFile(GroupAt(s, own), GroupAt(s, at));
        }
      }
      assert f in s'.store.data && !InUse(s', f);
    } else {
      forall f ensures f in s'.store.data <==> InUse(s', f) {
        if f in s'.store.data && !(Occupied(s', own) && GroupAt(s', own).spillKey == Some(f)) {
          var at :| Occupied(s, at) && GroupAt(s, at).spillKey == Some(f);
          IngestOthers(env, mode, s, op, at);
          assert Occupied(s', at) && GroupAt(s', at).spillKey == Some(f);
        }
        if InUse(s', f) {
          var at :| Occupied(s', at) && GroupAt(s', at).spillKey == Some(f);
          if at != own {
            IngestOthers(env, mode, s, op, at);
            assert InUse(s, f);
            assert Occupied(s, own) ==> !SameFile(GroupAt(s, at), GroupAt(s, own));
          }
        }
      }
    }
  }

  /** Where a group is after the tick. */
  lemma AdvanceDestination(env: Env, mode: Mode, s: State, at: Place, home: Homes) returns (to: Place)
    requires WellSized(s) && BatchesNumbered(s) && Homed(s.shards, home) && Occupied(s, at)
    ensures Occupied(Step(env, mode, s, Advance), to) && GroupAt(Step(env, mode, s, Advance), to) == GroupAt(s, at)
  {
    to := at;
    if at.InShard? && at.k in KeysIn(Due(s.shards[at.i])) {
      FrozenAllMeaning(s.shards, home);
      assert home(at.k) == at.i && at.k in Frozen(s.shards[at.i]);
      to := InBatch(s.batches, at.k);
    }
  }

  lemma AdvanceKeepsFilesExact(env: Env, mode: Mode, s: State, home: Homes)
    requires WellSized(s) && SpillOk(s, mode) && FilesExact(s) && Homed(s.shards, home)
    ensures FilesExact(Step(env, mode, s, Advance))
  {
    var s' := Step(env, mode, s, Advance);
    forall f: nat ensures InUse(s, f) <==> InUse(s', f) {
      if InUse(s, f) {
        var at :| Occupied(s, at) && GroupAt(s, at).spillKey == Some(f);
        var to := AdvanceDestination(env, mode, s, at, home);
      }
      if InUse(s', f) {
        var at :| Occupied(s', at) && GroupAt(s', at).spillKey == Some(f);
        var from := AdvanceOrigin(env, mode, s, at);
      }
    }
  }

  lemma OutcomesKeepsFilesExact(env: Env, mode: Mode, s: State, op: Op)
    requires WellSized(s) && SpillOk(s, mode) && FilesExact(s) && op.Outcomes? && op.batch in s.pending
    ensures FilesExact(Step(env, mode, s, op))
  {
    var s' := Step(env, mode, s, op);
    var batch := s.pending[op.batch];
    forall f ensures f in s'.store.data <==> InUse(s', f) {
      if f in s'.store.data {
        var at :| Occupied(s, at) && GroupAt(s, at).spillKey == Some(f);
        OutcomesOthers(env, mode, s, op, at);
        assert at.InBatch? && at.b == op.batch ==> f in SpillKeys(batch);
      }
      if InUse(s', f) {
        var at :| Occupied(s', at) && GroupAt(s', at).spillKey == Some(f);
        OutcomesOthers(env, mode, s, op, at);
        assert f in s'.store.data;
      }
    }
  }

  /** A step keeps the store exact if and only if it is not a failing merge into a spilled group. */
  lemma StepFilesExact(env: Env, mode: Mode, s: State, op: Op, home: Homes)
    requires WellSized(s) && SpillOk(s, mode) && FilesExact(s) && Homed(s.shards, home)
    ensures FilesExact(Step(env, mode, s, op)) <==> !Leaks(env, s, op)
  {
    match op
    case Ingest(_, _, _) => if |s.shards| > 0 { IngestKeepsFilesExact(env, mode, s, op); }
    case Advance => AdvanceKeepsFilesExact(env, mode, s, home);
    case Outcomes(_, b) => if b in s.pending { OutcomesKeepsFilesExact(env, mode, s, op); }
  }

  // ----- runs -----

  /** Over every run the spilling sampler, read through its store, is in the state of the plain sampler. */
  lemma {:induction false} RunPlain(env: Env, mode: Mode, shardCount: nat, ops: seq<Op>)
    requires mode.On?
    ensures SpillOk(Run(env, mode, Initial(shardCount), ops), mode)
    ensures PlainState(Run(env, mode, Initial(shardCount), ops)) == Run(env, Off, Initial(shardCount), ops)
  {
    var s := Initial(shardCount);
    if ops == [] {
      assert PlainShards(s.shards, s.store) == s.shards;
    } else {
      RunPlain(env, mode, shardCount, ops[..|ops| - 1]);
      StepPlain(env, mode, Run(env, mode, s, ops[..|ops| - 1]), ops[|ops| - 1]);
    }
  }

  ghost predicate NoDivergence(env: Env, s: State, op: Op) {
    op.Outcomes? && op.batch in s.pending ==>
      forall k :: k in s.pending[op.batch] ==> !Diverges(env, op.cfg, s.pending[op.batch][k], s.store)
  }

  /** Every key gets the same kept packet, or is dropped, in both. */
  ghost predicate SameKept(r: map<Key, Outcome>, o: map<Key, Outcome>) {
    r.Keys == o.Keys && forall k :: k in r ==> r[k].Kept() == o[k].Kept()
  }

  /** The outcomes of any operation, with and without spilling, agree exactly when no decided group diverges. */
  lemma ResultsPlain(env: Env, mode: Mode, s: State, op: Op)
    requires WellSized(s) && SpillOk(s, mode)
    ensures SameKept(Results(env, mode, s, op), Results(env, Off, PlainState(s), op)) <==> NoDivergence(env, s, op)
  {
    var (r, o) := (Results(env, mode, s, op), Results(env, Off, PlainState(s), op));
    assert r.Keys == o.Keys;
    forall k | k in r
      ensures r[k].Kept() == o[k].Kept() <==> !Diverges(env, op.cfg, s.pending[op.batch][k], s.store)
    {
      assert Occupied(s, InBatch(op.batch, k)) && GroupAt(s, InBatch(op.batch, k)) == s.pending[op.batch][k];
      DecidePlain(env, op.cfg, mode, s.store, s.pending[op.batch][k]);
    }
  }

  /** Every key gets the same decision, panics and drops told apart, in both. */
  ghost predicate SameDecisions(r: map<Key, Outcome>, o: map<Key, Outcome>) {
    r.Keys == o.Keys && forall k :: k in r ==> r[k].decision == o[k].decision
  }

  ghost predicate NoneMisjudged(env: Env, s: State, op: Op) {
    op.Outcomes? && op.batch in s.pending ==>
      forall k :: k in s.pending[op.batch] ==> !Misjudged(env, op.cfg, s.pending[op.batch][k], s.store)
  }

  /** The decisions agree exactly when no decided group is misjudged. */
  lemma DecisionsPlain(env: Env, mode: Mode, s: State, op: Op)
    requires WellSized(s) && SpillOk(s, mode)
    ensures SameDecisions(Results(env, mode, s, op), Results(env, Off, PlainState(s), op)) <==> NoneMisjudged(env, s, op)
  {
    var (r, o) := (Results(env, mode, s, op), Results(env, Off, PlainState(s), op));
    assert r.Keys == o.Keys;
    forall k | k in r
      ensures r[k].decision == o[k].decision <==> !Misjudged(env, op.cfg, s.pending[op.batch][k], s.store)
    {
      assert Occupied(s, InBatch(op.batch, k)) && GroupAt(s, InBatch(op.batch, k)) == s.pending[op.batch][k];
      DecidePlain(env, op.cfg, mode, s.store, s.pending[op.batch][k]);
    }
  }

  // ----- honest packets -----

  /** The payload decodes to at least one span and the summary is computed from the spans. */
  ghost predicate Genuine(env: Env, p: Packet) {
    exists spans :: spans != [] && Honest(env, p, spans)
  }

  lemma PointsConcat(a: seq<Filter.Span>, b: seq<Filter.Span>)
    ensures Points(a + b) == Points(a) + Points(b)
  {
  }

  /** Merging honest packets succeeds, and the merged summary is that of the merged payload. */
  lemma MergeHonest(env: Env, dst: Packet, src: Packet, a: seq<Filter.Span>, b: seq<Filter.Span>)
    requires Lawful(env) && Honest(env, dst, a) && Honest(env, src, b)
    ensures MergePackets(env, dst, src).Some?
    ensures Honest(env, MergePackets(env, dst, src).value, a + b)
  {
    var (d, s) := (Decompress(env, dst.payload, dst.compression).value, Decompress(env, src.payload, src.compression).value);
    assert env.parse(d + s) == Parsed(env.parse(d).points + env.parse(s).points, true);
    CompressThenDecompress(env, d + s);
    PointsConcat(a, b);
    SummarizeConcat(a, b);
  }

  lemma MergeGenuine(env: Env, dst: Packet, src: Packet)
    requires Lawful(env) && Genuine(env, dst) && Genuine(env, src)
    ensures MergePackets(env, dst, src).Some? && Genuine(env, MergePackets(env, dst, src).value)
  {
    var a :| a != [] && Honest(env, dst, a);
    var b :| b != [] && Honest(env, src, b);
    MergeHonest(env, dst, src, a, b);
    assert a + b != [];
  }

  ghost predicate AllGenuine(env: Env, s: State) {
    forall at :: Occupied(s, at) ==> Genuine(env, GroupAt(s, at).packet)
  }

  ghost predicate GenuineOp(env: Env, op: Op) {
    op.Ingest? ==> Genuine(env, op.packet)
  }

  lemma IngestGenuine(env: Env, s: State, op: Op)
    requires Lawful(env) && WellSized(s) && AllGenuine(env, s) && op.Ingest? && |s.shards| > 0 && Genuine(env, op.packet)
    ensures AllGenuine(env, Step(env, Off, s, op))
  {
    var (i, key) := (ShardOf(op.packet, |s.shards|), KeyOf(env, op.packet));
    var s' := Step(env, Off, s, op);
    IngestKeepsOtherKeys(env, op.cfg, Off, s.shards[i], s.store, op.packet, op.putOk);
    forall at | Occupied(s', at) ensures Genuine(env, GroupAt(s', at).packet) {
      if at == InShard(i, key) {
        if Occupied(s, at) {
          MergeGenuine(env, GroupAt(s, at).packet, op.packet);
        }
      } else {
        assert Occupied(s, at) && GroupAt(s', at) == GroupAt(s, at);
      }
    }
  }

  lemma StepGenuine(env: Env, s: State, op: Op)
    requires Lawful(env) && WellSized(s) && BatchesNumbered(s) && AllGenuine(env, s) && GenuineOp(env, op)
    ensures AllGenuine(env, Step(env, Off, s, op)) && BatchesNumbered(Step(env, Off, s, op))
  {
    var s' := Step(env, Off, s, op);
    if op.Ingest? && |s.shards| > 0 {
      IngestGenuine(env, s, op);
    } else {
      forall at | Occupied(s', at) ensures Genuine(env, GroupAt(s', at).packet) {
        if op.Advance? {
          var from := AdvanceOrigin(env, Off, s, at);
        } else {
          assert Occupied(s, at) && GroupAt(s', at) == GroupAt(s, at);
        }
      }
    }
  }

  /**
   Summary homomorphism over runs: if every packet arrives with its own summary, every
   group always carries the summary of its whole merged payload.
   */
  lemma {:induction false} RunGenuine(env: Env, shardCount: nat, ops: seq<Op>)
    requires Lawful(env) && forall op :: op in ops ==> GenuineOp(env, op)
    ensures AllGenuine(env, Run(env, Off, Initial(shardCount), ops))
    ensures BatchesNumbered(Run(env, Off, Initial(shardCount), ops))
  {
    if ops != [] {
      assert ops[|ops| - 1] in ops && forall o :: o in ops[..|ops| - 1] ==> o in ops;
      RunGenuine(env, shardCount, ops[..|ops| - 1]);
      StepGenuine(env, Run(env, Off, Initial(shardCount), ops[..|ops| - 1]), ops[|ops| - 1]);
    }
  }

  /** Honest groups neither diverge nor leak. */
  lemma GenuineIsTame(env: Env, mode: Mode, s: State, op: Op)
    requires Lawful(env) && WellSized(s) && SpillOk(s, mode) && AllGenuine(env, PlainState(s)) && GenuineOp(env, op)
    ensures NoDivergence(env, s, op) && NoneMisjudged(env, s, op) && !Leaks(env, s, op)
  {
    if op.Outcomes? && op.batch in s.pending {
      forall k | k in s.pending[op.batch] ensures !Undecodable(env, op.cfg, s.pending[op.batch][k], s.store) {
        PlainAt(s, InBatch(op.batch, k));
        var g := GroupAt(PlainState(s), InBatch(op.batch, k));
        var spans :| spans != [] && Honest(env, g.packet, spans);
        assert Points(spans)[0] == Point(spans[0]);
      }
    } else if op.Ingest? && |s.shards| > 0 {
      var at := InShard(ShardOf(op.packet, |s.shards|), KeyOf(env, op.packet));
      PlainAt(s, at);
      if Occupied(s, at) {
        MergeGenuine(env, GroupAt(PlainState(s), at).packet, op.packet);
      }
    }
  }

  /**
   Spill transparency: in every run of honest packets whose keys do not collide across
   shards, each operation returns the same decisions and the same kept packets as the
   sampler without a spiller, and the stored files are exactly those of the undecided groups.
   */
  lemma {:induction false} SpillTransparent(env: Env, mode: Mode, shardCount: nat, ops: seq<Op>, next: Op, home: Homes)
    requires mode.On? && Lawful(env)
    requires forall op :: op in ops + [next] ==> GenuineOp(env, op) && RoutesHome(env, shardCount, op, home)
    ensures var (s, o) := (Run(env, mode, Initial(shardCount), ops), Run(env, Off, Initial(shardCount), ops));
            var (r, p) := (Results(env, mode, s, next), Results(env, Off, o, next));
            SameKept(r, p) && SameDecisions(r, p) && FilesExact(s)
  {
    var s := Run(env, mode, Initial(shardCount), ops);
    assert next in ops + [next] && forall op :: op in ops ==> op in ops + [next];
    RunPlain(env, mode, shardCount, ops);
    RunGenuine(env, shardCount, ops);
    GenuineIsTame(env, mode, s, next);
    ResultsPlain(env, mode, s, next);
    DecisionsPlain(env, mode, s, next);
    FilesStayExact(env, mode, shardCount, ops, home);
  }

  lemma {:induction false} FilesStayExact(env: Env, mode: Mode, shardCount: nat, ops: seq<Op>, home: Homes)
    requires mode.On? && Lawful(env)
    requires forall op :: op in ops ==> GenuineOp(env, op) && RoutesHome(env, shardCount, op, home)
    ensures FilesExact(Run(env, mode, Initial(shardCount), ops))
  {
    if ops != [] {
      var (init, op) := (ops[..|ops| - 1], ops[|ops| - 1]);
      assert op in ops && forall o :: o in init ==> o in ops;
      var s := Run(env, mode, Initial(shardCount), init);
      FilesStayExact(env, mode, shardCount, init, home);
      RunPlain(env, mode, shardCount, init);
      RunGenuine(env, shardCount, init);
      RunConserves(env, mode, shardCount, init, home);
      GenuineIsTame(env, mode, s, op);
      StepFilesExact(env, mode, s, op, home);
    }
  }
}
