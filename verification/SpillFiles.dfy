/** The spill files and the outcomes over every run, whatever summaries the packets carry. */
module SpillFiles {
  import opened Packets
  import opened Sampler
  import opened ConservationProofs
  import opened SpillProofs
  import opened SpillRuns
  import opened WheelProofs
  import opened Wrappers

  // ----- leaked files -----

  /** A stored file that no undecided group refers to. */
  ghost predicate Orphan(s: State, f: nat) {
    f in s.store.data && f <= s.store.seqNo && !InUse(s, f)
  }

  /** A failing merge into a spilled group leaves its file behind. */
  lemma LeakMakesOrphan(env: Env, mode: Mode, s: State, op: Op)
    requires WellSized(s) && SpillOk(s, mode) && Leaks(env, s, op)
    ensures var f := s.shards[ShardOf(op.packet, |s.shards|)].active[KeyOf(env, op.packet)].spillKey.value;
            Orphan(Step(env, mode, s, op), f)
  {
    var s' := Step(env, mode, s, op);
    var own := InShard(ShardOf(op.packet, |s.shards|), KeyOf(env, op.packet));
    IngestFiles(env, mode, s, op);
    assert Occupied(s, own) && Backed(GroupAt(s, own), s.store, mode.threshold);
    forall at | Occupied(s', at)
      ensures GroupAt(s', at).spillKey != GroupAt(s, own).spillKey
    {
      if at != own {
        IngestOthers(env, mode, s, op, at);
        assert !SameFile(GroupAt(s, own), GroupAt(s, at));
      }
    }
  }

  lemma IngestKeepsOrphan(env: Env, mode: Mode, s: State, op: Op, f: nat)
    requires WellSized(s) && SpillOk(s, mode) && Orphan(s, f) && op.Ingest? && |s.shards| > 0
    ensures Orphan(Step(env, mode, s, op), f)
  {
    var s' := Step(env, mode, s, op);
    var own := InShard(ShardOf(op.packet, |s.shards|), KeyOf(env, op.packet));
    IngestFiles(env, mode, s, op);
    IngestItself(env, mode, s, op);
    IngestStore(env, mode, s, op);
    forall at | Occupied(s', at)
      ensures GroupAt(s', at).spillKey != Some(f)
    {
      if at != own {
        IngestOthers(env, mode, s, op, at);
      }
      assert Occupied(s, at) ==> GroupAt(s, at).spillKey != Some(f);
    }
    assert Occupied(s, own) ==> GroupAt(s, own).spillKey != Some(f);
  }

  lemma IngestStore(env: Env, mode: Mode, s: State, op: Op)
    requires WellSized(s) && op.Ingest? && |s.shards| > 0
    ensures Step(env, mode, s, op).store.seqNo >= s.store.seqNo
  {
  }

  /** An orphan stays in the store through every step: no step refers to it again. */
  lemma StepKeepsOrphan(env: Env, mode: Mode, s: State, op: Op, f: nat)
    requires WellSized(s) && SpillOk(s, mode) && Orphan(s, f)
    ensures Orphan(Step(env, mode, s, op), f)
  {
    var s' := Step(env, mode, s, op);
    if op.Ingest? && |s.shards| > 0 {
      IngestKeepsOrphan(env, mode, s, op, f);
    } else {
      forall at | Occupied(s', at)
        ensures GroupAt(s', at).spillKey != Some(f)
      {
        if op.Advance? {
          var from := AdvanceOrigin(env, mode, s, at);
        } else {
          assert Occupied(s, at) && GroupAt(s', at) == GroupAt(s, at);
        }
      }
      if op.Outcomes? && op.batch in s.pending {
        forall k | k in s.pending[op.batch]
          ensures s.pending[op.batch][k].spillKey != Some(f)
        {
          assert Occupied(s, InBatch(op.batch, k)) && GroupAt(s, InBatch(op.batch, k)) == s.pending[op.batch][k];
        }
      }
    }
  }

  // ----- runs -----

  /** Some step of the run leaks. */
  ghost predicate LeaksSomewhere(env: Env, mode: Mode, shardCount: nat, ops: seq<Op>) {
    ops != [] &&
    var init := ops[..|ops| - 1];
    LeaksSomewhere(env, mode, shardCount, init) || Leaks(env, Run(env, mode, Initial(shardCount), init), ops[|ops| - 1])
  }

  /** After a leak there is a file that nobody refers to. */
  lemma {:induction false} LeakStays(env: Env, mode: Mode, shardCount: nat, ops: seq<Op>) returns (f: nat)
    requires mode.On? && LeaksSomewhere(env, mode, shardCount, ops)
    ensures Orphan(Run(env, mode, Initial(shardCount), ops), f)
  {
    var (init, op) := (ops[..|ops| - 1], ops[|ops| - 1]);
    var s := Run(env, mode, Initial(shardCount), init);
    RunPlain(env, mode, shardCount, init);
    if LeaksSomewhere(env, mode, shardCount, init) {
      f := LeakStays(env, mode, shardCount, init);
      StepKeepsOrphan(env, mode, s, op, f);
    } else {
      f := s.shards[ShardOf(op.packet, |s.shards|)].active[KeyOf(env, op.packet)].spillKey.value;
      LeakMakesOrphan(env, mode, s, op);
    }
  }

  /**
   The files over every run of any packets whose keys do not collide across shards: they are
   exactly those of the undecided groups, if and only if no step of the run was a failing
   merge into a spilled group.
   */
  lemma {:induction false} RunFilesExact(env: Env, mode: Mode, shardCount: nat, ops: seq<Op>, home: Homes)
    requires mode.On? && forall op :: op in ops ==> RoutesHome(env, shardCount, op, home)
    ensures FilesExact(Run(env, mode, Initial(shardCount), ops)) <==> !LeaksSomewhere(env, mode, shardCount, ops)
  {
    if LeaksSomewhere(env, mode, shardCount, ops) {
      var f := LeakStays(env, mode, shardCount, ops);
    } else if ops != [] {
      var (init, op) := (ops[..|ops| - 1], ops[|ops| - 1]);
      assert op in ops && forall o :: o in init ==> o in ops;
        RunFilesExact(env, mode, shardCount, init, home);
      RunPlain(env, mode, shardCount, init);
      RunConserves(env, mode, shardCount, init, home);
      StepFilesExact(env, mode, Run(env, mode, Initial(shardCount), init), op, home);
    }
  }

  /** A leaked file is in the store after every continuation of the run. */
  lemma {:induction false} LeakedForEver(env: Env, mode: Mode, s: State, more: seq<Op>, f: nat)
    requires WellSized(s) && SpillOk(s, mode) && Orphan(s, f)
    ensures SpillOk(Run(env, mode, s, more), mode) && Orphan(Run(env, mode, s, more), f)
  {
    if more != [] {
      var (init, op) := (more[..|more| - 1], more[|more| - 1]);
      LeakedForEver(env, mode, s, init, f);
      StepPlain(env, mode, Run(env, mode, s, init), op);
      StepKeepsOrphan(env, mode, Run(env, mode, s, init), op, f);
    }
  }

  // ----- outcomes -----

  /** The n-th operation of the run returns the same with a spiller and without. */
  ghost predicate SameAt(env: Env, mode: Mode, shardCount: nat, ops: seq<Op>, n: nat)
    requires n < |ops|
  {
    SameKept(Results(env, mode, Run(env, mode, Initial(shardCount), ops[..n]), ops[n]), Results(env, Off, Run(env, Off, Initial(shardCount), ops[..n]), ops[n]))
  }

  /**
   The outcomes over every run of any packets: every operation returns the same decisions and
   kept packets as without a spiller, if and only if no group it decides is a spilled,
   uncompressed payload without a decodable first point that its summary keeps.
   */
  lemma RunSameOutcomes(env: Env, mode: Mode, shardCount: nat, ops: seq<Op>)
    requires mode.On?
    ensures (forall n: nat :: n < |ops| ==> SameAt(env, mode, shardCount, ops, n)) <==>
            (forall n: nat :: n < |ops| ==> NoDivergence(env, Run(env, mode, Initial(shardCount), ops[..n]), ops[n]))
  {
    forall n: nat | n < |ops|
      ensures SameAt(env, mode, shardCount, ops, n) <==> NoDivergence(env, Run(env, mode, Initial(shardCount), ops[..n]), ops[n])
    {
      RunPlain(env, mode, shardCount, ops[..n]);
      ResultsPlain(env, mode, Run(env, mode, Initial(shardCount), ops[..n]), ops[n]);
    }
  }

  /** The n-th operation of the run decides the same with a spiller and without. */
  ghost predicate SameDecisionsAt(env: Env, mode: Mode, shardCount: nat, ops: seq<Op>, n: nat)
    requires n < |ops|
  {
    SameDecisions(Results(env, mode, Run(env, mode, Initial(shardCount), ops[..n]), ops[n]), Results(env, Off, Run(env, Off, Initial(shardCount), ops[..n]), ops[n]))
  }

  /** The same for the decisions themselves, with panics, drops and no match told apart. */
  lemma RunSameDecisions(env: Env, mode: Mode, shardCount: nat, ops: seq<Op>)
    requires mode.On?
    ensures (forall n: nat :: n < |ops| ==> SameDecisionsAt(env, mode, shardCount, ops, n)) <==>
            (forall n: nat :: n < |ops| ==> NoneMisjudged(env, Run(env, mode, Initial(shardCount), ops[..n]), ops[n]))
  {
    forall n: nat | n < |ops|
      ensures SameDecisionsAt(env, mode, shardCount, ops, n) <==> NoneMisjudged(env, Run(env, mode, Initial(shardCount), ops[..n]), ops[n])
    {
      RunPlain(env, mode, shardCount, ops[..n]);
      DecisionsPlain(env, mode, Run(env, mode, Initial(shardCount), ops[..n]), ops[n]);
    }
  }
}
