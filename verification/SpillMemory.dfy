/** What the spiller is for: how many payload bytes stay in memory. */
module SpillMemory {
  import opened Packets
  import opened Sampler
  import opened WheelProofs
  import opened ConservationProofs
  import opened SpillProofs
  import opened SpillRuns
  import opened Wrappers

  /** No group, active or frozen, holds more payload bytes in memory than the threshold. */
  ghost predicate AllLight(s: State, threshold: nat) {
    forall at :: Occupied(s, at) ==> |GroupAt(s, at).packet.payload| <= threshold
  }

  /** The packet of the group that this ingest belongs to, with its bytes read back, if there is one. */
  function Present(env: Env, s: State, p: Packet): Option<Packet>
    requires WellSized(s) && |s.shards| > 0
  {
    var (shard, key) := (s.shards[ShardOf(p, |s.shards|)], KeyOf(env, p));
    if key in shard.active then Some(Plain(shard.active[key], s.store).packet) else None
  }

  /** An accepted ingest after which the group's payload is above the threshold, and the spiller cannot write it. */
  predicate Unwritten(env: Env, mode: Mode, s: State, op: Op)
    requires WellSized(s) && mode.On?
  {
    op.Ingest? && !op.putOk && |s.shards| > 0 && Ttl(op.cfg, op.packet.dataType, op.packet.token).Some? &&
    var old_ := Present(env, s, op.packet);
    var new_ := if old_.None? then Some(op.packet) else MergePackets(env, old_.value, op.packet);
    new_.Some? && |new_.value.payload| > mode.threshold
  }

  /** The group that is ingested into is light afterwards, unless its merge failed or its payload could not be written. */
  lemma IngestedLight(env: Env, mode: Mode, s: State, op: Op)
    requires WellSized(s) && SpillOk(s, mode) && AllLight(s, mode.threshold) && op.Ingest? && |s.shards| > 0
    ensures var (s', at) := (Step(env, mode, s, op), InShard(ShardOf(op.packet, |s.shards|), KeyOf(env, op.packet)));
            (Occupied(s', at) ==> |GroupAt(s', at).packet.payload| <= mode.threshold) <==> !Leaks(env, s, op) && !Unwritten(env, mode, s, op)
  {
    var at := InShard(ShardOf(op.packet, |s.shards|), KeyOf(env, op.packet));
    if Occupied(s, at) {
      assert Backed(GroupAt(s, at), s.store, mode.threshold);
      HydrateIsPlain(mode, s.store, GroupAt(s, at));
    }
  }

  /** A step keeps all groups light if and only if it is neither a failing merge into a spilled group nor a payload above the threshold that cannot be written. */
  lemma StepLight(env: Env, mode: Mode, s: State, op: Op)
    requires WellSized(s) && SpillOk(s, mode) && AllLight(s, mode.threshold)
    ensures AllLight(Step(env, mode, s, op), mode.threshold) <==> !Leaks(env, s, op) && !Unwritten(env, mode, s, op)
  {
    var s' := Step(env, mode, s, op);
    if op.Ingest? && |s.shards| > 0 {
      IngestedLight(env, mode, s, op);
      var own := InShard(ShardOf(op.packet, |s.shards|), KeyOf(env, op.packet));
      forall at | Occupied(s', at) && at != own
        ensures |GroupAt(s', at).packet.payload| <= mode.threshold
      {
        IngestOthers(env, mode, s, op, at);
      }
    } else {
      forall at | Occupied(s', at)
        ensures |GroupAt(s', at).packet.payload| <= mode.threshold
      {
        if op.Advance? {
          var from := AdvanceOrigin(env, mode, s, at);
        } else {
          assert Occupied(s, at) && GroupAt(s', at) == GroupAt(s, at);
        }
      }
    }
  }

  /** The run is light after its first m operations. */
  ghost predicate LightAt(env: Env, mode: Mode, n: nat, ops: seq<Op>, m: nat)
    requires mode.On? && m <= |ops|
  {
    AllLight(Run(env, mode, Initial(n), ops[..m]), mode.threshold)
  }

  /** Operation m neither fails to merge into a spilled group nor leaves a big payload unwritten. */
  ghost predicate Spills(env: Env, mode: Mode, n: nat, ops: seq<Op>, m: nat)
    requires mode.On? && m < |ops|
  {
    var s := Run(env, mode, Initial(n), ops[..m]);
    !Leaks(env, s, ops[m]) && !Unwritten(env, mode, s, ops[m])
  }

  lemma RunLightStep(env: Env, mode: Mode, n: nat, ops: seq<Op>, m: nat)
    requires mode.On? && m < |ops| && LightAt(env, mode, n, ops, m)
    ensures LightAt(env, mode, n, ops, m + 1) <==> Spills(env, mode, n, ops, m)
  {
    assert ops[..m + 1][..m] == ops[..m] && ops[..m + 1][m] == ops[m];
    RunPlain(env, mode, n, ops[..m]);
    StepLight(env, mode, Run(env, mode, Initial(n), ops[..m]), ops[m]);
  }

  lemma {:induction false} RunLightFrom(env: Env, mode: Mode, n: nat, ops: seq<Op>, m: nat)
    requires mode.On? && m <= |ops| && forall j: nat :: j < m ==> Spills(env, mode, n, ops, j)
    ensures LightAt(env, mode, n, ops, m)
  {
    if m > 0 {
      RunLightFrom(env, mode, n, ops, m - 1);
      assert Spills(env, mode, n, ops, m - 1);
      RunLightStep(env, mode, n, ops, m - 1);
    }
  }

  /**
   Over every run of any packets, no group ever holds more payload bytes in memory than the
   threshold, if and only if no merge fails into a spilled group and no payload above the
   threshold fails to be written.
   */
  lemma RunLight(env: Env, mode: Mode, n: nat, ops: seq<Op>)
    requires mode.On?
    ensures (forall m: nat :: m <= |ops| ==> LightAt(env, mode, n, ops, m)) <==> (forall m: nat :: m < |ops| ==> Spills(env, mode, n, ops, m))
  {
    if forall m: nat :: m < |ops| ==> Spills(env, mode, n, ops, m) {
      forall m: nat | m <= |ops|
        ensures LightAt(env, mode, n, ops, m)
      {
        RunLightFrom(env, mode, n, ops, m);
      }
    } else {
      var m: nat :| m < |ops| && !Spills(env, mode, n, ops, m);
      if LightAt(env, mode, n, ops, m) {
        RunLightStep(env, mode, n, ops, m);
      }
    }
  }
}
