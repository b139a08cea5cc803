/** What keeps tenants, data types, dimensions and groups of the tail sampler apart. */
module TenantProofs {
  import opened Packets
  import opened Decisions
  import opened Sampler
  import opened Hashing
  import opened WheelProofs
  import opened ConservationProofs
  import opened SpillProofs
  import opened GroupProofs
  import opened Residues
  import opened Wrappers

  // ----- groups -----

  /** The two packets differ in exactly one of group hash, token, data type and dimension, and its sums tell. */
  ghost predicate DifferInOne(env: Env, p: Packet, q: Packet) {
    || (p.groupIdHash != q.groupIdHash && p.token == q.token && p.dataType == q.dataType && p.groupKey == q.groupKey)
    || (p.groupIdHash == q.groupIdHash && env.sum(p.token) != env.sum(q.token) && p.dataType == q.dataType && p.groupKey == q.groupKey)
    || (p.groupIdHash == q.groupIdHash && p.token == q.token && env.sum(p.dataType) != env.sum(q.dataType) && p.groupKey == q.groupKey)
    || (p.groupIdHash == q.groupIdHash && p.token == q.token && p.dataType == q.dataType && env.sum(p.groupKey) != env.sum(q.groupKey))
  }

  lemma KeysDiffer(env: Env, p: Packet, q: Packet)
    requires DifferInOne(env, p, q)
    ensures KeyOf(env, p) != KeyOf(env, q)
  {
    if p.groupIdHash != q.groupIdHash {
      GroupMapKeyInjective(env.sum, p.token, p.dataType, p.groupKey, p.groupIdHash, q.groupIdHash);
    } else if env.sum(p.token) != env.sum(q.token) {
      GroupMapKeyTokens(env.sum, p.token, q.token, p.groupIdHash, p.dataType, p.groupKey);
    } else if env.sum(p.dataType) != env.sum(q.dataType) {
      GroupMapKeyDataTypes(env.sum, p.token, p.groupIdHash, p.dataType, q.dataType, p.groupKey);
    } else {
      GroupMapKeyDimensions(env.sum, p.token, p.groupIdHash, p.dataType, p.groupKey, q.groupKey);
    }
  }

  /** Every group, active or frozen, is filed under the key of its packet. */
  ghost predicate Filed(env: Env, s: State) {
    BatchesNumbered(s) && forall at :: Occupied(s, at) ==> KeyOf(env, GroupAt(s, at).packet) == at.k
  }

  lemma IngestFiled(env: Env, mode: Mode, s: State, op: Op)
    requires WellSized(s) && Filed(env, s) && op.Ingest? && |s.shards| > 0
    ensures Filed(env, Step(env, mode, s, op))
  {
    var (s', i, key) := (Step(env, mode, s, op), ShardOf(op.packet, |s.shards|), KeyOf(env, op.packet));
    IngestKeepsOtherKeys(env, op.cfg, mode, s.shards[i], s.store, op.packet, op.putOk);
    forall at | Occupied(s', at)
      ensures KeyOf(env, GroupAt(s', at).packet) == at.k
    {
      if at == InShard(i, key) {
        IngestedFiled(env, mode, s, op);
      } else {
        assert Occupied(s, at) && GroupAt(s', at) == GroupAt(s, at);
      }
    }
  }

  lemma IngestedFiled(env: Env, mode: Mode, s: State, op: Op)
    requires WellSized(s) && Filed(env, s) && op.Ingest? && |s.shards| > 0
    ensures var at := InShard(ShardOf(op.packet, |s.shards|), KeyOf(env, op.packet));
            var s' := Step(env, mode, s, op);
            Occupied(s', at) ==> KeyOf(env, GroupAt(s', at).packet) == at.k
  {
    var at := InShard(ShardOf(op.packet, |s.shards|), KeyOf(env, op.packet));
    if Occupied(s, at) {
      assert KeyOf(env, GroupAt(s, at).packet) == at.k;
    }
  }

  lemma StepFiled(env: Env, mode: Mode, s: State, op: Op)
    requires WellSized(s) && Filed(env, s)
    ensures Filed(env, Step(env, mode, s, op))
  {
    var s' := Step(env, mode, s, op);
    if op.Ingest? && |s.shards| > 0 {
      IngestFiled(env, mode, s, op);
    } else {
      forall at | Occupied(s', at)
        ensures KeyOf(env, GroupAt(s', at).packet) == at.k
      {
        if op.Advance? {
          var from := AdvanceOrigin(env, mode, s, at);
        } else {
          assert Occupied(s, at) && GroupAt(s', at) == GroupAt(s, at);
        }
      }
    }
  }

  lemma {:induction false} RunFiled(env: Env, mode: Mode, n: nat, ops: seq<Op>)
    ensures Filed(env, Run(env, mode, Initial(n), ops))
  {
    if ops != [] {
      RunFiled(env, mode, n, ops[..|ops| - 1]);
      StepFiled(env, mode, Run(env, mode, Initial(n), ops[..|ops| - 1]), ops[|ops| - 1]);
    }
  }

  /**
   In every state of every run, a packet that differs from a group in its token alone, or in
   its data type, dimension or group hash alone, leaves that group as it is.
   */
  lemma NeverMerged(env: Env, mode: Mode, n: nat, ops: seq<Op>, op: Op, at: Place)
    requires op.Ingest? && Occupied(Run(env, mode, Initial(n), ops), at)
    requires DifferInOne(env, GroupAt(Run(env, mode, Initial(n), ops), at).packet, op.packet)
    ensures var (s, s') := (Run(env, mode, Initial(n), ops), Run(env, mode, Initial(n), ops + [op]));
            Occupied(s', at) && GroupAt(s', at) == GroupAt(s, at)
  {
    var s := Run(env, mode, Initial(n), ops);
    assert (ops + [op])[..|ops|] == ops;
    RunFiled(env, mode, n, ops);
    KeysDiffer(env, GroupAt(s, at).packet, op.packet);
    if |s.shards| > 0 {
      IngestKeepsOtherKeys(env, op.cfg, mode, s.shards[ShardOf(op.packet, |s.shards|)], s.store, op.packet, op.putOk);
    }
  }

  /** The packets accepted for one group never differ in one of these alone. */
  lemma {:induction false} CollectedAlike(env: Env, n: nat, ops: seq<Op>, i: nat, k: Key)
    requires i < n
    ensures forall p <- Collected(env, n, ops, i, k) :: KeyOf(env, p) == k && ShardOf(p, n) == i
    ensures forall p <- Collected(env, n, ops, i, k), q <- Collected(env, n, ops, i, k) :: !DifferInOne(env, p, q)
  {
    CollectedKeys(env, n, ops, i, k);
    forall p <- Collected(env, n, ops, i, k), q <- Collected(env, n, ops, i, k)
      ensures !DifferInOne(env, p, q)
    {
      if DifferInOne(env, p, q) {
        KeysDiffer(env, p, q);
      }
    }
  }

  lemma {:induction false} CollectedKeys(env: Env, n: nat, ops: seq<Op>, i: nat, k: Key)
    requires i < n
    ensures forall p <- Collected(env, n, ops, i, k) :: KeyOf(env, p) == k && ShardOf(p, n) == i
  {
    if ops != [] {
      CollectedKeys(env, n, ops[..|ops| - 1], i, k);
    }
  }

  /** Packets go to the same shard exactly when their group hashes agree modulo the number of shards, and every shard has its share. */
  lemma RoutedByResidue(p: Packet, q: Packet, n: nat, i: nat)
    requires 0 < n < TWO_64 && i < n
    ensures ShardOf(p, n) < n && (ShardOf(p, n) == ShardOf(q, n) <==> (p.groupIdHash - q.groupIdHash) % n == 0)
    ensures ShardOf(p.(groupIdHash := i), n) == i
  {
    SameResidue(p.groupIdHash, q.groupIdHash, n);
    Remainder(0, i, n);
  }

  // ----- configurations -----

  /** Both configurations know the token. */
  predicate Know(cfg: Config, cfg': Config, token: Bytes) {
    token in cfg && token in cfg'
  }

  /** Only the section of the packet's token and data type decides whether it is accepted, for how long, and by which pipelines. */
  lemma SectionDecides(env: Env, mode: Mode, s: State, cfg: Config, cfg': Config, p: Packet, putOk: bool)
    requires WellSized(s)
    requires || (p.dataType == TRACING && Know(cfg, cfg', p.token) && cfg[p.token].trace == cfg'[p.token].trace)
             || (p.dataType == LOGGING && Know(cfg, cfg', p.token) && cfg[p.token].logging == cfg'[p.token].logging)
             || (p.dataType == RUM && Know(cfg, cfg', p.token) && cfg[p.token].rum == cfg'[p.token].rum)
             || p.dataType !in {TRACING, LOGGING, RUM}
             || (p.token !in cfg && p.token !in cfg')
    ensures Step(env, mode, s, Ingest(cfg, p, putOk)) == Step(env, mode, s, Ingest(cfg', p, putOk))
    ensures PipelinesFor(cfg, p) == PipelinesFor(cfg', p)
  {
  }

  lemma {:induction false} FirstDimension(dims: seq<Dimension>, groupKey: Bytes, i: nat)
    requires i < |dims| && dims[i].groupKey == groupKey && forall j :: 0 <= j < i ==> dims[j].groupKey != groupKey
    ensures FindDimension(dims, groupKey) == dims[i].pipelines
  {
    if i > 0 {
      FirstDimension(dims[1..], groupKey, i - 1);
    }
  }

  /** No time to live, or one of at most 3599 seconds. */
  function Clamped(ttl: int): Option<nat> {
    if ttl <= 0 then None else if ttl > 3599 then Some(3599) else Some(ttl)
  }

  function Ascii(s: string): Bytes {
    seq(|s|, i requires 0 <= i < |s| => if s[i] as int < 256 then s[i] as int else 0)
  }

  /** The names of the three data types. */
  lemma DataTypeNames()
    ensures TRACING == Ascii("tracing") && LOGGING == Ascii("logging") && RUM == Ascii("rum")
  {
  }

  /** The section of a trace: accepted exactly with a positive time to live, and decided by its pipelines. */
  lemma TraceSection(cfg: Config, p: Packet)
    requires p.dataType == TRACING && p.token in cfg
    ensures Ttl(cfg, p.dataType, p.token) == if cfg[p.token].trace.None? then None else Clamped(cfg[p.token].trace.value.ttl)
    ensures PipelinesFor(cfg, p) == if cfg[p.token].trace.Some? then cfg[p.token].trace.value.pipelines else []
  {
  }

  /** The section of logging and of RUM: accepted exactly with a positive time to live, and decided by the first dimension with the packet's key. */
  lemma DimensionSection(cfg: Config, p: Packet, d: Dimensions, i: nat)
    requires p.token in cfg
    requires (p.dataType == LOGGING && cfg[p.token].logging == Some(d)) || (p.dataType == RUM && cfg[p.token].rum == Some(d))
    ensures Ttl(cfg, p.dataType, p.token) == Clamped(d.ttl)
    ensures i < |d.dims| && d.dims[i].groupKey == p.groupKey && (forall j :: 0 <= j < i ==> d.dims[j].groupKey != p.groupKey) ==>
              PipelinesFor(cfg, p) == d.dims[i].pipelines
  {
    if i < |d.dims| && d.dims[i].groupKey == p.groupKey && (forall j :: 0 <= j < i ==> d.dims[j].groupKey != p.groupKey) {
      FirstDimension(d.dims, p.groupKey, i);
    }
  }

  /** A packet is accepted exactly when its section has a positive time to live and its group is new or both payloads decompress. */
  lemma AcceptedExactly(env: Env, s: State, op: Op)
    requires Lawful(env) && WellSized(s) && op.Ingest? && |s.shards| > 0
    ensures var (i, k) := (ShardOf(op.packet, |s.shards|), KeyOf(env, op.packet));
            Accepted(env, Off, s, op) <==>
            && Ttl(op.cfg, op.packet.dataType, op.packet.token).Some?
            && (k in s.shards[i].active ==> GroupProofs.Raw(env, s.shards[i].active[k].packet).Some? && GroupProofs.Raw(env, op.packet).Some?)
  {
    var (i, k) := (ShardOf(op.packet, |s.shards|), KeyOf(env, op.packet));
    if k in s.shards[i].active {
      MergeJoins(env, s.shards[i].active[k].packet, op.packet);
    }
  }
}
