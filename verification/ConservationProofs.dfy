/** No point is lost or counted twice between ingest and freezing. */
module ConservationProofs {
  import opened Packets
  import opened Sampler
  import opened WheelProofs
  import opened Hashing
  import opened Wrappers

  /** Keys do not collide across shards: every key has one home shard. */
  type Homes = Key -> nat

  ghost predicate Homed(shards: seq<Shard>, home: Homes) {
    forall i, k :: 0 <= i < |shards| && k in shards[i].active ==> home(k) == i
  }

  predicate RoutesHome(env: Env, n: nat, op: Op, home: Homes) {
    op.Ingest? && n > 0 ==> ShardOf(op.packet, n) == home(KeyOf(env, op.packet))
  }

  /** The packets of one token, data type and group dimension never collide across shards. */
  lemma OneTenantIsHomed(env: Env, n: nat, p: Packet, q: Packet)
    requires n > 0 && p.token == q.token && p.dataType == q.dataType && p.groupKey == q.groupKey
    ensures KeyOf(env, p) == KeyOf(env, q) ==> ShardOf(p, n) == ShardOf(q, n)
  {
    GroupMapKeyInjective(env.sum, p.token, p.dataType, p.groupKey, p.groupIdHash, q.groupIdHash);
  }

  lemma {:induction false} FrozenAllAt(shards: seq<Shard>, home: Homes, k: Key)
    requires AllSized(shards) && Homed(shards, home)
    ensures k in FrozenAll(shards) <==> home(k) < |shards| && k in Frozen(shards[home(k)])
    ensures k in FrozenAll(shards) ==> FrozenAll(shards)[k] == Frozen(shards[home(k)])[k]
  {
    if shards != [] {
      var init, n := shards[..|shards| - 1], |shards| - 1;
      assert forall i :: 0 <= i < n ==> init[i] == shards[i];
      FrozenAllAt(init, home, k);
      assert k in Frozen(shards[n]) ==> home(k) == n;
    }
  }

  /** With homes, the returned map holds every frozen group of every shard. */
  lemma FrozenAllMeaning(shards: seq<Shard>, home: Homes)
    requires AllSized(shards) && Homed(shards, home)
    ensures forall k :: k in FrozenAll(shards) <==> home(k) < |shards| && k in Frozen(shards[home(k)])
    ensures forall k :: k in FrozenAll(shards) ==> FrozenAll(shards)[k] == Frozen(shards[home(k)])[k]
  {
    forall k
      ensures k in FrozenAll(shards) <==> home(k) < |shards| && k in Frozen(shards[home(k)])
      ensures k in FrozenAll(shards) ==> FrozenAll(shards)[k] == Frozen(shards[home(k)])[k]
    {
      FrozenAllAt(shards, home, k);
    }
  }

  /** Wheel timing, in terms of the map AdvanceTime returns: the group is not in it before the t-th tick, and is in it then. */
  lemma ReturnedInTheMap(env: Env, mode: Mode, s: State, op: Op, ops: seq<Op>, i: nat, k: Key, home: Homes)
    requires WellSized(s) && AllConsistent(s) && i < |s.shards| && Touches(env, mode, s, op, i, k)
    requires var s' := Step(env, mode, s, op);
             Untouched(env, mode, s', ops, i, k) && Homed(Run(env, mode, s', ops).shards, home)
    ensures var (s', t) := (Step(env, mode, s, op), Ttl(op.cfg, op.packet.dataType, op.packet.token).value);
            var r := Run(env, mode, s', ops);
            && (Ticks(ops) + 1 < t ==> k !in FrozenAll(r.shards))
            && (Ticks(ops) + 1 == t ==> k in FrozenAll(r.shards))
  {
    ReturnedByExactlyTheLastTick(env, mode, s, op, ops, i, k);
    var r := Run(env, mode, Step(env, mode, s, op), ops);
    FrozenAllAt(r.shards, home, k);
  }

  lemma IngestKeepsOtherKeys(env: Env, cfg: Config, mode: Mode, shard: Shard, store: Store, p: Packet, putOk: bool)
    requires Sized(shard)
    ensures var r := IngestShard(env, cfg, mode, shard, store, p, putOk);
            && (forall k :: k in r.shard.active ==> k in shard.active || k == KeyOf(env, p))
            && (forall k :: k in shard.active ==> k in r.shard.active)
            && (forall k :: k in shard.active && k != KeyOf(env, p) ==> r.shard.active[k] == shard.active[k])
            && (!r.accepted && KeyOf(env, p) in r.shard.active ==> KeyOf(env, p) in shard.active)
  {
  }

  lemma StepKeepsHomed(env: Env, mode: Mode, s: State, op: Op, home: Homes)
    requires WellSized(s) && Homed(s.shards, home) && RoutesHome(env, |s.shards|, op, home)
    ensures Homed(Step(env, mode, s, op).shards, home)
  {
  }

  // ----- sums over groups -----

  ghost function Sum(m: map<Key, Group>): int {
    if m == map[] then 0
    else
      var k :| k in m;
      m[k].packet.pointCount + Sum(m - {k})
  }

  lemma {:induction false} SumRemove(m: map<Key, Group>, k: Key)
    requires k in m
    ensures Sum(m) == m[k].packet.pointCount + Sum(m - {k})
    decreases |m|
  {
    var c :| c in m && Sum(m) == m[c].packet.pointCount + Sum(m - {c});
    if c != k {
      SumRemove(m - {c}, k);
      SumRemove(m - {k}, c);
      assert m - {c} - {k} == m - {k} - {c};
    }
  }

  lemma SumUpdate(m: map<Key, Group>, k: Key, g: Group)
    ensures Sum(m[k := g]) == g.packet.pointCount + Sum(m - {k})
  {
    SumRemove(m[k := g], k);
    assert m[k := g] - {k} == m - {k};
  }

  lemma DropFromUnion<K, V>(a: map<K, V>, b: map<K, V>, k: K)
    requires k !in a && k in b
    ensures (a + b) - {k} == a + (b - {k})
    ensures k in a + b && (a + b)[k] == b[k] && |b - {k}| < |b|
  {
  }

  lemma {:induction false} SumDisjoint(a: map<Key, Group>, b: map<Key, Group>)
    requires a.Keys !! b.Keys
    ensures Sum(a + b) == Sum(a) + Sum(b)
    decreases |b|
  {
    if b == map[] {
      assert a + b == a;
    } else {
      var k :| k in b;
      SumRemove(b, k);
      SumRemove(a + b, k);
      DropFromUnion(a, b, k);
      SumDisjoint(a, b - {k});
    }
  }

  /** One shard: what a tick takes out plus what stays is what was there. */
  lemma AdvanceShardConserves(shard: Shard)
    requires Sized(shard)
    ensures Sum(shard.active) == Sum(AdvanceShard(shard).active) + Sum(Frozen(shard))
  {
    var (a, b) := (AdvanceShard(shard).active, Frozen(shard));
    assert a + b == shard.active;
    SumDisjoint(a, b);
  }

  ghost function SumShards(shards: seq<Shard>): int {
    if shards == [] then 0 else SumShards(shards[..|shards| - 1]) + Sum(shards[|shards| - 1].active)
  }

  lemma {:induction false} SumShardsUpdate(shards: seq<Shard>, i: nat, r: Shard)
    requires i < |shards|
    ensures SumShards(shards[i := r]) == SumShards(shards) - Sum(shards[i].active) + Sum(r.active)
  {
    var (init, n) := (shards[..|shards| - 1], |shards| - 1);
    if i == n {
      assert shards[i := r][..n] == init;
    } else {
      assert shards[i := r][..n] == init[i := r];
      SumShardsUpdate(init, i, r);
    }
  }

  /** A tick over all shards: shards before are shards after plus the returned map. */
  lemma {:induction false} AdvanceConserves(shards: seq<Shard>, home: Homes)
    requires AllSized(shards) && Homed(shards, home)
    ensures SumShards(shards) == SumShards(AdvanceAll(shards)) + Sum(FrozenAll(shards))
  {
    if shards != [] {
      var (init, last) := (shards[..|shards| - 1], shards[|shards| - 1]);
      assert forall i :: 0 <= i < |init| ==> init[i] == shards[i];
      AdvanceConserves(init, home);
      AdvanceShardConserves(last);
      assert AdvanceAll(shards)[..|shards| - 1] == AdvanceAll(init);
      FrozenAllMeaning(init, home);
      SumDisjoint(FrozenAll(init), Frozen(last));
    }
  }

  /** What Ingest does to the active map and the point count of the packet's group. */
  lemma IngestCounts(env: Env, cfg: Config, mode: Mode, shard: Shard, store: Store, p: Packet, putOk: bool)
    requires Sized(shard)
    ensures var (r, key) := (IngestShard(env, cfg, mode, shard, store, p, putOk), KeyOf(env, p));
            if key in r.shard.active then
              var g := r.shard.active[key];
              && r.shard.active == shard.active[key := g]
              && (key !in shard.active ==> r.accepted && g.packet.pointCount == p.pointCount)
              && (key in shard.active ==>
                    var was := shard.active[key].packet.pointCount;
                    g.packet.pointCount == if r.accepted then ToInt32(was + p.pointCount) else was)
            else r.shard.active == shard.active && !r.accepted
  {
    var key := KeyOf(env, p);
    if key in shard.active {
      assert shard.active == shard.active[key := shard.active[key]];
    }
  }

  /** What a 32-bit counter makes of a sum, less the sum. */
  function Wrap(x: int): int {
    ToInt32(x) - x
  }

  /** It is nothing exactly when the sum is an int32, and otherwise a multiple of 2^32. */
  lemma WrapMeans(x: int)
    ensures Wrap(x) == 0 <==> -TWO_31 <= x < TWO_31
    ensures Wrap(x) % TWO_32 == 0
  {
  }

  /** The points that wrap around when a packet is merged into its group. */
  ghost function WrapIn(env: Env, cfg: Config, mode: Mode, shard: Shard, store: Store, p: Packet, putOk: bool): int
    requires Sized(shard)
  {
    if KeyOf(env, p) in shard.active && IngestShard(env, cfg, mode, shard, store, p, putOk).accepted
    then Wrap(shard.active[KeyOf(env, p)].packet.pointCount + p.pointCount) else 0
  }

  lemma IngestConserves(env: Env, cfg: Config, mode: Mode, shard: Shard, store: Store, p: Packet, putOk: bool)
    requires Sized(shard)
    ensures var r := IngestShard(env, cfg, mode, shard, store, p, putOk);
            Sum(r.shard.active) == Sum(shard.active) + (if r.accepted then p.pointCount else 0) + WrapIn(env, cfg, mode, shard, store, p, putOk)
  {
    IngestCounts(env, cfg, mode, shard, store, p, putOk);
    var (r, key) := (IngestShard(env, cfg, mode, shard, store, p, putOk), KeyOf(env, p));
    if key in r.shard.active {
      SumUpdateCount(shard.active, key, r.shard.active[key]);
    }
  }

  lemma SumUpdateCount(m: map<Key, Group>, k: Key, g: Group)
    ensures Sum(m[k := g]) == Sum(m) + g.packet.pointCount - (if k in m then m[k].packet.pointCount else 0)
  {
    SumUpdate(m, k, g);
    if k in m {
      SumRemove(m, k);
    } else {
      assert m - {k} == m;
    }
  }

  lemma {:induction false} InitialSum(shards: seq<Shard>)
    requires forall i :: 0 <= i < |shards| ==> shards[i].active == map[]
    ensures SumShards(shards) == 0
  {
    if shards != [] {
      InitialSum(shards[..|shards| - 1]);
    }
  }

  /** Points an operation brings in, and points it hands out. */
  ghost function Brings(env: Env, mode: Mode, s: State, op: Op): int
    requires WellSized(s)
  {
    if Accepted(env, mode, s, op) then op.packet.pointCount else 0
  }

  ghost function HandsOut(s: State, op: Op): int
    requires WellSized(s)
  {
    if op.Advance? then Sum(FrozenAll(s.shards)) else 0
  }

  /** The points that wrap around in an operation. */
  ghost function Wrapped(env: Env, mode: Mode, s: State, op: Op): int
    requires WellSized(s)
  {
    if op.Ingest? && |s.shards| > 0
    then WrapIn(env, op.cfg, mode, s.shards[ShardOf(op.packet, |s.shards|)], s.store, op.packet, op.putOk) else 0
  }

  /** An accepted merge whose counter leaves the int32 range. */
  ghost predicate Overflows(env: Env, mode: Mode, s: State, op: Op)
    requires WellSized(s)
  {
    && Accepted(env, mode, s, op)
    && var active := s.shards[ShardOf(op.packet, |s.shards|)].active;
       KeyOf(env, op.packet) in active && !(-TWO_31 <= active[KeyOf(env, op.packet)].packet.pointCount + op.packet.pointCount < TWO_31)
  }

  /** What an ingest into one shard adds to the counter beyond the points of its packet. */
  lemma WrapInMeans(env: Env, cfg: Config, mode: Mode, shard: Shard, store: Store, p: Packet, putOk: bool, accepted: bool)
    requires Sized(shard) && accepted == IngestShard(env, cfg, mode, shard, store, p, putOk).accepted
    ensures var w := WrapIn(env, cfg, mode, shard, store, p, putOk);
            if accepted && KeyOf(env, p) in shard.active then w == Wrap(shard.active[KeyOf(env, p)].packet.pointCount + p.pointCount) else w == 0
  {
  }

  /** The merge that an ingest stands for: the counter before and the points it brings, if it is accepted into a group. */
  ghost function Merging(env: Env, mode: Mode, s: State, op: Op): Option<int>
    requires WellSized(s)
  {
    if !Accepted(env, mode, s, op) then None
    else
      var active := s.shards[ShardOf(op.packet, |s.shards|)].active;
      if KeyOf(env, op.packet) in active then Some(active[KeyOf(env, op.packet)].packet.pointCount + op.packet.pointCount) else None
  }

  lemma WrappedIs(env: Env, mode: Mode, s: State, op: Op, sum: Option<int>)
    requires WellSized(s) && sum == Merging(env, mode, s, op)
    ensures Wrapped(env, mode, s, op) == if sum.Some? then Wrap(sum.value) else 0
    ensures Overflows(env, mode, s, op) <==> sum.Some? && !(-TWO_31 <= sum.value < TWO_31)
  {
    if op.Ingest? && |s.shards| > 0 {
      var shard := s.shards[ShardOf(op.packet, |s.shards|)];
      WrapInMeans(env, op.cfg, mode, shard, s.store, op.packet, op.putOk, Accepted(env, mode, s, op));
    }
  }

  lemma WrappedMeans(env: Env, mode: Mode, s: State, op: Op)
    requires WellSized(s)
    ensures Wrapped(env, mode, s, op) == 0 <==> !Overflows(env, mode, s, op)
    ensures Wrapped(env, mode, s, op) % TWO_32 == 0
  {
    var sum := Merging(env, mode, s, op);
    WrappedIs(env, mode, s, op, sum);
    if sum.Some? {
      WrapMeans(sum.value);
    }
  }

  lemma IngestOpConserves(env: Env, mode: Mode, s: State, op: Op)
    requires WellSized(s) && op.Ingest? && |s.shards| > 0
    ensures SumShards(Step(env, mode, s, op).shards) == SumShards(s.shards) + Brings(env, mode, s, op) + Wrapped(env, mode, s, op)
  {
    var i := ShardOf(op.packet, |s.shards|);
    IngestConserves(env, op.cfg, mode, s.shards[i], s.store, op.packet, op.putOk);
    SumShardsUpdate(s.shards, i, IngestOp(env, mode, s, op).shard);
  }

  /**
   One operation: points active after plus points handed out are points active before plus
   points brought in plus what wraps around, which is nothing exactly unless a merge
   overflows its counter, and always a multiple of 2^32.
   */
  lemma StepConserves(env: Env, mode: Mode, s: State, op: Op, home: Homes)
    requires WellSized(s) && Homed(s.shards, home)
    ensures SumShards(Step(env, mode, s, op).shards) + HandsOut(s, op) == SumShards(s.shards) + Brings(env, mode, s, op) + Wrapped(env, mode, s, op)
    ensures SumShards(Step(env, mode, s, op).shards) + HandsOut(s, op) == SumShards(s.shards) + Brings(env, mode, s, op) <==> !Overflows(env, mode, s, op)
    ensures Wrapped(env, mode, s, op) % TWO_32 == 0
  {
    WrappedMeans(env, mode, s, op);
    if op.Advance? {
      AdvanceConserves(s.shards, home);
    } else if op.Ingest? && |s.shards| > 0 {
      IngestOpConserves(env, mode, s, op);
    }
  }

  /** Points of the packets a run accepts. */
  ghost function AcceptedPoints(env: Env, mode: Mode, s: State, ops: seq<Op>): int
    requires WellSized(s)
  {
    if ops == [] then 0
    else
      AcceptedPoints(env, mode, s, ops[..|ops| - 1]) +
      Brings(env, mode, Run(env, mode, s, ops[..|ops| - 1]), ops[|ops| - 1])
  }

  /** Points of the groups a run's ticks return. */
  ghost function FrozenPoints(env: Env, mode: Mode, s: State, ops: seq<Op>): int
    requires WellSized(s)
  {
    if ops == [] then 0
    else
      FrozenPoints(env, mode, s, ops[..|ops| - 1]) +
      HandsOut(Run(env, mode, s, ops[..|ops| - 1]), ops[|ops| - 1])
  }

  /** Points that wrap around in a run. */
  ghost function WrappedPoints(env: Env, mode: Mode, s: State, ops: seq<Op>): int
    requires WellSized(s)
  {
    if ops == [] then 0
    else
      WrappedPoints(env, mode, s, ops[..|ops| - 1]) +
      Wrapped(env, mode, Run(env, mode, s, ops[..|ops| - 1]), ops[|ops| - 1])
  }

  /** No merge of the run overflows its counter. */
  ghost predicate NoOverflow(env: Env, mode: Mode, s: State, ops: seq<Op>)
    requires WellSized(s)
  {
    ops != [] ==>
      && NoOverflow(env, mode, s, ops[..|ops| - 1])
      && !Overflows(env, mode, Run(env, mode, s, ops[..|ops| - 1]), ops[|ops| - 1])
  }

  lemma AddMultiples(a: int, b: int)
    requires a % TWO_32 == 0 && b % TWO_32 == 0
    ensures (a + b) % TWO_32 == 0
  {
  }

  lemma WrappedNext(env: Env, mode: Mode, s: State, ops: seq<Op>)
    requires WellSized(s) && ops != []
    ensures WrappedPoints(env, mode, s, ops) == WrappedPoints(env, mode, s, ops[..|ops| - 1]) + Wrapped(env, mode, Run(env, mode, s, ops[..|ops| - 1]), ops[|ops| - 1])
  {
  }

  /** What wraps around is a multiple of 2^32. */
  lemma {:induction false} RunWraps(env: Env, mode: Mode, s: State, ops: seq<Op>)
    requires WellSized(s)
    ensures WrappedPoints(env, mode, s, ops) % TWO_32 == 0
  {
    if ops != [] {
      var (init, op) := (ops[..|ops| - 1], ops[|ops| - 1]);
      var (a, b) := (WrappedPoints(env, mode, s, init), Wrapped(env, mode, Run(env, mode, s, init), op));
      RunWraps(env, mode, s, init);
      WrappedMeans(env, mode, Run(env, mode, s, init), op);
      WrappedNext(env, mode, s, ops);
      AddMultiples(a, b);
    }
  }

  /** It is nothing when no merge overflows its counter. */
  lemma {:induction false} NothingWraps(env: Env, mode: Mode, s: State, ops: seq<Op>)
    requires WellSized(s) && NoOverflow(env, mode, s, ops)
    ensures WrappedPoints(env, mode, s, ops) == 0
  {
    if ops != [] {
      var (init, op) := (ops[..|ops| - 1], ops[|ops| - 1]);
      NothingWraps(env, mode, s, init);
      WrappedMeans(env, mode, Run(env, mode, s, init), op);
    }
  }

  /** Points still active plus points returned are the points accepted plus what wrapped around. */
  ghost predicate Accounted(env: Env, mode: Mode, s: State, ops: seq<Op>)
    requires WellSized(s)
  {
    SumShards(Run(env, mode, s, ops).shards) + FrozenPoints(env, mode, s, ops) == AcceptedPoints(env, mode, s, ops) + WrappedPoints(env, mode, s, ops)
  }

  lemma AccountedStep(env: Env, mode: Mode, s: State, ops: seq<Op>, home: Homes)
    requires WellSized(s) && ops != [] && Accounted(env, mode, s, ops[..|ops| - 1])
    requires Homed(Run(env, mode, s, ops[..|ops| - 1]).shards, home)
    ensures Accounted(env, mode, s, ops)
  {
    var (init, op) := (ops[..|ops| - 1], ops[|ops| - 1]);
    StepConserves(env, mode, Run(env, mode, s, init), op, home);
  }

  /**
   Conservation: at any point of any run whose keys do not collide across shards, the
   points still active plus the points returned are the points accepted plus what wrapped
   around, a multiple of 2^32.
   */
  lemma {:induction false} RunConserves(env: Env, mode: Mode, shardCount: nat, ops: seq<Op>, home: Homes)
    requires forall op :: op in ops ==> RoutesHome(env, shardCount, op, home)
    ensures Homed(Run(env, mode, Initial(shardCount), ops).shards, home)
    ensures Accounted(env, mode, Initial(shardCount), ops) && WrappedPoints(env, mode, Initial(shardCount), ops) % TWO_32 == 0
  {
    var s := Initial(shardCount);
    if ops == [] {
      InitialSum(s.shards);
    } else {
      var (init, op) := (ops[..|ops| - 1], ops[|ops| - 1]);
      assert op in ops && forall o :: o in init ==> o in ops;
      RunConserves(env, mode, shardCount, init, home);
      StepKeepsHomed(env, mode, Run(env, mode, s, init), op, home);
      AccountedStep(env, mode, s, ops, home);
      RunWraps(env, mode, s, ops);
    }
  }

  /** So, unless a merge overflows, the points still active plus the points returned are exactly the points accepted. */
  lemma RunConservesExactly(env: Env, mode: Mode, shardCount: nat, ops: seq<Op>, home: Homes)
    requires forall op :: op in ops ==> RoutesHome(env, shardCount, op, home)
    requires NoOverflow(env, mode, Initial(shardCount), ops)
    ensures var s := Initial(shardCount);
            SumShards(Run(env, mode, s, ops).shards) + FrozenPoints(env, mode, s, ops) == AcceptedPoints(env, mode, s, ops)
  {
    RunConserves(env, mode, shardCount, ops, home);
    NothingWraps(env, mode, Initial(shardCount), ops);
  }
}
