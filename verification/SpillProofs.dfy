/**
 Spilling is invisible: the sampler with a spiller, seen with its files read back,
 takes the same steps as the sampler without one.
 */
module SpillProofs {
  import opened Packets
  import opened Sampler
  import opened Decisions
  import opened SpanSummary
  import opened Compiler
  import opened ConservationProofs
  import opened Hashing
  import opened Wrappers

  // ----- seeing through the store -----

  /** A group with its spilled bytes back in memory. */
  function Plain(g: Group, store: Store): Group {
    if g.spillKey.Some? && g.spillKey.value in store.data
    then g.(packet := g.packet.(payload := store.data[g.spillKey.value]), spillKey := None)
    else g.(spillKey := None)
  }

  function PlainMap(m: map<Key, Group>, store: Store): map<Key, Group> {
    map k | k in m :: Plain(m[k], store)
  }

  function PlainShard(shard: Shard, store: Store): (r: Shard)
    ensures Sized(shard) ==> Sized(r)
  {
    shard.(active := PlainMap(shard.active, store))
  }

  function PlainShards(shards: seq<Shard>, store: Store): (r: seq<Shard>)
    ensures |r| == |shards| && forall i :: 0 <= i < |r| ==> r[i] == PlainShard(shards[i], store)
    ensures AllSized(shards) ==> AllSized(r)
  {
    seq(|shards|, i requires 0 <= i < |shards| => PlainShard(shards[i], store))
  }

  function PlainPending(pending: map<nat, map<Key, Group>>, store: Store): map<nat, map<Key, Group>> {
    map b | b in pending :: PlainMap(pending[b], store)
  }

  const NO_STORE := Store(map[], 0)

  function PlainState(s: State): (r: State)
    ensures WellSized(s) ==> WellSized(r)
  {
    State(PlainShards(s.shards, s.store), NO_STORE, PlainPending(s.pending, s.store), s.batches)
  }

  // ----- the store invariant -----

  /** Where an undecided group is. */
  datatype Place = InShard(i: nat, k: Key) | InBatch(b: nat, k: Key)

  predicate Occupied(s: State, at: Place) {
    match at
    case InShard(i, k) => i < |s.shards| && k in s.shards[i].active
    case InBatch(b, k) => b in s.pending && k in s.pending[b]
  }

  function GroupAt(s: State, at: Place): Group
    requires Occupied(s, at)
  {
    match at
    case InShard(i, k) => s.shards[i].active[k]
    case InBatch(b, k) => s.pending[b][k]
  }

  /** A spilled group keeps no bytes and its file holds more than the threshold. */
  predicate Backed(g: Group, store: Store, threshold: nat) {
    g.spillKey.Some? ==>
      && g.spillKey.value in store.data
      && g.spillKey.value <= store.seqNo
      && g.packet.payload == []
      && |store.data[g.spillKey.value]| > threshold
  }

  ghost predicate AllBacked(s: State, threshold: nat) {
    forall at :: Occupied(s, at) ==> Backed(GroupAt(s, at), s.store, threshold)
  }

  predicate SameFile(g: Group, h: Group) {
    g.spillKey.Some? && g.spillKey == h.spillKey
  }

  /** No two undecided groups share a file. */
  ghost predicate Unshared(s: State) {
    forall a, b :: Occupied(s, a) && Occupied(s, b) && SameFile(GroupAt(s, a), GroupAt(s, b)) ==> a == b
  }

  ghost predicate BatchesNumbered(s: State) {
    forall b :: b in s.pending ==> b < s.batches
  }

  ghost predicate SpillOk(s: State, mode: Mode) {
    mode.On? && AllBacked(s, mode.threshold) && Unshared(s) && BatchesNumbered(s)
  }

  // ----- one shard -----

  /** Between two stores nothing changes for groups whose file is neither removed nor new. */
  predicate AgreeFor(g: Group, store: Store, store': Store) {
    g.spillKey.Some? && g.spillKey.value in store.data ==>
      g.spillKey.value in store'.data && store'.data[g.spillKey.value] == store.data[g.spillKey.value]
  }

  lemma AgreeSame(g: Group, store: Store, store': Store, threshold: nat)
    requires Backed(g, store, threshold) && AgreeFor(g, store, store')
    ensures Plain(g, store') == Plain(g, store)
  {
  }

  /** What Ingest does to the store: it may add one new file and remove the old group's file. */
  ghost predicate StoreMoves(store: Store, store': Store, removed: Option<nat>) {
    && store.seqNo <= store'.seqNo
    && (forall k :: k in store.data && Some(k) != removed && k <= store.seqNo ==>
                      k in store'.data && store'.data[k] == store.data[k])
  }

  lemma HydrateIsPlain(mode: Mode, store: Store, g: Group)
    requires mode.On? && Backed(g, store, mode.threshold)
    ensures Hydrate(mode, store, g) == Some(Plain(g, store))
    ensures Hydrate(Off, NO_STORE, Plain(g, store)) == Some(Plain(g, store))
  {
  }

  /** A freshly spilled packet reads back as itself, also after the old file is released. */
  lemma SpillIsPlain(mode: Mode, store: Store, p: Packet, putOk: bool, g: Group, removed: Option<nat>)
    requires mode.On? && (removed.Some? ==> removed.value <= store.seqNo)
    ensures var (q, k, store') := SpillIfNeeded(mode, store, p, putOk);
            var released := Release(mode, store', removed);
            var h := g.(packet := q, spillKey := k);
            && Plain(h, released) == g.(packet := p, spillKey := None)
            && Backed(h, released, mode.threshold)
            && StoreMoves(store, released, removed)
            && (k.Some? ==> k.value > store.seqNo)
  {
  }

  /** The outcome of an ingest for its own key, with and without a spiller. */
  ghost predicate PlainIngest(key: Key, threshold: nat, store: Store, removed: Option<nat>, r: Ingested, o: Ingested) {
    && r.accepted == o.accepted && o.store == NO_STORE
    && r.shard.slots == o.shard.slots && r.shard.pos == o.shard.pos && r.shard.nextId == o.shard.nextId
    && (key in r.shard.active <==> key in o.shard.active)
    && (key in r.shard.active ==>
          && Plain(r.shard.active[key], r.store) == o.shard.active[key]
          && Backed(r.shard.active[key], r.store, threshold)
          && NewFile(r.shard.active[key], store))
    && StoreMoves(store, r.store, removed)
  }

  /** The group's file, if any, was written by this operation. */
  predicate NewFile(g: Group, store: Store) {
    g.spillKey.Some? ==> g.spillKey.value > store.seqNo
  }

  lemma IngestNewPlain(mode: Mode, shard: Shard, store: Store, key: Key, p: Packet, ttl: nat, putOk: bool)
    requires Sized(shard) && mode.On? && key !in shard.active
    ensures PlainIngest(key, mode.threshold, store, None,
                        IngestNew(mode, shard, store, key, p, ttl, putOk),
                        IngestNew(Off, PlainShard(shard, store), NO_STORE, key, p, ttl, putOk))
  {
  }

  lemma IngestOldPlain(env: Env, mode: Mode, shard: Shard, store: Store, key: Key, p: Packet, ttl: nat, putOk: bool)
    requires Sized(shard) && mode.On? && key in shard.active && Backed(shard.active[key], store, mode.threshold)
    ensures PlainIngest(key, mode.threshold, store, shard.active[key].spillKey,
                        IngestOld(env, mode, shard, store, key, p, ttl, putOk),
                        IngestOld(env, Off, PlainShard(shard, store), NO_STORE, key, p, ttl, putOk))
  {
    var g := shard.active[key];
    HydrateIsPlain(mode, store, g);
    var merged := MergePackets(env, Plain(g, store).packet, p);
    if merged.Some? {
      var at := (shard.pos + ttl) % SLOTS;
      var h := Plain(g, store).(slot := at, element := Element(shard.nextId, key));
      SpillIsPlain(mode, store, merged.value, putOk, h, g.spillKey);
    }
  }

  lemma IngestShardPlain(env: Env, cfg: Config, mode: Mode, shard: Shard, store: Store, p: Packet, putOk: bool)
    requires Sized(shard) && mode.On? && Ttl(cfg, p.dataType, p.token).Some?
    requires KeyOf(env, p) in shard.active ==> Backed(shard.active[KeyOf(env, p)], store, mode.threshold)
    ensures var key := KeyOf(env, p);
            PlainIngest(key, mode.threshold, store, if key in shard.active then shard.active[key].spillKey else None,
                        IngestShard(env, cfg, mode, shard, store, p, putOk),
                        IngestShard(env, cfg, Off, PlainShard(shard, store), NO_STORE, p, putOk))
  {
    var (key, ttl) := (KeyOf(env, p), Ttl(cfg, p.dataType, p.token).value);
    if key in shard.active {
      IngestOldPlain(env, mode, shard, store, key, p, ttl, putOk);
    } else {
      IngestNewPlain(mode, shard, store, key, p, ttl, putOk);
    }
  }

  // ----- steps of the whole sampler -----

  lemma PlainAt(s: State, at: Place)
    ensures Occupied(PlainState(s), at) <==> Occupied(s, at)
    ensures Occupied(s, at) ==> GroupAt(PlainState(s), at) == Plain(GroupAt(s, at), s.store)
  {
  }

  /** Every group but the one ingested into stays where it is. */
  lemma IngestLeavesOthers(env: Env, mode: Mode, s: State, op: Op, at: Place)
    requires WellSized(s) && op.Ingest? && |s.shards| > 0
    requires at != InShard(ShardOf(op.packet, |s.shards|), KeyOf(env, op.packet))
    ensures var s' := Step(env, mode, s, op);
            && (Occupied(s', at) <==> Occupied(s, at))
            && (Occupied(s, at) ==> GroupAt(s', at) == GroupAt(s, at))
  {
    IngestKeepsOtherKeys(env, op.cfg, mode, s.shards[ShardOf(op.packet, |s.shards|)], s.store, op.packet, op.putOk);
  }

  /** Every group but the one ingested into keeps its contents and its file. */
  lemma IngestOthers(env: Env, mode: Mode, s: State, op: Op, at: Place)
    requires WellSized(s) && SpillOk(s, mode) && op.Ingest? && |s.shards| > 0
    requires at != InShard(ShardOf(op.packet, |s.shards|), KeyOf(env, op.packet))
    ensures var s' := Step(env, mode, s, op);
            && (Occupied(s', at) <==> Occupied(s, at))
            && (Occupied(s, at) ==>
                  && GroupAt(s', at) == GroupAt(s, at)
                  && Plain(GroupAt(s, at), s'.store) == Plain(GroupAt(s, at), s.store)
                  && Backed(GroupAt(s, at), s'.store, mode.threshold))
  {
    IngestLeavesOthers(env, mode, s, op, at);
    var (i, key) := (ShardOf(op.packet, |s.shards|), KeyOf(env, op.packet));
    var shard := s.shards[i];
    if Ttl(op.cfg, op.packet.dataType, op.packet.token).Some? && Occupied(s, at) {
      assert Backed(GroupAt(s, at), s.store, mode.threshold);
      if key in shard.active {
        assert Occupied(s, InShard(i, key)) && GroupAt(s, InShard(i, key)) == shard.active[key];
        assert !SameFile(shard.active[key], GroupAt(s, at));
      }
      IngestShardPlain(env, op.cfg, mode, shard, s.store, op.packet, op.putOk);
    }
  }

  /** The ingested group: same content without a spiller, and its own file. */
  lemma IngestItself(env: Env, mode: Mode, s: State, op: Op)
    requires WellSized(s) && SpillOk(s, mode) && op.Ingest? && |s.shards| > 0
    ensures var at := InShard(ShardOf(op.packet, |s.shards|), KeyOf(env, op.packet));
            var (s', o) := (Step(env, mode, s, op), Step(env, Off, PlainState(s), op));
            && (Occupied(s', at) <==> Occupied(o, at))
            && (Occupied(s', at) ==>
                  && GroupAt(o, at) == Plain(GroupAt(s', at), s'.store)
                  && Backed(GroupAt(s', at), s'.store, mode.threshold)
                  && (GroupAt(s', at).spillKey.Some? ==>
                        NewFile(GroupAt(s', at), s.store) || (Occupied(s, at) && GroupAt(s', at) == GroupAt(s, at))))
  {
    var (i, key) := (ShardOf(op.packet, |s.shards|), KeyOf(env, op.packet));
    var at := InShard(i, key);
    PlainAt(s, at);
    assert Occupied(s, at) ==> Backed(GroupAt(s, at), s.store, mode.threshold);
    if Ttl(op.cfg, op.packet.dataType, op.packet.token).Some? {
      IngestShardPlain(env, op.cfg, mode, s.shards[i], s.store, op.packet, op.putOk);
    }
  }

  lemma IngestKeepsSpillOk(env: Env, mode: Mode, s: State, op: Op)
    requires WellSized(s) && SpillOk(s, mode) && op.Ingest? && |s.shards| > 0
    ensures SpillOk(Step(env, mode, s, op), mode)
  {
    var s' := Step(env, mode, s, op);
    var own := InShard(ShardOf(op.packet, |s.shards|), KeyOf(env, op.packet));
    IngestItself(env, mode, s, op);
    forall at | Occupied(s', at) ensures Backed(GroupAt(s', at), s'.store, mode.threshold) {
      if at != own {
        IngestOthers(env, mode, s, op, at);
      }
    }
    forall a, b | Occupied(s', a) && Occupied(s', b) && SameFile(GroupAt(s', a), GroupAt(s', b)) ensures a == b {
      if a != own {
        IngestOthers(env, mode, s, op, a);
      }
      if b != own {
        IngestOthers(env, mode, s, op, b);
      }
    }
  }

  lemma IngestStepPlain(env: Env, mode: Mode, s: State, op: Op)
    requires WellSized(s) && SpillOk(s, mode) && op.Ingest? && |s.shards| > 0
    ensures PlainState(Step(env, mode, s, op)) == Step(env, Off, PlainState(s), op)
  {
    var (i, key) := (ShardOf(op.packet, |s.shards|), KeyOf(env, op.packet));
    var (s', o) := (Step(env, mode, s, op), Step(env, Off, PlainState(s), op));
    var p := PlainState(s');
    IngestItself(env, mode, s, op);
    IngestKeepsOtherKeys(env, op.cfg, Off, PlainState(s).shards[i], NO_STORE, op.packet, op.putOk);
    forall at ensures Occupied(p, at) <==> Occupied(o, at)
      ensures Occupied(p, at) ==> GroupAt(p, at) == GroupAt(o, at)
    {
      PlainAt(s', at);
      PlainAt(s, at);
      if at != InShard(i, key) {
        IngestOthers(env, mode, s, op, at);
      }
    }
    if Ttl(op.cfg, op.packet.dataType, op.packet.token).Some? {
      assert key in s.shards[i].active ==> Occupied(s, InShard(i, key)) && GroupAt(s, InShard(i, key)) == s.shards[i].active[key];
      IngestShardPlain(env, op.cfg, mode, s.shards[i], s.store, op.packet, op.putOk);
    }
    SameGroupsSameState(p, o);
  }

  /** States that agree on wheels, numbering and every occupied place are equal. */
  lemma SameGroupsSameState(p: State, o: State)
    requires |p.shards| == |o.shards| && p.store == o.store && p.batches == o.batches && p.pending.Keys == o.pending.Keys
    requires forall i :: 0 <= i < |p.shards| ==>
                           p.shards[i].slots == o.shards[i].slots && p.shards[i].pos == o.shards[i].pos &&
                           p.shards[i].nextId == o.shards[i].nextId
    requires forall at :: Occupied(p, at) <==> Occupied(o, at)
    requires forall at :: Occupied(p, at) ==> GroupAt(p, at) == GroupAt(o, at)
    ensures p == o
  {
    forall i | 0 <= i < |p.shards| ensures p.shards[i] == o.shards[i] {
      forall k ensures k in p.shards[i].active <==> k in o.shards[i].active
        ensures k in p.shards[i].active ==> p.shards[i].active[k] == o.shards[i].active[k]
      {
        assert Occupied(p, InShard(i, k)) <==> Occupied(o, InShard(i, k));
      }
      assert p.shards[i].active == o.shards[i].active;
    }
    forall b | b in p.pending ensures p.pending[b] == o.pending[b] {
      forall k ensures k in p.pending[b] <==> k in o.pending[b]
        ensures k in p.pending[b] ==> p.pending[b][k] == o.pending[b][k]
      {
        assert Occupied(p, InBatch(b, k)) <==> Occupied(o, InBatch(b, k));
      }
    }
  }

  // ----- a tick -----

  lemma AdvanceShardPlain(shard: Shard, store: Store)
    requires Sized(shard)
    ensures PlainShard(AdvanceShard(shard), store) == AdvanceShard(PlainShard(shard, store))
    ensures PlainMap(Frozen(shard), store) == Frozen(PlainShard(shard, store))
  {
  }

  lemma PlainUnion(a: map<Key, Group>, b: map<Key, Group>, store: Store)
    ensures PlainMap(a + b, store) == PlainMap(a, store) + PlainMap(b, store)
  {
  }

  lemma PlainPendingUpdate(pending: map<nat, map<Key, Group>>, b: nat, m: map<Key, Group>, store: Store)
    ensures PlainPending(pending[b := m], store) == PlainPending(pending, store)[b := PlainMap(m, store)]
  {
  }

  lemma {:induction false} FrozenAllPlain(shards: seq<Shard>, store: Store)
    requires AllSized(shards)
    ensures PlainMap(FrozenAll(shards), store) == FrozenAll(PlainShards(shards, store))
  {
    if shards != [] {
      var n := |shards| - 1;
      assert PlainShards(shards, store)[..n] == PlainShards(shards[..n], store);
      FrozenAllPlain(shards[..n], store);
      AdvanceShardPlain(shards[n], store);
      PlainUnion(FrozenAll(shards[..n]), Frozen(shards[n]), store);
    }
  }

  lemma AdvanceAllPlain(shards: seq<Shard>, store: Store)
    requires AllSized(shards)
    ensures PlainShards(AdvanceAll(shards), store) == AdvanceAll(PlainShards(shards, store))
  {
    forall i | 0 <= i < |shards|
      ensures PlainShards(AdvanceAll(shards), store)[i] == AdvanceAll(PlainShards(shards, store))[i]
    {
      AdvanceShardPlain(shards[i], store);
    }
  }

  lemma AdvanceStepPlain(env: Env, mode: Mode, s: State)
    requires WellSized(s)
    ensures PlainState(Step(env, mode, s, Advance)) == Step(env, Off, PlainState(s), Advance)
  {
    AdvanceAllPlain(s.shards, s.store);
    FrozenAllPlain(s.shards, s.store);
    PlainPendingUpdate(s.pending, s.batches, FrozenAll(s.shards), s.store);
  }

  /** A frozen group comes from a shard. */
  lemma {:induction false} FrozenFrom(shards: seq<Shard>, k: Key) returns (i: nat)
    requires AllSized(shards) && k in FrozenAll(shards)
    ensures i < |shards| && k in Frozen(shards[i]) && Frozen(shards[i])[k] == FrozenAll(shards)[k]
  {
    var n := |shards| - 1;
    if k in Frozen(shards[n]) {
      i := n;
    } else {
      i := FrozenFrom(shards[..n], k);
    }
  }

  /** Where a group was before the tick. */
  lemma AdvanceOrigin(env: Env, mode: Mode, s: State, at: Place) returns (from: Place)
    requires WellSized(s) && BatchesNumbered(s) && Occupied(Step(env, mode, s, Advance), at)
    ensures Occupied(s, from) && GroupAt(Step(env, mode, s, Advance), at) == GroupAt(s, from)
    ensures if at.InBatch? && at.b == s.batches
            then from.InShard? && from.k == at.k && from.k in KeysIn(Due(s.shards[from.i]))
            else from == at && (at.InShard? ==> at.k !in KeysIn(Due(s.shards[at.i])))
  {
    if at.InBatch? && at.b == s.batches {
      var i := FrozenFrom(s.shards, at.k);
      from := InShard(i, at.k);
    } else {
      from := at;
    }
  }

  lemma AdvanceKeepsSpillOk(env: Env, mode: Mode, s: State)
    requires WellSized(s) && SpillOk(s, mode)
    ensures SpillOk(Step(env, mode, s, Advance), mode)
  {
    var s' := Step(env, mode, s, Advance);
    forall at | Occupied(s', at) ensures Backed(GroupAt(s', at), s'.store, mode.threshold) {
      var from := AdvanceOrigin(env, mode, s, at);
    }
    forall a, b | Occupied(s', a) && Occupied(s', b) && SameFile(GroupAt(s', a), GroupAt(s', b)) ensures a == b {
      var x := AdvanceOrigin(env, mode, s, a);
      var y := AdvanceOrigin(env, mode, s, b);
      assert SameFile(GroupAt(s, x), GroupAt(s, y));
    }
  }

  // ----- handing out outcomes -----

  /** Groups outside the batch keep their contents and their files. */
  lemma OutcomesOthers(env: Env, mode: Mode, s: State, op: Op, at: Place)
    requires WellSized(s) && SpillOk(s, mode) && op.Outcomes? && op.batch in s.pending
    ensures var s' := Step(env, mode, s, op);
            && (Occupied(s', at) <==> Occupied(s, at) && !(at.InBatch? && at.b == op.batch))
            && (Occupied(s', at) ==>
                  && GroupAt(s', at) == GroupAt(s, at)
                  && Plain(GroupAt(s, at), s'.store) == Plain(GroupAt(s, at), s.store)
                  && Backed(GroupAt(s, at), s'.store, mode.threshold))
  {
    var batch := s.pending[op.batch];
    if Occupied(s, at) && !(at.InBatch? && at.b == op.batch) && GroupAt(s, at).spillKey.Some? {
      forall k | k in batch ensures batch[k].spillKey != GroupAt(s, at).spillKey {
        assert Occupied(s, InBatch(op.batch, k)) && GroupAt(s, InBatch(op.batch, k)) == batch[k];
        assert !SameFile(GroupAt(s, at), GroupAt(s, InBatch(op.batch, k)));
      }
      assert GroupAt(s, at).spillKey.value !in SpillKeys(batch);
    }
  }

  lemma OutcomesStepPlain(env: Env, mode: Mode, s: State, op: Op)
    requires WellSized(s) && SpillOk(s, mode) && op.Outcomes? && op.batch in s.pending
    ensures PlainState(Step(env, mode, s, op)) == Step(env, Off, PlainState(s), op)
    ensures SpillOk(Step(env, mode, s, op), mode)
  {
    var s' := Step(env, mode, s, op);
    var (p, o) := (PlainState(s'), Step(env, Off, PlainState(s), op));
    forall at ensures Occupied(p, at) <==> Occupied(o, at)
      ensures Occupied(p, at) ==> GroupAt(p, at) == GroupAt(o, at)
      ensures Occupied(s', at) ==> Occupied(s, at) && GroupAt(s', at) == GroupAt(s, at) && Backed(GroupAt(s', at), s'.store, mode.threshold)
    {
      PlainAt(s', at);
      PlainAt(s, at);
      OutcomesOthers(env, mode, s, op, at);
    }
    SameGroupsSameState(p, o);
  }

  /** One step: the spilling sampler, read through its store, takes the step of the plain sampler. */
  lemma StepPlain(env: Env, mode: Mode, s: State, op: Op)
    requires WellSized(s) && SpillOk(s, mode)
    ensures SpillOk(Step(env, mode, s, op), mode)
    ensures PlainState(Step(env, mode, s, op)) == Step(env, Off, PlainState(s), op)
  {
    match op
    case Ingest(_, _, _) =>
      if |s.shards| > 0 {
        IngestKeepsSpillOk(env, mode, s, op);
        IngestStepPlain(env, mode, s, op);
      }
    case Advance =>
      AdvanceKeepsSpillOk(env, mode, s);
      AdvanceStepPlain(env, mode, s);
    case Outcomes(_, b) =>
      if b in s.pending {
        OutcomesStepPlain(env, mode, s, op);
      }
  }

  // ----- decisions -----

  /** A spilled, uncompressed payload without decodable first point that is decided from its summary. */
  predicate Undecodable(env: Env, cfg: Config, g: Group, store: Store) {
    && g.spillKey.Some? && g.spillKey.value in store.data
    && CompileAll(PipelinesFor(cfg, g.packet)).Some? && HasPredicates(g.packet.summary)
    && g.packet.compression == COMPRESSION_NONE && !FirstPointDecodes(env, store.data[g.spillKey.value])
  }

  /** In memory such a payload matches no pipeline; here one does. */
  predicate Misjudged(env: Env, cfg: Config, g: Group, store: Store) {
    Undecodable(env, cfg, g, store) && DecideWithPredicates(g.packet, PipelinesFor(cfg, g.packet)) != NoMatch
  }

  /** One keeps it. */
  predicate Diverges(env: Env, cfg: Config, g: Group, store: Store) {
    Undecodable(env, cfg, g, store) && DecideWithPredicates(g.packet, PipelinesFor(cfg, g.packet)).Kept?
  }

  /** A group's outcome is the one it would have had in memory, exactly unless it diverges. */
  lemma DecidePlain(env: Env, cfg: Config, mode: Mode, store: Store, g: Group)
    requires mode.On? && Backed(g, store, mode.threshold)
    ensures var (r, o) := (Decide(env, cfg, mode, store, g), Decide(env, cfg, Off, NO_STORE, Plain(g, store)));
            && (r.Kept() == o.Kept() <==> !Diverges(env, cfg, g, store))
            && (r.decision == o.decision <==> !Misjudged(env, cfg, g, store))
    ensures Decide(env, cfg, mode, store, g).Kept().Some? ==>
              Decide(env, cfg, mode, store, g).Kept().value == Plain(g, store).packet
  {
  }
}
