/**
 The tail sampler (aggregate/timewheel.go) as functions on its state: shards with a
 timing wheel of 3600 slots, groups that merge packets, and an optional store of
 spilled payloads. GlobalSampler.dfy holds the methods that compute these functions.

 Configurations arrive with each operation, so they may change at any point of a run.
 */
module Sampler {
  import opened Filter
  import opened SpanSummary
  import opened Compiler
  import opened Packets
  import opened Decisions
  import opened Hashing
  import opened Wrappers

  type Key = u64

  const SLOTS := 3600

  /** A list.Element: its identity and the group key it holds. */
  datatype Element = Element(id: nat, key: Key)

  datatype Group = Group(packet: Packet, slot: nat, element: Element, spillKey: Option<nat>)

  datatype Shard = Shard(active: map<Key, Group>, slots: seq<seq<Element>>, pos: nat, nextId: nat)

  /** The payload spiller: files under keys that count up. */
  datatype Store = Store(data: map<nat, Bytes>, seqNo: nat)

  datatype Mode = Off | On(threshold: nat)

  /** The sampler with the frozen batches whose outcomes have not been asked for. */
  datatype State = State(shards: seq<Shard>, store: Store, pending: map<nat, map<Key, Group>>, batches: nat)

  // ----- configuration -----

  type Pipelines = seq<Option<Pipeline>>

  datatype Dimension = Dimension(groupKey: Bytes, pipelines: Pipelines)
  datatype Trace = Trace(ttl: int, pipelines: Pipelines)
  datatype Dimensions = Dimensions(ttl: int, dims: seq<Dimension>)
  datatype Tenant = Tenant(trace: Option<Trace>, logging: Option<Dimensions>, rum: Option<Dimensions>)
  type Config = map<Bytes, Tenant>

  const TRACING: Bytes := [116, 114, 97, 99, 105, 110, 103]
  const LOGGING: Bytes := [108, 111, 103, 103, 105, 110, 103]
  const RUM: Bytes := [114, 117, 109]

  function DimensionsFor(cfg: Config, dataType: Bytes, token: Bytes): Option<Dimensions> {
    if token !in cfg then None
    else if dataType == LOGGING then cfg[token].logging
    else if dataType == RUM then cfg[token].rum
    else None
  }

  /** The time to live in seconds that the configuration of the token sets for this kind of data. */
  function ConfiguredTtl(cfg: Config, dataType: Bytes, token: Bytes): Option<int> {
    if dataType == TRACING then
      if token in cfg && cfg[token].trace.Some? then Some(cfg[token].trace.value.ttl) else None
    else
      var d := DimensionsFor(cfg, dataType, token);
      if d.Some? then Some(d.value.ttl) else None
  }

  /** The clamped time to live: refused without a positive one, and cut below one turn of the wheel. */
  function Ttl(cfg: Config, dataType: Bytes, token: Bytes): (r: Option<nat>)
    ensures r.Some? <==> ConfiguredTtl(cfg, dataType, token).Some? && ConfiguredTtl(cfg, dataType, token).value > 0
    ensures r.Some? ==> 1 <= r.value < SLOTS && r.value <= ConfiguredTtl(cfg, dataType, token).value
    ensures r.Some? && ConfiguredTtl(cfg, dataType, token).value < SLOTS ==> r.value == ConfiguredTtl(cfg, dataType, token).value
    ensures r.Some? && ConfiguredTtl(cfg, dataType, token).value >= SLOTS ==> r.value == SLOTS - 1
  {
    var ttl := ConfiguredTtl(cfg, dataType, token);
    if ttl.None? || ttl.value <= 0 then None else Some(if ttl.value >= SLOTS then SLOTS - 1 else ttl.value)
  }

  function FindDimension(dims: seq<Dimension>, groupKey: Bytes): Pipelines {
    if dims == [] then []
    else if dims[0].groupKey == groupKey then dims[0].pipelines
    else FindDimension(dims[1..], groupKey)
  }

  /** The loop over group dimensions: the pipelines of the first one with the key, or none. */
  method FindDimensionLoop(dims: seq<Dimension>, groupKey: Bytes) returns (pipelines: Pipelines)
    ensures pipelines == FindDimension(dims, groupKey)
    ensures if exists d <- dims :: d.groupKey == groupKey
            then exists i :: 0 <= i < |dims| && dims[i].groupKey == groupKey && pipelines == dims[i].pipelines && forall j :: 0 <= j < i ==> dims[j].groupKey != groupKey
            else pipelines == []
  {
    for i := 0 to |dims|
      invariant FindDimension(dims, groupKey) == FindDimension(dims[i..], groupKey)
      invariant forall j :: 0 <= j < i ==> dims[j].groupKey != groupKey
    {
      assert dims[i..][0] == dims[i] && dims[i..][1..] == dims[i + 1..];
      if dims[i].groupKey == groupKey {
        return dims[i].pipelines;
      }
    }
    return [];
  }

  /** pipelinesFor; no configuration and an empty list both decide nothing. */
  function PipelinesFor(cfg: Config, p: Packet): Pipelines {
    if p.dataType == TRACING then
      if p.token in cfg && cfg[p.token].trace.Some? then cfg[p.token].trace.value.pipelines else []
    else
      var d := DimensionsFor(cfg, p.dataType, p.token);
      if d.Some? then FindDimension(d.value.dims, p.groupKey) else []
  }

  // ----- merging -----

  function KeyOf(env: Env, p: Packet): Key {
    GroupMapKey(env.sum, p.token, p.groupIdHash, p.dataType, p.groupKey)
  }

  /** mergePacketPayload; None when either side does not decompress. */
  function MergePayload(env: Env, dst: Packet, src: Packet): Option<(Bytes, i32)> {
    if dst.compression == COMPRESSION_NONE && src.compression == COMPRESSION_NONE then
      Some((dst.payload + src.payload, COMPRESSION_NONE))
    else
      var (d, s) := (Decompress(env, dst.payload, dst.compression), Decompress(env, src.payload, src.compression));
      if d.None? || s.None? then None else Some(Compress(env, d.value + s.value))
  }

  /** The field updates of Ingest for a group that already exists. */
  function MergePackets(env: Env, dst: Packet, src: Packet): Option<Packet> {
    var merged := MergePayload(env, dst, src);
    if merged.None? then None
    else
      Some(dst.(
           payload := merged.value.0, compression := merged.value.1,
           hasError := dst.hasError || src.hasError,
           summary := Merge(dst.summary, src.summary),
           pointCount := ToInt32(dst.pointCount + src.pointCount),
           traceStart := if src.traceStart > 0 && (dst.traceStart == 0 || src.traceStart < dst.traceStart)
                         then src.traceStart else dst.traceStart,
           traceEnd := if src.traceEnd > dst.traceEnd then src.traceEnd else dst.traceEnd,
           maxPointTime := if src.maxPointTime > dst.maxPointTime then src.maxPointTime else dst.maxPointTime,
           rawGroupId := if dst.rawGroupId == [] then src.rawGroupId else dst.rawGroupId,
           configVersion := if src.configVersion > dst.configVersion then src.configVersion else dst.configVersion,
           source := if dst.source == [] then src.source else dst.source))
  }

  // ----- spilling -----

  /** spillIfNeeded; putOk is whether the spiller's write succeeds. */
  function SpillIfNeeded(mode: Mode, store: Store, p: Packet, putOk: bool): (Packet, Option<nat>, Store) {
    if mode.Off? || |p.payload| <= mode.threshold || !putOk then (p, None, store)
    else
      var k := store.seqNo + 1;
      (p.(payload := []), Some(k), Store(store.data[k := p.payload], k))
  }

  /** hydrateDataGroup; None when the read fails. */
  function Hydrate(mode: Mode, store: Store, g: Group): Option<Group> {
    if g.spillKey.None? || mode.Off? then Some(g)
    else if g.spillKey.value !in store.data then None
    else Some(g.(packet := g.packet.(payload := store.data[g.spillKey.value]), spillKey := None))
  }

  function Release(mode: Mode, store: Store, k: Option<nat>): Store {
    if mode.Off? || k.None? then store else store.(data := store.data - {k.value})
  }

  // ----- the wheel -----

  function Without(list: seq<Element>, e: Element): seq<Element> {
    if list == [] then []
    else if list[0] == e then list[1..]
    else [list[0]] + Without(list[1..], e)
  }

  predicate Sized(shard: Shard) {
    |shard.slots| == SLOTS && shard.pos < SLOTS && forall k :: k in shard.active ==> shard.active[k].slot < SLOTS
  }

  /** Hang a group on the slot ttl seconds ahead, under a new list element. */
  function Schedule(shard: Shard, key: Key, g: Group, ttl: nat): (r: Shard)
    requires Sized(shard)
    ensures Sized(r)
  {
    var at := (shard.pos + ttl) % SLOTS;
    var e := Element(shard.nextId, key);
    Shard(shard.active[key := g.(slot := at, element := e)],
          shard.slots[at := shard.slots[at] + [e]], shard.pos, shard.nextId + 1)
  }

  function Unschedule(shard: Shard, g: Group): (r: Shard)
    requires Sized(shard) && g.slot < SLOTS
    ensures Sized(r)
  {
    shard.(slots := shard.slots[g.slot := Without(shard.slots[g.slot], g.element)])
  }

  /** The result of Ingest on one shard. */
  datatype Ingested = Ingested(shard: Shard, store: Store, accepted: bool)

  function IngestNew(mode: Mode, shard: Shard, store: Store, key: Key, p: Packet, ttl: nat, putOk: bool): (r: Ingested)
    requires Sized(shard)
    ensures Sized(r.shard)
  {
    var (q, spillKey, store') := SpillIfNeeded(mode, store, p, putOk);
    Ingested(Schedule(shard, key, Group(q, 0, Element(0, key), spillKey), ttl), store', true)
  }

  function IngestOld(env: Env, mode: Mode, shard: Shard, store: Store, key: Key, p: Packet, ttl: nat, putOk: bool): (r: Ingested)
    requires Sized(shard) && key in shard.active
    ensures Sized(r.shard)
  {
    var old_ := shard.active[key];
    var hydrated := Hydrate(mode, store, old_);
    if hydrated.None? then Ingested(shard, store, false)
    else
      var merged := MergePackets(env, hydrated.value.packet, p);
      if merged.None? then
        // the group stays hydrated and its file stays in the store
        Ingested(shard.(active := shard.active[key := hydrated.value]), store, false)
      else
        var (q, spillKey, store') := SpillIfNeeded(mode, store, merged.value, putOk);
        var g := hydrated.value.(packet := q, spillKey := spillKey);
        Ingested(Schedule(Unschedule(shard, old_), key, g, ttl), Release(mode, store', old_.spillKey), true)
  }

  /** Ingest within the shard the packet is routed to. */
  function IngestShard(env: Env, cfg: Config, mode: Mode, shard: Shard, store: Store, p: Packet, putOk: bool): (r: Ingested)
    requires Sized(shard)
    ensures Sized(r.shard)
  {
    var ttl := Ttl(cfg, p.dataType, p.token);
    var key := KeyOf(env, p);
    if ttl.None? then Ingested(shard, store, false)
    else if key in shard.active then IngestOld(env, mode, shard, store, key, p, ttl.value, putOk)
    else IngestNew(mode, shard, store, key, p, ttl.value, putOk)
  }

  function KeysIn(list: seq<Element>): set<Key> {
    set e | e in list :: e.key
  }

  /** The slot the pointer moves to. */
  function Due(shard: Shard): seq<Element>
    requires Sized(shard)
  {
    shard.slots[(shard.pos + 1) % SLOTS]
  }

  /** One second passes: the groups on the next slot leave the shard. */
  function AdvanceShard(shard: Shard): (r: Shard)
    requires Sized(shard)
    ensures Sized(r)
  {
    var pos := (shard.pos + 1) % SLOTS;
    Shard(shard.active - KeysIn(Due(shard)), shard.slots[pos := []], pos, shard.nextId)
  }

  function Frozen(shard: Shard): map<Key, Group>
    requires Sized(shard)
  {
    map k | k in shard.active && k in KeysIn(Due(shard)) :: shard.active[k]
  }

  predicate AllSized(shards: seq<Shard>) {
    forall i :: 0 <= i < |shards| ==> Sized(shards[i])
  }

  function AdvanceAll(shards: seq<Shard>): (r: seq<Shard>)
    requires AllSized(shards)
    ensures |r| == |shards| && forall i :: 0 <= i < |r| ==> r[i] == AdvanceShard(shards[i])
  {
    seq(|shards|, i requires 0 <= i < |shards| => AdvanceShard(shards[i]))
  }

  /** The map AdvanceTime returns: a later shard overwrites an earlier one under the same key. */
  function FrozenAll(shards: seq<Shard>): map<Key, Group>
    requires AllSized(shards)
  {
    if shards == [] then map[]
    else FrozenAll(shards[..|shards| - 1]) + Frozen(shards[|shards| - 1])
  }

  // ----- decisions -----

  datatype Outcome = Outcome(decision: Decision, source: Packet) {
    /** The packet sent downstream. */
    function Kept(): Option<Packet> {
      if decision.Kept? then Some(source) else None
    }
  }

  /** TailSamplingOutcomes for one group: spilled bytes are read only when needed. */
  function Decide(env: Env, cfg: Config, mode: Mode, store: Store, g: Group): Outcome {
    var ps := PipelinesFor(cfg, g.packet);
    var fromSummary := g.spillKey.Some? && CompileAll(ps).Some? && HasPredicates(g.packet.summary);
    var read := if g.spillKey.Some? && !fromSummary then HydratedOrSame(mode, store, g) else g;
    var d := if fromSummary then DecideWithPredicates(read.packet, ps) else EvaluatePipelines(env, read.packet, ps);
    var final := if g.spillKey.Some? && d.Kept? && read.packet.payload == [] then HydratedOrSame(mode, store, read) else read;
    Outcome(d, final.packet)
  }

  function HydratedOrSame(mode: Mode, store: Store, g: Group): Group {
    var h := Hydrate(mode, store, g);
    if h.Some? then h.value else g
  }

  function SpillKeys(groups: map<Key, Group>): set<nat> {
    set k | k in groups && groups[k].spillKey.Some? :: groups[k].spillKey.value
  }

  // ----- runs -----

  datatype Op =
    | Ingest(cfg: Config, packet: Packet, putOk: bool)
    | Advance
    | Outcomes(cfg: Config, batch: nat)

  function ShardOf(p: Packet, n: nat): nat
    requires n > 0
  {
    p.groupIdHash % n
  }

  predicate WellSized(s: State) {
    AllSized(s.shards)
  }

  function IngestOp(env: Env, mode: Mode, s: State, op: Op): (r: Ingested)
    requires WellSized(s) && op.Ingest? && |s.shards| > 0
    ensures Sized(r.shard)
  {
    IngestShard(env, op.cfg, mode, s.shards[ShardOf(op.packet, |s.shards|)], s.store, op.packet, op.putOk)
  }

  predicate Accepted(env: Env, mode: Mode, s: State, op: Op)
    requires WellSized(s)
  {
    op.Ingest? && |s.shards| > 0 && IngestOp(env, mode, s, op).accepted
  }

  function Step(env: Env, mode: Mode, s: State, op: Op): (r: State)
    requires WellSized(s)
    ensures WellSized(r) && |r.shards| == |s.shards|
  {
    match op
    case Ingest(_, p, _) =>
      if |s.shards| == 0 then s
      else
        var r := IngestOp(env, mode, s, op);
        s.(shards := s.shards[ShardOf(p, |s.shards|) := r.shard], store := r.store)
    case Advance =>
      s.(shards := AdvanceAll(s.shards), pending := s.pending[s.batches := FrozenAll(s.shards)], batches := s.batches + 1)
    case Outcomes(_, b) =>
      if b !in s.pending then s
      else
        s.(pending := s.pending - {b},
        store := if mode.Off? then s.store else s.store.(data := s.store.data - SpillKeys(s.pending[b])))
  }

  /** What the operation returns; only Outcomes returns decisions. */
  function Results(env: Env, mode: Mode, s: State, op: Op): map<Key, Outcome> {
    if op.Outcomes? && op.batch in s.pending then
      map k | k in s.pending[op.batch] :: Decide(env, op.cfg, mode, s.store, s.pending[op.batch][k])
    else map[]
  }

  function Run(env: Env, mode: Mode, s: State, ops: seq<Op>): (r: State)
    requires WellSized(s)
    ensures WellSized(r) && |r.shards| == |s.shards|
  {
    if ops == [] then s else Step(env, mode, Run(env, mode, s, ops[..|ops| - 1]), ops[|ops| - 1])
  }

  const EMPTY_SHARD := Shard(map[], seq(SLOTS, _ => []), 0, 0)

  /** NewGlobalSampler. */
  function Initial(shardCount: nat): (s: State)
    ensures WellSized(s)
  {
    State(seq(shardCount, _ => EMPTY_SHARD), Store(map[], 0), map[], 0)
  }
}
