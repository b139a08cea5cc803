/** What a group is: the packets accepted for it since it was last returned, merged in order. */
module GroupProofs {
  import opened Hashing
  import opened Packets
  import opened Sampler
  import opened SpanSummary
  import opened SpillProofs
  import opened SpillRuns
  import opened WheelProofs
  import opened Wrappers

  // ----- the merge of a list of packets -----

  function Merged(env: Env, ps: seq<Packet>): Option<Packet>
    requires ps != []
  {
    if |ps| == 1 then Some(ps[0])
    else
      var init := Merged(env, ps[..|ps| - 1]);
      if init.None? then None else MergePackets(env, init.value, ps[|ps| - 1])
  }

  /** x is the largest value of f. */
  ghost predicate Largest(x: int, ps: seq<Packet>, f: Packet -> int) {
    (exists p <- ps :: f(p) == x) && forall p <- ps :: f(p) <= x
  }

  /** x is the first value of f that is not empty, if there is one. */
  ghost predicate FirstFilled(x: Bytes, ps: seq<Packet>, f: Packet -> Bytes) {
    if x == [] then forall p <- ps :: f(p) == []
    else exists i :: 0 <= i < |ps| && f(ps[i]) == x && forall j :: 0 <= j < i ==> f(ps[j]) == []
  }

  /** x is the earliest start that is set; a negative start of the first packet stays. */
  ghost predicate EarliestStart(x: int, ps: seq<Packet>)
    requires ps != []
  {
    if ps[0].traceStart < 0 then x == ps[0].traceStart
    else if x == 0 then forall p <- ps :: p.traceStart <= 0
    else x > 0 && (exists p <- ps :: p.traceStart == x) && forall p <- ps :: p.traceStart > 0 ==> x <= p.traceStart
  }

  lemma LargestNext(x: int, ps: seq<Packet>, p: Packet, f: Packet -> int)
    requires Largest(x, ps, f)
    ensures Largest(if f(p) > x then f(p) else x, ps + [p], f)
  {
    var o :| o in ps && f(o) == x;
    assert o in ps + [p] && p in ps + [p];
  }

  lemma FirstFilledNext(x: Bytes, ps: seq<Packet>, p: Packet, f: Packet -> Bytes)
    requires FirstFilled(x, ps, f)
    ensures FirstFilled(if x == [] then f(p) else x, ps + [p], f)
  {
    var qs := ps + [p];
    if x != [] {
      var i :| 0 <= i < |ps| && f(ps[i]) == x && forall j :: 0 <= j < i ==> f(ps[j]) == [];
      assert f(qs[i]) == x;
    } else if f(p) != [] {
      assert f(qs[|ps|]) == f(p);
    }
  }

  lemma EarliestStartNext(x: int, ps: seq<Packet>, p: Packet)
    requires ps != [] && EarliestStart(x, ps)
    ensures EarliestStart(if p.traceStart > 0 && (x == 0 || p.traceStart < x) then p.traceStart else x, ps + [p])
  {
    assert p in ps + [p];
    if x > 0 {
      var o :| o in ps && o.traceStart == x;
      assert o in ps + [p];
    }
  }

  /** The fields of a merge that come from all its packets. */
  ghost predicate Collects(g: Packet, ps: seq<Packet>)
    requires ps != []
  {
    && (g.hasError <==> exists p <- ps :: p.hasError)
    && Largest(g.traceEnd, ps, (p: Packet) => p.traceEnd)
    && Largest(g.maxPointTime, ps, (p: Packet) => p.maxPointTime)
    && Largest(g.configVersion, ps, (p: Packet) => p.configVersion)
    && EarliestStart(g.traceStart, ps)
    && FirstFilled(g.rawGroupId, ps, (p: Packet) => p.rawGroupId)
    && FirstFilled(g.source, ps, (p: Packet) => p.source)
    && g.groupIdHash == ps[0].groupIdHash && g.token == ps[0].token && g.dataType == ps[0].dataType && g.groupKey == ps[0].groupKey
  }

  lemma CollectsOne(p: Packet)
    ensures Collects(p, [p])
  {
    assert p in [p] && [p][0] == p;
  }

  lemma CollectsNext(env: Env, g: Packet, ps: seq<Packet>, p: Packet)
    requires ps != [] && Collects(g, ps) && MergePackets(env, g, p).Some?
    ensures Collects(MergePackets(env, g, p).value, ps + [p])
  {
    LargestNext(g.traceEnd, ps, p, (p: Packet) => p.traceEnd);
    LargestNext(g.maxPointTime, ps, p, (p: Packet) => p.maxPointTime);
    LargestNext(g.configVersion, ps, p, (p: Packet) => p.configVersion);
    EarliestStartNext(g.traceStart, ps, p);
    FirstFilledNext(g.rawGroupId, ps, p, (p: Packet) => p.rawGroupId);
    FirstFilledNext(g.source, ps, p, (p: Packet) => p.source);
    ErrorNext(g, ps, p);
  }

  lemma ErrorNext(g: Packet, ps: seq<Packet>, p: Packet)
    requires g.hasError <==> exists o <- ps :: o.hasError
    ensures g.hasError || p.hasError <==> exists o <- ps + [p] :: o.hasError
  {
    assert p in ps + [p];
    if g.hasError {
      var o :| o in ps && o.hasError;
      assert o in ps + [p];
    }
  }

  /** Merging a list keeps its first identity, any error, the latest ends, the earliest start and the first names. */
  lemma {:induction false} MergedCollects(env: Env, ps: seq<Packet>)
    requires ps != [] && Merged(env, ps).Some?
    ensures Collects(Merged(env, ps).value, ps)
  {
    var init, last := ps[..|ps| - 1], ps[|ps| - 1];
    assert ps == init + [last];
    if init == [] {
      CollectsOne(last);
    } else {
      MergedCollects(env, init);
      CollectsNext(env, Merged(env, init).value, init, last);
    }
  }

  // ----- payloads -----

  function Raw(env: Env, p: Packet): Option<Bytes> {
    Decompress(env, p.payload, p.compression)
  }

  /** The raw payloads one after the other. */
  function Joined(env: Env, ps: seq<Packet>): Bytes
    requires forall p <- ps :: Raw(env, p).Some?
  {
    if ps == [] then [] else Joined(env, ps[..|ps| - 1]) + Raw(env, ps[|ps| - 1]).value
  }

  /** Two packets merge exactly when both decompress, and then to the one payload behind the other. */
  lemma MergeJoins(env: Env, dst: Packet, src: Packet)
    requires Lawful(env)
    ensures MergePackets(env, dst, src).Some? <==> Raw(env, dst).Some? && Raw(env, src).Some?
    ensures MergePackets(env, dst, src).Some? ==> Raw(env, MergePackets(env, dst, src).value) == Some(Raw(env, dst).value + Raw(env, src).value)
  {
    if Raw(env, dst).Some? && Raw(env, src).Some? {
      CompressThenDecompress(env, Raw(env, dst).value + Raw(env, src).value);
    }
  }

  /** A list merges, from a decompressible first packet on, exactly when all decompress, and its payload is all of theirs in order. */
  lemma {:induction false} MergedJoins(env: Env, ps: seq<Packet>)
    requires Lawful(env) && ps != [] && Raw(env, ps[0]).Some?
    ensures Merged(env, ps).Some? <==> forall p <- ps :: Raw(env, p).Some?
    ensures Merged(env, ps).Some? ==> Raw(env, Merged(env, ps).value) == Some(Joined(env, ps))
  {
    var n := |ps| - 1;
    if n == 0 {
      assert ps == [ps[0]] && ps[..0] == [];
      var raw := Raw(env, ps[0]).value;
      assert Joined(env, ps) == [] + raw == raw;
    } else {
      MergedJoins(env, ps[..n]);
      assert ps == ps[..n] + [ps[n]];
      if Merged(env, ps[..n]).Some? {
        MergeJoins(env, Merged(env, ps[..n]).value, ps[n]);
      }
      assert ps[n] in ps && forall p <- ps[..n] :: p in ps;
    }
  }

  // ----- runs -----

  /** The packets accepted for key k in shard i since the group was last returned. */
  ghost function Collected(env: Env, n: nat, ops: seq<Op>, i: nat, k: Key): seq<Packet>
    requires i < n
  {
    if ops == [] then []
    else
      var (init, op) := (ops[..|ops| - 1], ops[|ops| - 1]);
      var s := Run(env, Off, Initial(n), init);
      if Touches(env, Off, s, op, i, k) then Collected(env, n, init, i, k) + [op.packet]
      else if op.Advance? && k in Frozen(s.shards[i]) then []
      else Collected(env, n, init, i, k)
  }

  /** The group of k in the shard is the merge of ps, or there is none and ps is empty. */
  ghost predicate GroupIs(env: Env, shard: Shard, k: Key, ps: seq<Packet>) {
    && (k in shard.active <==> ps != [])
    && (ps != [] ==> Merged(env, ps) == Some(shard.active[k].packet))
  }

  lemma IngestGroup(env: Env, cfg: Config, shard: Shard, store: Store, p: Packet, putOk: bool, ps: seq<Packet>)
    requires Sized(shard) && GroupIs(env, shard, KeyOf(env, p), ps)
    ensures var r := IngestShard(env, cfg, Off, shard, store, p, putOk);
            GroupIs(env, r.shard, KeyOf(env, p), if r.accepted then ps + [p] else ps)
  {
    assert (ps + [p])[..|ps|] == ps;
  }

  lemma StepGroup(env: Env, s: State, op: Op, i: nat, k: Key, ps: seq<Packet>)
    requires WellSized(s) && i < |s.shards| && GroupIs(env, s.shards[i], k, ps)
    ensures var s' := Step(env, Off, s, op);
            GroupIs(env, s'.shards[i], k,
                    if Touches(env, Off, s, op, i, k) then ps + [op.packet]
                    else if op.Advance? && k in Frozen(s.shards[i]) then []
                    else ps)
  {
    if op.Ingest? && ShardOf(op.packet, |s.shards|) == i {
      if KeyOf(env, op.packet) == k {
        IngestGroup(env, op.cfg, s.shards[i], s.store, op.packet, op.putOk, ps);
      } else {
        OtherGroupStays(env, op.cfg, s.shards[i], s.store, op.packet, op.putOk, k);
      }
    }
  }

  lemma OtherGroupStays(env: Env, cfg: Config, shard: Shard, store: Store, p: Packet, putOk: bool, k: Key)
    requires Sized(shard) && k != KeyOf(env, p)
    ensures var r := IngestShard(env, cfg, Off, shard, store, p, putOk).shard;
            (k in r.active <==> k in shard.active) && (k in shard.active ==> r.active[k] == shard.active[k])
  {
  }

  /** Over every run, a group is the merge of exactly the packets accepted for it since it was last returned, in their order. */
  lemma {:induction false} RunCollects(env: Env, n: nat, ops: seq<Op>, i: nat, k: Key)
    requires i < n
    ensures GroupIs(env, Run(env, Off, Initial(n), ops).shards[i], k, Collected(env, n, ops, i, k))
  {
    if ops != [] {
      var init := ops[..|ops| - 1];
      RunCollects(env, n, init, i, k);
      StepGroup(env, Run(env, Off, Initial(n), init), ops[|ops| - 1], i, k, Collected(env, n, init, i, k));
    }
  }

  /** The same with a spiller, once the spilled bytes are read back. */
  lemma SpilledRunCollects(env: Env, mode: Mode, n: nat, ops: seq<Op>, i: nat, k: Key)
    requires i < n && mode.On?
    ensures var s := Run(env, mode, Initial(n), ops);
            GroupIs(env, PlainShard(s.shards[i], s.store), k, Collected(env, n, ops, i, k))
  {
    RunPlain(env, mode, n, ops);
    RunCollects(env, n, ops, i, k);
  }
}
