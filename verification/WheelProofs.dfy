/**
 The timing wheel over every run: each active group hangs on exactly one element, in
 the slot it records; it leaves at the tick its last ingest chose; and no point is lost.
 */
module WheelProofs {
  import opened Packets
  import opened Sampler
  import opened Wrappers

  // ----- consistency -----

  ghost predicate NoDuplicates(list: seq<Element>) {
    forall a, b :: 0 <= a < b < |list| ==> list[a] != list[b]
  }

  /** An active group's own element is in the slot the group records. */
  ghost predicate Hung(shard: Shard, k: Key)
    requires Sized(shard) && k in shard.active
  {
    var g := shard.active[k];
    g.element.key == k && g.element.id < shard.nextId && g.element in shard.slots[g.slot]
  }

  /** A list element belongs to the active group it names. */
  ghost predicate Owned(shard: Shard, i: nat, e: Element)
    requires Sized(shard)
  {
    e.key in shard.active && shard.active[e.key].element == e && shard.active[e.key].slot == i
  }

  /** Groups and elements correspond one to one, and the slot under the pointer is empty. */
  ghost predicate Consistent(shard: Shard) {
    && Sized(shard)
    && shard.slots[shard.pos] == []
    && (forall k :: k in shard.active ==> Hung(shard, k))
    && (forall i, e :: 0 <= i < SLOTS && e in shard.slots[i] ==> Owned(shard, i, e))
    && (forall i :: 0 <= i < SLOTS ==> NoDuplicates(shard.slots[i]))
  }

  lemma {:induction false} WithoutMembers(list: seq<Element>, e: Element)
    requires NoDuplicates(list)
    ensures NoDuplicates(Without(list, e))
    ensures forall x :: x in Without(list, e) <==> x in list && x != e
  {
    if list != [] {
      assert list == [list[0]] + list[1..];
      assert list[0] !in list[1..];
      WithoutMembers(list[1..], e);
    }
  }

  /** The shard with one group's element taken off its list. */
  ghost predicate ConsistentExcept(shard: Shard, key: Key) {
    && Sized(shard)
    && shard.slots[shard.pos] == []
    && (forall k :: k in shard.active && k != key ==> Hung(shard, k))
    && (forall i, e :: 0 <= i < SLOTS && e in shard.slots[i] ==> e.key != key && Owned(shard, i, e))
    && (forall i :: 0 <= i < SLOTS ==> NoDuplicates(shard.slots[i]))
    && (forall k :: k in shard.active ==> shard.active[k].element.id < shard.nextId)
  }

  lemma UnscheduleLeaves(shard: Shard, key: Key)
    requires Consistent(shard) && key in shard.active
    ensures ConsistentExcept(Unschedule(shard, shard.active[key]), key)
  {
    var g := shard.active[key];
    var r := Unschedule(shard, g);
    assert Hung(shard, key);
    WithoutMembers(shard.slots[g.slot], g.element);
    forall i, e | 0 <= i < SLOTS && e in r.slots[i]
      ensures e.key != key && Owned(r, i, e)
    {
      assert e in shard.slots[i] && Owned(shard, i, e);
    }
    forall k | k in r.active && k != key ensures Hung(r, k) {
      assert Hung(shard, k);
    }
    assert forall k :: k in shard.active ==> Hung(shard, k);
  }

  lemma ScheduleRestores(shard: Shard, key: Key, g: Group, ttl: nat)
    requires ConsistentExcept(shard, key) && 1 <= ttl < SLOTS
    ensures Consistent(Schedule(shard, key, g, ttl))
  {
    var r := Schedule(shard, key, g, ttl);
    var at := (shard.pos + ttl) % SLOTS;
    var fresh_ := Element(shard.nextId, key);
    assert at != shard.pos;
    forall i, e | 0 <= i < SLOTS && e in r.slots[i] ensures Owned(r, i, e) {
      if !(i == at && e == fresh_) {
        assert e in shard.slots[i] && Owned(shard, i, e);
      }
    }
    forall k | k in r.active ensures Hung(r, k) {
      if k != key {
        assert Hung(shard, k);
      }
    }
    assert fresh_ !in shard.slots[at];
  }

  lemma IngestKeepsConsistent(env: Env, cfg: Config, mode: Mode, shard: Shard, store: Store, p: Packet, putOk: bool)
    requires Consistent(shard)
    ensures Consistent(IngestShard(env, cfg, mode, shard, store, p, putOk).shard)
  {
    var ttl := Ttl(cfg, p.dataType, p.token);
    var key := KeyOf(env, p);
    if ttl.Some? && key !in shard.active {
      var (q, spillKey, _) := SpillIfNeeded(mode, store, p, putOk);
      NotListed(shard, key);
      ScheduleRestores(shard, key, Group(q, 0, Element(0, key), spillKey), ttl.value);
    } else if ttl.Some? {
      IngestOldKeepsConsistent(env, mode, shard, store, key, p, ttl.value, putOk);
    }
  }

  lemma NotListed(shard: Shard, key: Key)
    requires Consistent(shard) && key !in shard.active
    ensures ConsistentExcept(shard, key)
  {
  }

  lemma IngestOldKeepsConsistent(env: Env, mode: Mode, shard: Shard, store: Store, key: Key, p: Packet, ttl: nat, putOk: bool)
    requires Consistent(shard) && key in shard.active && 1 <= ttl < SLOTS
    ensures Consistent(IngestOld(env, mode, shard, store, key, p, ttl, putOk).shard)
  {
    var g := shard.active[key];
    var hydrated := Hydrate(mode, store, g);
    if hydrated.Some? {
      var merged := MergePackets(env, hydrated.value.packet, p);
      if merged.None? {
        PayloadOnly(shard, key, hydrated.value);
      } else {
        var (q, spillKey, _) := SpillIfNeeded(mode, store, merged.value, putOk);
        UnscheduleLeaves(shard, key);
        ScheduleRestores(Unschedule(shard, g), key, hydrated.value.(packet := q, spillKey := spillKey), ttl);
      }
    }
  }

  /** Replacing a group without touching its element or slot keeps the wheel. */
  lemma PayloadOnly(shard: Shard, key: Key, g: Group)
    requires Consistent(shard) && key in shard.active
    requires g.slot == shard.active[key].slot && g.element == shard.active[key].element
    ensures Consistent(shard.(active := shard.active[key := g]))
  {
  }

  lemma AdvanceKeepsConsistent(shard: Shard)
    requires Consistent(shard)
    ensures Consistent(AdvanceShard(shard))
    ensures forall k :: k in shard.active ==> (k in KeysIn(Due(shard)) <==> shard.active[k].slot == (shard.pos + 1) % SLOTS)
  {
  }

  ghost predicate AllConsistent(s: State) {
    forall i :: 0 <= i < |s.shards| ==> Consistent(s.shards[i])
  }

  lemma StepKeepsConsistent(env: Env, mode: Mode, s: State, op: Op)
    requires WellSized(s) && AllConsistent(s)
    ensures AllConsistent(Step(env, mode, s, op))
  {
    if op.Ingest? && |s.shards| > 0 {
      IngestKeepsConsistent(env, op.cfg, mode, s.shards[ShardOf(op.packet, |s.shards|)], s.store, op.packet, op.putOk);
    } else if op.Advance? {
      forall i | 0 <= i < |s.shards| ensures Consistent(AdvanceShard(s.shards[i])) {
        AdvanceKeepsConsistent(s.shards[i]);
      }
    }
  }

  /** In every state a new sampler can reach, groups and list elements correspond one to one. */
  lemma {:induction false} RunKeepsConsistent(env: Env, mode: Mode, shardCount: nat, ops: seq<Op>)
    ensures AllConsistent(Run(env, mode, Initial(shardCount), ops))
  {
    if ops != [] {
      RunKeepsConsistent(env, mode, shardCount, ops[..|ops| - 1]);
      StepKeepsConsistent(env, mode, Run(env, mode, Initial(shardCount), ops[..|ops| - 1]), ops[|ops| - 1]);
    }
  }

  // ----- timing -----

  /** Ticks until the group on this slot is due. */
  function Remaining(shard: Shard, k: Key): nat
    requires Sized(shard) && k in shard.active
  {
    (shard.active[k].slot - shard.pos) % SLOTS
  }

  /** The operation restarts the timer of key k in shard i. */
  predicate Touches(env: Env, mode: Mode, s: State, op: Op, i: nat, k: Key)
    requires WellSized(s)
  {
    Accepted(env, mode, s, op) && ShardOf(op.packet, |s.shards|) == i && KeyOf(env, op.packet) == k
  }

  lemma ScheduleSetsTimer(shard: Shard, key: Key, g: Group, ttl: nat)
    requires Sized(shard) && 1 <= ttl < SLOTS
    ensures Remaining(Schedule(shard, key, g, ttl), key) == ttl
  {
  }

  /** On one shard: an accepted ingest sets its own timer and leaves every other group's slot alone. */
  lemma IngestTimers(env: Env, cfg: Config, mode: Mode, shard: Shard, store: Store, p: Packet, putOk: bool)
    requires Sized(shard)
    ensures var (r, key) := (IngestShard(env, cfg, mode, shard, store, p, putOk), KeyOf(env, p));
            && (r.accepted ==> key in r.shard.active && Ttl(cfg, p.dataType, p.token) == Some(Remaining(r.shard, key)))
            && r.shard.pos == shard.pos
            && (forall k :: k in shard.active && !(r.accepted && k == key) ==>
                              k in r.shard.active && r.shard.active[k].slot == shard.active[k].slot)
  {
    var (key, ttl) := (KeyOf(env, p), Ttl(cfg, p.dataType, p.token));
    if ttl.Some? && key in shard.active {
      var g := shard.active[key];
      var hydrated := Hydrate(mode, store, g);
      if hydrated.Some? && MergePackets(env, hydrated.value.packet, p).Some? {
        var (q, spillKey, _) := SpillIfNeeded(mode, store, MergePackets(env, hydrated.value.packet, p).value, putOk);
        ScheduleSetsTimer(Unschedule(shard, g), key, hydrated.value.(packet := q, spillKey := spillKey), ttl.value);
      }
    } else if ttl.Some? {
      var (q, spillKey, _) := SpillIfNeeded(mode, store, p, putOk);
      ScheduleSetsTimer(shard, key, Group(q, 0, Element(0, key), spillKey), ttl.value);
    }
  }

  /** An accepted ingest sets the timer to the clamped time to live, for a new group and for an old one. */
  lemma IngestStartsTimer(env: Env, mode: Mode, s: State, op: Op, i: nat, k: Key)
    requires WellSized(s) && i < |s.shards| && Touches(env, mode, s, op, i, k)
    ensures var r := Step(env, mode, s, op).shards[i];
            k in r.active && Ttl(op.cfg, op.packet.dataType, op.packet.token) == Some(Remaining(r, k))
  {
    IngestTimers(env, op.cfg, mode, s.shards[i], s.store, op.packet, op.putOk);
  }

  lemma AdvanceCountsDown(a: Shard, k: Key)
    requires Consistent(a) && k in a.active
    ensures var r := AdvanceShard(a);
            if Remaining(a, k) > 1 then k in r.active && Remaining(r, k) == Remaining(a, k) - 1 && k !in Frozen(a)
            else k !in r.active && k in Frozen(a) && Frozen(a)[k] == a.active[k]
  {
  }

  /** One operation: a tick counts down, and the last tick freezes the group; anything else leaves the timer alone. */
  lemma StepCountsDown(env: Env, mode: Mode, s: State, op: Op, i: nat, k: Key)
    requires WellSized(s) && AllConsistent(s) && i < |s.shards|
    requires k in s.shards[i].active && !Touches(env, mode, s, op, i, k)
    ensures var (a, r) := (s.shards[i], Step(env, mode, s, op).shards[i]);
            if !op.Advance? then k in r.active && Remaining(r, k) == Remaining(a, k)
            else if Remaining(a, k) > 1 then k in r.active && Remaining(r, k) == Remaining(a, k) - 1 && k !in Frozen(a)
            else k !in r.active && k in Frozen(a) && Frozen(a)[k] == a.active[k]
  {
    if op.Advance? {
      AdvanceCountsDown(s.shards[i], k);
      assert Step(env, mode, s, op).shards[i] == AdvanceShard(s.shards[i]);
    } else {
      StepLeavesTimer(env, mode, s, op, i, k);
    }
  }

  lemma StepLeavesTimer(env: Env, mode: Mode, s: State, op: Op, i: nat, k: Key)
    requires WellSized(s) && i < |s.shards| && !op.Advance?
    requires k in s.shards[i].active && !Touches(env, mode, s, op, i, k)
    ensures var (a, r) := (s.shards[i], Step(env, mode, s, op).shards[i]); k in r.active && Remaining(r, k) == Remaining(a, k)
  {
    if op.Ingest? && ShardOf(op.packet, |s.shards|) == i {
      IngestTimers(env, op.cfg, mode, s.shards[i], s.store, op.packet, op.putOk);
    }
  }

  function Ticks(ops: seq<Op>): nat {
    if ops == [] then 0 else Ticks(ops[..|ops| - 1]) + if ops[|ops| - 1].Advance? then 1 else 0
  }

  /** No operation of the run restarts the timer of k in shard i. */
  ghost predicate Untouched(env: Env, mode: Mode, s: State, ops: seq<Op>, i: nat, k: Key)
    requires WellSized(s)
  {
    forall n :: 0 <= n < |ops| ==> !Touches(env, mode, Run(env, mode, s, ops[..n]), ops[n], i, k)
  }

  /** While fewer ticks than the timer have passed, the group stays and its timer is down by that many. */
  lemma {:induction false} RunCountsDown(env: Env, mode: Mode, s: State, ops: seq<Op>, i: nat, k: Key)
    requires WellSized(s) && AllConsistent(s) && i < |s.shards| && k in s.shards[i].active
    requires Untouched(env, mode, s, ops, i, k) && Ticks(ops) < Remaining(s.shards[i], k)
    ensures var r := Run(env, mode, s, ops);
            AllConsistent(r) && k in r.shards[i].active &&
            Remaining(r.shards[i], k) == Remaining(s.shards[i], k) - Ticks(ops)
  {
    if ops != [] {
      var init := ops[..|ops| - 1];
      forall n | 0 <= n < |init| ensures !Touches(env, mode, Run(env, mode, s, init[..n]), init[n], i, k) {
        assert init[..n] == ops[..n] && init[n] == ops[n];
      }
      RunCountsDown(env, mode, s, init, i, k);
      StepCountsDown(env, mode, Run(env, mode, s, init), ops[|ops| - 1], i, k);
      StepKeepsConsistent(env, mode, Run(env, mode, s, init), ops[|ops| - 1]);
    }
  }

  /**
   Wheel timing: after an accepted ingest with clamped time to live t, and until the
   group is touched again, every tick before the t-th keeps it and the t-th returns it.
   */
  lemma ReturnedByExactlyTheLastTick(env: Env, mode: Mode, s: State, op: Op, ops: seq<Op>, i: nat, k: Key)
    requires WellSized(s) && AllConsistent(s) && i < |s.shards| && Touches(env, mode, s, op, i, k)
    requires var s' := Step(env, mode, s, op); Untouched(env, mode, s', ops, i, k)
    ensures var (s', t) := (Step(env, mode, s, op), Ttl(op.cfg, op.packet.dataType, op.packet.token).value);
            var r := Run(env, mode, s', ops);
            && (Ticks(ops) < t ==> k in r.shards[i].active)
            && (Ticks(ops) + 1 < t ==> k !in Frozen(r.shards[i]))
            && (Ticks(ops) + 1 == t ==> k in Frozen(r.shards[i]))
  {
    var s' := Step(env, mode, s, op);
    IngestStartsTimer(env, mode, s, op, i, k);
    StepKeepsConsistent(env, mode, s, op);
    if Ticks(ops) < Remaining(s'.shards[i], k) {
      RunCountsDown(env, mode, s', ops, i, k);
      StepCountsDown(env, mode, Run(env, mode, s', ops), Advance, i, k);
    }
  }
}
