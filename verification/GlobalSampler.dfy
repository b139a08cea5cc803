/**
 The sampler's objects (aggregate/timewheel.go:41-66, 118-161, 254-508): shards whose
 slot lists, active map and pointer change in place, and the spiller. Each method
 computes the function of the same step in Sampler.dfy.
 */
module GlobalSampler {
  import opened Packets
  import opened Sampler
  import opened Decisions
  import opened SpanSummary
  import opened Compiler
  import opened Wrappers

  lemma FrozenAllNext(shards: seq<Shard>, i: nat)
    requires AllSized(shards) && i < |shards|
    ensures FrozenAll(shards[..i + 1]) == FrozenAll(shards[..i]) + Frozen(shards[i])
  {
    assert shards[..i + 1][..i] == shards[..i];
  }

  /** A payload spiller: a directory of files under fresh keys. */
  class Spiller {
    var files: map<nat, Bytes>
    var seqNo: nat

    ghost function View(): Store
      reads this
    {
      Store(files, seqNo)
    }

    constructor ()
      ensures View() == Store(map[], 0)
    {
      files, seqNo := map[], 0;
    }

    method Put(payload: Bytes) returns (key: nat)
      modifies this
      ensures key == old(seqNo) + 1 && View() == Store(old(files)[key := payload], key)
    {
      seqNo := seqNo + 1;
      key := seqNo;
      files := files[key := payload];
    }

    method Get(key: nat) returns (payload: Option<Bytes>)
      ensures payload == if key in files then Some(files[key]) else None
    {
      payload := if key in files then Some(files[key]) else None;
    }

    method Delete(key: nat)
      modifies this
      ensures View() == Store(old(files) - {key}, old(seqNo))
    {
      files := files - {key};
    }
  }

  /** The groups of m under the given keys. */
  ghost function Taken(m: map<Key, Group>, keys: set<Key>): map<Key, Group> {
    map k | k in m && k in keys :: m[k]
  }

  lemma TakeOne(m: map<Key, Group>, done: set<Key>, key: Key, frozen: map<Key, Group>)
    ensures (m - done) - {key} == m - (done + {key})
    ensures key in m - done ==> (frozen + Taken(m, done))[key := m[key]] == frozen + Taken(m, done + {key})
    ensures key !in m - done ==> Taken(m, done) == Taken(m, done + {key}) && m - done == m - (done + {key})
  {
  }

  lemma KeysInTail(list: seq<Element>)
    requires list != []
    ensures KeysIn(list) == {list[0].key} + KeysIn(list[1..])
  {
  }

  class ShardWheel {
    var activeMap: map<Key, Group>
    const slots: array<seq<Element>>
    var currentPos: nat
    var nextId: nat

    ghost function View(): Shard
      reads this, slots
    {
      Shard(activeMap, slots[..], currentPos, nextId)
    }

    ghost predicate Valid()
      reads this, slots
    {
      Sized(View())
    }

    constructor ()
      ensures Valid() && fresh(slots) && View() == EMPTY_SHARD
    {
      activeMap, currentPos, nextId := map[], 0, 0;
      slots := new seq<Element>[SLOTS](_ => []);
      new;
      assert slots[..] == EMPTY_SHARD.slots;
    }

    /** Take a group's element off the list it hangs on. */
    method Unlink(g: Group)
      requires Valid() && g.slot < SLOTS
      modifies slots
      ensures Valid() && View() == Unschedule(old(View()), g)
    {
      slots[g.slot] := Without(slots[g.slot], g.element);
    }

    /** Push a new element for the group and record it in the map. */
    method Hang(key: Key, g: Group, ttl: nat)
      requires Valid()
      modifies this, slots
      ensures Valid() && View() == Schedule(old(View()), key, g, ttl)
    {
      var expirePos := (currentPos + ttl) % SLOTS;
      var element := Element(nextId, key);
      slots[expirePos] := slots[expirePos] + [element];
      nextId := nextId + 1;
      activeMap := activeMap[key := g.(slot := expirePos, element := element)];
    }

    method Replace(key: Key, g: Group)
      requires Valid() && g.slot < SLOTS
      modifies this
      ensures Valid() && View() == old(View()).(active := old(activeMap)[key := g])
    {
      activeMap := activeMap[key := g];
    }

    /** Move the pointer one slot on and drain the list there into frozen. */
    method Tick(frozen: map<Key, Group>) returns (grown: map<Key, Group>)
      requires Valid()
      modifies this, slots
      ensures Valid() && View() == AdvanceShard(old(View()))
      ensures grown == frozen + Frozen(old(View()))
    {
      ghost var was := View();
      currentPos := (currentPos + 1) % SLOTS;
      ghost var due := slots[currentPos];
      grown := frozen;
      ghost var done: set<Key> := {};
      while slots[currentPos] != []
        invariant slots.Length == SLOTS && currentPos == (was.pos + 1) % SLOTS && nextId == was.nextId
        invariant slots[..] == was.slots[currentPos := slots[currentPos]]
        invariant KeysIn(due) == done + KeysIn(slots[currentPos])
        invariant activeMap == was.active - done
        invariant grown == frozen + Taken(was.active, done)
        decreases |slots[currentPos]|
      {
        var list := slots[currentPos];
        var key := list[0].key;
        KeysInTail(list);
        TakeOne(was.active, done, key, frozen);
        if key in activeMap {
          grown := grown[key := activeMap[key]];
          activeMap := activeMap - {key};
        }
        slots[currentPos] := list[1..];
        done := done + {key};
      }
      assert Taken(was.active, done) == Frozen(was);
    }
  }

  class GlobalSampler {
    const shards: seq<ShardWheel>
    const spiller: Spiller
    const mode: Mode

    ghost predicate Valid()
      reads set w | w in shards :: w
      reads set w | w in shards :: w.slots
    {
      && (forall i, j :: 0 <= i < j < |shards| ==> shards[i] != shards[j] && shards[i].slots != shards[j].slots)
      && (forall i :: 0 <= i < |shards| ==> shards[i].Valid())
    }

    /** NewGlobalSampler followed by SetPayloadSpiller: a threshold of zero or less switches spilling off. */
    constructor (shardCount: nat, spiller: Spiller, threshold: int)
      ensures Valid() && |shards| == shardCount && this.spiller == spiller
      ensures mode == if threshold <= 0 then Off else On(threshold)
      ensures forall i :: 0 <= i < |shards| ==> fresh(shards[i]) && fresh(shards[i].slots) && shards[i].View() == EMPTY_SHARD
    {
      var made: seq<ShardWheel> := [];
      for i := 0 to shardCount
        invariant |made| == i
        invariant forall j :: 0 <= j < i ==> fresh(made[j]) && fresh(made[j].slots) && made[j].Valid() && made[j].View() == EMPTY_SHARD
        invariant forall j, k :: 0 <= j < k < i ==> made[j] != made[k] && made[j].slots != made[k].slots
      {
        var w := new ShardWheel();
        made := made + [w];
      }
      shards := made;
      this.spiller := spiller;
      mode := if threshold <= 0 then Off else On(threshold);
    }

    /** spillIfNeeded. */
    method SpillIfNeeded(p: Packet, putOk: bool) returns (q: Packet, key: Option<nat>)
      modifies spiller
      ensures (q, key, spiller.View()) == Sampler.SpillIfNeeded(mode, old(spiller.View()), p, putOk)
    {
      if mode.Off? || |p.payload| <= mode.threshold || !putOk {
        return p, None;
      }
      var k := spiller.Put(p.payload);
      return p.(payload := []), Some(k);
    }

    /** hydrateDataGroup. */
    method Hydrate(g: Group) returns (h: Option<Group>)
      ensures h == Sampler.Hydrate(mode, spiller.View(), g)
    {
      if g.spillKey.None? || mode.Off? {
        return Some(g);
      }
      var payload := spiller.Get(g.spillKey.value);
      if payload.None? {
        return None;
      }
      return Some(g.(packet := g.packet.(payload := payload.value), spillKey := None));
    }

    /** releaseSpill. */
    method Release(key: Option<nat>)
      modifies spiller
      ensures spiller.View() == Sampler.Release(mode, old(spiller.View()), key)
    {
      if mode.On? && key.Some? {
        spiller.Delete(key.value);
      }
    }

    /** Ingest within its shard. */
    method IngestAt(env: Env, cfg: Config, w: ShardWheel, p: Packet, putOk: bool) returns (accepted: bool)
      requires w.Valid()
      modifies w, w.slots, spiller
      ensures w.Valid()
      ensures Ingested(w.View(), spiller.View(), accepted) ==
              IngestShard(env, cfg, mode, old(w.View()), old(spiller.View()), p, putOk)
    {
      var ttl := Ttl(cfg, p.dataType, p.token);
      if ttl.None? {
        return false;
      }
      var key := KeyOf(env, p);
      if key in w.activeMap {
        accepted := MergeInto(env, w, key, p, ttl.value, putOk);
      } else {
        var q, spillKey := SpillIfNeeded(p, putOk);
        w.Hang(key, Group(q, 0, Element(0, key), spillKey), ttl.value);
        accepted := true;
      }
    }

    /** The branch of Ingest for a group that already exists. */
    method MergeInto(env: Env, w: ShardWheel, key: Key, p: Packet, ttl: nat, putOk: bool) returns (accepted: bool)
      requires w.Valid() && key in w.activeMap
      modifies w, w.slots, spiller
      ensures w.Valid()
      ensures Ingested(w.View(), spiller.View(), accepted) ==
              IngestOld(env, mode, old(w.View()), old(spiller.View()), key, p, ttl, putOk)
    {
      var g := w.activeMap[key];
      var hydrated := Hydrate(g);
      if hydrated.None? {
        return false;
      }
      var merged := MergePackets(env, hydrated.value.packet, p);
      if merged.None? {
        w.Replace(key, hydrated.value);
        return false;
      }
      var q, spillKey := SpillIfNeeded(merged.value, putOk);
      Release(g.spillKey);
      w.Unlink(g);
      w.Hang(key, hydrated.value.(packet := q, spillKey := spillKey), ttl);
      return true;
    }

    /** Ingest: route to the shard of the group hash; a sampler without shards ignores the packet. */
    method Ingest(env: Env, cfg: Config, p: Packet, putOk: bool) returns (accepted: bool)
      requires Valid()
      modifies shards, set w | w in shards :: w.slots, spiller
      ensures Valid()
      ensures |shards| == 0 ==> !accepted && spiller.View() == old(spiller.View())
      ensures |shards| > 0 ==>
                var i := ShardOf(p, |shards|);
                && Ingested(shards[i].View(), spiller.View(), accepted) ==
                   IngestShard(env, cfg, mode, old(shards[i].View()), old(spiller.View()), p, putOk)
                && forall j :: 0 <= j < |shards| && j != i ==> shards[j].View() == old(shards[j].View())
    {
      if |shards| == 0 {
        return false;
      }
      accepted := IngestAt(env, cfg, shards[ShardOf(p, |shards|)], p, putOk);
    }

    /** One shard ticks; the others stay as they are. */
    method TickAt(i: nat, frozen: map<Key, Group>) returns (grown: map<Key, Group>)
      requires Valid() && i < |shards|
      modifies shards[i], shards[i].slots
      ensures Valid()
      ensures shards[i].View() == AdvanceShard(old(shards[i].View())) && grown == frozen + Frozen(old(shards[i].View()))
      ensures forall j :: 0 <= j < |shards| && j != i ==> shards[j].View() == old(shards[j].View())
    {
      grown := shards[i].Tick(frozen);
    }

    /** AdvanceTime: every shard ticks, and the drained groups are collected in one map. */
    method AdvanceTime(ghost was: seq<Shard>) returns (frozen: map<Key, Group>)
      requires Valid() && |was| == |shards| && AllSized(was)
      requires forall i :: 0 <= i < |shards| ==> shards[i].View() == was[i]
      modifies shards, set w | w in shards :: w.slots
      ensures Valid()
      ensures forall i :: 0 <= i < |shards| ==> shards[i].View() == AdvanceAll(was)[i]
      ensures frozen == FrozenAll(was)
    {
      frozen := map[];
      for i := 0 to |shards|
        invariant Valid()
        invariant forall j :: 0 <= j < i ==> shards[j].View() == AdvanceShard(was[j])
        invariant forall j :: i <= j < |shards| ==> shards[j].View() == was[j]
        invariant frozen == FrozenAll(was[..i])
      {
        FrozenAllNext(was, i);
        frozen := TickAt(i, frozen);
      }
      assert was[..|shards|] == was;
    }

    /** The decision for one frozen group, reading its file only when it is needed. */
    method DecideGroup(env: Env, cfg: Config, g: Group) returns (outcome: Outcome)
      ensures outcome == Decide(env, cfg, mode, spiller.View(), g)
    {
      var ps := PipelinesFor(cfg, g.packet);
      var needsPayload := CompileAll(ps).None?;
      var dg := g;
      if g.spillKey.Some? && (needsPayload || !HasPredicates(g.packet.summary)) {
        var h := Hydrate(dg);
        if h.Some? {
          dg := h.value;
        }
      }
      var d;
      if g.spillKey.Some? && !needsPayload && HasPredicates(g.packet.summary) {
        d := DecideWithPredicates(dg.packet, ps);
      } else {
        d := EvaluatePipelines(env, dg.packet, ps);
      }
      if g.spillKey.Some? && d.Kept? && dg.packet.payload == [] {
        var h := Hydrate(dg);
        if h.Some? {
          dg := h.value;
        }
      }
      return Outcome(d, dg.packet);
    }

    /** TailSamplingOutcomes: decide every group, in any order, and release its file. */
    method TailSamplingOutcomes(env: Env, cfg: Config, groups: map<Key, Group>) returns (outcomes: map<Key, Outcome>)
      requires OwnFiles(groups)
      modifies spiller
      ensures outcomes == map k | k in groups :: Decide(env, cfg, mode, old(spiller.View()), groups[k])
      ensures spiller.View() == old(spiller.View()).(data := if mode.Off? then old(spiller.files) else old(spiller.files) - SpillKeys(groups))
    {
      ghost var store := spiller.View();
      outcomes := map[];
      var todo := groups.Keys;
      while todo != {}
        invariant todo <= groups.Keys
        invariant outcomes == Decided(env, cfg, mode, store, groups, todo)
        invariant spiller.seqNo == store.seqNo
        invariant spiller.files == if mode.Off? then store.data else store.data - KeysDone(groups, todo)
        decreases todo
      {
        var k :| k in todo;
        var g := groups[k];
        var outcome := DecideGroup(env, cfg, g);
        OneMoreDecided(env, cfg, mode, store, groups, todo, k);
        DecideReadsOwnFile(env, cfg, mode, store, spiller.View(), g);
        Release(g.spillKey);
        outcomes := outcomes[k := outcome];
        todo := todo - {k};
      }
      assert KeysDone(groups, {}) == SpillKeys(groups);
    }
  }

  /** No two groups share a spill file. */
  ghost predicate OwnFiles(groups: map<Key, Group>) {
    forall k, l :: k in groups && l in groups && k != l && groups[k].spillKey.Some? ==> groups[k].spillKey != groups[l].spillKey
  }

  ghost function Decided(env: Env, cfg: Config, mode: Mode, store: Store, groups: map<Key, Group>, todo: set<Key>): map<Key, Outcome> {
    map k | k in groups && k !in todo :: Decide(env, cfg, mode, store, groups[k])
  }

  lemma OneMoreDecided(env: Env, cfg: Config, mode: Mode, store: Store, groups: map<Key, Group>, todo: set<Key>, k: Key)
    requires OwnFiles(groups) && k in todo && k in groups
    ensures Decided(env, cfg, mode, store, groups, todo)[k := Decide(env, cfg, mode, store, groups[k])] ==
            Decided(env, cfg, mode, store, groups, todo - {k})
    ensures groups[k].spillKey.None? ==> KeysDone(groups, todo - {k}) == KeysDone(groups, todo)
    ensures groups[k].spillKey.Some? ==>
              var f := groups[k].spillKey.value;
              f !in KeysDone(groups, todo) && KeysDone(groups, todo - {k}) == KeysDone(groups, todo) + {f}
  {
  }

  ghost function KeysDone(groups: map<Key, Group>, todo: set<Key>): set<nat> {
    set k | k in groups && k !in todo && groups[k].spillKey.Some? :: groups[k].spillKey.value
  }

  /** A decision depends on the store only through the group's own file. */
  lemma DecideReadsOwnFile(env: Env, cfg: Config, mode: Mode, a: Store, b: Store, g: Group)
    requires g.spillKey.Some? && mode.On? ==>
               var f := g.spillKey.value; (f in a.data <==> f in b.data) && (f in a.data ==> a.data[f] == b.data[f])
    ensures Decide(env, cfg, mode, a, g) == Decide(env, cfg, mode, b, g)
  {
  }
}
