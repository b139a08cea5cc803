/** What every interleaving of adders and harvesters keeps. */
module WindowProofs {
  import opened Hashing
  import opened WindowCache
  import opened Wrappers

  predicate HoldsCache(pc: Pc) {
    pc.Lookup? || pc.Release? || pc.Scan? || pc.HarvestWait? || pc.Close? || pc.HarvestLeave? || pc.Delete?
  }

  predicate HoldsBucket(pc: Pc, b: nat) {
    (pc.Find? || pc.Store? || pc.Leave? || pc.Close? || pc.HarvestLeave?) && pc.b == b
  }

  predicate Harvests(pc: Pc) {
    pc.Scan? || pc.HarvestWait? || pc.Close? || pc.HarvestLeave? || pc.Delete?
  }

  /** Mutexes are held by exactly the goroutines that are between taking and releasing them. */
  ghost predicate Locks(s: State) {
    && (forall t: Tid :: s.lock == Some(t) <==> HoldsCache(PcOf(s, t)))
    && (forall t: Tid, b: nat :: b < |s.buckets| ==> (s.buckets[b].lock == Some(t) <==> HoldsBucket(PcOf(s, t), b)))
  }

  ghost predicate AdderOk(s: State, pc: Pc) {
    && (pc.Release? || pc.Wait? || pc.Find? || pc.Leave? || pc.Store? ==>
          pc.b < |s.buckets| && s.buckets[pc.b].exp == pc.c.exp)
    && (pc.Store? ==>
          && pc.w < |s.windows| && s.windows[pc.w].place.Live? && s.windows[pc.w].place.b == pc.b
          && s.windows[pc.w].token == pc.c.token && s.windows[pc.w].exp == pc.c.exp)
  }

  ghost predicate HarvesterOk(s: State, t: Tid, pc: Pc) {
    && (Harvests(pc) ==> forall i: nat :: i < |pc.got| ==> pc.got[i] < |s.windows| && s.windows[pc.got[i]].place == Held(t, i))
    && (Harvests(pc) && !pc.Scan? ==>
          && pc.e in s.mapped && s.mapped[pc.e] == pc.b && pc.b < |s.buckets|
          && (s.buckets[pc.b].closed <==> pc.HarvestLeave? || pc.Delete?))
  }

  ghost predicate Threads(s: State) {
    forall t: Tid :: AdderOk(s, PcOf(s, t)) && HarvesterOk(s, t, PcOf(s, t))
  }

  /** A closed bucket is empty; an open one is mapped, and each of its windows knows its token. */
  ghost predicate BucketOk(mapped: map<int, nat>, windows: seq<Window>, b: nat, k: Bucket) {
    && (k.closed ==> k.ids == map[] && k.ws == [])
    && (!k.closed ==> k.exp in mapped && mapped[k.exp] == b)
    && (forall i: nat :: i < |k.ws| ==> k.ws[i] < |windows| && windows[k.ws[i]].place == Live(b, i))
    && (forall x <- k.ids :: k.ids[x] < |k.ws| && windows[k.ws[k.ids[x]]].token == x)
    && (forall i: nat :: i < |k.ws| ==> windows[k.ws[i]].token in k.ids && k.ids[windows[k.ws[i]].token] == i)
  }

  ghost predicate Buckets(s: State) {
    forall b: nat :: b < |s.buckets| ==> BucketOk(s.mapped, s.windows, b, s.buckets[b])
  }

  /** A mapped bucket is closed only while its harvester is about to unmap it. */
  ghost predicate Mapped(s: State) {
    forall e <- s.mapped ::
      && s.mapped[e] < |s.buckets| && s.buckets[s.mapped[e]].exp == e
      && (s.buckets[s.mapped[e]].closed ==>
            s.lock.Some? && (PcOf(s, s.lock.value).HarvestLeave? || PcOf(s, s.lock.value).Delete?) && PcOf(s, s.lock.value).e == e)
  }

  /** A window is in the one place it records. */
  ghost predicate InPlace(s: State, w: nat, x: Window) {
    match x.place
    case Live(b, i) => b < |s.buckets| && i < |s.buckets[b].ws| && s.buckets[b].ws[i] == w && s.buckets[b].exp == x.exp
    case Held(t, i) => Harvests(PcOf(s, t)) && i < |PcOf(s, t).got| && PcOf(s, t).got[i] == w
    case Harvested(i) => i < |s.harvested| && s.harvested[i] == w
  }

  /** A window holds what was added to it, all for its own token and expiry. */
  ghost predicate Filled(x: Window) {
    && x.cache == Fold(x.added)
    && forall c <- x.added :: c.token == x.token && c.exp == x.exp
  }

  ghost predicate Windows(s: State) {
    && (forall w: nat :: w < |s.windows| ==> InPlace(s, w, s.windows[w]))
    && (forall w: nat :: w < |s.windows| ==> Filled(s.windows[w]))
    && (forall i: nat :: i < |s.harvested| ==> s.harvested[i] < |s.windows| && s.windows[s.harvested[i]].place == Harvested(i))
  }

  /** All calls whose calculator went into one of the windows. */
  ghost function AllAdded(ws: seq<Window>): multiset<Call> {
    if ws == [] then multiset{} else AllAdded(ws[..|ws| - 1]) + multiset(ws[|ws| - 1].added)
  }

  /** The calculators in the windows are the accepted ones, each once. */
  ghost predicate Conserved(s: State) {
    AllAdded(s.windows) == multiset(s.accepted)
  }

  ghost predicate Inv(s: State) {
    Locks(s) && Threads(s) && Buckets(s) && Mapped(s) && Windows(s) && Conserved(s)
  }

  lemma StartInv()
    ensures Inv(START)
  {
  }

  lemma InvInRange(s: State, t: Tid)
    requires Inv(s)
    ensures PcInRange(s, PcOf(s, t))
  {
  }

  // ----- mutexes -----

  /** A mutex after t went from (not) holding it to (not) holding it. */
  function Passed(l: Option<Tid>, t: Tid, before: bool, after: bool): Option<Tid> {
    if before == after then l else if after then Some(t) else None
  }

  ghost predicate Moves(s: State, s': State, t: Tid) {
    forall u: Tid :: u != t ==> PcOf(s', u) == PcOf(s, u)
  }

  /** Only t took or released mutexes, and took only free ones. */
  ghost predicate LocksPassed(s: State, s': State, t: Tid) {
    var (pc, pc') := (PcOf(s, t), PcOf(s', t));
    && s'.lock == Passed(s.lock, t, HoldsCache(pc), HoldsCache(pc'))
    && (HoldsCache(pc') && !HoldsCache(pc) ==> s.lock.None?)
    && |s.buckets| <= |s'.buckets|
    && (forall b: nat :: b < |s.buckets| ==>
                           && s'.buckets[b].lock == Passed(s.buckets[b].lock, t, HoldsBucket(pc, b), HoldsBucket(pc', b))
                           && (HoldsBucket(pc', b) && !HoldsBucket(pc, b) ==> s.buckets[b].lock.None?))
  }

  lemma LocksKept(s: State, s': State, t: Tid)
    requires Locks(s) && Moves(s, s', t) && LocksPassed(s, s', t) && |s'.buckets| == |s.buckets|
    ensures Locks(s')
  {
  }

  /** A new bucket is held by nobody. */
  lemma LocksKeptNew(s: State, s': State, t: Tid)
    requires Locks(s) && Threads(s) && Moves(s, s', t) && LocksPassed(s, s', t) && |s'.buckets| == |s.buckets| + 1
    requires s'.buckets[|s.buckets|].lock.None? && !HoldsBucket(PcOf(s', t), |s.buckets|)
    ensures Locks(s')
  {
    forall u: Tid
      ensures !HoldsBucket(PcOf(s', u), |s.buckets|)
    {
      assert AdderOk(s, PcOf(s, u)) && HarvesterOk(s, u, PcOf(s, u));
    }
  }

  // ----- steps that move one goroutine and perhaps a mutex -----

  ghost predicate ButLocks(k: Bucket, k': Bucket) {
    k' == k.(lock := k'.lock)
  }

  /** Only t's next action, mutexes and the rejected calls may differ. */
  ghost predicate Quiet(s: State, s': State, t: Tid) {
    && Moves(s, s', t)
    && |s'.buckets| == |s.buckets| && (forall b: nat :: b < |s.buckets| ==> ButLocks(s.buckets[b], s'.buckets[b]))
    && s'.mapped == s.mapped && s'.windows == s.windows && s'.harvested == s.harvested && s'.accepted == s.accepted
  }

  lemma QuietThreads(s: State, s': State, t: Tid)
    requires Threads(s) && Quiet(s, s', t) && AdderOk(s', PcOf(s', t)) && HarvesterOk(s', t, PcOf(s', t))
    ensures Threads(s')
  {
  }

  lemma QuietBuckets(s: State, s': State, t: Tid)
    requires Buckets(s) && Quiet(s, s', t)
    ensures Buckets(s')
  {
  }

  predicate Unmaps(pc: Pc) {
    pc.HarvestLeave? || pc.Delete?
  }

  lemma QuietMapped(s: State, s': State, t: Tid)
    requires Mapped(s) && Quiet(s, s', t)
    requires Unmaps(PcOf(s, t)) ==> Unmaps(PcOf(s', t)) && PcOf(s', t).e == PcOf(s, t).e
    requires s.lock.Some? && (s.lock != Some(t) || Unmaps(PcOf(s, t))) ==> s'.lock == s.lock
    ensures Mapped(s')
  {
  }

  lemma QuietWindows(s: State, s': State, t: Tid)
    requires Windows(s) && Quiet(s, s', t)
    requires Harvests(PcOf(s, t)) ==> Harvests(PcOf(s', t)) && PcOf(s', t).got == PcOf(s, t).got
    ensures Windows(s')
  {
  }

  lemma QuietKeeps(s: State, s': State, t: Tid)
    requires Inv(s) && Quiet(s, s', t) && LocksPassed(s, s', t)
    requires AdderOk(s', PcOf(s', t)) && HarvesterOk(s', t, PcOf(s', t))
    requires Harvests(PcOf(s, t)) ==> Harvests(PcOf(s', t)) && PcOf(s', t).got == PcOf(s, t).got
    requires Unmaps(PcOf(s, t)) ==> Unmaps(PcOf(s', t)) && PcOf(s', t).e == PcOf(s, t).e
    ensures Inv(s')
  {
    LocksKept(s, s', t);
    QuietThreads(s, s', t);
    QuietBuckets(s, s', t);
    QuietMapped(s, s', t);
    QuietWindows(s, s', t);
  }

  lemma EnterKeeps(s: State, t: Tid, pc: Pc)
    requires Inv(s) && s.lock.None?
    requires (PcOf(s, t).Enter? && pc == Lookup(PcOf(s, t).c)) || (PcOf(s, t).HarvestEnter? && pc.Scan? && pc.got == [])
    ensures Inv(Goto(s.(lock := Some(t)), t, pc))
  {
    QuietKeeps(s, Goto(s.(lock := Some(t)), t, pc), t);
  }

  lemma BeginKeeps(s: State, t: Tid, pc: Pc)
    requires Inv(s) && (PcOf(s, t).Idle? || PcOf(s, t).Retry?) && (pc.Idle? || pc.Enter? || pc.HarvestEnter?)
    ensures Inv(Goto(s, t, pc))
  {
    QuietKeeps(s, Goto(s, t, pc), t);
  }

  lemma RejectKeeps(s: State, t: Tid)
    requires Inv(s) && PcOf(s, t).Retry?
    ensures Inv(Goto(s.(rejected := s.rejected + [PcOf(s, t).c]), t, Idle))
  {
    QuietKeeps(s, Goto(s.(rejected := s.rejected + [PcOf(s, t).c]), t, Idle), t);
  }

  lemma ReleaseKeeps(s: State, t: Tid)
    requires Inv(s) && PcOf(s, t).Release?
    ensures var pc := PcOf(s, t); Inv(Goto(s.(lock := None), t, Wait(pc.c, pc.b)))
  {
    var pc := PcOf(s, t);
    assert AdderOk(s, pc);
    QuietKeeps(s, Goto(s.(lock := None), t, Wait(pc.c, pc.b)), t);
  }

  /** The first part of the scan: a bucket to close is found. */
  lemma PickKeeps(s: State, t: Tid, e: int)
    requires Inv(s) && PcOf(s, t).Scan? && e in s.mapped
    ensures var pc := PcOf(s, t); Inv(Goto(s, t, HarvestWait(pc.now, pc.got, e, s.mapped[e])))
  {
    var pc := PcOf(s, t);
    assert HarvesterOk(s, t, pc) && s.lock == Some(t);
    QuietKeeps(s, Goto(s, t, HarvestWait(pc.now, pc.got, e, s.mapped[e])), t);
  }

  lemma WaitKeeps(s: State, t: Tid, pc: Pc)
    requires Inv(s)
    requires (PcOf(s, t).Wait? && pc == Find(PcOf(s, t).c, PcOf(s, t).b))
          || (PcOf(s, t).HarvestWait? && pc == Close(PcOf(s, t).now, PcOf(s, t).got, PcOf(s, t).e, PcOf(s, t).b))
    requires pc.b < |s.buckets| && s.buckets[pc.b].lock.None?
    ensures Inv(Goto(SetLock(s, pc.b, Some(t)), t, pc))
  {
    assert AdderOk(s, PcOf(s, t)) && HarvesterOk(s, t, PcOf(s, t));
    QuietKeeps(s, Goto(SetLock(s, pc.b, Some(t)), t, pc), t);
  }

  lemma LeaveKeeps(s: State, t: Tid, b: nat, pc: Pc)
    requires Inv(s) && b < |s.buckets|
    requires (PcOf(s, t).Leave? && b == PcOf(s, t).b && (pc.Idle? || pc.Retry?))
          || (PcOf(s, t).HarvestLeave? && b == PcOf(s, t).b && pc == Delete(PcOf(s, t).now, PcOf(s, t).got, PcOf(s, t).e, b))
    ensures Inv(Goto(SetLock(s, b, None), t, pc))
  {
    assert AdderOk(s, PcOf(s, t)) && HarvesterOk(s, t, PcOf(s, t));
    QuietKeeps(s, Goto(SetLock(s, b, None), t, pc), t);
  }

  // ----- the map -----

  /** Only the goroutine that holds the cache's mutex harvests. */
  lemma OneHarvester(s: State, t: Tid, u: Tid)
    requires Locks(s) && HoldsCache(PcOf(s, t)) && u != t
    ensures !HoldsCache(PcOf(s, u))
  {
  }

  lemma DeleteThreads(s: State, s': State, t: Tid)
    requires Inv(s) && PcOf(s, t).Delete?
    requires s' == Goto(s.(mapped := s.mapped - {PcOf(s, t).e}), t, Scan(PcOf(s, t).now, PcOf(s, t).got))
    ensures Threads(s')
  {
    forall u: Tid
      ensures AdderOk(s', PcOf(s', u)) && HarvesterOk(s', u, PcOf(s', u))
    {
      assert AdderOk(s, PcOf(s, u)) && HarvesterOk(s, u, PcOf(s, u));
      if u != t {
        OneHarvester(s, t, u);
      }
    }
  }

  lemma DeleteMapped(s: State, s': State, t: Tid)
    requires Inv(s) && PcOf(s, t).Delete?
    requires s' == Goto(s.(mapped := s.mapped - {PcOf(s, t).e}), t, Scan(PcOf(s, t).now, PcOf(s, t).got))
    ensures Buckets(s') && Mapped(s') && Windows(s')
  {
    assert s.lock == Some(t) && HarvesterOk(s, t, PcOf(s, t));
  }

  lemma DeleteKeeps(s: State, t: Tid)
    requires Inv(s) && PcOf(s, t).Delete?
    ensures var pc := PcOf(s, t); Inv(Goto(s.(mapped := s.mapped - {pc.e}), t, Scan(pc.now, pc.got)))
  {
    var pc := PcOf(s, t);
    var s' := Goto(s.(mapped := s.mapped - {pc.e}), t, Scan(pc.now, pc.got));
    LocksKept(s, s', t);
    DeleteThreads(s, s', t);
    DeleteMapped(s, s', t);
  }

  lemma NewBucketThreads(s: State, t: Tid)
    requires Inv(s) && PcOf(s, t).Lookup? && PcOf(s, t).c.exp !in s.mapped
    ensures Threads(NewBucket(s, t, PcOf(s, t).c))
  {
    var s' := NewBucket(s, t, PcOf(s, t).c);
    forall u: Tid
      ensures AdderOk(s', PcOf(s', u)) && HarvesterOk(s', u, PcOf(s', u))
    {
      assert AdderOk(s, PcOf(s, u)) && HarvesterOk(s, u, PcOf(s, u));
    }
  }

  lemma NewBucketMapped(s: State, t: Tid)
    requires Inv(s) && PcOf(s, t).Lookup? && PcOf(s, t).c.exp !in s.mapped
    ensures var s' := NewBucket(s, t, PcOf(s, t).c); Buckets(s') && Mapped(s') && Windows(s')
  {
    assert s.lock == Some(t);
  }

  lemma LookupKeeps(s: State, t: Tid)
    requires Inv(s) && PcOf(s, t).Lookup?
    ensures Inv(DoLookup(s, t, PcOf(s, t).c))
  {
    var c := PcOf(s, t).c;
    var s' := DoLookup(s, t, c);
    if c.exp in s.mapped {
      QuietKeeps(s, s', t);
    } else {
      LocksKeptNew(s, s', t);
      NewBucketThreads(s, t);
      NewBucketMapped(s, t);
    }
  }

  // ----- windows -----

  /** A new window is empty. */
  lemma AllAddedNew(ws: seq<Window>, x: Window)
    requires x.added == []
    ensures AllAdded(ws + [x]) == AllAdded(ws)
  {
  }

  lemma {:induction false} AllAddedSame(ws: seq<Window>, ws': seq<Window>)
    requires |ws| == |ws'| && forall w: nat :: w < |ws| ==> ws'[w].added == ws[w].added
    ensures AllAdded(ws') == AllAdded(ws)
  {
    if ws != [] {
      AllAddedSame(ws[..|ws| - 1], ws'[..|ws| - 1]);
    }
  }

  lemma {:induction false} AllAddedOne(ws: seq<Window>, w: nat, x: Window, c: Call)
    requires w < |ws| && x.added == ws[w].added + [c]
    ensures AllAdded(ws[w := x]) == AllAdded(ws) + multiset{c}
  {
    var n, ws' := |ws| - 1, ws[w := x];
    if w == n {
      assert ws'[..n] == ws[..n];
      assert multiset(ws[w].added + [c]) == multiset(ws[w].added) + multiset{c};
    } else {
      AllAddedOne(ws[..n], w, x, c);
      assert ws'[..n] == ws[..n][w := x] && ws'[n] == ws[n];
    }
  }

  /** The windows there were are where they were. */
  lemma SamePlacesKeep(mapped: map<int, nat>, ws: seq<Window>, ws': seq<Window>, b: nat, k: Bucket)
    requires |ws| <= |ws'| && forall w: nat :: w < |ws| ==> ws'[w].place == ws[w].place && ws'[w].token == ws[w].token
    requires BucketOk(mapped, ws, b, k)
    ensures BucketOk(mapped, ws', b, k)
  {
  }

  ghost predicate Finds(s: State, t: Tid) {
    && Inv(s) && PcOf(s, t).Find? && PcOf(s, t).b < |s.buckets|
    && !s.buckets[PcOf(s, t).b].closed && PcOf(s, t).c.token !in s.buckets[PcOf(s, t).b].ids
  }

  lemma NewWindowThreads(s: State, t: Tid)
    requires Finds(s, t)
    ensures Threads(NewWindow(s, t, PcOf(s, t).c, PcOf(s, t).b))
  {
    var s' := NewWindow(s, t, PcOf(s, t).c, PcOf(s, t).b);
    assert AdderOk(s, PcOf(s, t));
    forall u: Tid
      ensures AdderOk(s', PcOf(s', u)) && HarvesterOk(s', u, PcOf(s', u))
    {
      assert AdderOk(s, PcOf(s, u)) && HarvesterOk(s, u, PcOf(s, u));
    }
  }

  lemma NewWindowBuckets(s: State, t: Tid)
    requires Finds(s, t)
    ensures var s' := NewWindow(s, t, PcOf(s, t).c, PcOf(s, t).b); Buckets(s') && Mapped(s')
  {
    var s' := NewWindow(s, t, PcOf(s, t).c, PcOf(s, t).b);
    forall b: nat | b < |s.buckets|
      ensures BucketOk(s'.mapped, s'.windows, b, s'.buckets[b])
    {
      SamePlacesKeep(s.mapped, s.windows, s'.windows, b, s.buckets[b]);
    }
  }

  lemma NewWindowWindows(s: State, t: Tid)
    requires Finds(s, t)
    ensures Windows(NewWindow(s, t, PcOf(s, t).c, PcOf(s, t).b))
  {
  }

  lemma FindKeeps(s: State, t: Tid)
    requires Inv(s) && PcOf(s, t).Find? && PcInRange(s, PcOf(s, t))
    ensures Inv(DoFind(s, t, PcOf(s, t).c, PcOf(s, t).b))
  {
    var (c, b) := (PcOf(s, t).c, PcOf(s, t).b);
    var k, s' := s.buckets[b], DoFind(s, t, c, b);
    assert AdderOk(s, PcOf(s, t));
    if k.closed {
      QuietKeeps(s, s', t);
    } else if c.token in k.ids {
      FoundOk(s, b, c);
      QuietKeeps(s, s', t);
    } else {
      LocksKept(s, s', t);
      NewWindowThreads(s, t);
      NewWindowBuckets(s, t);
      NewWindowWindows(s, t);
      AllAddedNew(s.windows, s'.windows[|s.windows|]);
    }
  }

  lemma FoundOk(s: State, b: nat, c: Call)
    requires Inv(s) && b < |s.buckets| && !s.buckets[b].closed && c.token in s.buckets[b].ids && s.buckets[b].exp == c.exp
    ensures var k := s.buckets[b]; k.ids[c.token] < |k.ws| && AdderOk(s, Store(c, b, k.ws[k.ids[c.token]]))
  {
  }

  lemma StoreFills(x: Window, c: Call)
    requires Filled(x) && c.token == x.token && c.exp == x.exp
    ensures Filled(x.(cache := AddTo(x.cache, c.cal), added := x.added + [c]))
  {
  }

  lemma StoreThreads(s: State, t: Tid)
    requires Inv(s) && PcOf(s, t).Store? && PcOf(s, t).w < |s.windows|
    ensures var pc := PcOf(s, t); Threads(DoStore(s, t, pc.c, pc.b, pc.w))
  {
    var pc := PcOf(s, t);
    var s' := DoStore(s, t, pc.c, pc.b, pc.w);
    assert AdderOk(s, pc);
    forall u: Tid
      ensures AdderOk(s', PcOf(s', u)) && HarvesterOk(s', u, PcOf(s', u))
    {
      assert AdderOk(s, PcOf(s, u)) && HarvesterOk(s, u, PcOf(s, u));
    }
  }

  lemma StoreBuckets(s: State, t: Tid)
    requires Inv(s) && PcOf(s, t).Store? && PcOf(s, t).w < |s.windows|
    ensures var pc := PcOf(s, t); var s' := DoStore(s, t, pc.c, pc.b, pc.w); Buckets(s') && Mapped(s')
  {
    var pc := PcOf(s, t);
    var s' := DoStore(s, t, pc.c, pc.b, pc.w);
    forall b: nat | b < |s.buckets|
      ensures BucketOk(s'.mapped, s'.windows, b, s'.buckets[b])
    {
      SamePlacesKeep(s.mapped, s.windows, s'.windows, b, s.buckets[b]);
    }
  }

  lemma StoreWindows(s: State, t: Tid)
    requires Inv(s) && PcOf(s, t).Store? && PcOf(s, t).w < |s.windows|
    ensures var pc := PcOf(s, t); Windows(DoStore(s, t, pc.c, pc.b, pc.w))
  {
    var pc := PcOf(s, t);
    var s' := DoStore(s, t, pc.c, pc.b, pc.w);
    assert AdderOk(s, pc);
    forall w: nat | w < |s.windows|
      ensures InPlace(s', w, s'.windows[w])
    {
      assert InPlace(s, w, s.windows[w]);
    }
    forall w: nat | w < |s.windows|
      ensures Filled(s'.windows[w])
    {
      assert Filled(s.windows[w]);
      if w == pc.w {
        StoreFills(s.windows[w], pc.c);
      }
    }
  }

  lemma StoreKeeps(s: State, t: Tid)
    requires Inv(s) && PcOf(s, t).Store? && PcOf(s, t).w < |s.windows|
    ensures var pc := PcOf(s, t); Inv(DoStore(s, t, pc.c, pc.b, pc.w))
  {
    var pc := PcOf(s, t);
    var s' := DoStore(s, t, pc.c, pc.b, pc.w);
    LocksKept(s, s', t);
    StoreThreads(s, t);
    StoreBuckets(s, t);
    StoreWindows(s, t);
    AllAddedOne(s.windows, pc.w, s'.windows[pc.w], pc.c);
    assert multiset(s.accepted + [pc.c]) == multiset(s.accepted) + multiset{pc.c};
  }

  // ----- harvesting -----

  function Closing(s: State, t: Tid): State
    requires PcOf(s, t).Close? && PcOf(s, t).b < |s.buckets|
  {
    var pc := PcOf(s, t);
    DoClose(s, t, pc.now, pc.got, pc.e, pc.b)
  }

  /** No adder is at work in a bucket whose mutex the harvester holds. */
  lemma CloseOthers(s: State, t: Tid, u: Tid)
    requires Inv(s) && PcOf(s, t).Close? && PcOf(s, t).b < |s.buckets| && u != t
    ensures AdderOk(Closing(s, t), PcOf(s, u)) && HarvesterOk(Closing(s, t), u, PcOf(s, u))
  {
  }

  lemma CloseOwn(s: State, t: Tid)
    requires Inv(s) && PcOf(s, t).Close? && PcOf(s, t).b < |s.buckets|
    ensures HarvesterOk(Closing(s, t), t, PcOf(Closing(s, t), t))
  {
  }

  lemma CloseBuckets(s: State, t: Tid)
    requires Inv(s) && PcOf(s, t).Close? && PcOf(s, t).b < |s.buckets|
    ensures Buckets(Closing(s, t))
  {
    var s', b0 := Closing(s, t), PcOf(s, t).b;
    forall b: nat | b < |s.buckets|
      ensures BucketOk(s'.mapped, s'.windows, b, s'.buckets[b])
    {
      assert BucketOk(s.mapped, s.windows, b, s.buckets[b]);
    }
  }

  lemma CloseMapped(s: State, t: Tid)
    requires Inv(s) && PcOf(s, t).Close? && PcOf(s, t).b < |s.buckets|
    ensures Mapped(Closing(s, t))
  {
  }

  lemma CloseWindows(s: State, t: Tid)
    requires Inv(s) && PcOf(s, t).Close? && PcOf(s, t).b < |s.buckets|
    ensures Windows(Closing(s, t))
  {
    var s' := Closing(s, t);
    forall w: nat | w < |s.windows|
      ensures InPlace(s', w, s'.windows[w])
    {
      assert InPlace(s, w, s.windows[w]);
    }
    forall w: nat | w < |s.windows|
      ensures Filled(s'.windows[w])
    {
      assert Filled(s.windows[w]);
    }
  }

  lemma CloseKeeps(s: State, t: Tid)
    requires Inv(s) && PcOf(s, t).Close? && PcOf(s, t).b < |s.buckets|
    ensures Inv(Closing(s, t))
  {
    var s' := Closing(s, t);
    LocksKept(s, s', t);
    forall u: Tid
      ensures AdderOk(s', PcOf(s', u)) && HarvesterOk(s', u, PcOf(s', u))
    {
      if u == t {
        CloseOwn(s, t);
      } else {
        CloseOthers(s, t, u);
      }
    }
    CloseBuckets(s, t);
    CloseMapped(s, t);
    CloseWindows(s, t);
    AllAddedSame(s.windows, s'.windows);
  }

  function Returning(s: State, t: Tid): State
    requires PcOf(s, t).Scan?
  {
    Goto(s.(lock := None, windows := HandOut(s.windows, t, |s.harvested|), harvested := s.harvested + PcOf(s, t).got), t, Idle)
  }

  lemma ReturnThreads(s: State, t: Tid)
    requires Inv(s) && PcOf(s, t).Scan?
    ensures Threads(Returning(s, t))
  {
    var s' := Returning(s, t);
    forall u: Tid
      ensures AdderOk(s', PcOf(s', u)) && HarvesterOk(s', u, PcOf(s', u))
    {
      assert AdderOk(s, PcOf(s, u)) && HarvesterOk(s, u, PcOf(s, u));
    }
  }

  lemma ReturnBuckets(s: State, t: Tid)
    requires Inv(s) && PcOf(s, t).Scan?
    ensures Buckets(Returning(s, t)) && Mapped(Returning(s, t))
  {
    var s' := Returning(s, t);
    assert s.lock == Some(t);
    forall b: nat | b < |s.buckets|
      ensures BucketOk(s'.mapped, s'.windows, b, s'.buckets[b])
    {
      assert BucketOk(s.mapped, s.windows, b, s.buckets[b]);
    }
  }

  lemma ReturnWindows(s: State, t: Tid)
    requires Inv(s) && PcOf(s, t).Scan?
    ensures Windows(Returning(s, t))
  {
    var s' := Returning(s, t);
    assert HarvesterOk(s, t, PcOf(s, t));
    forall w: nat | w < |s.windows|
      ensures InPlace(s', w, s'.windows[w])
    {
      assert InPlace(s, w, s.windows[w]);
    }
    forall w: nat | w < |s.windows|
      ensures Filled(s'.windows[w])
    {
      assert Filled(s.windows[w]);
    }
  }

  lemma ReturnKeeps(s: State, t: Tid)
    requires Inv(s) && PcOf(s, t).Scan?
    ensures Inv(Returning(s, t))
  {
    var s' := Returning(s, t);
    LocksKept(s, s', t);
    ReturnThreads(s, t);
    ReturnBuckets(s, t);
    ReturnWindows(s, t);
    AllAddedSame(s.windows, s'.windows);
  }

  // ----- every step, every run -----

  lemma ProceedKeeps(s: State, t: Tid, now: int, pick: int)
    requires Inv(s) && PcInRange(s, PcOf(s, t))
    ensures Inv(Proceed(s, t, PcOf(s, t), now, pick))
  {
    var pc := PcOf(s, t);
    match pc
    case Idle =>
    case Enter(c) => if s.lock.None? { EnterKeeps(s, t, Lookup(c)); }
    case Lookup(c) => LookupKeeps(s, t);
    case Release(c, b) => ReleaseKeeps(s, t);
    case Wait(c, b) => if s.buckets[b].lock.None? { WaitKeeps(s, t, Find(c, b)); }
    case Find(c, b) => FindKeeps(s, t);
    case Store(c, b, w) => StoreKeeps(s, t);
    case Leave(c, b, ok) => LeaveKeeps(s, t, b, if ok then Idle else Retry(c));
    case Retry(c) => if now >= c.exp { RejectKeeps(s, t); } else { BeginKeeps(s, t, Enter(c)); }
    case HarvestEnter => if s.lock.None? { EnterKeeps(s, t, Scan(now, [])); }
    case Scan(n, got) =>
      if pick in s.mapped && pick <= n {
        PickKeeps(s, t, pick);
      } else {
        ReturnKeeps(s, t);
      }
    case HarvestWait(n, got, e, b) => if s.buckets[b].lock.None? { WaitKeeps(s, t, Close(n, got, e, b)); }
    case Close(n, got, e, b) => CloseKeeps(s, t);
    case HarvestLeave(n, got, e, b) => LeaveKeeps(s, t, b, Delete(n, got, e, b));
    case Delete(n, got, e, b) => DeleteKeeps(s, t);
  }

  lemma StepKeeps(s: State, t: Tid, a: Action)
    requires Inv(s) && PcInRange(s, PcOf(s, t))
    ensures Inv(Step(s, t, a))
  {
    if PcOf(s, t).Idle? {
      if !a.Go? {
        BeginKeeps(s, t, if a.Add? then Enter(a.c) else HarvestEnter);
      }
    } else if a.Go? {
      ProceedKeeps(s, t, a.now, a.pick);
    }
  }
}
