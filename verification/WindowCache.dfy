/**
 The window cache (aggregate/windows.go) with any number of goroutines in
 getAndSetBucket and GetExpWidows. A step is what one goroutine does between two
 points where another can come in: taking a mutex, releasing it, or the work under it.
 */
module WindowCache {
  import opened Hashing
  import opened Wrappers

  type Tid = nat

  datatype Kind = Sum | Count

  /** A calculator as newCalculators makes it: its count is 1. */
  datatype Calculator = Calculator(hash: u64, kind: Kind, delta: real, maxTime: int)

  /** One call of getAndSetBucket. */
  datatype Call = Call(exp: int, token: Bytes, cal: Calculator)

  /** A calculator that lives in a window. */
  datatype Total = Total(kind: Kind, count: int, delta: real, maxTime: int)

  /** Where a window is: in a bucket's list, in a harvester's result, or handed out. */
  datatype Place = Live(b: nat, i: nat) | Held(t: Tid, i: nat) | Harvested(i: nat)

  /** exp, place and added are history: the code keeps only the token and the cache. */
  datatype Window = Window(token: Bytes, cache: map<u64, Total>, exp: int, place: Place, added: seq<Call>)

  /** Windows: exp is history. */
  datatype Bucket = Bucket(exp: int, lock: Option<Tid>, closed: bool, ids: map<Bytes, nat>, ws: seq<nat>)

  /** What a goroutine does next. */
  datatype Pc =
    | Idle
    | Enter(c: Call)                  // take the cache's mutex
    | Lookup(c: Call)                 // find or make the bucket
    | Release(c: Call, b: nat)        // give the cache's mutex back
    | Wait(c: Call, b: nat)           // take the bucket's mutex
    | Find(c: Call, b: nat)           // check closed, find or make the window
    | Store(c: Call, b: nat, w: nat)  // Window.AddCal
    | Leave(c: Call, b: nat, ok: bool)  // give the bucket's mutex back
    | Retry(c: Call)                  // read the clock after a closed bucket
    | HarvestEnter                    // take the cache's mutex
    | Scan(now: int, got: seq<nat>)   // next expired bucket, or done
    | HarvestWait(now: int, got: seq<nat>, e: int, b: nat)   // take the bucket's mutex
    | Close(now: int, got: seq<nat>, e: int, b: nat)         // close it and take its windows
    | HarvestLeave(now: int, got: seq<nat>, e: int, b: nat)  // give the bucket's mutex back
    | Delete(now: int, got: seq<nat>, e: int, b: nat)        // unmap it

  /** accepted and rejected are history: the calls that returned true or false. */
  datatype State = State(
    lock: Option<Tid>, mapped: map<int, nat>, buckets: seq<Bucket>, windows: seq<Window>,
    threads: map<Tid, Pc>, harvested: seq<nat>, accepted: seq<Call>, rejected: seq<Call>)

  const START := State(None, map[], [], [], map[], [], [], [])

  function PcOf(s: State, t: Tid): Pc {
    if t in s.threads then s.threads[t] else Idle
  }

  function Goto(s: State, t: Tid, pc: Pc): State {
    s.(threads := s.threads[t := pc])
  }

  // ----- calculators -----

  /** algoSum.Add and algoCount.Add: another kind is ignored. */
  function AddTotal(a: Total, x: Calculator): Total {
    if a.kind != x.kind then a
    else Total(a.kind, a.count + 1, if a.kind.Sum? then a.delta + x.delta else a.delta, if x.maxTime > a.maxTime then x.maxTime else a.maxTime)
  }

  /** Window.AddCal. */
  function AddTo(cache: map<u64, Total>, x: Calculator): map<u64, Total> {
    if x.hash in cache then cache[x.hash := AddTotal(cache[x.hash], x)]
    else cache[x.hash := Total(x.kind, 1, x.delta, x.maxTime)]
  }

  function Fold(added: seq<Call>): map<u64, Total> {
    if added == [] then map[] else AddTo(Fold(added[..|added| - 1]), added[|added| - 1].cal)
  }

  // ----- steps -----

  /** A goroutine is called to add or to harvest, or goes on; now is the clock and pick the map's iteration order. */
  datatype Action = Add(c: Call) | Harvest | Go(now: int, pick: int)

  function SetLock(s: State, b: nat, l: Option<Tid>): State
    requires b < |s.buckets|
  {
    s.(buckets := s.buckets[b := s.buckets[b].(lock := l)])
  }

  /** A bucket for a new expiry. */
  function NewBucket(s: State, t: Tid, c: Call): State {
    Goto(s.(buckets := s.buckets + [Bucket(c.exp, None, false, map[], [])], mapped := s.mapped[c.exp := |s.buckets|]), t, Release(c, |s.buckets|))
  }

  function DoLookup(s: State, t: Tid, c: Call): State {
    if c.exp in s.mapped then Goto(s, t, Release(c, s.mapped[c.exp])) else NewBucket(s, t, c)
  }

  /** A window for a new token. */
  function NewWindow(s: State, t: Tid, c: Call, b: nat): State
    requires b < |s.buckets|
  {
    var (k, w) := (s.buckets[b], |s.windows|);
    Goto(s.(windows := s.windows + [Window(c.token, map[], k.exp, Live(b, |k.ws|), [])],
            buckets := s.buckets[b := k.(ids := k.ids[c.token := |k.ws|], ws := k.ws + [w])]),
         t, Store(c, b, w))
  }

  function DoFind(s: State, t: Tid, c: Call, b: nat): State
    requires b < |s.buckets|
    requires forall k <- s.buckets[b].ids :: s.buckets[b].ids[k] < |s.buckets[b].ws|
  {
    var k := s.buckets[b];
    if k.closed then Goto(s, t, Leave(c, b, false))
    else if c.token in k.ids then Goto(s, t, Store(c, b, k.ws[k.ids[c.token]]))
    else NewWindow(s, t, c, b)
  }

  function DoStore(s: State, t: Tid, c: Call, b: nat, w: nat): State
    requires w < |s.windows|
  {
    var x := s.windows[w];
    Goto(s.(windows := s.windows[w := x.(cache := AddTo(x.cache, c.cal), added := x.added + [c])], accepted := s.accepted + [c]),
         t, Leave(c, b, true))
  }

  /** The windows of bucket b go to harvester t, behind the first n it has. */
  function Take(ws: seq<Window>, b: nat, t: Tid, n: nat): (r: seq<Window>)
    ensures |r| == |ws|
  {
    seq(|ws|, w requires 0 <= w < |ws| =>
      if ws[w].place.Live? && ws[w].place.b == b then ws[w].(place := Held(t, n + ws[w].place.i)) else ws[w])
  }

  function DoClose(s: State, t: Tid, now: int, got: seq<nat>, e: int, b: nat): State
    requires b < |s.buckets|
  {
    var k := s.buckets[b];
    Goto(s.(windows := Take(s.windows, b, t, |got|), buckets := s.buckets[b := k.(closed := true, ids := map[], ws := [])]),
         t, HarvestLeave(now, got + k.ws, e, b))
  }

  /** What harvester t holds is handed out, behind the first n. */
  function HandOut(ws: seq<Window>, t: Tid, n: nat): (r: seq<Window>)
    ensures |r| == |ws|
  {
    seq(|ws|, w requires 0 <= w < |ws| =>
      if ws[w].place.Held? && ws[w].place.t == t then ws[w].(place := Harvested(n + ws[w].place.i)) else ws[w])
  }

  function DoScan(s: State, t: Tid, now: int, got: seq<nat>, pick: int): State {
    if pick in s.mapped && pick <= now then Goto(s, t, HarvestWait(now, got, pick, s.mapped[pick]))
    else if exists e <- s.mapped.Keys :: e <= now then s
    else Goto(s.(lock := None, windows := HandOut(s.windows, t, |s.harvested|), harvested := s.harvested + got), t, Idle)
  }

  /** The bucket and window numbers a goroutine holds exist. */
  predicate PcInRange(s: State, pc: Pc) {
    match pc
    case Wait(_, b) => b < |s.buckets|
    case Find(_, b) => b < |s.buckets| && forall k <- s.buckets[b].ids :: s.buckets[b].ids[k] < |s.buckets[b].ws|
    case Store(_, _, w) => w < |s.windows|
    case Leave(_, b, _) => b < |s.buckets|
    case HarvestWait(_, _, _, b) => b < |s.buckets|
    case Close(_, _, _, b) => b < |s.buckets|
    case HarvestLeave(_, _, _, b) => b < |s.buckets|
    case _ => true
  }

  /** One step of goroutine t; a mutex that is taken, or an action that does not apply, leaves the state as it is. */
  function Step(s: State, t: Tid, a: Action): State
    requires PcInRange(s, PcOf(s, t))
  {
    match PcOf(s, t)
    case Idle => (match a case Add(c) => Goto(s, t, Enter(c)) case Harvest => Goto(s, t, HarvestEnter) case Go(_, _) => s)
    case pc => if a.Go? then Proceed(s, t, pc, a.now, a.pick) else s
  }

  function Proceed(s: State, t: Tid, pc: Pc, now: int, pick: int): State
    requires PcInRange(s, pc)
  {
    match pc
    case Idle => s
    case Enter(c) => if s.lock.None? then Goto(s.(lock := Some(t)), t, Lookup(c)) else s
    case Lookup(c) => DoLookup(s, t, c)
    case Release(c, b) => Goto(s.(lock := None), t, Wait(c, b))
    case Wait(c, b) => if s.buckets[b].lock.None? then Goto(SetLock(s, b, Some(t)), t, Find(c, b)) else s
    case Find(c, b) => DoFind(s, t, c, b)
    case Store(c, b, w) => DoStore(s, t, c, b, w)
    case Leave(c, b, ok) => Goto(SetLock(s, b, None), t, if ok then Idle else Retry(c))
    case Retry(c) => if now >= c.exp then Goto(s.(rejected := s.rejected + [c]), t, Idle) else Goto(s, t, Enter(c))
    case HarvestEnter => if s.lock.None? then Goto(s.(lock := Some(t)), t, Scan(now, [])) else s
    case Scan(n, got) => DoScan(s, t, n, got, pick)
    case HarvestWait(n, got, e, b) => if s.buckets[b].lock.None? then Goto(SetLock(s, b, Some(t)), t, Close(n, got, e, b)) else s
    case Close(n, got, e, b) => DoClose(s, t, n, got, e, b)
    case HarvestLeave(n, got, e, b) => Goto(SetLock(s, b, None), t, Delete(n, got, e, b))
    case Delete(n, got, e, b) => Goto(s.(mapped := s.mapped - {e}), t, Scan(n, got))
  }
}
