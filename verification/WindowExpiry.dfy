/** Which windows a harvest takes, which calls are rejected, and that no call disappears. */
module WindowExpiry {
  import opened Hashing
  import opened WindowCache
  import opened WindowProofs
  import opened WindowRuns
  import opened Wrappers

  // ----- harvests -----

  /** What a harvester has taken, and the bucket it works on, had expired when it looked at the clock. */
  ghost predicate Due(s: State, pc: Pc) {
    Harvests(pc) ==>
      && (forall w <- pc.got :: w < |s.windows| && s.windows[w].exp <= pc.now)
      && (!pc.Scan? ==> pc.e <= pc.now)
  }

  ghost predicate Timely(s: State) {
    forall t: Tid :: Due(s, PcOf(s, t))
  }

  /** Windows are not lost and keep their expiry. */
  ghost predicate SameExpiry(s: State, s': State) {
    |s.windows| <= |s'.windows| && forall w: nat :: w < |s.windows| ==> s'.windows[w].exp == s.windows[w].exp
  }

  lemma MovesExpiry(s: State, t: Tid)
    requires PcInRange(s, PcOf(s, t))
    ensures PcOf(s, t).Find? ==> SameExpiry(s, DoFind(s, t, PcOf(s, t).c, PcOf(s, t).b))
    ensures PcOf(s, t).Store? ==> SameExpiry(s, DoStore(s, t, PcOf(s, t).c, PcOf(s, t).b, PcOf(s, t).w))
    ensures PcOf(s, t).Close? ==> SameExpiry(s, DoClose(s, t, PcOf(s, t).now, PcOf(s, t).got, PcOf(s, t).e, PcOf(s, t).b))
  {
  }

  lemma ScanExpiry(s: State, t: Tid, pick: int)
    requires PcOf(s, t).Scan?
    ensures SameExpiry(s, DoScan(s, t, PcOf(s, t).now, PcOf(s, t).got, pick))
  {
  }

  lemma ProceedExpiry(s: State, t: Tid, now: int, pick: int)
    requires PcInRange(s, PcOf(s, t))
    ensures SameExpiry(s, Proceed(s, t, PcOf(s, t), now, pick))
  {
    match PcOf(s, t)
    case Find(_, _) => MovesExpiry(s, t);
    case Store(_, _, _) => MovesExpiry(s, t);
    case Close(_, _, _, _) => MovesExpiry(s, t);
    case Scan(_, _) => ScanExpiry(s, t, pick);
    case _ => assert Proceed(s, t, PcOf(s, t), now, pick).windows == s.windows;
  }

  lemma StepMoves(s: State, t: Tid, a: Action)
    requires PcInRange(s, PcOf(s, t))
    ensures var s' := Step(s, t, a); s' == s || s'.threads == s.threads[t := PcOf(s', t)]
    ensures Moves(s, Step(s, t, a), t)
  {
  }

  /** The windows of the bucket being closed have its expiry. */
  lemma ClosingExpiry(s: State, t: Tid)
    requires Inv(s) && PcOf(s, t).Close? && PcOf(s, t).b < |s.buckets|
    ensures forall w <- s.buckets[PcOf(s, t).b].ws :: w < |s.windows| && s.windows[w].exp == PcOf(s, t).e
  {
    var (b, pc) := (PcOf(s, t).b, PcOf(s, t));
    assert HarvesterOk(s, t, pc) && BucketOk(s.mapped, s.windows, b, s.buckets[b]);
    forall w <- s.buckets[b].ws
      ensures w < |s.windows| && s.windows[w].exp == pc.e
    {
      var i: nat :| i < |s.buckets[b].ws| && s.buckets[b].ws[i] == w;
      assert s.windows[w].place == Live(b, i) && InPlace(s, w, s.windows[w]);
    }
  }

  lemma CloseDue(s: State, t: Tid)
    requires Inv(s) && Due(s, PcOf(s, t)) && PcOf(s, t).Close? && PcOf(s, t).b < |s.buckets|
    ensures var pc := PcOf(s, t);
            var s' := DoClose(s, t, pc.now, pc.got, pc.e, pc.b);
            Due(s', PcOf(s', t))
  {
    ClosingExpiry(s, t);
    MovesExpiry(s, t);
  }

  /** Other moves take no windows, and work on a bucket only if the scan found it expired. */
  lemma OtherDue(s: State, t: Tid, now: int, pick: int)
    requires Due(s, PcOf(s, t)) && PcInRange(s, PcOf(s, t)) && !PcOf(s, t).Close?
    ensures var (pc, pc') := (PcOf(s, t), PcOf(Proceed(s, t, PcOf(s, t), now, pick), t));
            Harvests(pc') ==>
              && (pc'.got == [] || (Harvests(pc) && pc'.got == pc.got && pc'.now == pc.now))
              && (!pc'.Scan? ==> pc'.e <= pc'.now)
  {
  }

  lemma ProceedDue(s: State, t: Tid, now: int, pick: int)
    requires Inv(s) && Timely(s) && PcInRange(s, PcOf(s, t))
    ensures var s' := Proceed(s, t, PcOf(s, t), now, pick); Due(s', PcOf(s', t))
  {
    assert Due(s, PcOf(s, t));
    if PcOf(s, t).Close? {
      CloseDue(s, t);
    } else {
      ProceedExpiry(s, t, now, pick);
      OtherDue(s, t, now, pick);
    }
  }

  lemma StepTimely(s: State, t: Tid, a: Action)
    requires Inv(s) && Timely(s) && PcInRange(s, PcOf(s, t))
    ensures Timely(Step(s, t, a))
  {
    var s' := Step(s, t, a);
    if !PcOf(s, t).Idle? && a.Go? {
      ProceedExpiry(s, t, a.now, a.pick);
      ProceedDue(s, t, a.now, a.pick);
    }
    StepMoves(s, t, a);
    forall u: Tid
      ensures Due(s', PcOf(s', u))
    {
      if u != t {
        assert Due(s, PcOf(s, u));
      }
    }
  }

  lemma {:induction false} RunTimely(s: State, turns: seq<Turn>)
    requires Inv(s) && Timely(s)
    ensures Timely(Run(s, turns))
    decreases |turns|
  {
    if turns != [] {
      InvInRange(s, turns[0].t);
      StepKeeps(s, turns[0].t, turns[0].a);
      StepTimely(s, turns[0].t, turns[0].a);
      RunTimely(Step(s, turns[0].t, turns[0].a), turns[1..]);
    }
  }

  lemma LiveIsMapped(s: State, w: nat)
    requires Inv(s) && w < |s.windows|
    ensures s.windows[w].place.Live? ==> s.windows[w].exp in s.mapped
  {
    assert InPlace(s, w, s.windows[w]);
  }

  /** No bucket with an expiry up to now is mapped, so no live window has one. */
  lemma ExpiredIsTaken(s: State, t: Tid, w: nat)
    requires Inv(s) && PcOf(s, t).Scan? && w < |s.windows| && s.windows[w].exp <= PcOf(s, t).now
    requires forall e <- s.mapped :: e > PcOf(s, t).now
    ensures s.windows[w].place.Harvested? || (s.windows[w].place.Held? && s.windows[w].place.t == t)
  {
    LiveIsMapped(s, w);
    assert InPlace(s, w, s.windows[w]);
    if s.windows[w].place.Held? && s.windows[w].place.t != t {
      OneHarvester(s, t, s.windows[w].place.t);
    }
  }

  /** A scan that ends hands out what its harvester holds, having found no mapped bucket that has expired. */
  lemma ScanEnds(s: State, t: Tid, pick: int)
    requires PcOf(s, t).Scan? && PcOf(DoScan(s, t, PcOf(s, t).now, PcOf(s, t).got, pick), t).Idle?
    ensures var s' := DoScan(s, t, PcOf(s, t).now, PcOf(s, t).got, pick);
            s'.harvested == s.harvested + PcOf(s, t).got && SameExpiry(s, s') && |s'.windows| == |s.windows|
    ensures forall e <- s.mapped :: e > PcOf(s, t).now
  {
  }

  lemma ExpiredIsHandedOut(s: State, t: Tid, w: nat)
    requires Inv(s) && PcOf(s, t).Scan? && w < |s.windows| && s.windows[w].exp <= PcOf(s, t).now
    requires forall e <- s.mapped :: e > PcOf(s, t).now
    ensures w in s.harvested || w in PcOf(s, t).got
  {
    ExpiredIsTaken(s, t, w);
    assert InPlace(s, w, s.windows[w]);
  }

  /**
   A harvest over every run: when it returns, it hands out only windows that had expired
   when it read the clock, and every window that had is handed out now or was before.
   */
  lemma HarvestExact(turns: seq<Turn>, t: Tid, now: int, pick: int)
    requires Inv(START) && PcOf(Run(START, turns), t).Scan? && PcOf(Step(Run(START, turns), t, Go(now, pick)), t).Idle?
    ensures var (s, s') := (Run(START, turns), Step(Run(START, turns), t, Go(now, pick)));
            && s'.harvested == s.harvested + PcOf(s, t).got
            && (forall w <- PcOf(s, t).got :: w < |s'.windows| && s'.windows[w].exp <= PcOf(s, t).now)
            && (forall w: nat :: w < |s'.windows| && s'.windows[w].exp <= PcOf(s, t).now ==> w in s'.harvested)
  {
    var (s, s') := (Run(START, turns), Step(Run(START, turns), t, Go(now, pick)));
    RunTimely(START, turns);
    assert Due(s, PcOf(s, t));
    ScanEnds(s, t, pick);
    forall w: nat | w < |s'.windows| && s'.windows[w].exp <= PcOf(s, t).now
      ensures w in s'.harvested
    {
      ExpiredIsHandedOut(s, t, w);
    }
  }

  // ----- rejected calls -----

  /** Some goroutine read a clock at or past e. */
  ghost predicate SeenPast(turns: seq<Turn>, e: int) {
    exists turn <- turns :: turn.a.Go? && turn.a.now >= e
  }

  lemma StepRejects(s: State, turn: Turn, c: Call)
    requires PcInRange(s, PcOf(s, turn.t)) && c in Step(s, turn.t, turn.a).rejected
    ensures c in s.rejected || (turn.a.Go? && turn.a.now >= c.exp)
  {
  }

  /** A call is rejected only after the clock has passed its expiry. */
  lemma {:induction false} RejectedLate(s: State, turns: seq<Turn>, c: Call)
    requires Inv(s) && c in Run(s, turns).rejected
    ensures c in s.rejected || SeenPast(turns, c.exp)
    decreases |turns|
  {
    if turns != [] {
      var turn := turns[0];
      InvInRange(s, turn.t);
      StepKeeps(s, turn.t, turn.a);
      RejectedLate(Step(s, turn.t, turn.a), turns[1..], c);
      assert turn in turns && forall u :: u in turns[1..] ==> u in turns;
      if c in Step(s, turn.t, turn.a).rejected {
        StepRejects(s, turn, c);
      }
    }
  }

  // ----- every call is accepted, rejected or under way -----

  /** The goroutine has not brought the call c to an end. */
  predicate WorksOn(pc: Pc, c: Call) {
    match pc
    case Enter(d) => d == c
    case Lookup(d) => d == c
    case Release(d, _) => d == c
    case Wait(d, _) => d == c
    case Find(d, _) => d == c
    case Store(d, _, _) => d == c
    case Leave(d, _, ok) => !ok && d == c
    case Retry(d) => d == c
    case _ => false
  }

  function Pending(pc: Pc, c: Call): nat {
    if WorksOn(pc, c) then 1 else 0
  }

  /** How many goroutines work on c. */
  ghost function UnderWay(threads: map<Tid, Pc>, c: Call): nat {
    if threads == map[] then 0
    else
      var t :| t in threads;
      Pending(threads[t], c) + UnderWay(threads - {t}, c)
  }

  lemma {:induction false} UnderWayAt(threads: map<Tid, Pc>, t: Tid, c: Call)
    requires t in threads
    ensures UnderWay(threads, c) == Pending(threads[t], c) + UnderWay(threads - {t}, c)
    decreases |threads|
  {
    var u :| u in threads && UnderWay(threads, c) == Pending(threads[u], c) + UnderWay(threads - {u}, c);
    if u != t {
      UnderWayAt(threads - {u}, t, c);
      UnderWayAt(threads - {t}, u, c);
      assert threads - {u} - {t} == threads - {t} - {u};
    }
  }

  lemma Turned(s: State, t: Tid, pc: Pc, c: Call)
    ensures UnderWay(s.threads[t := pc], c) + Pending(PcOf(s, t), c) == UnderWay(s.threads, c) + Pending(pc, c)
  {
    UnderWayAt(s.threads[t := pc], t, c);
    assert s.threads[t := pc] - {t} == s.threads - {t};
    if t in s.threads {
      UnderWayAt(s.threads, t, c);
    } else {
      assert s.threads - {t} == s.threads;
    }
  }

  /** How often c was called so far, wherever its calls are. */
  ghost function Ledger(s: State, c: Call): nat {
    Ended(s, c) + UnderWay(s.threads, c)
  }

  /** A call of c begins with this turn. */
  function Begun(s: State, turn: Turn, c: Call): nat {
    if PcOf(s, turn.t).Idle? && turn.a == Add(c) then 1 else 0
  }

  lemma OneMore(cs: seq<Call>, d: Call, c: Call)
    ensures multiset(cs + [d])[c] == multiset(cs)[c] + if d == c then 1 else 0
  {
  }

  /** The calls that have ended. */
  function Ended(s: State, c: Call): nat {
    multiset(s.accepted)[c] + multiset(s.rejected)[c]
  }

  lemma StoreEnds(s: State, t: Tid, c: Call)
    requires PcOf(s, t).Store? && PcInRange(s, PcOf(s, t))
    ensures var s' := DoStore(s, t, PcOf(s, t).c, PcOf(s, t).b, PcOf(s, t).w);
            Ended(s', c) + Pending(PcOf(s', t), c) == Ended(s, c) + Pending(PcOf(s, t), c)
  {
    OneMore(s.accepted, PcOf(s, t).c, c);
  }

  lemma ProceedEnds(s: State, t: Tid, now: int, pick: int, c: Call)
    requires PcInRange(s, PcOf(s, t))
    ensures var s' := Proceed(s, t, PcOf(s, t), now, pick);
            Ended(s', c) + Pending(PcOf(s', t), c) == Ended(s, c) + Pending(PcOf(s, t), c)
  {
    if PcOf(s, t).Store? {
      StoreEnds(s, t, c);
    } else if PcOf(s, t).Retry? {
      OneMore(s.rejected, PcOf(s, t).c, c);
    } else {
      SameEnded(s, t, now, pick, c);
    }
  }

  lemma SameEnded(s: State, t: Tid, now: int, pick: int, c: Call)
    requires PcInRange(s, PcOf(s, t)) && !PcOf(s, t).Store? && !PcOf(s, t).Retry?
    ensures var s' := Proceed(s, t, PcOf(s, t), now, pick);
            s'.accepted == s.accepted && s'.rejected == s.rejected && (WorksOn(PcOf(s', t), c) <==> WorksOn(PcOf(s, t), c))
  {
  }

  /** A turn ends a call exactly by accepting or rejecting it. */
  lemma TurnEnds(s: State, turn: Turn, c: Call)
    requires PcInRange(s, PcOf(s, turn.t))
    ensures var s' := Step(s, turn.t, turn.a);
            Ended(s', c) + Pending(PcOf(s', turn.t), c) == Ended(s, c) + Pending(PcOf(s, turn.t), c) + Begun(s, turn, c)
  {
    if !PcOf(s, turn.t).Idle? && turn.a.Go? {
      ProceedEnds(s, turn.t, turn.a.now, turn.a.pick, c);
    }
  }

  lemma StepLedger(s: State, turn: Turn, c: Call)
    requires PcInRange(s, PcOf(s, turn.t))
    ensures Ledger(Step(s, turn.t, turn.a), c) == Ledger(s, c) + Begun(s, turn, c)
  {
    var s' := Step(s, turn.t, turn.a);
    TurnEnds(s, turn, c);
    StepMoves(s, turn.t, turn.a);
    if s' != s {
      Turned(s, turn.t, PcOf(s', turn.t), c);
    }
  }

  /** How often c was called in the run. */
  ghost function AllBegun(s: State, turns: seq<Turn>, c: Call): nat
    requires Inv(s)
    decreases |turns|
  {
    if turns == [] then 0
    else
      InvInRange(s, turns[0].t);
      StepKeeps(s, turns[0].t, turns[0].a);
      Begun(s, turns[0], c) + AllBegun(Step(s, turns[0].t, turns[0].a), turns[1..], c)
  }

  lemma {:induction false} RunLedger(s: State, turns: seq<Turn>, c: Call)
    requires Inv(s)
    ensures Ledger(Run(s, turns), c) == Ledger(s, c) + AllBegun(s, turns, c)
    decreases |turns|
  {
    if turns != [] {
      InvInRange(s, turns[0].t);
      StepKeeps(s, turns[0].t, turns[0].a);
      StepLedger(s, turns[0], c);
      RunLedger(Step(s, turns[0].t, turns[0].a), turns[1..], c);
    }
  }

  /** Over every run each call that began is accepted once, rejected once, or still under way. */
  lemma CallsConserved(turns: seq<Turn>, c: Call)
    ensures Inv(START)
    ensures var r := Run(START, turns);
            AllBegun(START, turns, c) == multiset(r.accepted)[c] + multiset(r.rejected)[c] + UnderWay(r.threads, c)
  {
    StartInv();
    RunLedger(START, turns, c);
  }

  /** A call that found its bucket closed is rejected exactly when the clock has passed its expiry, and otherwise begins again. */
  lemma RetryExactly(s: State, t: Tid, now: int, pick: int)
    requires PcOf(s, t).Retry?
    ensures var (c, s') := (PcOf(s, t).c, Step(s, t, Go(now, pick)));
            if now >= c.exp then s'.rejected == s.rejected + [c] && PcOf(s', t).Idle? else s'.rejected == s.rejected && PcOf(s', t) == Enter(c)
  {
  }
}
