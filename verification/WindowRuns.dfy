/** Main results on the window cache: every run of every number of goroutines. */
module WindowRuns {
  import opened Hashing
  import opened WindowCache
  import opened WindowProofs
  import opened Wrappers

  datatype Turn = Turn(t: Tid, a: Action)

  /** The state after a schedule of turns; every state on the way keeps the invariant. */
  ghost function Run(s: State, turns: seq<Turn>): (r: State)
    requires Inv(s)
    ensures Inv(r)
    decreases |turns|
  {
    if turns == [] then s
    else
      InvInRange(s, turns[0].t);
      StepKeeps(s, turns[0].t, turns[0].a);
      Run(Step(s, turns[0].t, turns[0].a), turns[1..])
  }

  // ----- closed buckets -----

  /** A mapped bucket is open, unless a harvester is between closing and unmapping that very bucket. */
  lemma MappedIsOpen(s: State, e: int)
    requires Inv(s) && e in s.mapped
    requires forall t: Tid :: Unmaps(PcOf(s, t)) ==> PcOf(s, t).e != e
    ensures !s.buckets[s.mapped[e]].closed
  {
  }

  /** The bucket an adder looks up is open at that moment. */
  lemma LookupFindsOpen(s: State, t: Tid)
    requires Inv(s) && PcOf(s, t).Lookup?
    ensures var s' := Step(s, t, Go(0, 0)); PcOf(s', t).Release? && PcOf(s', t).b < |s'.buckets| && !s'.buckets[PcOf(s', t).b].closed
  {
  }

  /** An open bucket is mapped under its expiry, so there is one for each. */
  lemma OneOpenBucket(s: State, b: nat, b': nat)
    requires Inv(s) && b < |s.buckets| && b' < |s.buckets|
    requires !s.buckets[b].closed && !s.buckets[b'].closed && s.buckets[b].exp == s.buckets[b'].exp
    ensures b == b'
  {
  }

  // ----- nothing is added after Close -----

  /** What a step leaves of windows that left their bucket, and of closed buckets. */
  ghost predicate Frozen(s: State, s': State) {
    && |s.windows| <= |s'.windows| && |s.buckets| <= |s'.buckets| && s.harvested <= s'.harvested
    && (forall w: nat :: w < |s.windows| && !s.windows[w].place.Live? ==> s'.windows[w].(place := s.windows[w].place) == s.windows[w] && !s'.windows[w].place.Live?)
    && (forall w: nat :: w < |s.windows| && s.windows[w].place.Harvested? ==> s'.windows[w] == s.windows[w])
    && (forall b: nat :: b < |s.buckets| && s.buckets[b].closed ==> s'.buckets[b].closed && s'.buckets[b].ws == s.buckets[b].ws)
  }

  lemma FrozenTrans(s: State, s': State, s'': State)
    requires Frozen(s, s') && Frozen(s', s'')
    ensures Frozen(s, s'')
  {
  }

  lemma StoreFreezes(s: State, t: Tid)
    requires Inv(s) && PcOf(s, t).Store? && PcOf(s, t).w < |s.windows|
    ensures var pc := PcOf(s, t); Frozen(s, DoStore(s, t, pc.c, pc.b, pc.w))
  {
  }

  lemma FindFreezes(s: State, t: Tid)
    requires Inv(s) && PcOf(s, t).Find? && PcInRange(s, PcOf(s, t))
    ensures Frozen(s, DoFind(s, t, PcOf(s, t).c, PcOf(s, t).b))
  {
  }

  lemma CloseFreezes(s: State, t: Tid)
    requires Inv(s) && PcOf(s, t).Close? && PcOf(s, t).b < |s.buckets|
    ensures Frozen(s, Closing(s, t))
  {
  }

  lemma ReturnFreezes(s: State, t: Tid)
    requires PcOf(s, t).Scan?
    ensures Frozen(s, Returning(s, t))
  {
  }

  lemma LookupFreezes(s: State, t: Tid, c: Call)
    ensures Frozen(s, DoLookup(s, t, c))
  {
  }

  lemma LockFreezes(s: State, t: Tid, b: nat, l: Option<Tid>, pc: Pc)
    requires b < |s.buckets|
    ensures Frozen(s, Goto(SetLock(s, b, l), t, pc))
  {
  }

  lemma SameFreezes(s: State, s': State)
    requires s'.windows == s.windows && s'.harvested == s.harvested && s'.buckets == s.buckets
    ensures Frozen(s, s')
  {
  }

  lemma ScanFreezes(s: State, t: Tid, pick: int)
    requires PcOf(s, t).Scan?
    ensures Frozen(s, DoScan(s, t, PcOf(s, t).now, PcOf(s, t).got, pick))
  {
    var s' := DoScan(s, t, PcOf(s, t).now, PcOf(s, t).got, pick);
    if s'.windows == s.windows && s'.harvested == s.harvested {
      SameFreezes(s, s');
    } else {
      ReturnFreezes(s, t);
    }
  }

  lemma ProceedFreezes(s: State, t: Tid, now: int, pick: int)
    requires Inv(s) && PcInRange(s, PcOf(s, t))
    ensures Frozen(s, Proceed(s, t, PcOf(s, t), now, pick))
  {
    match PcOf(s, t)
    case Lookup(c) => LookupFreezes(s, t, c);
    case Wait(c, b) => LockFreezes(s, t, b, Some(t), Find(c, b));
    case Find(_, _) => FindFreezes(s, t);
    case Store(_, _, _) => StoreFreezes(s, t);
    case Leave(c, b, ok) => LockFreezes(s, t, b, None, if ok then Idle else Retry(c));
    case Scan(n, got) => ScanFreezes(s, t, pick);
    case HarvestWait(n, got, e, b) => LockFreezes(s, t, b, Some(t), Close(n, got, e, b));
    case Close(_, _, _, _) => CloseFreezes(s, t);
    case HarvestLeave(n, got, e, b) => LockFreezes(s, t, b, None, Delete(n, got, e, b));
    case _ => SameFreezes(s, Proceed(s, t, PcOf(s, t), now, pick));
  }

  lemma StepFreezes(s: State, t: Tid, a: Action)
    requires Inv(s) && PcInRange(s, PcOf(s, t))
    ensures Frozen(s, Step(s, t, a))
  {
    if !PcOf(s, t).Idle? && a.Go? {
      ProceedFreezes(s, t, a.now, a.pick);
    }
  }

  /** Once a bucket is closed its windows keep their contents for ever, whatever adders still know the bucket. */
  lemma {:induction false} RunFreezes(s: State, turns: seq<Turn>)
    requires Inv(s)
    ensures Frozen(s, Run(s, turns))
    decreases |turns|
  {
    if turns != [] {
      InvInRange(s, turns[0].t);
      StepKeeps(s, turns[0].t, turns[0].a);
      StepFreezes(s, turns[0].t, turns[0].a);
      RunFreezes(Step(s, turns[0].t, turns[0].a), turns[1..]);
      FrozenTrans(s, Step(s, turns[0].t, turns[0].a), Run(s, turns));
    }
  }

  // ----- every accepted calculator is in one window -----

  /** A window is listed once: in one open bucket, in one harvester's result, or among those handed out. */
  lemma ListedOnce(s: State, w: nat, b: nat, i: nat, b': nat, i': nat, t: Tid, j: nat, h: nat)
    requires Inv(s) && b < |s.buckets| && i < |s.buckets[b].ws| && s.buckets[b].ws[i] == w
    ensures b' < |s.buckets| && i' < |s.buckets[b'].ws| && s.buckets[b'].ws[i'] == w ==> b' == b && i' == i
    ensures !(Harvests(PcOf(s, t)) && j < |PcOf(s, t).got| && PcOf(s, t).got[j] == w)
    ensures !(h < |s.harvested| && s.harvested[h] == w)
  {
  }

  /** No window is handed out twice. */
  lemma HandedOutOnce(s: State, i: nat, j: nat)
    requires Inv(s) && i < j < |s.harvested|
    ensures s.harvested[i] != s.harvested[j]
  {
  }

  /** Whatever the schedule, the windows hold exactly the accepted calculators, each in a window of its own token and expiry. */
  lemma AcceptedOnce(turns: seq<Turn>)
    ensures Inv(START)
    ensures var r := Run(START, turns);
            && AllAdded(r.windows) == multiset(r.accepted)
            && forall w: nat, c :: w < |r.windows| && c in r.windows[w].added ==> c.token == r.windows[w].token && c.exp == r.windows[w].exp
  {
  }

  /** With no harvester under way, every window is in an open mapped bucket or was handed out. */
  lemma LiveOrHarvested(s: State, w: nat)
    requires Inv(s) && w < |s.windows| && forall t: Tid :: !Harvests(PcOf(s, t))
    ensures var x := s.windows[w];
            || (x.exp in s.mapped && w in s.buckets[s.mapped[x.exp]].ws && !s.buckets[s.mapped[x.exp]].closed)
            || w in s.harvested
  {
  }

  // ----- counts -----

  ghost function Counts(m: map<u64, Total>): int {
    if m == map[] then 0
    else
      var h :| h in m;
      m[h].count + Counts(m - {h})
  }

  lemma {:induction false} CountsAt(m: map<u64, Total>, h: u64)
    requires h in m
    ensures Counts(m) == m[h].count + Counts(m - {h})
    decreases |m|
  {
    var g :| g in m && Counts(m) == m[g].count + Counts(m - {g});
    if g != h {
      CountsAt(m - {g}, h);
      CountsAt(m - {h}, g);
      assert m - {g} - {h} == m - {h} - {g};
    }
  }

  /** The calculator is counted: it is the first of its hash, or of the same kind as the first. */
  ghost predicate Counted(cache: map<u64, Total>, x: Calculator) {
    x.hash !in cache || cache[x.hash].kind == x.kind
  }

  lemma CountsAdd(cache: map<u64, Total>, x: Calculator)
    ensures Counts(AddTo(cache, x)) == Counts(cache) + if Counted(cache, x) then 1 else 0
  {
    var cache' := AddTo(cache, x);
    CountsAt(cache', x.hash);
    if x.hash in cache {
      CountsAt(cache, x.hash);
      assert cache' - {x.hash} == cache - {x.hash};
    } else {
      assert cache' - {x.hash} == cache;
    }
  }

  /** Two calculators of different kinds share a hash. */
  ghost predicate Clash(added: seq<Call>) {
    exists c <- added, d <- added :: c.cal.hash == d.cal.hash && c.cal.kind != d.cal.kind
  }

  /** An entry has the kind of one of the calculators that share its hash, and every hash has an entry. */
  lemma {:induction false} FoldKinds(added: seq<Call>)
    ensures forall c <- added :: c.cal.hash in Fold(added)
    ensures forall h <- Fold(added) :: exists c <- added :: c.cal.hash == h && c.cal.kind == Fold(added)[h].kind
  {
    if added != [] {
      var init, last := added[..|added| - 1], added[|added| - 1];
      FoldKinds(init);
      assert added == init + [last];
      forall h <- Fold(added)
        ensures exists c <- added :: c.cal.hash == h && c.cal.kind == Fold(added)[h].kind
      {
        if h in Fold(init) {
          var c :| c in init && c.cal.hash == h && c.cal.kind == Fold(init)[h].kind;
          assert c in added;
        } else {
          assert last in added;
        }
      }
    }
  }

  /** Adding one more is counted, or makes a clash; and only then. */
  lemma ClashStep(init: seq<Call>, last: Call)
    ensures Clash(init + [last]) <==> Clash(init) || !Counted(Fold(init), last.cal)
  {
    var added := init + [last];
    FoldKinds(init);
    if Clash(init) {
      var c, d :| c in init && d in init && c.cal.hash == d.cal.hash && c.cal.kind != d.cal.kind;
      assert c in added && d in added;
    } else if !Counted(Fold(init), last.cal) {
      var c :| c in init && c.cal.hash == last.cal.hash && c.cal.kind == Fold(init)[last.cal.hash].kind;
      assert c in added && last in added;
    }
  }

  /** The counts of a window add up to the calculators added to it, unless two kinds share a hash: then to fewer. */
  lemma {:induction false} WindowCounts(added: seq<Call>)
    ensures Counts(Fold(added)) <= |added|
    ensures Counts(Fold(added)) == |added| <==> !Clash(added)
  {
    if added != [] {
      var init, last := added[..|added| - 1], added[|added| - 1];
      assert added == init + [last];
      WindowCounts(init);
      CountsAdd(Fold(init), last.cal);
      ClashStep(init, last);
    }
  }

  ghost function AllCounts(ws: seq<Window>): int {
    if ws == [] then 0 else AllCounts(ws[..|ws| - 1]) + Counts(ws[|ws| - 1].cache)
  }

  ghost predicate AnyClash(ws: seq<Window>) {
    exists x <- ws :: Clash(x.added)
  }

  lemma {:induction false} AllWindowCounts(ws: seq<Window>)
    requires forall x <- ws :: Filled(x)
    ensures AllCounts(ws) <= |AllAdded(ws)|
    ensures AllCounts(ws) == |AllAdded(ws)| <==> !AnyClash(ws)
  {
    if ws != [] {
      var init, last := ws[..|ws| - 1], ws[|ws| - 1];
      assert ws == init + [last];
      AllWindowCounts(init);
      WindowCounts(last.added);
      assert AnyClash(ws) <==> AnyClash(init) || Clash(last.added);
      assert |multiset(last.added)| == |last.added|;
      assert AllAdded(ws) == AllAdded(init) + multiset(last.added);
      assert |AllAdded(ws)| == |AllAdded(init)| + |last.added|;
      assert last.cache == Fold(last.added);
      assert AllCounts(ws) == AllCounts(init) + Counts(last.cache);
    }
  }

  /** Over every run, the counts in live and harvested windows add up to the accepted calculators, exactly when no window saw two kinds under one hash. */
  lemma CountsAreAccepted(turns: seq<Turn>)
    ensures Inv(START)
    ensures var r := Run(START, turns); AllCounts(r.windows) == |r.accepted| <==> !AnyClash(r.windows)
  {
    StartInv();
    var r := Run(START, turns);
    forall x <- r.windows
      ensures Filled(x)
    {
      var w :| 0 <= w < |r.windows| && r.windows[w] == x;
    }
    AllWindowCounts(r.windows);
    assert |multiset(r.accepted)| == |r.accepted|;
  }
}
