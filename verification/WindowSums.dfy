/** What the calculators in the windows hold: counts, sums and latest times, in terms of the accepted calls. */
module WindowSums {
  import opened Hashing
  import opened WindowCache
  import opened WindowProofs
  import opened WindowRuns
  import opened Wrappers

  // ----- one entry -----

  /** The first calculator with the hash. */
  function First(added: seq<Call>, h: u64): Option<Calculator> {
    if added == [] then None
    else if added[0].cal.hash == h then Some(added[0].cal)
    else First(added[1..], h)
  }

  /** The calculator belongs to the entry of h, whose kind is k. */
  predicate Belongs(c: Call, h: u64, k: Kind) {
    c.cal.hash == h && c.cal.kind == k
  }

  function HowMany(added: seq<Call>, h: u64, k: Kind): nat {
    if added == [] then 0 else (if Belongs(added[0], h, k) then 1 else 0) + HowMany(added[1..], h, k)
  }

  function SumOf(added: seq<Call>, h: u64, k: Kind): real {
    if added == [] then 0.0 else (if Belongs(added[0], h, k) then added[0].cal.delta else 0.0) + SumOf(added[1..], h, k)
  }

  lemma {:induction false} FirstSnoc(added: seq<Call>, c: Call, h: u64)
    ensures First(added + [c], h) == if First(added, h).Some? then First(added, h) else if c.cal.hash == h then Some(c.cal) else None
  {
    if added == [] {
      assert [c][1..] == [];
    } else {
      assert (added + [c])[1..] == added[1..] + [c];
      FirstSnoc(added[1..], c, h);
    }
  }

  lemma {:induction false} NumbersSnoc(added: seq<Call>, c: Call, h: u64, k: Kind)
    ensures HowMany(added + [c], h, k) == HowMany(added, h, k) + if Belongs(c, h, k) then 1 else 0
    ensures SumOf(added + [c], h, k) == SumOf(added, h, k) + if Belongs(c, h, k) then c.cal.delta else 0.0
  {
    if added == [] {
      assert [c][1..] == [];
    } else {
      assert (added + [c])[1..] == added[1..] + [c];
      NumbersSnoc(added[1..], c, h, k);
    }
  }

  /** t is the latest time of the calculators of the entry. */
  ghost predicate Latest(added: seq<Call>, h: u64, k: Kind, t: int) {
    (forall c <- added :: Belongs(c, h, k) ==> c.cal.maxTime <= t) && exists c <- added :: Belongs(c, h, k) && c.cal.maxTime == t
  }

  /** The entry of h holds the calculators of the kind that came first under h: how many, their sum, and their latest time. */
  ghost predicate Holds(e: Total, added: seq<Call>, h: u64) {
    && First(added, h).Some? && e.kind == First(added, h).value.kind
    && e.count == HowMany(added, h, e.kind)
    && (e.kind.Sum? ==> e.delta == SumOf(added, h, e.kind))
    && Latest(added, h, e.kind, e.maxTime)
  }

  lemma {:induction false} NoneOfIt(added: seq<Call>, h: u64, k: Kind)
    requires First(added, h).None?
    ensures HowMany(added, h, k) == 0 && SumOf(added, h, k) == 0.0 && forall c <- added :: c.cal.hash != h
  {
    if added != [] {
      NoneOfIt(added[1..], h, k);
    }
  }

  /** One more calculator with the hash. */
  lemma EntryNext(e: Total, init: seq<Call>, last: Call)
    requires Holds(e, init, last.cal.hash)
    ensures Holds(AddTotal(e, last.cal), init + [last], last.cal.hash)
  {
    var (h, added, e') := (last.cal.hash, init + [last], AddTotal(e, last.cal));
    FirstSnoc(init, last, h);
    NumbersSnoc(init, last, h, e.kind);
    var c :| c in init && Belongs(c, h, e.kind) && c.cal.maxTime == e.maxTime;
    assert c in added && last in added;
    assert forall d :: d in added <==> d in init || d == last;
    if e.kind == last.cal.kind && last.cal.maxTime > e.maxTime {
      assert Belongs(last, h, e.kind) && last.cal.maxTime == e'.maxTime;
    } else {
      assert c.cal.maxTime == e'.maxTime;
    }
  }

  /** The first calculator with the hash. */
  lemma EntryNew(init: seq<Call>, last: Call)
    requires First(init, last.cal.hash).None?
    ensures Holds(Total(last.cal.kind, 1, last.cal.delta, last.cal.maxTime), init + [last], last.cal.hash)
  {
    var (h, k, added) := (last.cal.hash, last.cal.kind, init + [last]);
    FirstSnoc(init, last, h);
    NumbersSnoc(init, last, h, k);
    NoneOfIt(init, h, k);
    assert last in added && forall d :: d in added <==> d in init || d == last;
  }

  /** A calculator with another hash. */
  lemma EntryOther(e: Total, init: seq<Call>, last: Call, h: u64)
    requires Holds(e, init, h) && last.cal.hash != h
    ensures Holds(e, init + [last], h)
  {
    FirstSnoc(init, last, h);
    NumbersSnoc(init, last, h, e.kind);
    var c :| c in init && Belongs(c, h, e.kind) && c.cal.maxTime == e.maxTime;
    assert c in init + [last] && forall d :: d in init + [last] <==> d in init || d == last;
  }

  /** A window has an entry for exactly the hashes that were added, and every entry holds what was added under its hash in the kind that came first. */
  lemma {:induction false} EntryMeans(added: seq<Call>, h: u64)
    ensures h in Fold(added) <==> First(added, h).Some?
    ensures h in Fold(added) ==> Holds(Fold(added)[h], added, h)
  {
    if added != [] {
      var init, last := added[..|added| - 1], added[|added| - 1];
      assert added == init + [last];
      EntryMeans(init, h);
      FirstSnoc(init, last, h);
      if last.cal.hash != h {
        if h in Fold(init) {
          EntryOther(Fold(init)[h], init, last, h);
        }
      } else if h in Fold(init) {
        EntryNext(Fold(init)[h], init, last);
      } else {
        EntryNew(init, last);
      }
    }
  }

  /** Over every run, every entry of every window, live or harvested, holds what was accepted for it. */
  lemma EntriesHold(turns: seq<Turn>, w: nat, h: u64)
    requires Inv(START) && w < |Run(START, turns).windows|
    ensures var x := Run(START, turns).windows[w]; (h in x.cache <==> First(x.added, h).Some?) && (h in x.cache ==> Holds(x.cache[h], x.added, h))
  {
    var x := Run(START, turns).windows[w];
    assert Filled(x);
    EntryMeans(x.added, h);
  }

  // ----- all sums -----

  /** The deltas of the Sum entries of a window. */
  ghost function Sums(m: map<u64, Total>): real {
    if m == map[] then 0.0
    else
      var h :| h in m;
      Delta(m[h]) + Sums(m - {h})
  }

  function Delta(e: Total): real {
    if e.kind.Sum? then e.delta else 0.0
  }

  lemma {:induction false} SumsAt(m: map<u64, Total>, h: u64)
    requires h in m
    ensures Sums(m) == Delta(m[h]) + Sums(m - {h})
    decreases |m|
  {
    var g :| g in m && Sums(m) == Delta(m[g]) + Sums(m - {g});
    if g != h {
      SumsAt(m - {g}, h);
      SumsAt(m - {h}, g);
      assert m - {g} - {h} == m - {h} - {g};
    }
  }

  /** What a call brings to the sums. */
  function Brings(c: Call): real {
    if c.cal.kind.Sum? then c.cal.delta else 0.0
  }

  lemma SumsAdd(cache: map<u64, Total>, c: Call)
    ensures Sums(AddTo(cache, c.cal)) == Sums(cache) + if Counted(cache, c.cal) then Brings(c) else 0.0
  {
    var (h, cache') := (c.cal.hash, AddTo(cache, c.cal));
    SumsAt(cache', h);
    if h in cache {
      SumsAt(cache, h);
      assert cache' - {h} == cache - {h};
    } else {
      assert cache' - {h} == cache;
    }
  }

  /** What calls bring that came under a hash of the other kind. */
  function Lost(added: seq<Call>): real {
    if added == [] then 0.0
    else
      var (init, last) := (added[..|added| - 1], added[|added| - 1]);
      Lost(init) + if First(init, last.cal.hash).Some? && First(init, last.cal.hash).value.kind != last.cal.kind then Brings(last) else 0.0
  }

  function BroughtBy(added: seq<Call>): real {
    if added == [] then 0.0 else BroughtBy(added[..|added| - 1]) + Brings(added[|added| - 1])
  }

  /** The sums of a window are what its calls bring, but for those lost to another kind under their hash. */
  lemma {:induction false} WindowSum(added: seq<Call>)
    ensures Sums(Fold(added)) == BroughtBy(added) - Lost(added)
  {
    if added != [] {
      var init, last := added[..|added| - 1], added[|added| - 1];
      WindowSum(init);
      SumsAdd(Fold(init), last);
      EntryMeans(init, last.cal.hash);
    }
  }

  lemma {:induction false} NothingLost(added: seq<Call>)
    requires !Clash(added)
    ensures Lost(added) == 0.0
  {
    if added != [] {
      var init, last := added[..|added| - 1], added[|added| - 1];
      assert added == init + [last];
      ClashStep(init, last);
      NothingLost(init);
      EntryMeans(init, last.cal.hash);
    }
  }

  // ----- all windows -----

  ghost function AllSums(ws: seq<Window>): real {
    if ws == [] then 0.0 else AllSums(ws[..|ws| - 1]) + Sums(ws[|ws| - 1].cache)
  }

  ghost function AllLost(ws: seq<Window>): real {
    if ws == [] then 0.0 else AllLost(ws[..|ws| - 1]) + Lost(ws[|ws| - 1].added)
  }

  /** What a bag of calls brings, in any order. */
  ghost function Brought(m: multiset<Call>): real
    decreases |m|
  {
    if m == multiset{} then 0.0
    else
      var c :| c in m;
      Brings(c) + Brought(m - multiset{c})
  }

  lemma {:induction false} BroughtAt(m: multiset<Call>, c: Call)
    requires c in m
    ensures Brought(m) == Brings(c) + Brought(m - multiset{c})
    decreases |m|
  {
    var d :| d in m && Brought(m) == Brings(d) + Brought(m - multiset{d});
    if d != c {
      BroughtAt(m - multiset{d}, c);
      BroughtAt(m - multiset{c}, d);
      assert m - multiset{d} - multiset{c} == m - multiset{c} - multiset{d};
    }
  }

  lemma {:induction false} BroughtAdd(m: multiset<Call>, added: seq<Call>)
    ensures Brought(m + multiset(added)) == Brought(m) + BroughtBy(added)
    decreases |added|
  {
    if added == [] {
      assert m + multiset(added) == m;
    } else {
      var init, last := added[..|added| - 1], added[|added| - 1];
      assert added == init + [last];
      var all := m + multiset(added);
      assert all - multiset{last} == m + multiset(init);
      BroughtAt(all, last);
      BroughtAdd(m, init);
    }
  }

  lemma {:induction false} AllWindowSums(ws: seq<Window>)
    requires forall x <- ws :: Filled(x)
    ensures AllSums(ws) == Brought(AllAdded(ws)) - AllLost(ws)
    ensures !AnyClash(ws) ==> AllLost(ws) == 0.0
  {
    if ws != [] {
      var init, last := ws[..|ws| - 1], ws[|ws| - 1];
      assert ws == init + [last];
      AllWindowSums(init);
      WindowSum(last.added);
      BroughtAdd(AllAdded(init), last.added);
      assert AnyClash(ws) <==> AnyClash(init) || Clash(last.added);
      if !Clash(last.added) {
        NothingLost(last.added);
      }
      assert last in ws && Filled(last);
    }
  }

  /**
   Over every run the Sum entries of live and harvested windows add up to the deltas of the
   accepted SUM calls, less those lost to another kind under their hash; without a clash of
   kinds none is lost.
   */
  lemma SumsAreAccepted(turns: seq<Turn>)
    ensures Inv(START)
    ensures var r := Run(START, turns);
            AllSums(r.windows) == BroughtBy(r.accepted) - AllLost(r.windows) && (!AnyClash(r.windows) ==> AllLost(r.windows) == 0.0)
  {
    StartInv();
    var r := Run(START, turns);
    forall x <- r.windows
      ensures Filled(x)
    {
      var w :| 0 <= w < |r.windows| && r.windows[w] == x;
    }
    AllWindowSums(r.windows);
    BroughtAdd(multiset{}, r.accepted);
    assert multiset{} + multiset(r.accepted) == multiset(r.accepted);
  }
}
