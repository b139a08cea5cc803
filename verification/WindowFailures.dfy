/** A schedule from the start in which two kinds of calculator share a hash and one of them is not counted. */
module WindowFailures {
  import opened Hashing
  import opened WindowCache
  import opened WindowProofs
  import opened WindowRuns
  import opened Wrappers

  // ----- schedules step by step -----

  /** The states of a schedule, one after the other. */
  ghost predicate Trace(states: seq<State>, turns: seq<Turn>) {
    && |states| == |turns| + 1
    && forall i :: 0 <= i < |turns| ==> Turns(states[i], turns[i], states[i + 1])
  }

  /** One turn leads from s to s'. */
  ghost predicate Turns(s: State, turn: Turn, s': State) {
    PcInRange(s, PcOf(s, turn.t)) && s' == Step(s, turn.t, turn.a)
  }

  lemma {:induction false} TraceIsRun(states: seq<State>, turns: seq<Turn>)
    requires Trace(states, turns) && Inv(states[0])
    ensures Run(states[0], turns) == states[|turns|]
    decreases |turns|
  {
    if turns != [] {
      assert Turns(states[0], turns[0], states[1]);
      StepKeeps(states[0], turns[0].t, turns[0].a);
      assert Trace(states[1..], turns[1..]) by {
        forall i | 0 <= i < |turns[1..]|
          ensures Turns(states[1..][i], turns[1..][i], states[1..][i + 1])
        {
          assert Turns(states[i + 1], turns[i + 1], states[i + 2]);
        }
      }
      TraceIsRun(states[1..], turns[1..]);
    }
  }

  const GO := Turn(0, Go(0, 0))

  /** Goroutine 0 adds c and then d, one after the other. */
  function Calls(c: Call, d: Call): seq<Turn> {
    [Turn(0, Add(c)), GO, GO, GO, GO, GO, GO, GO, Turn(0, Add(d)), GO, GO, GO, GO, GO, GO, GO]
  }

  /** One bucket with one window, goroutine 0 at pc. */
  function One(lock: Option<Tid>, exp: int, token: Bytes, bucketLock: Option<Tid>, pc: Pc, cache: map<u64, Total>, added: seq<Call>): State {
    State(lock, map[exp := 0], [Bucket(exp, bucketLock, false, map[token := 0], [0])],
          [Window(token, cache, exp, Live(0, 0), added)], map[0 := pc], [], added, [])
  }

  /** The states of the first call. */
  function First(c: Call): seq<State> {
    var empty := [Bucket(c.exp, None, false, map[], [])];
    var held := [Bucket(c.exp, Some(0), false, map[], [])];
    var cache := AddTo(map[], c.cal);
    [ START,
      START.(threads := map[0 := Enter(c)]),
      START.(lock := Some(0), threads := map[0 := Lookup(c)]),
      START.(lock := Some(0), mapped := map[c.exp := 0], buckets := empty, threads := map[0 := Release(c, 0)]),
      START.(mapped := map[c.exp := 0], buckets := empty, threads := map[0 := Wait(c, 0)]),
      START.(mapped := map[c.exp := 0], buckets := held, threads := map[0 := Find(c, 0)]),
      One(None, c.exp, c.token, Some(0), Store(c, 0, 0), map[], []),
      One(None, c.exp, c.token, Some(0), Leave(c, 0, true), cache, [c]) ]
  }

  /** The states of the second call, for the same expiry and token. */
  function Second(c: Call, d: Call): seq<State> {
    var (e, k) := (c.exp, c.token);
    var cache := AddTo(map[], c.cal);
    [ One(None, e, k, None, Idle, cache, [c]),
      One(None, e, k, None, Enter(d), cache, [c]),
      One(Some(0), e, k, None, Lookup(d), cache, [c]),
      One(Some(0), e, k, None, Release(d, 0), cache, [c]),
      One(None, e, k, None, Wait(d, 0), cache, [c]),
      One(None, e, k, Some(0), Find(d, 0), cache, [c]),
      One(None, e, k, Some(0), Store(d, 0, 0), cache, [c]),
      One(None, e, k, Some(0), Leave(d, 0, true), AddTo(cache, d.cal), [c, d]),
      One(None, e, k, None, Idle, AddTo(cache, d.cal), [c, d]) ]
  }

  lemma FirstLookup(c: Call)
    ensures Turns(First(c)[2], GO, First(c)[3])
  {
    var bucket := Bucket(c.exp, None, false, map[], []);
    assert [] + [bucket] == [bucket];
  }

  lemma FirstFind(c: Call)
    ensures Turns(First(c)[5], GO, First(c)[6])
  {
    var window := Window(c.token, map[], c.exp, Live(0, 0), []);
    assert [] + [window] == [window] && [] + [0] == [0];
    assert Step(First(c)[5], 0, Go(0, 0)) == NewWindow(First(c)[5], 0, c, 0);
  }

  lemma FirstStore(c: Call)
    ensures Turns(First(c)[6], GO, First(c)[7])
  {
    assert [] + [c] == [c];
  }

  lemma FirstMoves(c: Call, i: nat)
    requires i < 7
    ensures Turns(First(c)[i], if i == 0 then Turn(0, Add(c)) else GO, First(c)[i + 1])
  {
    if i == 2 {
      FirstLookup(c);
    } else if i == 5 {
      FirstFind(c);
    } else if i == 6 {
      FirstStore(c);
    }
  }

  lemma BetweenMoves(c: Call, d: Call)
    ensures Turns(First(c)[7], GO, Second(c, d)[0])
  {
  }

  /** The moves of a call that finds its bucket and window, one lemma each. */
  lemma OneEnters(e: int, k: Bytes, d: Call, cache: map<u64, Total>, added: seq<Call>)
    ensures Turns(One(None, e, k, None, Idle, cache, added), Turn(0, Add(d)), One(None, e, k, None, Enter(d), cache, added))
    ensures Turns(One(None, e, k, None, Enter(d), cache, added), GO, One(Some(0), e, k, None, Lookup(d), cache, added))
  {
  }

  lemma OneLooksUp(k: Bytes, d: Call, cache: map<u64, Total>, added: seq<Call>)
    ensures Turns(One(Some(0), d.exp, k, None, Lookup(d), cache, added), GO, One(Some(0), d.exp, k, None, Release(d, 0), cache, added))
    ensures Turns(One(Some(0), d.exp, k, None, Release(d, 0), cache, added), GO, One(None, d.exp, k, None, Wait(d, 0), cache, added))
  {
  }

  lemma OneFinds(d: Call, cache: map<u64, Total>, added: seq<Call>)
    ensures Turns(One(None, d.exp, d.token, None, Wait(d, 0), cache, added), GO, One(None, d.exp, d.token, Some(0), Find(d, 0), cache, added))
    ensures Turns(One(None, d.exp, d.token, Some(0), Find(d, 0), cache, added), GO, One(None, d.exp, d.token, Some(0), Store(d, 0, 0), cache, added))
  {
  }

  lemma OneStores(d: Call, cache: map<u64, Total>, added: seq<Call>)
    ensures Turns(One(None, d.exp, d.token, Some(0), Store(d, 0, 0), cache, added), GO, One(None, d.exp, d.token, Some(0), Leave(d, 0, true), AddTo(cache, d.cal), added + [d]))
  {
  }

  lemma OneLeaves(d: Call, cache: map<u64, Total>, added: seq<Call>)
    ensures Turns(One(None, d.exp, d.token, Some(0), Leave(d, 0, true), cache, added), GO, One(None, d.exp, d.token, None, Idle, cache, added))
  {
  }

  lemma SecondMoves(c: Call, d: Call, i: nat)
    requires i < 8 && d.exp == c.exp && d.token == c.token
    ensures Turns(Second(c, d)[i], if i == 0 then Turn(0, Add(d)) else GO, Second(c, d)[i + 1])
  {
    var cache := AddTo(map[], c.cal);
    assert [c] + [d] == [c, d];
    if i <= 1 {
      OneEnters(c.exp, c.token, d, cache, [c]);
    } else if i <= 3 {
      OneLooksUp(c.token, d, cache, [c]);
    } else if i <= 5 {
      OneFinds(d, cache, [c]);
    } else if i == 6 {
      OneStores(d, cache, [c]);
    } else {
      OneLeaves(d, AddTo(cache, d.cal), [c, d]);
    }
  }

  lemma CallsTrace(c: Call, d: Call)
    requires d.exp == c.exp && d.token == c.token
    ensures Trace(First(c) + Second(c, d), Calls(c, d))
  {
    var (states, turns) := (First(c) + Second(c, d), Calls(c, d));
    forall i | 0 <= i < 16
      ensures Turns(states[i], turns[i], states[i + 1])
    {
      if i < 7 {
        FirstMoves(c, i);
      } else if i == 7 {
        BetweenMoves(c, d);
      } else {
        SecondMoves(c, d, i - 8);
      }
    }
  }

  /** Two calculators of different kinds under one hash, for one expiry and token: both are accepted and one is counted. */
  lemma UncountedRun(c: Call, d: Call)
    requires d.exp == c.exp && d.token == c.token && d.cal.hash == c.cal.hash && d.cal.kind != c.cal.kind
    ensures Inv(START)
    ensures var r := Run(START, Calls(c, d));
            r.accepted == [c, d] && AnyClash(r.windows) && AllCounts(r.windows) == 1
  {
    StartInv();
    CallsTrace(c, d);
    TraceIsRun(First(c) + Second(c, d), Calls(c, d));
    var r := Run(START, Calls(c, d));
    var cache := AddTo(AddTo(map[], c.cal), d.cal);
    assert r == One(None, c.exp, c.token, None, Idle, cache, [c, d]);
    assert c in [c, d] && d in [c, d] && Clash([c, d]);
    assert r.windows[0] in r.windows && r.windows[..0] == [];
    CountsAt(cache, c.cal.hash);
    assert cache - {c.cal.hash} == map[];
  }
}
