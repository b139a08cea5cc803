/** diskcache across restarts: how many records are handed over twice. */
module DiskReplay {
  import opened Framing
  import opened DiskQueue
  import opened DiskProofs
  import opened DiskRuns
  import opened DiskRestart
  import opened DiskRestartRuns
  import opened Residues
  import opened Wrappers

  /** How many records may have been passed since .pos was written, by the counter. */
  function Since(o: Options, s: State): nat {
    if o.dumpCount == 0 then 0 else s.posCnt % o.dumpCount
  }

  /** No more records lie between .pos and the reader than the counter tells. */
  predicate Few(o: Options, s: State) {
    PosGood(s) && |Replayed(s)| <= Since(o, s)
  }

  // ----- one record -----

  lemma NothingBetween(b: Bytes, p: nat)
    ensures Leads(b, p, p) && Between(b, p, Stop(b, p, p)) == []
  {
    ReachesLeads(b, p, p);
  }

  /** Passing a record that does not write .pos adds it to what is replayed. */
  lemma OneMore(s: State, r: State, n: nat)
    requires PosGood(s) && RecordAhead(s, n)
    requires r.disk.files == s.disk.files && r.disk.pos == s.disk.pos && r.ds == s.ds && r.cur == s.cur && r.rfd == Some(s.rfd.value + HEADER + n)
    ensures PosGood(r) && |Replayed(r)| == |Replayed(s)| + 1
  {
    OverRecord(s, r, n);
    var (b, p, at, q) := (s.disk.files[s.ds[0]], s.disk.pos.value.seek, s.rfd.value, r.rfd.value);
    AheadIsAt(s, n);
    assert Reaches(b, at, q) && |Between(b, at, q)| == 1 by {
      assert Between(b, at, q) == [b[at + HEADER..q]] + Between(b, q, q);
    }
    ReachesTrans(b, p, at, q);
    NothingBetween(b, q);
    LeadsTrans(b, p, q, q);
  }

  lemma PassDumped(o: Options, s: State, n: nat, dumpDue: bool)
    requires Inv(s) && Synced(s) && RecordAhead(s, n) && n > 0 && Due(o, s, dumpDue)
    ensures var r := PassRecord(o, s, n, dumpDue); PosGood(r) && Replayed(r) == []
  {
    var r := PassRecord(o, s, n, dumpDue);
    PassSynced(o, s, n, dumpDue);
    AheadIsAt(s, n);
    NothingBetween(s.disk.files[s.ds[0]], r.rfd.value);
  }

  lemma PassUndumped(o: Options, s: State, n: nat, dumpDue: bool)
    requires PosGood(s) && RecordAhead(s, n) && n > 0 && !Due(o, s, dumpDue)
    ensures var r := PassRecord(o, s, n, dumpDue); PosGood(r) && |Replayed(r)| == |Replayed(s)| + 1
  {
    OneMore(s, PassRecord(o, s, n, dumpDue), n);
  }

  lemma PassCounts(o: Options, s: State, n: nat, dumpDue: bool)
    requires s.rfd.Some?
    ensures PassRecord(o, s, n, dumpDue).posCnt == s.posCnt + if n > 0 && o.dumpCount > 0 then 1 else 0
  {
  }

  lemma CountsOn(d: nat, c: nat, n: nat)
    requires d > 0 && (c + 1) % d != 0 && n <= c % d
    ensures n + 1 <= (c + 1) % d
  {
    NextResidue(c, d);
  }

  /** One more record lies between .pos and the reader, and the counter has counted it. */
  lemma FewMore(o: Options, s: State, r: State)
    requires Few(o, s) && PosGood(r) && |Replayed(r)| == |Replayed(s)| + 1
    requires o.dumpCount > 0 && r.posCnt == s.posCnt + 1 && (s.posCnt + 1) % o.dumpCount != 0
    ensures Few(o, r)
  {
    CountsOn(o.dumpCount, s.posCnt, |Replayed(s)|);
  }

  /** A record that is not empty is passed. */
  lemma PassFew(o: Options, s: State, n: nat, dumpDue: bool)
    requires Inv(s) && Synced(s) && Few(o, s) && RecordAhead(s, n) && n > 0
    ensures Few(o, PassRecord(o, s, n, dumpDue))
  {
    var r := PassRecord(o, s, n, dumpDue);
    if Due(o, s, dumpDue) {
      PassDumped(o, s, n, dumpDue);
      assert |Replayed(r)| == 0;
    } else {
      PassUndumped(o, s, n, dumpDue);
      PassCounts(o, s, n, dumpDue);
      FewMore(o, s, r);
    }
  }

  /** The reader moves where there is no record, and .pos stays. */
  lemma PastEndFew(o: Options, s: State, r: State)
    requires PosGood(s) && Few(o, s) && Reading(s) && !RecordAt(s.disk.files[s.ds[0]], s.rfd.value)
    requires r.disk.files == s.disk.files && r.disk.pos == s.disk.pos && r.ds == s.ds && r.cur == s.cur && r.posCnt == s.posCnt
    requires r.rfd.Some? && r.rfd.value >= s.rfd.value && r.rfd.value + HEADER > |s.disk.files[s.ds[0]]|
    ensures Few(o, r)
  {
    PastEnd(s, r);
  }

  // ----- a Get -----

  /** A record that is not empty was handed over for good. */
  function Passes(o: Options, res: GetResult): nat {
    match res
    case Got(r) => if o.dumpCount > 0 && r != [] then 1 else 0
    case CallbackFailed(r) => if o.dumpCount > 0 && o.noFallback && r != [] then 1 else 0
    case _ => 0
  }

  /** After reading, with the counter at c before, to r with this result. */
  predicate FewAfter(o: Options, c: nat, r: State, res: GetResult) {
    (Synced(r) ==> Few(o, r)) && r.posCnt == c + Passes(o, res)
  }

  /** A record is passed; an empty one leaves the cache out of step. */
  lemma PassAfter(o: Options, s: State, n: nat, dumpDue: bool)
    requires Inv(s) && Synced(s) && Few(o, s) && RecordAhead(s, n)
    ensures var r := PassRecord(o, s, n, dumpDue); Synced(r) ==> Few(o, r)
  {
    if n > 0 {
      PassFew(o, s, n, dumpDue);
    } else {
      PassSynced(o, s, n, dumpDue);
    }
  }

  lemma HandleFew(o: Options, s: State, g: GetArgs, n: nat)
    requires Inv(s) && Synced(s) && Few(o, s) && RecordAhead(s, n)
    ensures var (r, res) := Handle(o, s, g, Ahead(s)[HEADER..HEADER + n]);
            FewAfter(o, s.posCnt, r, res)
  {
    var record := Ahead(s)[HEADER..HEADER + n];
    assert |record| == n && (record == [] <==> n == 0);
    PassCounts(o, s, n, g.dumpDue);
    PassAfter(o, s, n, g.dumpDue);
  }

  lemma TooSmallFew(o: Options, s: State, g: GetArgs, n: nat)
    requires Inv(s) && Synced(s) && Few(o, s) && Reading(s) && HEADER <= |Ahead(s)| && Read32(Ahead(s)) == n && n != EOF_HINT
    requires g.buf.Some? && g.buf.value < n
    ensures FewAfter(o, s.posCnt, s.(rfd := Some(s.rfd.value + HEADER + n)), TooSmallBuffer)
  {
    var r := s.(rfd := Some(s.rfd.value + HEADER + n));
    TooSmallSynced(s, g, n);
    if HEADER + n <= |Ahead(s)| {
      MoveReader(s, r, n);
      assert |Sealed(s)| == 1 + |Sealed(r)|;
    } else {
      PastEndFew(o, s, r);
    }
  }

  lemma ReadHereFew(o: Options, s: State, g: GetArgs)
    requires Inv(s) && Synced(s) && Few(o, s) && Reading(s) && HEADER <= |Ahead(s)| && Read32(Ahead(s)) != EOF_HINT
    ensures var (r, res) := ReadLoop(o, s, g);
            FewAfter(o, s.posCnt, r, res)
  {
    var n := Read32(Ahead(s));
    if g.buf.Some? && g.buf.value < n {
      assert ReadLoop(o, s, g) == (s.(rfd := Some(s.rfd.value + HEADER + n)), TooSmallBuffer);
      TooSmallFew(o, s, g, n);
    } else if HEADER + n <= |Ahead(s)| {
      assert ReadLoop(o, s, g) == Handle(o, s, g, Ahead(s)[HEADER..HEADER + n]);
      HandleFew(o, s, g, n);
    } else {
      var r := s.(rfd := Some(|s.disk.files[s.ds[0]]|));
      assert ReadLoop(o, s, g) == (r, ReadFailed);
      PastEndFew(o, s, r);
    }
  }

  lemma SwitchFew(o: Options, s: State)
    requires Inv(s) && (s.rfd.Some? ==> AtEnd(s))
    ensures Few(o, SwitchNext(s).0) && SwitchNext(s).0.posCnt == s.posCnt
  {
    SwitchKeeps(s);
    SwitchSynced(s);
    var t := SwitchNext(s).0;
    if t.rfd.Some? {
      NothingBetween(t.disk.files[t.ds[0]], 0);
    }
  }

  lemma {:induction false} ReadLoopFew(o: Options, s: State, g: GetArgs)
    requires Inv(s) && Synced(s) && Few(o, s) && (s.rfd.None? ==> s.ds == [])
    ensures var (r, res) := ReadLoop(o, s, g);
            FewAfter(o, s.posCnt, r, res)
    decreases |s.ds|
  {
    if s.rfd.Some? {
      if |Ahead(s)| < HEADER || Read32(Ahead(s)) == EOF_HINT {
        LoopGoesOn(o, s, g);
        SwitchSynced(s);
        SwitchFew(o, s);
        ReadLoopFew(o, SwitchNext(s).0, g);
      } else {
        ReadHereFew(o, s, g);
      }
    }
  }

  lemma RotateFew(o: Options, s: State, renameOk: bool)
    requires Inv(s) && Few(o, s)
    ensures Few(o, Rotate(s, renameOk)) && Rotate(s, renameOk).posCnt == s.posCnt
  {
    RotateSynced(s, renameOk);
    if s.rfd.Some? && renameOk {
      RotateLeavesReader(s);
    }
  }

  lemma AwakeFew(o: Options, s: State, g: GetArgs)
    requires Inv(s) && Synced(s) && Few(o, s) && !WakesUp(s, g)
    ensures var (r, res) := Get(o, s, g);
            FewAfter(o, s.posCnt, r, res)
  {
    if s.rfd.None? {
      SwitchKeeps(s);
      SwitchSynced(s);
      SwitchFew(o, s);
      ReadLoopFew(o, SwitchNext(s).0, g);
    } else {
      ReadLoopFew(o, s, g);
    }
  }

  lemma GetFew(o: Options, s: State, g: GetArgs)
    requires Inv(s) && Synced(s) && Few(o, s)
    ensures var (r, res) := Get(o, s, g);
            FewAfter(o, s.posCnt, r, res)
  {
    if !WakesUp(s, g) {
      AwakeFew(o, s, g);
    } else {
      RotateFew(o, s, g.renameOk);
      if g.renameOk {
        GetAfterRotate(o, s, g);
        RotateSynced(s, true);
        AwakeFew(o, Rotate(s, true), g);
      }
    }
  }

  // ----- runs -----

  lemma AppendFew(o: Options, s: State, d: Bytes, renameOk: bool)
    requires Inv(s) && Few(o, s) && Good(d)
    ensures Few(o, Append(o, s, d, renameOk).0) && Append(o, s, d, renameOk).0.posCnt == s.posCnt
  {
    var s' := s.(disk := s.disk.(writeFile := s.disk.writeFile + Frame(d)), batch := s.batch + HEADER + |d|);
    FramedAppend(s.disk.writeFile, d);
    assert Inv(s') && Few(o, s');
    RotateFew(o, s', renameOk);
  }

  lemma PutFew(o: Options, s: State, d: Bytes, renameOk: bool)
    requires Inv(s) && Few(o, s) && Good(d) && !DropsWhileReading(o, s, d)
    ensures Few(o, Put(o, s, d, renameOk).0) && Put(o, s, d, renameOk).0.posCnt == s.posCnt
  {
    PutIsAppend(o, s, d, renameOk);
    RoomMade(o, s, d);
    AppendFew(o, AfterDrop(o, s, d), d, renameOk);
  }

  /** How many of the records are not empty. */
  function NonEmpty(rs: seq<Bytes>): nat {
    if rs == [] then 0 else (if rs[0] == [] then 0 else 1) + NonEmpty(rs[1..])
  }

  lemma {:induction false} NonEmptyConcat(a: seq<Bytes>, b: seq<Bytes>)
    ensures NonEmpty(a + b) == NonEmpty(a) + NonEmpty(b)
  {
    if a == [] {
      assert a + b == b;
    } else {
      assert (a + b)[1..] == a[1..] + b;
      NonEmptyConcat(a[1..], b);
    }
  }

  lemma StepFew(o: Options, s: State, op: Op)
    requires Inv(s) && Synced(s) && Few(o, s) && Allowed(o, s, op)
    requires Handed(o, s, op) != [[]] && (op.GetOp? ==> Lost(o, s, op) == [])
    ensures Synced(Step(o, s, op)) && Few(o, Step(o, s, op))
    ensures Step(o, s, op).posCnt == s.posCnt + if o.dumpCount > 0 then NonEmpty(Handed(o, s, op)) else 0
  {
    StepSynced(o, s, op);
    match op
    case PutOp(d, renameOk) => PutFew(o, s, d, renameOk);
    case RotateOp(renameOk) => RotateFew(o, s, renameOk);
    case GetOp(g) =>
      GetFew(o, s, g);
      assert |Handed(o, s, op)| <= 1;
  }

  /**
   Over every run of non-empty records and large enough buffers the counter counts the
   delivered records, and no more lie between .pos and the reader than it tells.
   */
  lemma {:induction false} RunFew(o: Options, s: State, ops: seq<Op>, hi: nat)
    requires Inv(s) && Synced(s) && Few(o, s) && AllAllowed(o, s, ops)
    requires Within(Contents(s), 1, hi) && forall op <- ops :: Fits(op, 1, hi)
    ensures Few(o, Run(o, s, ops))
    ensures Run(o, s, ops).posCnt == s.posCnt + if o.dumpCount > 0 then NonEmpty(Delivered(o, s, ops)) else 0
    decreases ops
  {
    if ops != [] {
      StepWithin(o, s, ops[0], 1, hi);
      assert Handed(o, s, ops[0]) != [] ==> Handed(o, s, ops[0])[0] in Handed(o, s, ops[0]);
      StepFew(o, s, ops[0]);
      RunFew(o, Step(o, s, ops[0]), ops[1..], hi);
      NonEmptyConcat(Handed(o, s, ops[0]), Delivered(o, Step(o, s, ops[0]), ops[1..]));
    }
  }

  /**
   Restart: from an empty directory, after every run of non-empty records and large enough
   buffers, opening again gives the queue preceded by fewer than dumpCount records already
   delivered, and by none when every position is dumped.
   */
  lemma FewReplayed(o: Options, ops: seq<Op>, hi: nat, listing: seq<nat>)
    requires Inv(EMPTY) && AllAllowed(o, EMPTY, ops) && forall op <- ops :: Fits(op, 1, hi)
    requires Increasing(listing) && SameNames(Run(o, EMPTY, ops).disk.files, listing)
    ensures var (r, again) := (Run(o, EMPTY, ops), Contents(Open(Run(o, EMPTY, ops).disk, listing)));
            && Ends(again, Contents(r))
            && (if o.dumpCount == 0 then again == Contents(r) else |again| < |Contents(r)| + o.dumpCount)
  {
    EmptyIsReady();
    RunFew(o, EMPTY, ops, hi);
    RestartByInputs(o, EMPTY, ops, hi, listing);
    var r := Run(o, EMPTY, ops);
    EndsWith(Replayed(r), Contents(r));
  }

  /** The last records of a are those of b. */
  predicate Ends(a: seq<Bytes>, b: seq<Bytes>) {
    |a| >= |b| && a[|a| - |b|..] == b
  }

  lemma EndsWith(twice: seq<Bytes>, b: seq<Bytes>)
    ensures Ends(twice + b, b) && (twice == [] ==> twice + b == b)
  {
  }
}
