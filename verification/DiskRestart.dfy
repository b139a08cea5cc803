/** diskcache across restarts: what .pos on disk means, what is read again, and when a record is lost. */
module DiskRestart {
  import opened Framing
  import opened DiskQueue
  import opened DiskProofs
  import opened DiskRuns
  import opened Wrappers

  // ----- offsets -----

  /** A whole record starts at this offset. */
  predicate RecordAt(b: Bytes, p: nat) {
    p + HEADER <= |b| && Read32(b[p..]) != EOF_HINT && p + HEADER + Read32(b[p..]) <= |b|
  }

  function NextAt(b: Bytes, p: nat): nat
    requires RecordAt(b, p)
  {
    p + HEADER + Read32(b[p..])
  }

  /** Reading whole records from p leads to q. */
  predicate Reaches(b: Bytes, p: nat, q: nat)
    decreases |b| - p
  {
    p == q || (RecordAt(b, p) && Reaches(b, NextAt(b, p), q))
  }

  /** The records read on the way from p to q. */
  function Between(b: Bytes, p: nat, q: nat): seq<Bytes>
    requires Reaches(b, p, q)
    decreases |b| - p
  {
    if p == q then [] else [b[p + HEADER..NextAt(b, p)]] + Between(b, NextAt(b, p), q)
  }

  lemma {:induction false} ReachesTrans(b: Bytes, p: nat, q: nat, r: nat)
    requires Reaches(b, p, q) && Reaches(b, q, r)
    ensures Reaches(b, p, r) && Between(b, p, r) == Between(b, p, q) + Between(b, q, r)
    decreases |b| - p
  {
    if p != q {
      ReachesTrans(b, NextAt(b, p), q, r);
      ReachesForward(b, NextAt(b, p), r);
    }
  }

  lemma {:induction false} ReachesForward(b: Bytes, p: nat, q: nat)
    requires Reaches(b, p, q)
    ensures p <= q
    decreases |b| - p
  {
    if p != q {
      ReachesForward(b, NextAt(b, p), q);
    }
  }

  lemma SliceOfRest(b: Bytes, p: nat, i: nat, j: nat)
    requires i <= j && p + j <= |b|
    ensures b[p..][i..j] == b[p + i..p + j]
  {
  }

  lemma {:induction false} OneRecord(b: Bytes, p: nat)
    requires RecordAt(b, p)
    ensures Records(Rest(b, p)) == [b[p + HEADER..NextAt(b, p)]] + Records(Rest(b, NextAt(b, p)))
  {
    var (x, n) := (Rest(b, p), Read32(b[p..]));
    assert x == b[p..] && NextAt(b, p) == p + HEADER + n;
    SliceOfRest(b, p, HEADER, HEADER + n);
    assert x[HEADER + n..] == Rest(b, NextAt(b, p));
  }

  /** What is left to read from p is what lies between p and q and then what is left from q. */
  lemma {:induction false} RecordsBetween(b: Bytes, p: nat, q: nat)
    requires Reaches(b, p, q)
    ensures Records(Rest(b, p)) == Between(b, p, q) + Records(Rest(b, q))
    decreases |b| - p
  {
    if p != q {
      OneRecord(b, p);
      RecordsBetween(b, NextAt(b, p), q);
      Reassociate([b[p + HEADER..NextAt(b, p)]], Between(b, NextAt(b, p), q), Records(Rest(b, q)));
    }
  }

  lemma NoRecordAt(b: Bytes, p: nat)
    requires !RecordAt(b, p)
    ensures Records(Rest(b, p)) == []
  {
  }

  /** Where reading whole records from p ends. */
  function End(b: Bytes, p: nat): nat
    decreases |b| - p
  {
    if RecordAt(b, p) then End(b, NextAt(b, p)) else p
  }

  lemma {:induction false} EndReached(b: Bytes, p: nat)
    ensures Reaches(b, p, End(b, p)) && !RecordAt(b, End(b, p))
    decreases |b| - p
  {
    if RecordAt(b, p) {
      EndReached(b, NextAt(b, p));
    }
  }

  lemma {:induction false} EndSame(b: Bytes, p: nat, q: nat)
    requires Reaches(b, p, q)
    ensures End(b, p) == End(b, q)
    decreases |b| - p
  {
    if p != q {
      EndSame(b, NextAt(b, p), q);
    }
  }

  /** Reading whole records from p leads to the reader at q; a reader without a record ahead may stand further on. */
  predicate Leads(b: Bytes, p: nat, q: nat) {
    if RecordAt(b, q) then Reaches(b, p, q) else End(b, p) <= q
  }

  /** Where the records from p on that lie before the reader end. */
  function Stop(b: Bytes, p: nat, q: nat): (e: nat)
    requires Leads(b, p, q)
    ensures Reaches(b, p, e)
  {
    EndReached(b, p);
    if RecordAt(b, q) then q else End(b, p)
  }

  lemma ReachesLeads(b: Bytes, p: nat, q: nat)
    requires Reaches(b, p, q)
    ensures Leads(b, p, q)
  {
    EndSame(b, p, q);
  }

  lemma LeadsTrans(b: Bytes, p: nat, q: nat, r: nat)
    requires Reaches(b, p, q) && Leads(b, q, r)
    ensures Leads(b, p, r) && Between(b, p, Stop(b, p, r)) == Between(b, p, q) + Between(b, q, Stop(b, q, r))
  {
    EndSame(b, p, q);
    EndReached(b, q);
    ReachesTrans(b, p, q, Stop(b, q, r));
  }

  lemma LeadsRecords(b: Bytes, p: nat, q: nat)
    requires Leads(b, p, q)
    ensures Records(Rest(b, p)) == Between(b, p, Stop(b, p, q)) + Records(Rest(b, q))
  {
    RecordsBetween(b, p, Stop(b, p, q));
    EndReached(b, p);
    if !RecordAt(b, q) {
      NoRecordAt(b, q);
      NoRecordAt(b, End(b, p));
    }
  }

  // ----- what is on disk -----

  /** .pos is none when no file is open, and otherwise a record start of the open file from which whole records lead to the reader. */
  predicate PosGood(s: State) {
    if s.rfd.None? then s.disk.pos.None?
    else
      && Reading(s)
      && s.disk.pos.Some? && s.disk.pos.value.name == s.ds[0]
      && Reaches(s.disk.files[s.ds[0]], 0, s.disk.pos.value.seek)
      && Leads(s.disk.files[s.ds[0]], s.disk.pos.value.seek, s.rfd.value)
  }

  /** Records of the open file that lie before the reader. */
  function AlreadyRead(s: State): seq<Bytes>
    requires PosGood(s)
  {
    if s.rfd.None? then []
    else
      var b := s.disk.files[s.ds[0]];
      LeadsTrans(b, 0, s.disk.pos.value.seek, s.rfd.value);
      Between(b, 0, Stop(b, 0, s.rfd.value))
  }

  /** Records that are handed over again after a restart. */
  function Replayed(s: State): seq<Bytes>
    requires PosGood(s)
  {
    if s.rfd.None? then []
    else
      var b := s.disk.files[s.ds[0]];
      Between(b, s.disk.pos.value.seek, Stop(b, s.disk.pos.value.seek, s.rfd.value))
  }

  lemma {:induction false} SortedUnique(a: seq<nat>, b: seq<nat>)
    requires Increasing(a) && Increasing(b) && forall x :: x in a <==> x in b
    ensures a == b
  {
    assert (a != [] ==> a[0] in a) && (b != [] ==> b[0] in b);
    if a != [] && b != [] {
      assert a[0] in b && b[0] in a;
      assert a[0] == b[0];
      assert forall x :: x in a[1..] <==> x in a && x != a[0];
      assert forall x :: x in b[1..] <==> x in b && x != b[0];
      SortedUnique(a[1..], b[1..]);
      assert a == [a[0]] + a[1..] && b == [b[0]] + b[1..];
    }
  }

  /**
   Restart: closing at any operation boundary and opening the directory again, the queue
   is the old one preceded by records that were already read, the last ones before the
   reader in the open file; no record is skipped.
   */
  lemma RestartReplays(s: State, listing: seq<nat>)
    requires Inv(s) && PosGood(s)
    requires Increasing(listing) && SameNames(s.disk.files, listing)
    ensures var r := Open(s.disk, listing);
            Inv(r) && Synced(r) && Contents(r) == Replayed(s) + Contents(s)
    ensures exists earlier :: AlreadyRead(s) == earlier + Replayed(s)
  {
    SortedUnique(listing, s.ds);
    if s.rfd.Some? {
      ReopenContents(s);
      LeadsTrans(s.disk.files[s.ds[0]], 0, s.disk.pos.value.seek, s.rfd.value);
    } else {
      assert AlreadyRead(s) == [] + Replayed(s);
    }
  }

  lemma ReopenContents(s: State)
    requires Inv(s) && PosGood(s) && s.rfd.Some?
    ensures var r := Open(s.disk, s.ds); Inv(r) && Synced(r) && Contents(r) == Replayed(s) + Contents(s)
  {
    var (b, r) := (s.disk.files[s.ds[0]], Open(s.disk, s.ds));
    var p := s.disk.pos.value.seek;
    assert Reading(r) && Ahead(r) == Rest(b, p);
    ReachesLeads(b, p, p);
    LeadsRecords(b, p, s.rfd.value);
    ReplayedFirst(Replayed(s), Records(Ahead(s)), AllRecords(s.disk.files, s.ds[1..]), Unsealed(s));
  }

  lemma ReplayedFirst(p: seq<Bytes>, a: seq<Bytes>, others: seq<Bytes>, u: seq<Bytes>)
    ensures (p + a) + others + u == p + (a + others + u)
  {
  }

  // ----- one Get, whatever its records and buffers -----

  /** The remembered offset, while a file is open. */
  predicate Placed(s: State) {
    s.rfd.Some? ==> s.posSeek >= 0
  }

  /** dumpFile writes .pos. */
  predicate Due(o: Options, s: State, dumpDue: bool) {
    o.dumpCount == 0 || (s.posCnt + 1) % o.dumpCount == 0 || dumpDue
  }

  /** The offset remembered after a record of n bytes is a record start from which whole records lead to the reader behind it. */
  predicate WellPlaced(s: State, n: nat)
    requires Reading(s) && s.posSeek >= 0
  {
    var (b, q) := (s.disk.files[s.ds[0]], s.posSeek + HEADER + n);
    Reaches(b, 0, q) && Leads(b, q, s.rfd.value + HEADER + n)
  }

  lemma AheadIsAt(s: State, n: nat)
    requires Reading(s)
    ensures RecordAhead(s, n) <==> RecordAt(s.disk.files[s.ds[0]], s.rfd.value) && NextAt(s.disk.files[s.ds[0]], s.rfd.value) == s.rfd.value + HEADER + n
  {
  }

  /** The reader moves over a whole record and .pos stays. */
  lemma OverRecord(s: State, r: State, n: nat)
    requires PosGood(s) && RecordAhead(s, n)
    requires r.disk.files == s.disk.files && r.disk.pos == s.disk.pos && r.ds == s.ds && r.cur == s.cur && r.rfd == Some(s.rfd.value + HEADER + n)
    ensures PosGood(r)
  {
    var (b, p, q) := (s.disk.files[s.ds[0]], s.disk.pos.value.seek, r.rfd.value);
    AheadIsAt(s, n);
    assert Reaches(b, s.rfd.value, q);
    ReachesTrans(b, p, s.rfd.value, q);
    ReachesLeads(b, p, q);
  }

  /** The reader moves past the end of the file and .pos stays. */
  lemma PastEnd(s: State, r: State)
    requires PosGood(s) && Reading(s) && !RecordAt(s.disk.files[s.ds[0]], s.rfd.value)
    requires r.disk.files == s.disk.files && r.disk.pos == s.disk.pos && r.ds == s.ds && r.cur == s.cur
    requires r.rfd.Some? && r.rfd.value >= s.rfd.value && r.rfd.value + HEADER > |s.disk.files[s.ds[0]]|
    ensures PosGood(r)
  {
  }

  /** Passing a record keeps .pos good, if and only if .pos is not written or the offset written is well placed. */
  lemma PassGood(o: Options, s: State, n: nat, dumpDue: bool)
    requires Inv(s) && PosGood(s) && Placed(s) && RecordAhead(s, n)
    ensures PosGood(PassRecord(o, s, n, dumpDue)) <==> (n > 0 && Due(o, s, dumpDue) ==> WellPlaced(s, n))
    ensures Placed(PassRecord(o, s, n, dumpDue))
  {
    if !(n > 0 && Due(o, s, dumpDue)) {
      OverRecord(s, PassRecord(o, s, n, dumpDue), n);
    }
  }

  /** This Get reads a record of the file that is open now, passes it and writes .pos. */
  predicate DumpsHere(o: Options, s: State, g: GetArgs) {
    && Reading(s) && HEADER <= |Ahead(s)|
    && RecordAhead(s, Read32(Ahead(s))) && Read32(Ahead(s)) > 0
    && (g.buf.None? || g.buf.value >= Read32(Ahead(s)))
    && (g.fn(Ahead(s)[HEADER..HEADER + Read32(Ahead(s))]) || o.noFallback)
    && (WakesUp(s, g) ==> g.renameOk)
    && Due(o, s, g.dumpDue)
  }

  lemma ReadHereGood(o: Options, s: State, g: GetArgs)
    requires Inv(s) && PosGood(s) && Placed(s) && Reading(s) && HEADER <= |Ahead(s)| && Read32(Ahead(s)) != EOF_HINT
    requires WakesUp(s, g) ==> g.renameOk
    ensures Placed(ReadLoop(o, s, g).0)
    ensures PosGood(ReadLoop(o, s, g).0) <==> (DumpsHere(o, s, g) ==> WellPlaced(s, Read32(Ahead(s))))
  {
    var n := Read32(Ahead(s));
    if g.buf.Some? && g.buf.value < n {
      var r := s.(rfd := Some(s.rfd.value + HEADER + n));
      assert ReadLoop(o, s, g) == (r, TooSmallBuffer);
      if HEADER + n <= |Ahead(s)| {
        OverRecord(s, r, n);
      } else {
        PastEnd(s, r);
      }
    } else if HEADER + n <= |Ahead(s)| {
      assert ReadLoop(o, s, g) == Handle(o, s, g, Ahead(s)[HEADER..HEADER + n]);
      PassGood(o, s, n, g.dumpDue);
    } else {
      var r := s.(rfd := Some(|s.disk.files[s.ds[0]]|));
      assert ReadLoop(o, s, g) == (r, ReadFailed);
      PastEnd(s, r);
    }
  }

  // ----- in step -----

  /** .pos is good, and the remembered offset is the reader's, or neither has a record ahead. */
  predicate Synced(s: State) {
    && PosGood(s) && Placed(s)
    && (s.rfd.Some? ==> s.posSeek == s.rfd.value || (!RecordAt(s.disk.files[s.ds[0]], s.rfd.value) && !RecordAt(s.disk.files[s.ds[0]], s.posSeek)))
  }

  /** In step, whatever is dumped is well placed. */
  lemma SyncedPlaces(s: State, n: nat)
    requires Synced(s) && RecordAhead(s, n)
    ensures WellPlaced(s, n)
  {
    var (b, p, q) := (s.disk.files[s.ds[0]], s.disk.pos.value.seek, s.rfd.value + HEADER + n);
    AheadIsAt(s, n);
    assert Reaches(b, s.rfd.value, q);
    ReachesTrans(b, p, s.rfd.value, q);
    ReachesTrans(b, 0, p, q);
    ReachesLeads(b, q, q);
  }

  lemma RotateSynced(s: State, renameOk: bool)
    requires Inv(s)
    ensures PosGood(s) ==> PosGood(Rotate(s, renameOk))
    ensures PosGood(Rotate(s, renameOk)) ==> PosGood(s)
    ensures Synced(s) ==> Synced(Rotate(s, renameOk))
  {
    RotateReading(s);
  }

  /** Opening the next file records its start in .pos at once. */
  lemma SwitchSynced(s: State)
    requires Inv(s) && (s.rfd.Some? ==> AtEnd(s))
    ensures Synced(SwitchNext(s).0)
  {
    SwitchKeeps(s);
    var t := SwitchNext(s).0;
    if t.rfd.Some? {
      ReachesLeads(t.disk.files[t.ds[0]], 0, 0);
    }
  }

  /** A record of the open file is passed: in step afterwards, exactly unless it is empty. */
  lemma PassSynced(o: Options, s: State, n: nat, dumpDue: bool)
    requires Inv(s) && Synced(s) && RecordAhead(s, n)
    ensures Synced(PassRecord(o, s, n, dumpDue)) <==> n > 0
  {
    AheadIsAt(s, n);
    SyncedPlaces(s, n);
    PassGood(o, s, n, dumpDue);
  }

  /** Reading from s to r kept in step, exactly unless an empty record was passed or a whole one given up. */
  predicate SyncedAfter(o: Options, s: State, r: State, res: GetResult) {
    Synced(r) <==> TakenByGet(o, s, res) != [[]] && (res.TooSmallBuffer? ==> Sealed(r) == Sealed(s))
  }

  lemma TooSmallSynced(s: State, g: GetArgs, n: nat)
    requires Inv(s) && Synced(s) && Reading(s) && HEADER <= |Ahead(s)| && Read32(Ahead(s)) == n && n != EOF_HINT
    requires g.buf.Some? && g.buf.value < n
    ensures var r := s.(rfd := Some(s.rfd.value + HEADER + n)); Synced(r) <==> Sealed(r) == Sealed(s)
  {
    var r := s.(rfd := Some(s.rfd.value + HEADER + n));
    if HEADER + n <= |Ahead(s)| {
      AheadIsAt(s, n);
      MoveReader(s, r, n);
      assert |Sealed(s)| == 1 + |Sealed(r)|;
    } else {
      PastEnd(s, r);
      NoRecordAt(s.disk.files[s.ds[0]], r.rfd.value);
      NoRecordAt(s.disk.files[s.ds[0]], s.rfd.value);
    }
  }

  lemma ReadHereSynced(o: Options, s: State, g: GetArgs)
    requires Inv(s) && Synced(s) && Reading(s) && HEADER <= |Ahead(s)| && Read32(Ahead(s)) != EOF_HINT
    ensures var (r, res) := ReadLoop(o, s, g); SyncedAfter(o, s, r, res)
  {
    var n := Read32(Ahead(s));
    if g.buf.Some? && g.buf.value < n {
      assert ReadLoop(o, s, g) == (s.(rfd := Some(s.rfd.value + HEADER + n)), TooSmallBuffer);
      TooSmallSynced(s, g, n);
    } else if HEADER + n <= |Ahead(s)| {
      var record := Ahead(s)[HEADER..HEADER + n];
      assert ReadLoop(o, s, g) == Handle(o, s, g, record);
      assert |record| == n && ([record] == [[]] <==> n == 0);
      PassSynced(o, s, n, g.dumpDue);
    } else {
      var r := s.(rfd := Some(|s.disk.files[s.ds[0]]|));
      assert ReadLoop(o, s, g) == (r, ReadFailed);
      PastEnd(s, r);
    }
  }

  lemma {:induction false} ReadLoopSynced(o: Options, s: State, g: GetArgs)
    requires Inv(s) && Synced(s) && (s.rfd.None? ==> s.ds == [])
    ensures var (r, res) := ReadLoop(o, s, g); SyncedAfter(o, s, r, res) && PosGood(r) && Placed(r)
    decreases |s.ds|
  {
    if s.rfd.Some? {
      if |Ahead(s)| < HEADER || Read32(Ahead(s)) == EOF_HINT {
        LoopGoesOn(o, s, g);
        SwitchSynced(s);
        ReadLoopSynced(o, SwitchNext(s).0, g);
      } else {
        var free := g.(idle := false);
        ReadHereSynced(o, s, g);
        ReadHereGood(o, s, free);
        assert ReadLoop(o, s, g) == ReadLoop(o, s, free);
        if DumpsHere(o, s, free) {
          SyncedPlaces(s, Read32(Ahead(s)));
        }
      }
    }
  }
}
