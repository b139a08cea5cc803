/** diskcache delivers: what a Get returns in every state a run can reach, and how the queue is drained. */
module DiskDelivery {
  import opened Framing
  import opened DiskQueue
  import opened DiskProofs
  import opened DiskRuns
  import opened DiskRestart
  import opened DiskRestartRuns
  import opened Wrappers

  // ----- files without torn records -----

  /** Whole records up to the end marker or a short header. */
  predicate Whole(b: Bytes) {
    |b| < HEADER || Read32(b) == EOF_HINT || (HEADER + Read32(b) <= |b| && Whole(b[HEADER + Read32(b)..]))
  }

  /** No file is torn, and the reader stands between two records. */
  predicate Intact(s: State) {
    (forall f <- s.disk.files :: Whole(s.disk.files[f])) && (Reading(s) ==> Whole(Ahead(s)))
  }

  lemma WholeFrame(d: Bytes, rest: Bytes)
    requires Good(d) && Whole(rest)
    ensures Whole(Frame(d) + rest)
  {
    var b := Frame(d) + rest;
    assert b == LE32(|d|) + (d + rest);
    Read32OfLE32(|d|, d + rest);
    assert b[HEADER + |d|..] == rest;
  }

  lemma {:induction false} SealedIsWhole(rs: seq<Bytes>)
    requires AllGood(rs)
    ensures Whole(Frames(rs) + EOF_MARK)
  {
    if rs == [] {
      assert Frames(rs) + EOF_MARK == EOF_MARK == LE32(EOF_HINT) + [];
      Read32OfLE32(EOF_HINT, []);
    } else {
      SealedIsWhole(rs[1..]);
      WholeFrame(rs[0], Frames(rs[1..]) + EOF_MARK);
      assert Frames(rs) + EOF_MARK == Frame(rs[0]) + (Frames(rs[1..]) + EOF_MARK);
    }
  }

  lemma RotateIntact(s: State, renameOk: bool)
    requires Inv(s) && Intact(s)
    ensures Intact(Rotate(s, renameOk))
  {
    SealedIsWhole(Unsealed(s));
    RotateReading(s);
  }

  lemma SwitchIntact(s: State)
    requires Inv(s) && Intact(s) && (s.rfd.Some? ==> AtEnd(s))
    ensures Intact(SwitchNext(s).0)
  {
    SwitchKeeps(s);
    var t := SwitchNext(s).0;
    if Reading(t) {
      assert Ahead(t) == t.disk.files[t.ds[0]];
    }
  }

  /** The reader moves over one record. */
  lemma OverIntact(s: State, r: State, n: nat)
    requires Intact(s) && RecordAhead(s, n)
    requires r.disk.files == s.disk.files && r.ds == s.ds && r.cur == s.cur && r.rfd == Some(s.rfd.value + HEADER + n)
    ensures Intact(r)
  {
    assert Ahead(r) == Ahead(s)[HEADER + n..];
  }

  // ----- what a Get returns -----

  /** The answer to a Get that sees these records. */
  function Answer(g: GetArgs, seen: seq<Bytes>): GetResult {
    if seen == [] then NoData
    else if g.buf.Some? && g.buf.value < |seen[0]| then TooSmallBuffer
    else if g.fn(seen[0]) then Got(seen[0])
    else CallbackFailed(seen[0])
  }

  lemma HandleIntact(o: Options, s: State, g: GetArgs, n: nat)
    requires Intact(s) && RecordAhead(s, n)
    ensures var record := Ahead(s)[HEADER..HEADER + n];
            Intact(Handle(o, s, g, record).0) && Handle(o, s, g, record).1 == if g.fn(record) then Got(record) else CallbackFailed(record)
  {
    OverIntact(s, PassRecord(o, s, n, g.dumpDue), n);
  }

  lemma HeadIsFirst(s: State, n: nat)
    requires RecordAhead(s, n)
    ensures Sealed(s) != [] && Sealed(s)[0] == Ahead(s)[HEADER..HEADER + n]
  {
    MoveReader(s, s.(rfd := Some(s.rfd.value + HEADER + n)), n);
  }

  lemma ReadHereAnswers(o: Options, s: State, g: GetArgs)
    requires Inv(s) && Intact(s) && Reading(s) && HEADER <= |Ahead(s)| && Read32(Ahead(s)) != EOF_HINT
    ensures var (r, res) := ReadLoop(o, s, g); Intact(r) && res == Answer(g, Sealed(s))
  {
    var n := Read32(Ahead(s));
    HeadIsFirst(s, n);
    if g.buf.Some? && g.buf.value < n {
      var r := s.(rfd := Some(s.rfd.value + HEADER + n));
      assert ReadLoop(o, s, g) == (r, TooSmallBuffer);
      OverIntact(s, r, n);
    } else {
      assert ReadLoop(o, s, g) == Handle(o, s, g, Ahead(s)[HEADER..HEADER + n]);
      HandleIntact(o, s, g, n);
    }
  }

  lemma {:induction false} ReadLoopAnswers(o: Options, s: State, g: GetArgs)
    requires Inv(s) && Intact(s) && (s.rfd.None? ==> s.ds == [])
    ensures var (r, res) := ReadLoop(o, s, g); Intact(r) && res == Answer(g, Sealed(s))
    decreases |s.ds|
  {
    if s.rfd.Some? {
      if |Ahead(s)| < HEADER || Read32(Ahead(s)) == EOF_HINT {
        LoopGoesOn(o, s, g);
        SwitchIntact(s);
        ReadLoopAnswers(o, SwitchNext(s).0, g);
      } else {
        ReadHereAnswers(o, s, g);
      }
    }
  }

  lemma AwakeAnswers(o: Options, s: State, g: GetArgs)
    requires Inv(s) && Intact(s)
    ensures var t := if s.rfd.None? then SwitchNext(s).0 else s;
            var (r, res) := ReadLoop(o, t, g);
            Intact(r) && res == Answer(g, Sealed(s)) && r.disk.writeFile == s.disk.writeFile
  {
    GetAwake(o, s, g);
    if s.rfd.None? {
      SwitchKeeps(s);
      SwitchIntact(s);
      ReadLoopAnswers(o, SwitchNext(s).0, g);
    } else {
      ReadLoopAnswers(o, s, g);
    }
  }

  lemma EmptyBatch(s: State)
    requires Inv(s)
    ensures Unsealed(s) == [] <==> s.batch == 0
    ensures Unsealed(s) == [] ==> Contents(s) == Sealed(s)
  {
    assert Frames(Unsealed(s)) == s.disk.writeFile;
  }

  /**
   What a Get returns, for every state without torn files and every choice of buffer,
   callback and clock. With the write file idle it sees the whole queue, the unsealed batch
   included, and fails only on a batch it cannot rename; otherwise it sees the sealed
   records and leaves the write file alone.
   */
  lemma GetExactly(o: Options, s: State, g: GetArgs)
    requires Inv(s) && Intact(s)
    ensures Intact(Get(o, s, g).0)
    ensures var (r, res) := Get(o, s, g);
            if g.idle && !g.renameOk && Unsealed(s) != [] then r == s && res == WakeupFailed
            else if g.idle then res == Answer(g, Contents(s)) && Unsealed(r) == []
            else res == Answer(g, Sealed(s)) && r.disk.writeFile == s.disk.writeFile
  {
    EmptyBatch(s);
    if g.idle && s.batch > 0 {
      RotateKeeps(s, g.renameOk);
      if g.renameOk {
        RotateInv(s);
        RotateIntact(s, true);
        AwakeAnswers(o, Rotate(s, true), g);
      }
    } else {
      AwakeAnswers(o, s, g);
    }
  }

  /** Torn files or not: an idle Get that can rename reports no data only when the queue is empty, and one that is not idle leaves the write file alone. */
  lemma NoDataMeans(o: Options, s: State, g: GetArgs)
    requires Inv(s)
    ensures g.idle && g.renameOk && Get(o, s, g).1.NoData? ==> Contents(s) == []
    ensures !g.idle ==> Get(o, s, g).0.disk.writeFile == s.disk.writeFile && (Get(o, s, g).1.NoData? ==> Sealed(s) == [])
  {
    EmptyBatch(s);
    GetKeeps(o, s, g);
    if !g.idle {
      GetAwake(o, s, g);
    }
  }

  // ----- runs -----

  lemma DropIntact(o: Options, s: State, d: Bytes)
    requires Inv(s) && Intact(s) && !DropsWhileReading(o, s, d)
    ensures Intact(AfterDrop(o, s, d))
  {
  }

  lemma AppendIntact(o: Options, s: State, d: Bytes, renameOk: bool)
    requires Inv(s) && Intact(s) && Good(d)
    ensures Intact(Append(o, s, d, renameOk).0)
  {
    var s' := s.(disk := s.disk.(writeFile := s.disk.writeFile + Frame(d)), batch := s.batch + HEADER + |d|);
    FramedAppend(s.disk.writeFile, d);
    assert Inv(s') && Intact(s');
    RotateIntact(s', renameOk);
  }

  lemma PutIntact(o: Options, s: State, d: Bytes, renameOk: bool)
    requires Inv(s) && Intact(s) && Allowed(o, s, PutOp(d, renameOk))
    ensures Intact(Put(o, s, d, renameOk).0)
  {
    PutIsAppend(o, s, d, renameOk);
    RoomMade(o, s, d);
    DropIntact(o, s, d);
    AppendIntact(o, AfterDrop(o, s, d), d, renameOk);
  }

  /** Every state of every run from an empty directory, or from any intact state, is intact. */
  lemma {:induction false} RunIntact(o: Options, s: State, ops: seq<Op>)
    requires Inv(s) && Intact(s) && AllAllowed(o, s, ops)
    ensures Intact(Run(o, s, ops))
    decreases ops
  {
    if ops != [] {
      StepInOrder(o, s, ops[0]);
      match ops[0] {
        case PutOp(d, renameOk) => PutIntact(o, s, d, renameOk);
        case RotateOp(renameOk) => RotateIntact(s, renameOk);
        case GetOp(g) => GetExactly(o, s, g);
      }
      RunIntact(o, Step(o, s, ops[0]), ops[1..]);
    }
  }

  /** Opening again keeps it so. */
  lemma ReopenIntact(s: State, listing: seq<nat>)
    requires Inv(s) && Intact(s) && PosGood(s) && Increasing(listing) && SameNames(s.disk.files, listing)
    ensures Intact(Open(s.disk, listing))
  {
    if s.disk.pos.Some? {
      var (b, p) := (s.disk.files[s.ds[0]], s.disk.pos.value.seek);
      assert Rest(b, 0) == b;
      WholeAfter(b, 0, p);
    }
  }

  lemma {:induction false} WholeAfter(b: Bytes, p: nat, q: nat)
    requires Reaches(b, p, q) && Whole(Rest(b, p))
    ensures Whole(Rest(b, q))
    decreases |b| - p
  {
    if p != q {
      assert Rest(b, p)[HEADER + Read32(b[p..])..] == Rest(b, NextAt(b, p));
      WholeAfter(b, NextAt(b, p), q);
    }
  }

  /** After every run from an empty directory, an idle Get with room is given the oldest record, sealed or not. */
  lemma IdleGetDelivers(o: Options, ops: seq<Op>, g: GetArgs)
    requires Inv(EMPTY) && AllAllowed(o, EMPTY, ops)
    requires var c := Contents(Run(o, EMPTY, ops)); c != [] && g.idle && g.renameOk && (g.buf.None? || g.buf.value >= |c[0]|)
    ensures var s := Run(o, EMPTY, ops);
            Get(o, s, g).1 == if g.fn(Contents(s)[0]) then Got(Contents(s)[0]) else CallbackFailed(Contents(s)[0])
  {
    RunIntact(o, EMPTY, ops);
    GetExactly(o, Run(o, EMPTY, ops), g);
  }

  /** A Get that may seal the write file, has room for every record of the queue, and takes it. */
  ghost predicate Accepting(op: Op, queue: seq<Bytes>) {
    op.GetOp? && op.args.idle && op.args.renameOk && forall r <- queue :: op.args.fn(r) && (op.args.buf.None? || op.args.buf.value >= |r|)
  }

  /** As many accepting idle Gets as there are records deliver them all, in order, and leave nothing. */
  lemma {:induction false} Drained(o: Options, s: State, ops: seq<Op>)
    requires Inv(s) && Intact(s) && |ops| == |Contents(s)| && forall i :: 0 <= i < |ops| ==> Accepting(ops[i], Contents(s))
    ensures AllAllowed(o, s, ops) && Delivered(o, s, ops) == Contents(s) && Contents(Run(o, s, ops)) == []
    decreases ops
  {
    if ops != [] {
      var (g, c) := (ops[0].args, Contents(s));
      assert Accepting(ops[0], c) && c[0] in c;
      GetExactly(o, s, g);
      StepInOrder(o, s, ops[0]);
      GetKeeps(o, s, g);
      var t := Step(o, s, ops[0]);
      assert c == [c[0]] + Contents(t);
      forall i | 0 <= i < |ops[1..]|
        ensures Accepting(ops[1..][i], Contents(t))
      {
        assert Accepting(ops[i + 1], c);
      }
      Drained(o, t, ops[1..]);
    }
  }

  // ----- opening without a position -----

  /** Where .pos is none, or names a file that is gone, opening starts from the beginning of the lowest file and forgets the position. */
  lemma OpenFresh(disk: Disk, listing: seq<nat>)
    requires disk.pos.None? || disk.pos.value.name !in disk.files
    ensures var s := Open(disk, listing); s.rfd.None? && s.disk.pos.None? && Contents(s) == AllRecords(disk.files, listing) + Records(disk.writeFile)
  {
  }
}
