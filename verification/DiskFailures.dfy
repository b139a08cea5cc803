/** diskcache: a run from an empty directory that loses an accepted record to a drop. */
module DiskFailures {
  import opened Framing
  import opened DiskQueue
  import opened DiskProofs
  import opened DiskRuns
  import opened DiskRestart
  import opened DiskRestartRuns
  import opened Wrappers

  /** Every Put seals its batch, and one sealed byte fills the cache. */
  const TIGHT := Options(1, 9, 0, false, false, false, 0)

  function SealedByte(x: byte): Bytes {
    Frame([x]) + EOF_MARK
  }

  function SealedState(x: byte): State {
    State(Disk(map[0 := SealedByte(x)], [], None), [0], None, None, 9, 0, None, 0, 0)
  }

  lemma FirstPut(x: byte)
    ensures Allowed(TIGHT, EMPTY, PutOp([x], true)) && Step(TIGHT, EMPTY, PutOp([x], true)) == SealedState(x)
  {
    assert [] + Frame([x]) == Frame([x]);
  }

  lemma FirstRead(x: byte)
    ensures Step(TIGHT, SealedState(x), Taking(None)) == ReadTo(SealedByte(x), 5, 5, 5)
  {
    var b := SealedByte(x);
    var t := ReadTo(b, 0, 0, 0);
    assert b == LE32(1) + ([x] + EOF_MARK);
    Read32OfLE32(1, [x] + EOF_MARK);
    assert Rest(b, 0) == b && Reading(t) && Ahead(t) == b;
    assert ReadLoop(TIGHT, t, Taking(None).args).0 == ReadTo(b, 5, 5, 5);
  }

  lemma RunTwo(o: Options, s: State, op: Op, t: State, op': Op, u: State)
    requires Inv(s) && Inv(t) && Inv(u) && Allowed(o, s, op) && t == Step(o, s, op) && Allowed(o, t, op') && u == Step(o, t, op')
    ensures AllAllowed(o, s, [op, op']) && Run(o, s, [op, op']) == u
  {
    assert Follows(o, s, op, t) && Follows(o, t, op', u);
    TraceIsRun(o, [s, t, u], [op, op']);
  }

  lemma ReadRun(x: byte)
    ensures Inv(EMPTY) && AllAllowed(TIGHT, EMPTY, [PutOp([x], true), Taking(None)])
    ensures Inv(ReadTo(SealedByte(x), 5, 5, 5))
    ensures Run(TIGHT, EMPTY, [PutOp([x], true), Taking(None)]) == ReadTo(SealedByte(x), 5, 5, 5)
  {
    EmptyIsReady();
    FirstPut(x);
    FirstRead(x);
    StepInOrder(TIGHT, EMPTY, PutOp([x], true));
    StepInOrder(TIGHT, SealedState(x), Taking(None));
    RunTwo(TIGHT, EMPTY, PutOp([x], true), SealedState(x), Taking(None), ReadTo(SealedByte(x), 5, 5, 5));
  }

  /** The next Get of a cache with one listed file and a stale current one finds nothing. */
  lemma NothingLeft(s: State)
    requires Stale(s) && s.batch == 0 && SwitchNext(s).0.ds == []
    ensures var (r, res) := Get(TIGHT, s, Taking(None).args); res == NoData && r == SwitchNext(s).0
  {
  }

  /**
   From an empty directory: one record is put and read, a second one is accepted while the
   first file is still open, and the next Get reports no data; the accepted record is gone.
   */
  lemma AcceptedRecordLost(x: byte, y: byte)
    ensures Inv(EMPTY) && AllAllowed(TIGHT, EMPTY, [PutOp([x], true), Taking(None)])
    ensures var (t, res) := Put(TIGHT, Run(TIGHT, EMPTY, [PutOp([x], true), Taking(None)]), [y], true);
            && res == PutOk && AllRecords(t.disk.files, t.ds) == [[y]] && Stale(t)
            && var (r, got) := Get(TIGHT, t, Taking(None).args);
               got == NoData && Contents(r) == [] && r.disk.files == map[]
  {
    ReadRun(x);
    var s := ReadTo(SealedByte(x), 5, 5, 5);
    var t := Put(TIGHT, s, [y], true).0;
    var s' := s.(disk := s.disk.(writeFile := s.disk.writeFile + Frame([y])), batch := s.batch + HEADER + 1);
    DroppingPutLoses(TIGHT, s, [y]);
    FramedAppend(s.disk.writeFile, [y]);
    SealedAfterDropIsLost(s');
    assert t == Rotate(DropBatch(s'), true);
    NothingLeft(t);
    assert Unsealed(s) == [] && [] + [[y]] == [[y]];
  }
}
