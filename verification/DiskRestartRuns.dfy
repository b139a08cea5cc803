/** diskcache across restarts, over whole runs: safe for non-empty records and large enough buffers, and lost records without. */
module DiskRestartRuns {
  import opened Framing
  import opened DiskQueue
  import opened DiskProofs
  import opened DiskRuns
  import opened DiskRestart
  import opened Wrappers

  // ----- every operation -----

  lemma GetGoodAwake(o: Options, s: State, g: GetArgs)
    requires Inv(s) && PosGood(s) && Placed(s) && !WakesUp(s, g)
    ensures PosGood(Get(o, s, g).0) <==> (DumpsHere(o, s, g) ==> WellPlaced(s, Read32(Ahead(s))))
    ensures Placed(Get(o, s, g).0)
  {
    if s.rfd.None? {
      SwitchKeeps(s);
      SwitchSynced(s);
      ReadLoopSynced(o, SwitchNext(s).0, g);
    } else if |Ahead(s)| < HEADER || Read32(Ahead(s)) == EOF_HINT {
      LoopGoesOn(o, s, g);
      SwitchSynced(s);
      ReadLoopSynced(o, SwitchNext(s).0, g);
    } else {
      ReadHereGood(o, s, g);
    }
  }

  lemma GetAfterRotate(o: Options, s: State, g: GetArgs)
    requires Inv(s) && WakesUp(s, g) && g.renameOk
    ensures Inv(Rotate(s, true)) && !WakesUp(Rotate(s, true), g) && Get(o, s, g) == Get(o, Rotate(s, true), g)
  {
    RotateKeeps(s, true);
  }

  /** The open file, its reader and the remembered position are not touched by a rotation. */
  lemma RotateLeavesReader(s: State)
    requires Inv(s) && Reading(s)
    ensures var t := Rotate(s, true);
            && Reading(t) && t.ds[0] == s.ds[0] && t.disk.files[s.ds[0]] == s.disk.files[s.ds[0]]
            && t.rfd == s.rfd && t.posSeek == s.posSeek && t.posCnt == s.posCnt
  {
  }

  lemma DumpsSame(o: Options, s: State, g: GetArgs)
    requires Inv(s) && Placed(s) && WakesUp(s, g) && g.renameOk
    ensures var t := Rotate(s, true);
            && !WakesUp(t, g) && (DumpsHere(o, s, g) <==> DumpsHere(o, t, g))
            && (DumpsHere(o, s, g) ==> Ahead(t) == Ahead(s) && WellPlaced(t, Read32(Ahead(s))) == WellPlaced(s, Read32(Ahead(s))))
  {
    if Reading(s) {
      RotateLeavesReader(s);
      assert Ahead(Rotate(s, true)) == Ahead(s);
    }
  }

  /**
   After a Get, whatever its record and buffer, .pos is good, if and only if the Get does
   not write it or the offset it writes is a record start that leads to the reader.
   */
  lemma GetGood(o: Options, s: State, g: GetArgs)
    requires Inv(s) && PosGood(s) && Placed(s)
    ensures PosGood(Get(o, s, g).0) <==> (DumpsHere(o, s, g) ==> WellPlaced(s, Read32(Ahead(s))))
    ensures Placed(Get(o, s, g).0)
  {
    if !WakesUp(s, g) {
      GetGoodAwake(o, s, g);
    } else if g.renameOk {
      GetAfterRotate(o, s, g);
      DumpsSame(o, s, g);
      RotateSynced(s, true);
      GetGoodAwake(o, Rotate(s, true), g);
    } else {
      RotateKeeps(s, false);
    }
  }

  lemma AppendSynced(o: Options, s: State, data: Bytes, renameOk: bool)
    requires Inv(s) && Good(data)
    ensures var r := Append(o, s, data, renameOk).0; (PosGood(s) && Placed(s) ==> PosGood(r) && Placed(r)) && (Synced(s) ==> Synced(r))
  {
    var s' := s.(disk := s.disk.(writeFile := s.disk.writeFile + Frame(data)), batch := s.batch + HEADER + |data|);
    FramedAppend(s.disk.writeFile, data);
    RotateSynced(s', renameOk);
  }

  lemma PutSynced(o: Options, s: State, data: Bytes, renameOk: bool)
    requires Inv(s) && Good(data) && !DropsWhileReading(o, s, data)
    ensures var r := Put(o, s, data, renameOk).0; (PosGood(s) && Placed(s) ==> PosGood(r) && Placed(r)) && (Synced(s) ==> Synced(r))
  {
    PutIsAppend(o, s, data, renameOk);
    RoomMade(o, s, data);
    AppendSynced(o, AfterDrop(o, s, data), data, renameOk);
  }

  /** Every allowed operation keeps .pos good, if and only if it is not a Get that writes an offset that is not well placed. */
  lemma StepGood(o: Options, s: State, op: Op)
    requires Inv(s) && PosGood(s) && Placed(s) && Allowed(o, s, op)
    ensures PosGood(Step(o, s, op)) <==> (op.GetOp? && DumpsHere(o, s, op.args) ==> WellPlaced(s, Read32(Ahead(s))))
    ensures Placed(Step(o, s, op))
  {
    match op
    case PutOp(d, renameOk) => PutSynced(o, s, d, renameOk);
    case RotateOp(renameOk) => RotateSynced(s, renameOk);
    case GetOp(g) => GetGood(o, s, g);
  }

  lemma AwakeSynced(o: Options, s: State, g: GetArgs)
    requires Inv(s) && Synced(s) && !WakesUp(s, g)
    ensures var (r, res) := Get(o, s, g); SyncedAfter(o, s, r, res)
  {
    if s.rfd.None? {
      SwitchKeeps(s);
      SwitchSynced(s);
      ReadLoopSynced(o, SwitchNext(s).0, g);
    } else {
      ReadLoopSynced(o, s, g);
    }
  }

  /** From a state in step, a Get ends in step, if and only if it passes no empty record and gives up none for its length. */
  lemma GetSynced(o: Options, s: State, g: GetArgs)
    requires Inv(s) && Synced(s)
    ensures Synced(Get(o, s, g).0) <==> Handed(o, s, GetOp(g)) != [[]] && Lost(o, s, GetOp(g)) == []
  {
    GetKeeps(o, s, g);
    var t := if WakesUp(s, g) then Rotate(s, g.renameOk) else s;
    RotateKeeps(s, g.renameOk);
    if WakesUp(s, g) && !g.renameOk {
      assert t == s;
    } else {
      if WakesUp(s, g) {
        GetAfterRotate(o, s, g);
        RotateSynced(s, true);
      }
      AwakeSynced(o, t, g);
      GetAwake(o, t, g);
      SealedOrContents(t, Get(o, s, g).0);
    }
  }

  lemma SealedOrContents(s: State, r: State)
    requires s.disk.writeFile == r.disk.writeFile
    ensures Sealed(s) == Sealed(r) <==> Contents(s) == Contents(r)
  {
    if Contents(s) == Contents(r) {
      var n := |Sealed(s)|;
      assert |Contents(s)| == n + |Unsealed(s)| && |Contents(r)| == |Sealed(r)| + |Unsealed(s)|;
      assert Contents(s)[..n] == Sealed(s) && Contents(r)[..n] == Sealed(r);
    }
  }

  lemma StepSynced(o: Options, s: State, op: Op)
    requires Inv(s) && Synced(s) && Allowed(o, s, op)
    requires Handed(o, s, op) != [[]] && (op.GetOp? ==> Lost(o, s, op) == [])
    ensures Synced(Step(o, s, op))
  {
    match op
    case PutOp(d, renameOk) => PutSynced(o, s, d, renameOk);
    case RotateOp(renameOk) => RotateSynced(s, renameOk);
    case GetOp(g) => GetSynced(o, s, g);
  }

  // ----- runs known by their inputs -----

  /** Records of one to hi bytes and buffers of hi bytes, or allocated, keep the cache in step over every run. */
  lemma {:induction false} RunSynced(o: Options, s: State, ops: seq<Op>, hi: nat)
    requires Inv(s) && Synced(s) && AllAllowed(o, s, ops)
    requires Within(Contents(s), 1, hi) && forall op <- ops :: Fits(op, 1, hi)
    ensures Synced(Run(o, s, ops))
    decreases ops
  {
    if ops != [] {
      StepWithin(o, s, ops[0], 1, hi);
      assert Handed(o, s, ops[0]) != [] ==> Handed(o, s, ops[0])[0] in Handed(o, s, ops[0]);
      StepSynced(o, s, ops[0]);
      RunSynced(o, Step(o, s, ops[0]), ops[1..], hi);
    }
  }

  const EMPTY := Open(Disk(map[], [], None), [])

  /** A new, empty directory satisfies the conditions of the run theorems. */
  lemma EmptyIsReady()
    ensures Inv(EMPTY) && Synced(EMPTY) && Contents(EMPTY) == []
  {
  }

  /**
   Restart, for callers: after every run of non-empty records and large enough buffers,
   closing and opening again gives the queue preceded by records already read.
   */
  lemma RestartByInputs(o: Options, s: State, ops: seq<Op>, hi: nat, listing: seq<nat>)
    requires Inv(s) && Synced(s) && AllAllowed(o, s, ops)
    requires Within(Contents(s), 1, hi) && forall op <- ops :: Fits(op, 1, hi)
    requires Increasing(listing) && SameNames(Run(o, s, ops).disk.files, listing)
    ensures var r := Run(o, s, ops);
            && PosGood(r)
            && Contents(Open(r.disk, listing)) == Replayed(r) + Contents(r)
            && exists earlier :: AlreadyRead(r) == earlier + Replayed(r)
  {
    RunSynced(o, s, ops, hi);
    RestartReplays(Run(o, s, ops), listing);
  }

  /** The same for a cache that refuses data when full, with nothing asked of the run but its inputs. */
  lemma RestartForCallers(o: Options, ops: seq<Op>, hi: nat, listing: seq<nat>)
    requires Refuses(o) && forall i :: 0 <= i < |ops| ==> Holds(ops[i]) && Fits(ops[i], 1, hi)
    requires Increasing(listing)
    ensures Inv(EMPTY) && AllAllowed(o, EMPTY, ops)
    ensures var r := Run(o, EMPTY, ops);
            SameNames(r.disk.files, listing) ==> PosGood(r) && Contents(Open(r.disk, listing)) == Replayed(r) + Contents(r)
  {
    EmptyIsReady();
    RefusesAllows(o, EMPTY, ops);
    if SameNames(Run(o, EMPTY, ops).disk.files, listing) {
      RestartByInputs(o, EMPTY, ops, hi, listing);
    }
  }

  // ----- runs that lose a record -----

  /** One allowed operation leads from s to s'. */
  ghost predicate Follows(o: Options, s: State, op: Op, s': State) {
    Inv(s) && Allowed(o, s, op) && s' == Step(o, s, op) && Inv(s')
  }

  /** The states of a run, one after the other. */
  ghost predicate Trace(o: Options, states: seq<State>, ops: seq<Op>) {
    && |states| == |ops| + 1 && Inv(states[0])
    && forall i :: 0 <= i < |ops| ==> Follows(o, states[i], ops[i], states[i + 1])
  }

  lemma TraceTail(o: Options, states: seq<State>, ops: seq<Op>)
    requires Trace(o, states, ops) && ops != []
    ensures Follows(o, states[0], ops[0], states[1]) && Trace(o, states[1..], ops[1..])
  {
    assert Follows(o, states[0], ops[0], states[1]);
    forall i | 0 <= i < |ops[1..]|
      ensures Follows(o, states[1..][i], ops[1..][i], states[1..][i + 1])
    {
      assert Follows(o, states[i + 1], ops[i + 1], states[i + 2]);
    }
  }

  lemma {:induction false} TraceIsRun(o: Options, states: seq<State>, ops: seq<Op>)
    requires Trace(o, states, ops)
    ensures AllAllowed(o, states[0], ops) && Run(o, states[0], ops) == states[|ops|]
    decreases ops
  {
    if ops != [] {
      TraceTail(o, states, ops);
      TraceIsRun(o, states[1..], ops[1..]);
    }
  }

  /** No capacity, batches that these runs do not fill, and .pos written after every record. */
  const EAGER := Options(1000000, 0, 0, false, false, false, 0)

  /** A record whose last three bytes read as a length no file has. */
  const MISLEADING: Bytes := [255, 255, 255, 0]

  /** A Get that takes whatever fits its buffer. */
  function Taking(buf: Option<nat>): Op {
    GetOp(GetArgs(buf, _ => true, false, true, false))
  }

  function FileOf(first: Bytes, y: Bytes): Bytes {
    Frame(first) + Frame(MISLEADING) + Frame(y) + EOF_MARK
  }

  /** One sealed file, read up to the offset, with what is remembered and what .pos holds. */
  function ReadTo(b: Bytes, reader: nat, seek: nat, pos: nat): State {
    State(Disk(map[0 := b], [], Some(Pos(0, pos))), [0], Some(0), Some(reader), |b|, 0, Some(0), seek, 0)
  }

  /** The first record is empty, or it is one byte long and the buffer has none. */
  predicate Passed(first: Bytes, buf: Option<nat>) {
    (first == [] && buf.None?) || (first == [9] && buf == Some(0))
  }

  lemma FileBytes(first: Bytes, y: Bytes)
    requires (first == [] || first == [9]) && |y| < 1000
    ensures var (b, n) := (FileOf(first, y), |first|);
            && |b| == n + 20 + |y|
            && Read32(b) == n
            && Rest(b, HEADER + n) == Frame(MISLEADING) + Frame(y) + EOF_MARK
            && Rest(b, HEADER + n + 8) == Frame(y) + EOF_MARK
  {
    var (f, m, rest) := (Frame(first), Frame(MISLEADING), Frame(y) + EOF_MARK);
    var b := FileOf(first, y);
    assert b == f + (m + rest) && b == f + m + rest;
    assert b == LE32(|first|) + (first + (m + rest));
    Read32OfLE32(|first|, first + (m + rest));
    assert m + Frame(y) + EOF_MARK == m + rest;
  }

  /** At offset 8 stands no record: the bytes there belong to the middle one. */
  lemma Misread(first: Bytes, y: Bytes)
    requires (first == [] || first == [9]) && |y| < 1000
    ensures Records(Rest(FileOf(first, y), 8)) == []
  {
    var b := FileOf(first, y);
    FileBytes(first, y);
    assert Frame(MISLEADING) == [4, 0, 0, 0, 255, 255, 255, 0];
    assert first == [] ==> Frame(first) == [0, 0, 0, 0];
    assert first == [9] ==> Frame(first) == [1, 0, 0, 0, 9];
    assert Rest(b, 8)[..4] == if first == [] then [255, 255, 255, 0] else [0, 255, 255, 255];
  }

  /** After three records are put and the file is sealed. */
  lemma PutAndSealed(first: Bytes, y: Bytes)
    requires (first == [] || first == [9]) && |y| < 1000
    ensures var s := Step(EAGER, Step(EAGER, Step(EAGER, EMPTY, PutOp(first, true)), PutOp(MISLEADING, true)), PutOp(y, true));
            Rotate(s, true) == State(Disk(map[0 := FileOf(first, y)], [], None), [0], None, None, |FileOf(first, y)|, 0, None, 0, 0)
  {
    FileBytes(first, y);
    assert [] + Frame(first) == Frame(first);
  }

  lemma FirstGet(first: Bytes, y: Bytes, buf: Option<nat>)
    requires Passed(first, buf) && |y| < 1000
    ensures var (b, n) := (FileOf(first, y), |first|);
            Step(EAGER, State(Disk(map[0 := b], [], None), [0], None, None, |b|, 0, None, 0, 0), Taking(buf)) == ReadTo(b, HEADER + n, 0, 0)
  {
    var b := FileOf(first, y);
    var t := ReadTo(b, 0, 0, 0);
    FileBytes(first, y);
    assert Rest(b, 0) == b && Reading(t) && Ahead(t) == b;
    assert first == [] ==> b[HEADER..HEADER] == [];
    assert ReadLoop(EAGER, t, Taking(buf).args).0 == ReadTo(b, HEADER + |first|, 0, 0);
  }

  lemma SecondGet(first: Bytes, y: Bytes)
    requires (first == [] || first == [9]) && |y| < 1000
    ensures var (b, n) := (FileOf(first, y), |first|);
            Step(EAGER, ReadTo(b, HEADER + n, 0, 0), Taking(None)) == ReadTo(b, HEADER + n + 8, 8, 8)
  {
    var b := FileOf(first, y);
    var t := ReadTo(b, HEADER + |first|, 0, 0);
    FileBytes(first, y);
    assert Ahead(t) == LE32(4) + (MISLEADING + Frame(y) + EOF_MARK);
    Read32OfLE32(4, MISLEADING + Frame(y) + EOF_MARK);
  }

  /** The third record is still queued, and after a restart it is not. */
  lemma ThirdIsLost(first: Bytes, y: Bytes)
    requires (first == [] || first == [9]) && |y| < 1000
    ensures var s := ReadTo(FileOf(first, y), HEADER + |first| + 8, 8, 8);
            Contents(s) == [y] && !PosGood(s) && Contents(Open(s.disk, [0])) == []
  {
    var b := FileOf(first, y);
    var s := ReadTo(b, HEADER + |first| + 8, 8, 8);
    var r := Open(s.disk, [0]);
    FileBytes(first, y);
    Misread(first, y);
    RecordsOfFrame(y, EOF_MARK);
    assert EOF_MARK + [] == EOF_MARK;
    NothingAfterMark();
    assert Reading(s) && Ahead(s) == Frame(y) + EOF_MARK && [0][1..] == [];
    assert Reading(r) && Ahead(r) == Rest(b, 8);
    if PosGood(s) {
      LeadsRecords(b, 8, s.rfd.value);
    }
  }

  lemma AllowedHere(s: State, op: Op)
    requires Inv(s) && (op.PutOp? ==> |op.data| < 1000)
    ensures Allowed(EAGER, s, op) && Inv(Step(EAGER, s, op))
  {
    StepInOrder(EAGER, s, op);
  }

  function LosingRun(first: Bytes, y: Bytes, buf: Option<nat>): seq<Op> {
    [PutOp(first, true), PutOp(MISLEADING, true), PutOp(y, true), RotateOp(true), Taking(buf), Taking(None)]
  }

  /** Short records are always allowed. */
  lemma {:induction false} TraceExists(s: State, ops: seq<Op>) returns (states: seq<State>)
    requires Inv(s) && forall op <- ops :: op.PutOp? ==> |op.data| < 1000
    ensures Trace(EAGER, states, ops) && states[0] == s
    decreases ops
  {
    if ops == [] {
      states := [s];
    } else {
      AllowedHere(s, ops[0]);
      var rest := TraceExists(Step(EAGER, s, ops[0]), ops[1..]);
      states := [s] + rest;
    }
  }

  lemma LosingSealed(states: seq<State>, first: Bytes, y: Bytes, buf: Option<nat>)
    requires Passed(first, buf) && |y| < 1000
    requires Trace(EAGER, states, LosingRun(first, y, buf)) && states[0] == EMPTY
    ensures var b := FileOf(first, y); states[4] == State(Disk(map[0 := b], [], None), [0], None, None, |b|, 0, None, 0, 0)
  {
    var ops := LosingRun(first, y, buf);
    assert Follows(EAGER, states[0], ops[0], states[1]) && Follows(EAGER, states[1], ops[1], states[2]);
    assert Follows(EAGER, states[2], ops[2], states[3]) && Follows(EAGER, states[3], ops[3], states[4]);
    PutAndSealed(first, y);
  }

  lemma LosingEnds(states: seq<State>, first: Bytes, y: Bytes, buf: Option<nat>)
    requires Passed(first, buf) && |y| < 1000
    requires Trace(EAGER, states, LosingRun(first, y, buf)) && states[0] == EMPTY
    ensures states[6] == ReadTo(FileOf(first, y), HEADER + |first| + 8, 8, 8)
  {
    var ops := LosingRun(first, y, buf);
    LosingSealed(states, first, y, buf);
    assert Follows(EAGER, states[4], ops[4], states[5]) && Follows(EAGER, states[5], ops[5], states[6]);
    FirstGet(first, y, buf);
    SecondGet(first, y);
  }

  /**
   From an empty directory, an empty first record, or a first record that is too long for
   its buffer, makes the second Get write a .pos that is no record start: the third record
   is still queued, and after a restart it is gone.
   */
  lemma RecordLost(first: Bytes, y: Bytes, buf: Option<nat>)
    requires Passed(first, buf) && |y| < 1000
    ensures Inv(EMPTY) && AllAllowed(EAGER, EMPTY, LosingRun(first, y, buf))
    ensures var r := Run(EAGER, EMPTY, LosingRun(first, y, buf));
            Contents(r) == [y] && !PosGood(r) && r.ds == [0] && Contents(Open(r.disk, r.ds)) == []
  {
    EmptyIsReady();
    var states := TraceExists(EMPTY, LosingRun(first, y, buf));
    TraceIsRun(EAGER, states, LosingRun(first, y, buf));
    LosingEnds(states, first, y, buf);
    ThirdIsLost(first, y);
  }
}
