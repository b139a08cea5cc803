/** diskcache over whole runs: order, restart, size. */
module DiskRuns {
  import opened Framing
  import opened DiskQueue
  import opened DiskProofs
  import opened Wrappers

  datatype Op = PutOp(data: Bytes, renameOk: bool) | RotateOp(renameOk: bool) | GetOp(args: GetArgs)

  predicate Linked(s: State) {
    s.rfd.Some? ==> Reading(s)
  }

  function Step(o: Options, s: State, op: Op): State
    requires Linked(s)
  {
    match op
    case PutOp(d, renameOk) => Put(o, s, d, renameOk).0
    case RotateOp(renameOk) => Rotate(s, renameOk)
    case GetOp(g) => Get(o, s, g).0
  }

  /** The record is one the format can hold, and making room does not remove the file being read. */
  predicate Allowed(o: Options, s: State, op: Op) {
    op.PutOp? ==> Good(op.data) && !DropsWhileReading(o, s, op.data)
  }

  /** The record this operation adds to the queue. */
  function Added(o: Options, s: State, op: Op): seq<Bytes> {
    if op.PutOp? && Stored(Put(o, s, op.data, op.renameOk).1) then [op.data] else []
  }

  /** The record this operation hands over for good. */
  function Handed(o: Options, s: State, op: Op): seq<Bytes>
    requires Linked(s)
  {
    if op.GetOp? then TakenByGet(o, s, Get(o, s, op.args).1) else []
  }

  /** Records given up without being handed over: dropped to make room, or too long for the buffer. */
  function Lost(o: Options, s: State, op: Op): seq<Bytes>
    requires Linked(s)
  {
    match op
    case PutOp(d, _) => DroppedByPut(o, s, d)
    case RotateOp(_) => []
    case GetOp(g) =>
      if Get(o, s, g).1.TooSmallBuffer? && Contents(Get(o, s, g).0) != Contents(s) && Contents(s) != [] then Contents(s)[..1] else []
  }

  /** What was queued plus what is added is what is handed over or lost, then what stays queued. */
  predicate Balanced(before: seq<Bytes>, added: seq<Bytes>, handed: seq<Bytes>, lost: seq<Bytes>, after: seq<Bytes>) {
    before + added == handed + lost + after
  }

  lemma PutInOrder(o: Options, s: State, d: Bytes, renameOk: bool)
    requires Inv(s) && Allowed(o, s, PutOp(d, renameOk))
    ensures Inv(Put(o, s, d, renameOk).0)
    ensures Balanced(Contents(s), Added(o, s, PutOp(d, renameOk)), [], DroppedByPut(o, s, d), Contents(Put(o, s, d, renameOk).0))
  {
    PutKeeps(o, s, d, renameOk);
    BalancedAdd(Contents(s), Added(o, s, PutOp(d, renameOk)), DroppedByPut(o, s, d), Contents(Put(o, s, d, renameOk).0));
  }

  lemma BalancedAdd(c: seq<Bytes>, added: seq<Bytes>, lost: seq<Bytes>, r: seq<Bytes>)
    requires c + added == lost + r
    ensures Balanced(c, added, [], lost, r)
  {
  }

  lemma GetInOrder(o: Options, s: State, g: GetArgs)
    requires Inv(s)
    ensures Inv(Get(o, s, g).0)
    ensures Balanced(Contents(s), [], Handed(o, s, GetOp(g)), Lost(o, s, GetOp(g)), Contents(Get(o, s, g).0))
  {
    GetKeeps(o, s, g);
    var (c, r, res) := (Contents(s), Contents(Get(o, s, g).0), Get(o, s, g).1);
    if res.TooSmallBuffer? {
      BalancedSkip(c, r);
    } else {
      BalancedTake(c, TakenByGet(o, s, res), r);
    }
  }

  lemma BalancedSkip(c: seq<Bytes>, r: seq<Bytes>)
    requires r == c || (c != [] && r == c[1..])
    ensures Balanced(c, [], [], if r != c && c != [] then c[..1] else [], r)
  {
  }

  lemma BalancedTake(c: seq<Bytes>, t: seq<Bytes>, r: seq<Bytes>)
    requires c == t + r
    ensures Balanced(c, [], t, [], r)
  {
  }

  lemma StepInOrder(o: Options, s: State, op: Op)
    requires Inv(s) && Allowed(o, s, op)
    ensures Inv(Step(o, s, op))
    ensures Balanced(Contents(s), Added(o, s, op), Handed(o, s, op), Lost(o, s, op), Contents(Step(o, s, op)))
  {
    match op
    case PutOp(d, renameOk) => PutInOrder(o, s, d, renameOk);
    case RotateOp(renameOk) =>
      RotateKeeps(s, renameOk);
      BalancedTake(Contents(s), [], Contents(s));
    case GetOp(g) => GetInOrder(o, s, g);
  }

  ghost predicate AllAllowed(o: Options, s: State, ops: seq<Op>)
    requires Inv(s)
    decreases ops
  {
    ops != [] ==>
      Allowed(o, s, ops[0]) &&
      (StepInOrder(o, s, ops[0]); AllAllowed(o, Step(o, s, ops[0]), ops[1..]))
  }

  ghost function Run(o: Options, s: State, ops: seq<Op>): (r: State)
    requires Inv(s) && AllAllowed(o, s, ops)
    ensures Inv(r)
    decreases ops
  {
    if ops == [] then s
    else
      StepInOrder(o, s, ops[0]);
      Run(o, Step(o, s, ops[0]), ops[1..])
  }

  ghost function Accepted(o: Options, s: State, ops: seq<Op>): seq<Bytes>
    requires Inv(s) && AllAllowed(o, s, ops)
    decreases ops
  {
    if ops == [] then []
    else
      StepInOrder(o, s, ops[0]);
      Added(o, s, ops[0]) + Accepted(o, Step(o, s, ops[0]), ops[1..])
  }

  ghost function Delivered(o: Options, s: State, ops: seq<Op>): seq<Bytes>
    requires Inv(s) && AllAllowed(o, s, ops)
    decreases ops
  {
    if ops == [] then []
    else
      StepInOrder(o, s, ops[0]);
      Handed(o, s, ops[0]) + Delivered(o, Step(o, s, ops[0]), ops[1..])
  }

  /** Nothing is dropped to make room and every buffer is large enough. */
  ghost predicate Lossless(o: Options, s: State, ops: seq<Op>)
    requires Inv(s) && AllAllowed(o, s, ops)
    decreases ops
  {
    ops != [] ==>
      Lost(o, s, ops[0]) == [] &&
      (StepInOrder(o, s, ops[0]); Lossless(o, Step(o, s, ops[0]), ops[1..]))
  }

  /** Everything that left the queue, in order: handed over, or lost. */
  ghost function Gone(o: Options, s: State, ops: seq<Op>): seq<Bytes>
    requires Inv(s) && AllAllowed(o, s, ops)
    decreases ops
  {
    if ops == [] then []
    else
      StepInOrder(o, s, ops[0]);
      (Handed(o, s, ops[0]) + Lost(o, s, ops[0])) + Gone(o, Step(o, s, ops[0]), ops[1..])
  }

  /**
   Order over every allowed run, drops and small buffers included: what left the queue,
   followed by the queue, is the first queue followed by the accepted records.
   */
  lemma {:induction false} RunInOrder(o: Options, s: State, ops: seq<Op>)
    requires Inv(s) && AllAllowed(o, s, ops)
    ensures Contents(s) + Accepted(o, s, ops) == Gone(o, s, ops) + Contents(Run(o, s, ops))
    decreases ops
  {
    if ops != [] {
      var (op, t) := (ops[0], Step(o, s, ops[0]));
      StepInOrder(o, s, op);
      RunInOrder(o, t, ops[1..]);
      FifoStep(Contents(s), Added(o, s, op), Handed(o, s, op) + Lost(o, s, op), Contents(t),
               Accepted(o, t, ops[1..]), Gone(o, t, ops[1..]), Contents(Run(o, t, ops[1..])));
    }
  }

  lemma {:induction false} LosslessGone(o: Options, s: State, ops: seq<Op>)
    requires Inv(s) && AllAllowed(o, s, ops) && Lossless(o, s, ops)
    ensures Gone(o, s, ops) == Delivered(o, s, ops)
    decreases ops
  {
    if ops != [] {
      StepInOrder(o, s, ops[0]);
      LosslessGone(o, Step(o, s, ops[0]), ops[1..]);
      assert Handed(o, s, ops[0]) + [] == Handed(o, s, ops[0]);
    }
  }

  /**
   First in, first out: over every run without losses the delivered records, followed by
   the queue, are the initial queue followed by the accepted records, so they come in
   put order with no gap and no duplicate.
   */
  lemma RunIsFifo(o: Options, s: State, ops: seq<Op>)
    requires Inv(s) && AllAllowed(o, s, ops) && Lossless(o, s, ops)
    ensures Contents(s) + Accepted(o, s, ops) == Delivered(o, s, ops) + Contents(Run(o, s, ops))
  {
    RunInOrder(o, s, ops);
    LosslessGone(o, s, ops);
  }

  lemma FifoStep(c: seq<Bytes>, a: seq<Bytes>, h: seq<Bytes>, n: seq<Bytes>, a': seq<Bytes>, d': seq<Bytes>, n': seq<Bytes>)
    requires c + a == h + n && n + a' == d' + n'
    ensures c + (a + a') == (h + d') + n'
  {
    assert c + (a + a') == (c + a) + a';
    assert (h + n) + a' == h + (n + a');
    assert h + (d' + n') == (h + d') + n';
  }

  // ----- runs known by their inputs -----

  predicate Within(rs: seq<Bytes>, lo: nat, hi: nat) {
    forall r <- rs :: lo <= |r| <= hi
  }

  /** A record to put has lo to hi bytes, and a buffer to read into has hi or is allocated. */
  predicate Fits(op: Op, lo: nat, hi: nat) {
    match op
    case PutOp(d, _) => lo <= |d| <= hi
    case RotateOp(_) => true
    case GetOp(g) => g.buf.None? || g.buf.value >= hi
  }

  /** A full cache refuses data instead of dropping. */
  predicate Refuses(o: Options) {
    o.capacity <= 0 || o.noDrop || o.filoDrop
  }

  lemma BalancedWithin(before: seq<Bytes>, added: seq<Bytes>, handed: seq<Bytes>, lost: seq<Bytes>, after: seq<Bytes>, lo: nat, hi: nat)
    requires Balanced(before, added, handed, lost, after) && Within(before, lo, hi) && Within(added, lo, hi)
    ensures Within(handed, lo, hi) && Within(after, lo, hi)
  {
    forall r | r in handed || r in after
      ensures r in before || r in added
    {
      assert r in handed + lost + after;
      assert r in before + added;
    }
  }

  /** Records and buffers of the right sizes: nothing is given up for its length, and the queue keeps its sizes. */
  lemma StepWithin(o: Options, s: State, op: Op, lo: nat, hi: nat)
    requires Inv(s) && Allowed(o, s, op) && Within(Contents(s), lo, hi) && Fits(op, lo, hi)
    ensures Inv(Step(o, s, op)) && Within(Contents(Step(o, s, op)), lo, hi) && Within(Handed(o, s, op), lo, hi)
    ensures op.GetOp? || Refuses(o) ==> Lost(o, s, op) == []
  {
    StepInOrder(o, s, op);
    BalancedWithin(Contents(s), Added(o, s, op), Handed(o, s, op), Lost(o, s, op), Contents(Step(o, s, op)), lo, hi);
    if op.GetOp? {
      GetKeeps(o, s, op.args);
      assert Contents(s) != [] ==> Contents(s)[0] in Contents(s);
    }
  }

  /** A cache that refuses data when full allows every run of records that the format can hold. */
  lemma {:induction false} RefusesAllows(o: Options, s: State, ops: seq<Op>)
    requires Inv(s) && Refuses(o) && forall i :: 0 <= i < |ops| ==> Holds(ops[i])
    ensures AllAllowed(o, s, ops)
    decreases ops
  {
    if ops != [] {
      assert Holds(ops[0]);
      StepInOrder(o, s, ops[0]);
      RefusesAllows(o, Step(o, s, ops[0]), ops[1..]);
    }
  }

  /** The format can hold what is put. */
  predicate Holds(op: Op) {
    op.PutOp? ==> Good(op.data)
  }

  /** First in, first out, for callers: a cache that refuses data when full and buffers as long as the longest record lose nothing. */
  lemma {:induction false} InputsLossless(o: Options, s: State, ops: seq<Op>, hi: nat)
    requires Inv(s) && Refuses(o) && Within(Contents(s), 0, hi)
    requires forall i :: 0 <= i < |ops| ==> Holds(ops[i]) && Fits(ops[i], 0, hi)
    ensures AllAllowed(o, s, ops) && Lossless(o, s, ops)
    ensures Contents(s) + Accepted(o, s, ops) == Delivered(o, s, ops) + Contents(Run(o, s, ops))
    decreases ops
  {
    RefusesAllows(o, s, ops);
    if ops != [] {
      StepWithin(o, s, ops[0], 0, hi);
      InputsLossless(o, Step(o, s, ops[0]), ops[1..], hi);
    }
    RunIsFifo(o, s, ops);
  }

  // ----- redelivery -----

  /** The reader stands before the whole record r. */
  predicate HeadIs(s: State, r: Bytes) {
    RecordAhead(s, |r|) && Ahead(s)[HEADER..HEADER + |r|] == r
  }

  lemma {:induction false} FailedStays(o: Options, s: State, g: GetArgs)
    requires Inv(s) && (s.rfd.None? ==> s.ds == []) && !o.noFallback
    ensures var (t, res) := ReadLoop(o, s, g); res.CallbackFailed? ==> HeadIs(t, res.record)
    decreases |s.ds|
  {
    if s.rfd.Some? && (|Ahead(s)| < HEADER || Read32(Ahead(s)) == EOF_HINT) {
      LoopGoesOn(o, s, g);
      FailedStays(o, SwitchNext(s).0, g);
    }
  }

  /** A failed callback leaves the reader before the record it was given. */
  lemma FailedGetStays(o: Options, s: State, g: GetArgs)
    requires Inv(s) && !o.noFallback && Get(o, s, g).1.CallbackFailed?
    ensures Inv(Get(o, s, g).0) && HeadIs(Get(o, s, g).0, Get(o, s, g).1.record)
  {
    GetKeeps(o, s, g);
    var t := if WakesUp(s, g) then Rotate(s, g.renameOk) else s;
    RotateKeeps(s, g.renameOk);
    if t.rfd.None? {
      SwitchKeeps(t);
      FailedStays(o, SwitchNext(t).0, g);
    } else {
      FailedStays(o, t, g);
    }
  }

  lemma RotateHead(s: State, renameOk: bool, r: Bytes)
    requires Inv(s) && HeadIs(s, r)
    ensures HeadIs(Rotate(s, renameOk), r)
  {
    RotateReading(s);
  }

  lemma PutHead(o: Options, s: State, d: Bytes, renameOk: bool, r: Bytes)
    requires Inv(s) && HeadIs(s, r) && Allowed(o, s, PutOp(d, renameOk))
    ensures HeadIs(Put(o, s, d, renameOk).0, r)
  {
    var s' := s.(disk := s.disk.(writeFile := s.disk.writeFile + Frame(d)), batch := s.batch + HEADER + |d|);
    FramedAppend(s.disk.writeFile, d);
    assert HeadIs(s', r);
    RotateHead(s', renameOk, r);
  }

  /** Putting and rotating leave the reader before its record. */
  lemma {:induction false} HeadStays(o: Options, s: State, ops: seq<Op>, r: Bytes)
    requires Inv(s) && HeadIs(s, r) && AllAllowed(o, s, ops) && forall op <- ops :: !op.GetOp?
    ensures HeadIs(Run(o, s, ops), r)
    decreases ops
  {
    if ops != [] {
      StepInOrder(o, s, ops[0]);
      match ops[0] {
        case PutOp(d, renameOk) => PutHead(o, s, d, renameOk, r);
        case RotateOp(renameOk) => RotateHead(s, renameOk, r);
      }
      HeadStays(o, Step(o, s, ops[0]), ops[1..], r);
    }
  }

  /** A Get that wakes nothing up in vain, with room for the record, is given it. */
  lemma HeadIsGot(o: Options, s: State, g: GetArgs, r: Bytes)
    requires Inv(s) && HeadIs(s, r) && (g.buf.None? || g.buf.value >= |r|) && (WakesUp(s, g) ==> g.renameOk)
    ensures Get(o, s, g).1 == if g.fn(r) then Got(r) else CallbackFailed(r)
  {
    var t := if WakesUp(s, g) then Rotate(s, true) else s;
    RotateHead(s, true, r);
    assert ReadLoop(o, t, g) == Handle(o, t, g, r);
  }

  /**
   Redelivery: a record whose callback failed is handed over by the next Get that has room
   for it and whose callback accepts it, whatever is put or rotated in between.
   */
  lemma Redelivered(o: Options, s: State, g: GetArgs, ops: seq<Op>, g': GetArgs)
    requires Inv(s) && !o.noFallback && Get(o, s, g).1.CallbackFailed?
    requires Inv(Get(o, s, g).0) && AllAllowed(o, Get(o, s, g).0, ops) && forall op <- ops :: !op.GetOp?
    requires var (r, t) := (Get(o, s, g).1.record, Run(o, Get(o, s, g).0, ops));
             (g'.buf.None? || g'.buf.value >= |r|) && g'.fn(r) && (WakesUp(t, g') ==> g'.renameOk)
    ensures Get(o, Run(o, Get(o, s, g).0, ops), g').1 == Got(Get(o, s, g).1.record)
  {
    var (t, r) := (Get(o, s, g).0, Get(o, s, g).1.record);
    FailedGetStays(o, s, g);
    HeadStays(o, t, ops, r);
    HeadIsGot(o, Run(o, t, ops), g', r);
  }

  // ----- dropping the file being read -----

  /** Without file c the records of a list are the same exactly when c is not listed or holds none. */
  lemma {:induction false} WithoutFile(files: Files, ds: seq<nat>, c: nat)
    ensures |AllRecords(files - {c}, ds)| <= |AllRecords(files, ds)|
    ensures AllRecords(files - {c}, ds) == AllRecords(files, ds) <==> c !in ds || FileRecords(files, c) == []
    ensures |AllRecords(files - {c}, ds)| == |AllRecords(files, ds)| ==> c !in ds || FileRecords(files, c) == []
  {
    if ds != [] {
      WithoutFile(files, ds[1..], c);
      assert c in ds <==> c == ds[0] || c in ds[1..];
    }
  }

  /** No file is open, but one is still noted as current: a drop has left it so. */
  predicate Stale(s: State) {
    s.rfd.None? && s.cur.Some?
  }

  lemma StaleSealed(s: State)
    requires Stale(s) && s.ds != []
    ensures Sealed(SwitchNext(s).0) == AllRecords(s.disk.files - {s.cur.value}, s.ds[1..])
  {
    var (files, ds) := (s.disk.files - {s.cur.value}, s.ds[1..]);
    if ds != [] && ds[0] in files {
      assert Rest(files[ds[0]], 0) == files[ds[0]];
    }
  }

  /**
   The next switch of a stale cache finds all the sealed records, if and only if the file
   it takes off the list holds none, and the file it removes is not a listed one with records.
   */
  lemma StaleSwitchExactly(s: State)
    requires Stale(s) && Increasing(s.ds)
    ensures Sealed(SwitchNext(s).0) == AllRecords(s.disk.files, s.ds) <==>
            || s.ds == []
            || (FileRecords(s.disk.files, s.ds[0]) == [] && (s.cur.value in s.ds[1..] ==> FileRecords(s.disk.files, s.cur.value) == []))
  {
    if s.ds != [] {
      StaleSealed(s);
      WithoutFile(s.disk.files, s.ds[1..], s.cur.value);
      assert |AllRecords(s.disk.files, s.ds)| == |FileRecords(s.disk.files, s.ds[0])| + |AllRecords(s.disk.files, s.ds[1..])|;
    }
  }

  lemma DroppedFiles(s: State)
    requires Inv(s) && Reading(s)
    ensures s.ds[0] in s.disk.files && Stale(DropBatch(s)) && DropBatch(s).ds == s.ds[1..] && Increasing(s.ds[1..])
    ensures forall f <- s.ds[1..] :: f > s.ds[0] && FileRecords(DropBatch(s).disk.files, f) == FileRecords(s.disk.files, f)
  {
  }

  lemma DropWhileReadingExactly(s: State)
    requires Inv(s) && Reading(s)
    ensures s.ds[0] in s.disk.files
    ensures Sealed(SwitchNext(DropBatch(s)).0) == AllRecords(s.disk.files, s.ds[1..]) <==> |s.ds| == 1 || FileRecords(s.disk.files, s.ds[1]) == []
  {
    var d := DropBatch(s);
    DropFirst(s.disk.files, s.ds);
    DroppedFiles(s);
    StaleSwitchExactly(d);
    assert d.ds != [] ==> d.cur.value !in d.ds[1..] && d.ds[0] == s.ds[1];
  }

  /** After dropping the lowest file the next switch finds all the other sealed records, if and only if it was not being read, or no other file follows, or the following one holds none. */
  lemma DropKeepsOrderExactly(s: State)
    requires Inv(s) && s.ds != []
    ensures s.ds[0] in s.disk.files
    ensures Sealed(SwitchNext(DropBatch(s)).0) == AllRecords(s.disk.files, s.ds[1..]) <==>
            s.rfd.None? || |s.ds| == 1 || FileRecords(s.disk.files, s.ds[1]) == []
  {
    if s.rfd.None? {
      DropFirst(s.disk.files, s.ds);
      DropKeeps(s);
      SwitchKeeps(DropBatch(s));
    } else {
      DropWhileReadingExactly(s);
    }
  }

  /** The file passed over leaves the list, unread and still on disk. */
  lemma DropWhileReadingSkipsAFile(s: State)
    requires Inv(s) && Reading(s) && |s.ds| >= 2
    ensures s.ds[0] in s.disk.files
    ensures var r := SwitchNext(DropBatch(s)).0; r.ds == s.ds[2..] && s.ds[1] in r.disk.files && s.ds[1] !in r.ds
  {
  }

  /** The Put stores its record, and that fills the batch, which is sealed. */
  predicate Seals(o: Options, s: State, d: Bytes, renameOk: bool) {
    renameOk && s.batch + HEADER + |d| >= o.batchSize && !(o.maxDataSize > 0 && ToInt32(|d|) > o.maxDataSize)
  }

  /**
   When the file dropped while it was read was the only one, the batch sealed next is lost
   to the next switch: removed unread if it took over the number of the dropped file, and
   otherwise left on disk in no list.
   */
  lemma SealedAfterDropIsLost(s: State)
    requires Inv(s) && Reading(s) && |s.ds| == 1
    ensures s.ds[0] in s.disk.files
    ensures var t := Rotate(DropBatch(s), true);
            && Stale(t) && AllRecords(t.disk.files, t.ds) == Unsealed(s)
            && SwitchNext(t).0.ds == [] && Contents(SwitchNext(t).0) == []
            && SwitchNext(t).0.disk.files == (if s.ds[0] == 0 then map[] else map[0 := s.disk.writeFile + EOF_MARK])
  {
    var b := s.disk.writeFile + EOF_MARK;
    FramedRecords(s.disk.writeFile);
    assert DropBatch(s).disk.files == map[] && DropBatch(s).ds == [];
    var files := map[0 := b];
    assert AllRecords(files, [0]) == Records(b) + AllRecords(files, []);
  }

  /** One Put can do both: drop the only file while it is read, and seal the batch that is then lost. */
  lemma DroppingPutLoses(o: Options, s: State, d: Bytes)
    requires Inv(s) && Good(d) && DropsWhileReading(o, s, d) && |s.ds| == 1 && Seals(o, s, d, true)
    ensures var t := Put(o, s, d, true).0;
            AllRecords(t.disk.files, t.ds) == Unsealed(s) + [d] && Contents(SwitchNext(t).0) == []
  {
    var s' := s.(disk := s.disk.(writeFile := s.disk.writeFile + Frame(d)), batch := s.batch + HEADER + |d|);
    FramedAppend(s.disk.writeFile, d);
    SealedAfterDropIsLost(s');
    assert Put(o, s, d, true).0 == Rotate(DropBatch(s'), true);
  }

  lemma DroppingPutStale(o: Options, s: State, d: Bytes, renameOk: bool)
    requires Inv(s) && Good(d) && DropsWhileReading(o, s, d)
    ensures s.ds[0] in s.disk.files
    ensures var t := Put(o, s, d, renameOk).0;
            && Stale(t) && t.cur.value == s.ds[0]
            && if Seals(o, s, d, renameOk)
               then t.ds == s.ds[1..] + [NextNumber(s.ds[1..])] && t.disk.files == (s.disk.files - {s.ds[0]})[NextNumber(s.ds[1..]) := s.disk.writeFile + Frame(d) + EOF_MARK]
               else t.ds == s.ds[1..] && t.disk.files == s.disk.files - {s.ds[0]}
  {
  }

  /**
   A Put that drops the file being read: the next switch finds all the sealed records, if
   and only if a file without records follows, or none follows and the batch is not sealed.
   */
  lemma DroppingPutExactly(o: Options, s: State, d: Bytes, renameOk: bool)
    requires Inv(s) && Good(d) && DropsWhileReading(o, s, d)
    ensures var t := Put(o, s, d, renameOk).0;
            Sealed(SwitchNext(t).0) == AllRecords(t.disk.files, t.ds) <==>
            if |s.ds| == 1 then !Seals(o, s, d, renameOk) else FileRecords(s.disk.files, s.ds[1]) == []
  {
    var t := Put(o, s, d, renameOk).0;
    DroppedFiles(s);
    DroppingPutStale(o, s, d, renameOk);
    if Seals(o, s, d, renameOk) && |s.ds| == 1 {
      DroppingPutLoses(o, s, d);
      assert Sealed(SwitchNext(t).0) == [] by {
        assert Contents(SwitchNext(t).0) == [];
      }
      assert |Unsealed(s) + [d]| > 0;
    } else {
      FreshNumber(s.ds[1..]);
      StaleSwitchExactly(t);
    }
  }
}
