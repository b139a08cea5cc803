/** diskcache: what the size counter counts, and how much disk the cache can use. */
module DiskSize {
  import opened Framing
  import opened DiskQueue
  import opened DiskProofs
  import opened DiskRuns
  import DiskRestartRuns
  import opened Wrappers

  // ----- files with records and files without -----

  /** Bytes of one file, if it holds more than the end marker, or if it does not. */
  function BigSize(files: Files, f: nat): int {
    if f in files && |files[f]| > HEADER then |files[f]| else 0
  }

  function SmallSize(files: Files, f: nat): int {
    if f in files && |files[f]| <= HEADER then |files[f]| else 0
  }

  function Big(files: Files, ds: seq<nat>): int {
    if ds == [] then 0 else BigSize(files, ds[0]) + Big(files, ds[1..])
  }

  function Small(files: Files, ds: seq<nat>): int {
    if ds == [] then 0 else SmallSize(files, ds[0]) + Small(files, ds[1..])
  }

  lemma {:induction false} BigAndSmall(files: Files, ds: seq<nat>)
    ensures Total(files, ds) == Big(files, ds) + Small(files, ds) && Small(files, ds) >= 0
  {
    if ds != [] {
      BigAndSmall(files, ds[1..]);
    }
  }

  lemma {:induction false} SizesAgree(files: Files, files': Files, ds: seq<nat>)
    requires AgreeOn(files, files', ds)
    ensures Big(files, ds) == Big(files', ds) && Small(files, ds) == Small(files', ds)
  {
    if ds != [] {
      SizesAgree(files, files', ds[1..]);
    }
  }

  lemma {:induction false} SizesAppend(files: Files, ds: seq<nat>, f: nat)
    ensures Big(files, ds + [f]) == Big(files, ds) + BigSize(files, f)
    ensures Small(files, ds + [f]) == Small(files, ds) + SmallSize(files, f)
  {
    if ds == [] {
      assert [f][1..] == [];
    } else {
      assert (ds + [f])[1..] == ds[1..] + [f];
      SizesAppend(files, ds[1..], f);
    }
  }

  /** What the counter has beyond the files with records. */
  function Excess(s: State): int {
    s.size - Big(s.disk.files, s.ds)
  }

  function SmallQueued(s: State): int {
    Small(s.disk.files, s.ds)
  }

  /** The counter is the number of bytes in the queued files. */
  predicate SizeIsTotal(s: State) {
    s.size == Total(s.disk.files, s.ds)
  }

  /** So it is exactly when its excess is the files without records. */
  lemma TotalMeans(s: State)
    ensures SizeIsTotal(s) <==> Excess(s) == SmallQueued(s)
  {
    BigAndSmall(s.disk.files, s.ds);
  }

  // ----- what each function does to the counter -----

  /** Sealing never changes the excess: a file without records is neither counted nor big. */
  lemma RotateExcess(s: State)
    requires Inv(s)
    ensures Excess(Rotate(s, true)) == Excess(s)
    ensures SmallQueued(Rotate(s, true)) == SmallQueued(s) + if s.disk.writeFile == [] then HEADER else 0
  {
    var (f, b) := (NextNumber(s.ds), s.disk.writeFile + EOF_MARK);
    FreshNumber(s.ds);
    SizesAgree(s.disk.files, s.disk.files[f := b], s.ds);
    SizesAppend(s.disk.files[f := b], s.ds, f);
  }

  lemma WithoutFirst(s: State)
    requires Inv(s) && s.ds != []
    ensures var files := s.disk.files - {s.ds[0]};
            && s.ds[0] in s.disk.files
            && Big(files, s.ds[1..]) == Big(s.disk.files, s.ds) - BigSize(s.disk.files, s.ds[0])
            && Small(files, s.ds[1..]) == Small(s.disk.files, s.ds) - SmallSize(s.disk.files, s.ds[0])
  {
    assert s.ds[0] in s.ds && s.ds[0] !in s.ds[1..];
    SizesAgree(s.disk.files, s.disk.files - {s.ds[0]}, s.ds[1..]);
  }

  /** Dropping subtracts every file, so one without records was subtracted without having been added. */
  lemma DropExcess(s: State)
    requires Inv(s) && s.ds != []
    ensures s.ds[0] in s.disk.files
    ensures Excess(DropBatch(s)) == Excess(s) - SmallSize(s.disk.files, s.ds[0])
  {
    WithoutFirst(s);
  }

  /** Removing a finished file subtracts it only if it holds records. */
  lemma RemoveExcess(s: State)
    requires Inv(s) && Reading(s)
    ensures Excess(RemoveCurrent(s)) == Excess(s)
    ensures SmallQueued(RemoveCurrent(s)) == SmallQueued(s) - SmallSize(s.disk.files, s.ds[0])
  {
    WithoutFirst(s);
  }

  /** Opening counts every file, those without records too. */
  lemma OpenExcess(disk: Disk, listing: seq<nat>)
    ensures SizeIsTotal(Open(disk, listing)) && Excess(Open(disk, listing)) == Small(disk.files, listing)
  {
    BigAndSmall(disk.files, listing);
  }

  lemma SwitchExcess(s: State)
    requires Inv(s)
    ensures var r := SwitchNext(s).0;
            && Excess(r) == Excess(s) && r.size <= s.size && r.batch == s.batch && SmallQueued(r) <= SmallQueued(s)
  {
    if s.cur.Some? {
      RemoveExcess(s);
    }
  }

  lemma ReadHereSize(o: Options, s: State, g: GetArgs)
    requires Reading(s) && HEADER <= |Ahead(s)| && Read32(Ahead(s)) != EOF_HINT
    ensures var r := ReadLoop(o, s, g).0; r.disk.files == s.disk.files && r.ds == s.ds && r.size == s.size && r.batch == s.batch
  {
  }

  /** r has the excess of s, no larger counter and no more files without records. */
  predicate Shrinks(s: State, r: State) {
    Excess(r) == Excess(s) && r.size <= s.size && r.batch == s.batch && SmallQueued(r) <= SmallQueued(s)
  }

  lemma {:induction false} ReadLoopSize(o: Options, s: State, g: GetArgs)
    requires Inv(s) && (s.rfd.None? ==> s.ds == [])
    ensures Shrinks(s, ReadLoop(o, s, g).0)
    decreases |s.ds|
  {
    if s.rfd.Some? {
      if |Ahead(s)| < HEADER || Read32(Ahead(s)) == EOF_HINT {
        LoopGoesOn(o, s, g);
        SwitchExcess(s);
        ReadLoopSize(o, SwitchNext(s).0, g);
      } else {
        ReadHereSize(o, s, g);
      }
    }
  }

  lemma AwakeSize(o: Options, s: State, g: GetArgs)
    requires Inv(s)
    ensures var t := if s.rfd.None? then SwitchNext(s).0 else s; Shrinks(s, ReadLoop(o, t, g).0)
  {
    if s.rfd.None? {
      SwitchKeeps(s);
      SwitchExcess(s);
      ReadLoopSize(o, SwitchNext(s).0, g);
    } else {
      ReadLoopSize(o, s, g);
    }
  }

  lemma GetSize(o: Options, s: State, g: GetArgs)
    requires Inv(s)
    ensures var r := Get(o, s, g).0;
            && Excess(r) == Excess(s) && SmallQueued(r) <= SmallQueued(s)
            && (if WakesUp(s, g) && g.renameOk then r.size <= s.size + s.batch + HEADER && r.batch == 0 else r.size <= s.size && r.batch == s.batch)
  {
    RotateKeeps(s, g.renameOk);
    if WakesUp(s, g) && g.renameOk {
      RotateExcess(s);
      GetAwake(o, Rotate(s, true), g);
      AwakeSize(o, Rotate(s, true), g);
    } else if !WakesUp(s, g) {
      AwakeSize(o, s, g);
    }
  }

  lemma AppendExcess(o: Options, s: State, data: Bytes, renameOk: bool)
    requires Inv(s) && Good(data)
    ensures var r := Append(o, s, data, renameOk).0; Excess(r) == Excess(s) && SmallQueued(r) == SmallQueued(s)
  {
    var s' := s.(disk := s.disk.(writeFile := s.disk.writeFile + Frame(data)), batch := s.batch + HEADER + |data|);
    FramedAppend(s.disk.writeFile, data);
    if renameOk {
      RotateExcess(s');
    }
  }

  // ----- every operation -----

  /** The bytes of a file without records that a Put drops. */
  function SmallDropped(o: Options, s: State, op: Op): int {
    if op.PutOp? && IsFull(o, s, op.data) && !o.noDrop && !o.filoDrop && s.ds != [] then SmallSize(s.disk.files, s.ds[0]) else 0
  }

  lemma PutExcess(o: Options, s: State, d: Bytes, renameOk: bool)
    requires Inv(s) && Allowed(o, s, PutOp(d, renameOk))
    ensures var r := Put(o, s, d, renameOk).0;
            && Excess(r) == Excess(s) - SmallDropped(o, s, PutOp(d, renameOk))
            && SmallQueued(r) == SmallQueued(s) - SmallDropped(o, s, PutOp(d, renameOk))
  {
    PutIsAppend(o, s, d, renameOk);
    if !(IsFull(o, s, d) && (o.noDrop || o.filoDrop)) {
      RoomMade(o, s, d);
      if s.ds != [] {
        WithoutFirst(s);
      }
      AppendExcess(o, AfterDrop(o, s, d), d, renameOk);
    }
  }

  /** Every allowed operation keeps the excess of the counter, if and only if it does not drop a file without records. */
  lemma StepExcess(o: Options, s: State, op: Op)
    requires Inv(s) && Allowed(o, s, op)
    ensures Excess(Step(o, s, op)) == Excess(s) - SmallDropped(o, s, op)
  {
    match op
    case PutOp(d, renameOk) => PutExcess(o, s, d, renameOk);
    case RotateOp(renameOk) =>
      if renameOk {
        RotateExcess(s);
      }
    case GetOp(g) => GetSize(o, s, g);
  }

  /** An explicit rotation of an empty write file, which makes a file the counter ignores. */
  predicate RotatesEmpty(s: State, op: Op) {
    op.RotateOp? && op.renameOk && s.disk.writeFile == []
  }

  /** From a state without files that hold no record, the counter stays the bytes of the queued files, if and only if no empty write file is sealed. */
  lemma StepSize(o: Options, s: State, op: Op)
    requires Inv(s) && SizeIsTotal(s) && SmallQueued(s) == 0 && Allowed(o, s, op)
    ensures SizeIsTotal(Step(o, s, op)) <==> !RotatesEmpty(s, op)
    ensures !RotatesEmpty(s, op) ==> SmallQueued(Step(o, s, op)) == 0
  {
    var r := Step(o, s, op);
    TotalMeans(s);
    TotalMeans(r);
    BigAndSmall(r.disk.files, r.ds);
    StepExcess(o, s, op);
    match op
    case PutOp(d, renameOk) => PutExcess(o, s, d, renameOk);
    case RotateOp(renameOk) =>
      if renameOk {
        RotateExcess(s);
      }
    case GetOp(g) => GetSize(o, s, g);
  }

  // ----- the bound -----

  /** Bytes of data on disk, sealed and not. */
  function DiskUse(s: State): int {
    Total(s.disk.files, s.ds) + |s.disk.writeFile|
  }

  /** New data is refused when the cache is full, and a batch can be sealed at all. */
  predicate Limiting(o: Options) {
    o.capacity > 0 && o.batchSize > 0 && (o.noDrop || o.filoDrop)
  }

  /** The counter has no excess, and what it counts is within the bound together with the unsealed batch and the end marker it will get. */
  predicate Bounded(o: Options, s: State) {
    Excess(s) == 0 && s.size + s.batch <= o.capacity + o.batchSize + if s.batch > 0 then 3 else 7
  }

  /** The operation is a Put whose data is stored. */
  predicate Takes(o: Options, s: State, op: Op) {
    op.PutOp? && !IsFull(o, s, op.data) && !(o.maxDataSize > 0 && ToInt32(|op.data|) > o.maxDataSize)
  }

  /** Data that is stored fits between what is there and the bound. */
  predicate HasRoom(o: Options, s: State, op: Op) {
    Takes(o, s, op) ==> s.size + s.batch + |op.data| < o.capacity + o.batchSize
  }

  lemma TakenPut(o: Options, s: State, op: Op)
    requires Inv(s) && Limiting(o) && Takes(o, s, op) && Allowed(o, s, op)
    ensures var (r, batch) := (Step(o, s, op), s.batch + HEADER + |op.data|);
            if batch >= o.batchSize && op.renameOk then r.size == s.size + batch + HEADER && r.batch == 0
            else r.size == s.size && r.batch == batch
  {
    FramedAppend(s.disk.writeFile, op.data);
  }

  /** Every operation, whether its rename succeeds or fails, keeps the bound if and only if data it stores has room. */
  lemma StepBounded(o: Options, s: State, op: Op)
    requires Inv(s) && Limiting(o) && Bounded(o, s) && Allowed(o, s, op)
    ensures Bounded(o, Step(o, s, op)) <==> HasRoom(o, s, op)
  {
    StepExcess(o, s, op);
    if Takes(o, s, op) {
      TakenPut(o, s, op);
    } else if op.GetOp? {
      GetSize(o, s, op.args);
    }
  }

  /** Within the bound, the counted files and the write file take at most capacity plus one batch plus 7 bytes. */
  lemma BoundedMeans(o: Options, s: State)
    requires Inv(s) && Bounded(o, s)
    ensures s.size == Big(s.disk.files, s.ds) && DiskUse(s) - SmallQueued(s) <= o.capacity + o.batchSize + 7
  {
    BigAndSmall(s.disk.files, s.ds);
  }

  /** Every state of the run is within the bound. */
  ghost predicate AlwaysBounded(o: Options, s: State, ops: seq<Op>)
    requires Inv(s) && AllAllowed(o, s, ops)
    decreases ops
  {
    Bounded(o, s) &&
    (ops != [] ==> (StepInOrder(o, s, ops[0]); AlwaysBounded(o, Step(o, s, ops[0]), ops[1..])))
  }

  /** Every Put of the run that is stored has room. */
  ghost predicate AlwaysRoom(o: Options, s: State, ops: seq<Op>)
    requires Inv(s) && AllAllowed(o, s, ops)
    decreases ops
  {
    ops != [] ==>
      HasRoom(o, s, ops[0]) &&
      (StepInOrder(o, s, ops[0]); AlwaysRoom(o, Step(o, s, ops[0]), ops[1..]))
  }

  /**
   In every run of a cache that refuses data when full, whatever renames fail, the bound
   holds in every state if and only if every Put that is stored has room.
   */
  lemma {:induction false} RunBounded(o: Options, s: State, ops: seq<Op>)
    requires Inv(s) && Limiting(o) && Bounded(o, s) && AllAllowed(o, s, ops)
    ensures AlwaysBounded(o, s, ops) <==> AlwaysRoom(o, s, ops)
    ensures AlwaysRoom(o, s, ops) ==> Bounded(o, Run(o, s, ops)) && DiskUse(Run(o, s, ops)) - SmallQueued(Run(o, s, ops)) <= o.capacity + o.batchSize + 7
    decreases ops
  {
    if ops == [] {
      BoundedMeans(o, s);
    } else {
      StepInOrder(o, s, ops[0]);
      StepBounded(o, s, ops[0]);
      if HasRoom(o, s, ops[0]) {
        RunBounded(o, Step(o, s, ops[0]), ops[1..]);
      }
    }
  }

  // ----- renames that succeed -----

  /** A Put that fills its batch can rename it; other operations may fail to. */
  predicate PutRenames(op: Op) {
    op.PutOp? ==> op.renameOk
  }

  /** Below a full batch there is always room, and a Put that can rename leaves the batch there. */
  lemma BatchBelow(o: Options, s: State, op: Op)
    requires Inv(s) && Limiting(o) && s.batch < o.batchSize && Allowed(o, s, op)
    ensures HasRoom(o, s, op)
    ensures PutRenames(op) ==> Step(o, s, op).batch < o.batchSize
  {
    if Takes(o, s, op) {
      TakenPut(o, s, op);
    } else if op.GetOp? {
      GetSize(o, s, op.args);
    }
  }

  /** So a run whose Puts can rename always has room. */
  lemma {:induction false} RenamesGiveRoom(o: Options, s: State, ops: seq<Op>)
    requires Inv(s) && Limiting(o) && s.batch < o.batchSize && AllAllowed(o, s, ops)
    requires forall i :: 0 <= i < |ops| ==> PutRenames(ops[i])
    ensures AlwaysRoom(o, s, ops)
    decreases ops
  {
    if ops != [] {
      StepInOrder(o, s, ops[0]);
      BatchBelow(o, s, ops[0]);
      RenamesGiveRoom(o, Step(o, s, ops[0]), ops[1..]);
    }
  }

  /** No empty write file is sealed. */
  ghost predicate NeverEmpty(o: Options, s: State, ops: seq<Op>)
    requires Inv(s) && AllAllowed(o, s, ops)
    decreases ops
  {
    ops != [] ==>
      !RotatesEmpty(s, ops[0]) &&
      (StepInOrder(o, s, ops[0]); NeverEmpty(o, Step(o, s, ops[0]), ops[1..]))
  }

  /** Without empty batches the counter is the size of all queued files, whether renames succeed or not. */
  lemma {:induction false} RunSize(o: Options, s: State, ops: seq<Op>)
    requires Inv(s) && SizeIsTotal(s) && SmallQueued(s) == 0 && AllAllowed(o, s, ops) && NeverEmpty(o, s, ops)
    ensures SizeIsTotal(Run(o, s, ops)) && SmallQueued(Run(o, s, ops)) == 0
    decreases ops
  {
    if ops != [] {
      StepInOrder(o, s, ops[0]);
      StepSize(o, s, ops[0]);
      RunSize(o, Step(o, s, ops[0]), ops[1..]);
    }
  }

  /** Disk use, where also no empty batch is sealed: at most capacity plus one batch plus 7 bytes. */
  lemma RunUse(o: Options, s: State, ops: seq<Op>)
    requires Inv(s) && SizeIsTotal(s) && SmallQueued(s) == 0 && Limiting(o) && Bounded(o, s)
    requires AllAllowed(o, s, ops) && NeverEmpty(o, s, ops) && AlwaysRoom(o, s, ops)
    ensures DiskUse(Run(o, s, ops)) <= o.capacity + o.batchSize + 7
  {
    RunBounded(o, s, ops);
    RunSize(o, s, ops);
  }

  /** A new, empty directory satisfies the conditions of the run theorems. */
  lemma EmptyIsBounded(o: Options)
    requires Limiting(o)
    ensures var s := DiskRestartRuns.EMPTY; Inv(s) && SizeIsTotal(s) && SmallQueued(s) == 0 && Bounded(o, s) && s.batch < o.batchSize
  {
  }

  // ----- renames that fail -----

  /** A one-byte Put whose rename, if it comes to one, fails. */
  const STUCK := PutOp([0], false)

  lemma StuckGrows(o: Options, s: State)
    requires Inv(s) && Limiting(o) && s.size + 1 <= o.capacity
    ensures Allowed(o, s, STUCK) && Inv(Step(o, s, STUCK))
    ensures Step(o, s, STUCK).size == s.size && |Step(o, s, STUCK).disk.writeFile| == |s.disk.writeFile| + 5
  {
    StepInOrder(o, s, STUCK);
  }

  /** Puts without room exist: while renames fail, the write file grows by five bytes with every byte put, without bound. */
  lemma {:induction false} StuckIsUnbounded(o: Options, s: State, ops: seq<Op>)
    requires Inv(s) && Limiting(o) && s.size + 1 <= o.capacity
    requires forall i :: 0 <= i < |ops| ==> ops[i] == STUCK
    ensures AllAllowed(o, s, ops) && |Run(o, s, ops).disk.writeFile| == |s.disk.writeFile| + 5 * |ops|
    decreases ops
  {
    if ops != [] {
      assert ops[0] == STUCK;
      StuckGrows(o, s);
      StuckIsUnbounded(o, Step(o, s, ops[0]), ops[1..]);
    }
  }

  // ----- what a Put answers -----

  /** The bytes of the queued files and the data together are above the capacity. */
  predicate Over(o: Options, s: State, d: Bytes) {
    o.capacity > 0 && Total(s.disk.files, s.ds) + |d| > o.capacity
  }

  /** While the counter is the bytes of the queued files, they decide: above the capacity data is refused, or else the lowest file is dropped for it. */
  lemma PutAnswers(o: Options, s: State, d: Bytes, renameOk: bool)
    requires Inv(s) && SizeIsTotal(s)
    ensures var (r, res) := Put(o, s, d, renameOk);
            && (res == CacheFull <==> Over(o, s, d) && (o.noDrop || o.filoDrop))
            && (res == TooLarge <==> res != CacheFull && o.maxDataSize > 0 && ToInt32(|d|) > o.maxDataSize)
            && (res == StoredNotRotated <==> res != CacheFull && res != TooLarge && s.batch + HEADER + |d| >= o.batchSize && !renameOk)
            && res != DropFailed && (res == CacheFull ==> r == s)
            && (|s.ds| >= 2 ==> (s.ds[0] !in r.disk.files <==> Over(o, s, d) && !o.noDrop && !o.filoDrop))
  {
    if |s.ds| >= 2 {
      PutFirstFile(o, s, d, renameOk);
    }
  }

  lemma PutFirstFile(o: Options, s: State, d: Bytes, renameOk: bool)
    requires Inv(s) && |s.ds| >= 2
    ensures s.ds[0] !in Put(o, s, d, renameOk).0.disk.files <==> IsFull(o, s, d) && !o.noDrop && !o.filoDrop
  {
    assert s.ds[0] in s.disk.files && NextNumber(s.ds) > s.ds[0] && NextNumber(s.ds[1..]) > s.ds[0];
  }
}
