/** diskcache is a first-in first-out queue: what each operation does to the records, and every run. */
module DiskProofs {
  import opened Framing
  import opened DiskQueue
  import opened Wrappers

  // ----- the records of a state -----

  function FileRecords(files: Files, f: nat): seq<Bytes> {
    if f in files then Records(files[f]) else []
  }

  function AllRecords(files: Files, ds: seq<nat>): seq<Bytes> {
    if ds == [] then [] else FileRecords(files, ds[0]) + AllRecords(files, ds[1..])
  }

  /** The sealed records not yet read: the rest of the open file, then the other files. */
  function Sealed(s: State): seq<Bytes> {
    if Reading(s) then Records(Ahead(s)) + AllRecords(s.disk.files, s.ds[1..])
    else AllRecords(s.disk.files, s.ds)
  }

  function Unsealed(s: State): seq<Bytes> {
    Records(s.disk.writeFile)
  }

  /** The queue the cache stands for, oldest record first. */
  function Contents(s: State): seq<Bytes> {
    Sealed(s) + Unsealed(s)
  }

  /** The write file is a sequence of whole records. */
  predicate Framed(b: Bytes) {
    AllGood(Records(b)) && Frames(Records(b)) == b
  }

  predicate Increasing(ds: seq<nat>) {
    forall i, j :: 0 <= i < j < |ds| ==> ds[i] < ds[j]
  }

  predicate SameNames(files: Files, ds: seq<nat>) {
    (forall f :: f in files ==> f in ds) && (forall f :: f in ds ==> f in files)
  }

  /** The directory holds exactly the queued files. */
  predicate NamesOk(s: State) {
    Increasing(s.ds) && SameNames(s.disk.files, s.ds)
  }

  predicate WriteOk(s: State) {
    Framed(s.disk.writeFile) && s.batch == |s.disk.writeFile|
  }

  /** A current read file is the lowest one and open. */
  predicate LinkOk(s: State) {
    s.cur.Some? || s.rfd.Some? ==> Reading(s) && s.posName == s.cur
  }

  predicate Inv(s: State) {
    NamesOk(s) && WriteOk(s) && LinkOk(s)
  }

  // ----- lists of files -----

  predicate AgreeOn(files: Files, files': Files, ds: seq<nat>) {
    forall f :: f in ds ==> (f in files <==> f in files') && (f in files ==> files[f] == files'[f])
  }

  lemma {:induction false} AgreeSame(files: Files, files': Files, ds: seq<nat>)
    requires AgreeOn(files, files', ds)
    ensures AllRecords(files, ds) == AllRecords(files', ds) && Total(files, ds) == Total(files', ds)
  {
    if ds != [] {
      AgreeSame(files, files', ds[1..]);
    }
  }

  lemma {:induction false} AppendFile(files: Files, ds: seq<nat>, f: nat)
    ensures AllRecords(files, ds + [f]) == AllRecords(files, ds) + FileRecords(files, f)
    ensures Total(files, ds + [f]) == Total(files, ds) + if f in files then |files[f]| else 0
  {
    if ds == [] {
      assert [f][1..] == [];
    } else {
      assert (ds + [f])[1..] == ds[1..] + [f];
      AppendFile(files, ds[1..], f);
    }
  }

  lemma {:induction false} AddFile(files: Files, ds: seq<nat>, f: nat, b: Bytes)
    requires f !in ds
    ensures AllRecords(files[f := b], ds + [f]) == AllRecords(files, ds) + Records(b)
    ensures Total(files[f := b], ds + [f]) == Total(files, ds) + |b|
  {
    AppendFile(files[f := b], ds, f);
    AgreeSame(files, files[f := b], ds);
  }

  lemma FreshNumber(ds: seq<nat>)
    requires Increasing(ds)
    ensures NextNumber(ds) !in ds && Increasing(ds + [NextNumber(ds)])
  {
  }

  /** Removing the lowest file leaves the records of the others. */
  lemma DropFirst(files: Files, ds: seq<nat>)
    requires Increasing(ds) && ds != []
    ensures AllRecords(files - {ds[0]}, ds[1..]) == AllRecords(files, ds[1..])
    ensures Total(files - {ds[0]}, ds[1..]) == Total(files, ds[1..])
    ensures SameNames(files, ds) ==> SameNames(files - {ds[0]}, ds[1..])
    ensures Increasing(ds[1..])
  {
    assert ds[0] !in ds[1..];
    assert forall f :: f in ds <==> f == ds[0] || f in ds[1..];
    AgreeSame(files, files - {ds[0]}, ds[1..]);
  }

  // ----- the write file -----

  lemma FramedRecords(b: Bytes)
    requires Framed(b)
    ensures Records(b + EOF_MARK) == Records(b)
  {
    SealedRoundTrip(Records(b));
  }

  lemma {:induction false} FramedAppend(b: Bytes, d: Bytes)
    requires Framed(b) && Good(d)
    ensures Framed(b + Frame(d)) && Records(b + Frame(d)) == Records(b) + [d]
  {
    var rs := Records(b);
    var c := b + Frame(d);
    FramesAppend(rs, d);
    assert Frames(rs + [d]) == c;
    RecordsOfFrames(rs + [d], []);
    assert c + [] == c && Records([]) == [] && rs + [d] + [] == rs + [d];
    assert AllGood(rs + [d]);
  }

  // ----- rotate -----

  lemma RotateReading(s: State)
    requires Increasing(s.ds) && LinkOk(s)
    ensures Reading(s) <==> Reading(Rotate(s, true))
    ensures Reading(s) ==> Ahead(Rotate(s, true)) == Ahead(s) && Rotate(s, true).ds[1..] == s.ds[1..] + [NextNumber(s.ds)]
  {
  }

  lemma RotateSealed(s: State)
    requires Inv(s)
    ensures Sealed(Rotate(s, true)) == Sealed(s) + Unsealed(s)
    ensures Reading(s) <==> Reading(Rotate(s, true))
    ensures Reading(s) ==> Ahead(Rotate(s, true)) == Ahead(s)
  {
    var (f, b) := (NextNumber(s.ds), s.disk.writeFile + EOF_MARK);
    RotateReading(s);
    FreshNumber(s.ds);
    FramedRecords(s.disk.writeFile);
    if Reading(s) {
      AddFile(s.disk.files, s.ds[1..], f, b);
      Reassociate(Records(Ahead(s)), AllRecords(s.disk.files, s.ds[1..]), Unsealed(s));
    } else {
      AddFile(s.disk.files, s.ds, f, b);
    }
  }

  lemma RotateInv(s: State)
    requires Inv(s)
    ensures Inv(Rotate(s, true)) && Unsealed(Rotate(s, true)) == []
  {
  }

  /** Rotation moves the whole write file to the end of the sealed records; a failed one changes nothing. */
  lemma RotateKeeps(s: State, renameOk: bool)
    requires Inv(s)
    ensures var r := Rotate(s, renameOk);
            && Inv(r)
            && Contents(r) == Contents(s)
            && (if renameOk then Sealed(r) == Contents(s) else r == s)
  {
    if renameOk {
      RotateInv(s);
      RotateSealed(s);
    }
  }

  // ----- put -----

  /** A full cache under the default policy drops the file it is reading from. */
  predicate DropsWhileReading(o: Options, s: State, data: Bytes) {
    IsFull(o, s, data) && !o.noDrop && !o.filoDrop && s.ds != [] && s.rfd.Some?
  }

  /** The records Put drops to make room: those of the lowest file. */
  function DroppedByPut(o: Options, s: State, data: Bytes): seq<Bytes> {
    if IsFull(o, s, data) && !o.noDrop && !o.filoDrop && s.ds != [] then FileRecords(s.disk.files, s.ds[0]) else []
  }

  predicate Stored(r: PutResult) {
    r.PutOk? || r.StoredNotRotated?
  }

  lemma AppendKeeps(o: Options, s: State, data: Bytes, renameOk: bool)
    requires Inv(s) && Good(data)
    ensures var (r, res) := Append(o, s, data, renameOk);
            Inv(r) && Contents(r) == Contents(s) + [data] && Stored(res)
  {
    var s' := s.(disk := s.disk.(writeFile := s.disk.writeFile + Frame(data)), batch := s.batch + HEADER + |data|);
    FramedAppend(s.disk.writeFile, data);
    assert Sealed(s') == Sealed(s);
    assert Contents(s') == Contents(s) + [data];
    RotateKeeps(s', renameOk);
  }

  lemma DropKeeps(s: State)
    requires Inv(s) && s.ds != [] && s.rfd.None?
    ensures Inv(DropBatch(s)) && Contents(s) == FileRecords(s.disk.files, s.ds[0]) + Contents(DropBatch(s))
  {
    DropFirst(s.disk.files, s.ds);
  }

  lemma PutAfterDropKeeps(o: Options, s: State, data: Bytes, renameOk: bool)
    requires Inv(s) && Good(data)
    ensures var (r, res) := PutAfterDrop(o, s, data, renameOk);
            Inv(r) && Contents(r) == Contents(s) + (if Stored(res) then [data] else [])
  {
    AppendKeeps(o, s, data, renameOk);
  }

  /** The state once room has been made. */
  function AfterDrop(o: Options, s: State, data: Bytes): State {
    if IsFull(o, s, data) && !o.noDrop && !o.filoDrop && s.ds != [] && s.ds[0] in s.disk.files then DropBatch(s) else s
  }

  lemma RoomMade(o: Options, s: State, data: Bytes)
    requires Inv(s) && !DropsWhileReading(o, s, data)
    ensures Inv(AfterDrop(o, s, data)) && Contents(s) == DroppedByPut(o, s, data) + Contents(AfterDrop(o, s, data))
  {
    if IsFull(o, s, data) && !o.noDrop && !o.filoDrop && s.ds != [] {
      assert s.ds[0] in s.ds;
      DropKeeps(s);
    }
  }

  lemma PutIsAppend(o: Options, s: State, data: Bytes, renameOk: bool)
    requires Inv(s)
    ensures Put(o, s, data, renameOk) ==
            if IsFull(o, s, data) && (o.noDrop || o.filoDrop) then (s, CacheFull)
            else PutAfterDrop(o, AfterDrop(o, s, data), data, renameOk)
  {
  }

  lemma Reassociate(d: seq<Bytes>, c: seq<Bytes>, x: seq<Bytes>)
    ensures (d + c) + x == d + (c + x)
  {
  }

  /** Put appends its record at the end of the queue, or leaves the queue alone, after dropping whole records at its head. */
  lemma PutKeeps(o: Options, s: State, data: Bytes, renameOk: bool)
    requires Inv(s) && Good(data) && !DropsWhileReading(o, s, data)
    ensures var (r, res) := Put(o, s, data, renameOk);
            && Inv(r)
            && Contents(s) + (if Stored(res) then [data] else []) == DroppedByPut(o, s, data) + Contents(r)
  {
    PutIsAppend(o, s, data, renameOk);
    if !(IsFull(o, s, data) && (o.noDrop || o.filoDrop)) {
      var t := AfterDrop(o, s, data);
      RoomMade(o, s, data);
      PutAfterDropKeeps(o, t, data, renameOk);
      var res := Put(o, s, data, renameOk).1;
      Reassociate(DroppedByPut(o, s, data), Contents(t), if Stored(res) then [data] else []);
    }
  }

  // ----- switching files -----

  /** Nothing is left to read in the open file. */
  predicate AtEnd(s: State) {
    Reading(s) && Records(Ahead(s)) == []
  }

  /** Moving on from a finished file, or opening the first one, loses no record. */
  lemma SwitchKeeps(s: State)
    requires Inv(s) && (s.rfd.Some? ==> AtEnd(s))
    ensures var (r, ok) := SwitchNext(s);
            && ok && Inv(r) && Sealed(r) == Sealed(s) && r.disk.writeFile == s.disk.writeFile
            && (r.rfd.None? ==> r.ds == [])
            && (r.rfd.Some? ==> r.rfd == Some(0))
  {
    if s.rfd.Some? {
      DropFirst(s.disk.files, s.ds);
      OpenKeeps(RemoveCurrent(s));
    } else {
      OpenKeeps(s);
    }
  }

  lemma OpenKeeps(s: State)
    requires Inv(s) && s.cur.None? && s.rfd.None?
    ensures var (r, ok) := OpenNext(s);
            && ok && Inv(r) && Sealed(r) == AllRecords(s.disk.files, s.ds) && r.disk.writeFile == s.disk.writeFile
            && (r.rfd.None? ==> r.ds == [])
            && (r.rfd.Some? ==> r.rfd == Some(0))
  {
  }

  // ----- get -----

  /** The records a Get removes from the head of the queue. */
  function TakenByGet(o: Options, s: State, res: GetResult): seq<Bytes> {
    match res
    case Got(r) => [r]
    case CallbackFailed(r) => if o.noFallback then [r] else []
    case _ => []
  }

  /** A whole record lies ahead. */
  predicate RecordAhead(s: State, n: nat) {
    Reading(s) && HEADER <= |Ahead(s)| && Read32(Ahead(s)) == n && n != EOF_HINT && HEADER + n <= |Ahead(s)|
  }

  lemma MoveReader(s: State, r: State, n: nat)
    requires RecordAhead(s, n)
    requires r.disk.files == s.disk.files && r.ds == s.ds && r.cur == s.cur && r.rfd == Some(s.rfd.value + HEADER + n)
    ensures Reading(r) && Sealed(s) == [Ahead(s)[HEADER..HEADER + n]] + Sealed(r)
  {
  }

  /** Reading one whole record moves the reader to the next one. */
  lemma PassKeeps(o: Options, s: State, n: nat, dumpDue: bool)
    requires Inv(s) && RecordAhead(s, n)
    ensures var r := PassRecord(o, s, n, dumpDue);
            Inv(r) && Sealed(s) == [Ahead(s)[HEADER..HEADER + n]] + Sealed(r) && r.disk.writeFile == s.disk.writeFile
  {
    MoveReader(s, PassRecord(o, s, n, dumpDue), n);
  }

  /** The first record is gone, and it did not fit the buffer. */
  predicate GaveUpFirst(g: GetArgs, before: seq<Bytes>, after: seq<Bytes>) {
    before != [] && after == before[1..] && g.buf.Some? && g.buf.value < |before[0]|
  }

  /** A buffer that is too small gives up the record it was meant for; nothing else is skipped. */
  predicate SkipsAtMostOne(s: State, g: GetArgs, r: State, res: GetResult) {
    res.TooSmallBuffer? ==> Sealed(r) == Sealed(s) || GaveUpFirst(g, Sealed(s), Sealed(r))
  }

  lemma TooSmallKeeps(s: State, g: GetArgs, n: nat)
    requires Inv(s) && Reading(s) && HEADER <= |Ahead(s)| && Read32(Ahead(s)) == n && n != EOF_HINT
    requires g.buf.Some? && g.buf.value < n
    ensures var r := s.(rfd := Some(s.rfd.value + HEADER + n));
            Inv(r) && SkipsAtMostOne(s, g, r, TooSmallBuffer)
  {
    var r := s.(rfd := Some(s.rfd.value + HEADER + n));
    if HEADER + n <= |Ahead(s)| {
      MoveReader(s, r, n);
      assert Sealed(s)[1..] == Sealed(r);
    } else {
      assert Records(Ahead(r)) == [] && Records(Ahead(s)) == [];
    }
  }

  /** What reading from state s to r with this result does to the sealed records. */
  predicate Reads(o: Options, s: State, g: GetArgs, r: State, res: GetResult) {
    && r.disk.writeFile == s.disk.writeFile
    && !res.OpenFailed? && !res.WakeupFailed?
    && (!res.TooSmallBuffer? ==> Sealed(s) == TakenByGet(o, s, res) + Sealed(r))
    && SkipsAtMostOne(s, g, r, res)
    && (res.NoData? ==> Sealed(s) == [])
    && (res.Got? || res.CallbackFailed? ==> Sealed(s) != [] && res.record == Sealed(s)[0] && (res.Got? <==> g.fn(res.record)))
  }

  lemma HandleKeeps(o: Options, s: State, g: GetArgs, n: nat)
    requires Inv(s) && RecordAhead(s, n)
    ensures var (r, res) := Handle(o, s, g, Ahead(s)[HEADER..HEADER + n]); Inv(r) && Reads(o, s, g, r, res)
  {
    PassKeeps(o, s, n, g.dumpDue);
  }

  lemma ReadHere(o: Options, s: State, g: GetArgs)
    requires Inv(s) && Reading(s) && HEADER <= |Ahead(s)| && Read32(Ahead(s)) != EOF_HINT
    ensures var (r, res) := ReadLoop(o, s, g); Inv(r) && Reads(o, s, g, r, res)
  {
    var n := Read32(Ahead(s));
    if g.buf.Some? && g.buf.value < n {
      assert ReadLoop(o, s, g) == (s.(rfd := Some(s.rfd.value + HEADER + n)), TooSmallBuffer);
      TooSmallKeeps(s, g, n);
    } else if HEADER + n <= |Ahead(s)| {
      assert ReadLoop(o, s, g) == Handle(o, s, g, Ahead(s)[HEADER..HEADER + n]);
      HandleKeeps(o, s, g, n);
    } else {
      assert ReadLoop(o, s, g) == (s.(rfd := Some(|s.disk.files[s.ds[0]]|)), ReadFailed);
      ReadFailedKeeps(s);
    }
  }

  lemma ReadFailedKeeps(s: State)
    requires Inv(s) && Reading(s) && Records(Ahead(s)) == []
    ensures var r := s.(rfd := Some(|s.disk.files[s.ds[0]]|)); Inv(r) && Sealed(r) == Sealed(s)
  {
  }

  /** At the end of a file the loop goes on with the next one. */
  lemma LoopGoesOn(o: Options, s: State, g: GetArgs)
    requires Inv(s) && s.rfd.Some? && (|Ahead(s)| < HEADER || Read32(Ahead(s)) == EOF_HINT)
    ensures AtEnd(s) && Inv(SwitchNext(s).0)
    ensures var t := SwitchNext(s).0;
            && |t.ds| < |s.ds| && (t.rfd.None? ==> t.ds == [])
            && Sealed(t) == Sealed(s) && t.disk.writeFile == s.disk.writeFile
            && ReadLoop(o, s, g) == ReadLoop(o, t, g)
  {
    SwitchKeeps(s);
  }

  lemma {:induction false} ReadLoopKeeps(o: Options, s: State, g: GetArgs)
    requires Inv(s) && (s.rfd.None? ==> s.ds == [])
    ensures var (r, res) := ReadLoop(o, s, g); Inv(r) && Reads(o, s, g, r, res)
    decreases |s.ds|
  {
    if s.rfd.Some? {
      if |Ahead(s)| < HEADER || Read32(Ahead(s)) == EOF_HINT {
        LoopGoesOn(o, s, g);
        ReadLoopKeeps(o, SwitchNext(s).0, g);
      } else {
        ReadHere(o, s, g);
      }
    }
  }

  /** The sealed records a Get sees: the write file joins them when it is woken up. */
  function Visible(s: State, g: GetArgs): seq<Bytes> {
    if WakesUp(s, g) && g.renameOk then Contents(s) else Sealed(s)
  }

  /**
   One Get: it hands over the oldest record and removes it, unless the callback fails
   with fallback on, in which case the queue is unchanged; it reports no data only when
   no sealed record is left.
   */
  lemma GetKeeps(o: Options, s: State, g: GetArgs)
    requires Inv(s)
    ensures var (r, res) := Get(o, s, g); Inv(r) && Gets(o, s, g, r, res)
  {
    if !WakesUp(s, g) {
      GetAwake(o, s, g);
      ReadsIsGets(o, s, g, Get(o, s, g).0, Get(o, s, g).1);
    } else {
      RotateKeeps(s, g.renameOk);
      if g.renameOk {
        var t := Rotate(s, true);
        GetAwake(o, t, g);
        assert Reads(o, t, g, Get(o, s, g).0, Get(o, s, g).1);
        ReadsIsGets(o, t, g, Get(o, s, g).0, Get(o, s, g).1);
      }
    }
  }

  lemma ReadsIsGets(o: Options, s: State, g: GetArgs, r: State, res: GetResult)
    requires Reads(o, s, g, r, res)
    ensures !res.TooSmallBuffer? ==> Contents(s) == TakenByGet(o, s, res) + Contents(r)
    ensures res.TooSmallBuffer? ==> Contents(r) == Contents(s) || GaveUpFirst(g, Contents(s), Contents(r))
  {
  }

  /** What a Get from s to r with this result does to the queue. */
  predicate Gets(o: Options, s: State, g: GetArgs, r: State, res: GetResult) {
    && (!res.TooSmallBuffer? ==> Contents(s) == TakenByGet(o, s, res) + Contents(r))
    && (res.TooSmallBuffer? ==> Contents(r) == Contents(s) || GaveUpFirst(g, Contents(s), Contents(r)))
    && (res.NoData? ==> Visible(s, g) == [])
    && (res.Got? || res.CallbackFailed? ==> Visible(s, g) != [] && res.record == Visible(s, g)[0] && (res.Got? <==> g.fn(res.record)))
    && !res.OpenFailed?
  }

  /** Get once the wake-up is over. */
  lemma GetAwake(o: Options, s: State, g: GetArgs)
    requires Inv(s)
    ensures var t := if s.rfd.None? then SwitchNext(s).0 else s;
            var (r, res) := ReadLoop(o, t, g);
            && (s.rfd.None? ==> SwitchNext(s).1)
            && Inv(r) && Reads(o, s, g, r, res)
  {
    if s.rfd.None? {
      SwitchKeeps(s);
      ReadLoopKeeps(o, SwitchNext(s).0, g);
    } else {
      ReadLoopKeeps(o, s, g);
    }
  }
}
