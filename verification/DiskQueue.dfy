/**
 diskcache as functions on its state: a directory with sealed files data.N, the write
 file data and .pos, and the fields of the DiskCache object (diskcache/put.go,
 rotate.go, get.go, switch.go, drop.go, open.go, pos.go). DiskCache.dfy holds the
 methods that compute these functions.

 What the environment decides is an argument: whether the write file has been idle long
 enough, whether a rename succeeds, whether the dump interval of .pos has elapsed.
 Other I/O succeeds, except that opening or removing a missing file fails.
 */
module DiskQueue {
  import opened Framing
  import opened Wrappers

  type Files = map<nat, Bytes>

  /** The contents of .pos when it names a file; anything shorter reads as none. */
  datatype Pos = Pos(name: nat, seek: nat)

  datatype Disk = Disk(files: Files, writeFile: Bytes, pos: Option<Pos>)

  datatype Options = Options(
    batchSize: int, capacity: int, maxDataSize: int,
    noFallback: bool, noDrop: bool, filoDrop: bool, dumpCount: nat)

  /** rfd is the offset of the open read file, which is cur. */
  datatype State = State(
    disk: Disk, ds: seq<nat>, cur: Option<nat>, rfd: Option<nat>,
    size: int, batch: int, posName: Option<nat>, posSeek: int, posCnt: nat)

  // ----- rotate -----

  function NextNumber(ds: seq<nat>): nat {
    if ds == [] then 0 else ds[|ds| - 1] + 1
  }

  /** Seal the write file under the next number; a failed rename restores its length. */
  function Rotate(s: State, renameOk: bool): State {
    if !renameOk then s.(batch := |s.disk.writeFile|)
    else
      var (f, b) := (NextNumber(s.ds), s.disk.writeFile + EOF_MARK);
      s.(disk := s.disk.(files := s.disk.files[f := b], writeFile := []),
      ds := s.ds + [f], batch := 0,
      size := if |b| > HEADER then s.size + |b| else s.size)
  }

  // ----- put -----

  datatype PutResult = PutOk | CacheFull | DropFailed | TooLarge | StoredNotRotated

  predicate IsFull(o: Options, s: State, data: Bytes) {
    o.capacity > 0 && s.size + |data| > o.capacity
  }

  /** dropBatch on a non-empty list whose first file exists: a read file open on it is closed. */
  function DropBatch(s: State): State
    requires s.ds != [] && s.ds[0] in s.disk.files
  {
    s.(disk := s.disk.(files := s.disk.files - {s.ds[0]}),
    ds := s.ds[1..],
    rfd := if s.cur == Some(s.ds[0]) then None else s.rfd,
    size := s.size - |s.disk.files[s.ds[0]]|)
  }

  /** dropBatch as it is called: nothing to drop is no error, and a missing file is one. */
  function TryDrop(s: State): (State, bool) {
    if s.ds == [] then (s, true)
    else if s.ds[0] !in s.disk.files then (s.(rfd := if s.cur == Some(s.ds[0]) then None else s.rfd), false)
    else (DropBatch(s), true)
  }

  /** Append one framed record and rotate when the batch is full. */
  function Append(o: Options, s: State, data: Bytes, renameOk: bool): (State, PutResult) {
    var s' := s.(disk := s.disk.(writeFile := s.disk.writeFile + Frame(data)), batch := s.batch + HEADER + |data|);
    if s'.batch >= o.batchSize then (Rotate(s', renameOk), if renameOk then PutOk else StoredNotRotated)
    else (s', PutOk)
  }

  function PutAfterDrop(o: Options, s: State, data: Bytes, renameOk: bool): (State, PutResult) {
    if o.maxDataSize > 0 && ToInt32(|data|) > o.maxDataSize then (s, TooLarge) else Append(o, s, data, renameOk)
  }

  function Put(o: Options, s: State, data: Bytes, renameOk: bool): (State, PutResult) {
    if !IsFull(o, s, data) then PutAfterDrop(o, s, data, renameOk)
    else if o.noDrop || o.filoDrop then (s, CacheFull)
    else
      var (t, ok) := TryDrop(s);
      if ok then PutAfterDrop(o, t, data, renameOk) else (t, DropFailed)
  }

  // ----- switching files -----

  /** removeCurrentReadingFile. */
  function RemoveCurrent(s: State): State
    requires s.cur.Some?
  {
    var f := s.cur.value;
    var gone := f in s.disk.files;
    s.(rfd := None, cur := None,
    disk := s.disk.(files := s.disk.files - {f}),
    size := if gone && |s.disk.files[f]| > HEADER then s.size - |s.disk.files[f]| else s.size,
    ds := if s.ds == [] then [] else s.ds[1..])
  }

  /** doSwitchNextFile: reset .pos, then open the lowest file at its start. */
  function OpenNext(s: State): (State, bool) {
    var reset := s.(posName := None, posSeek := -1, disk := s.disk.(pos := None));
    if s.ds == [] then (reset, true)
    else if s.ds[0] !in s.disk.files then (reset.(cur := Some(s.ds[0])), false)
    else
      (reset.(cur := Some(s.ds[0]), rfd := Some(0), posName := Some(s.ds[0]), posSeek := 0,
       disk := reset.disk.(pos := Some(Pos(s.ds[0], 0)))), true)
  }

  function SwitchNext(s: State): (State, bool) {
    OpenNext(if s.cur.Some? then RemoveCurrent(s) else s)
  }

  // ----- get -----

  datatype GetResult =
    | Got(record: Bytes)
    | CallbackFailed(record: Bytes)
    | NoData
    | TooSmallBuffer
    | ReadFailed
    | WakeupFailed
    | OpenFailed

  /** buf is the length of the caller's buffer, None when Get allocates; fn is whether the callback succeeds. */
  datatype GetArgs = GetArgs(buf: Option<nat>, fn: Bytes -> bool, idle: bool, renameOk: bool, dumpDue: bool)

  /** What a descriptor at this offset still has to read; seeking past the end is allowed. */
  function Rest(b: Bytes, off: nat): Bytes {
    if off <= |b| then b[off..] else []
  }

  predicate Reading(s: State) {
    s.rfd.Some? && s.ds != [] && s.ds[0] in s.disk.files && s.cur == Some(s.ds[0])
  }

  /** The unread bytes of the open file. */
  function Ahead(s: State): Bytes
    requires Reading(s)
  {
    Rest(s.disk.files[s.ds[0]], s.rfd.value)
  }

  /** dumpFile after the position moved on by n bytes. */
  function AdvancePos(o: Options, s: State, n: nat, dumpDue: bool): State {
    var moved := s.(posSeek := s.posSeek + n, posCnt := if o.dumpCount == 0 then s.posCnt else s.posCnt + 1);
    if o.dumpCount == 0 || moved.posCnt % o.dumpCount == 0 || dumpDue
    then moved.(disk := s.disk.(pos := if s.posName.Some? && moved.posSeek >= 0 then Some(Pos(s.posName.value, moved.posSeek)) else None))
    else moved
  }

  /** The record at the head has been handed over, or given up: move past it. */
  function PassRecord(o: Options, s: State, n: nat, dumpDue: bool): State
    requires s.rfd.Some?
  {
    var moved := s.(rfd := Some(s.rfd.value + HEADER + n));
    if n > 0 then AdvancePos(o, moved, HEADER + n, dumpDue) else moved
  }

  /** One record is there to be read completely. */
  function Handle(o: Options, s: State, g: GetArgs, record: Bytes): (State, GetResult)
    requires s.rfd.Some?
  {
    if g.fn(record) then (PassRecord(o, s, |record|, g.dumpDue), Got(record))
    else if o.noFallback then (PassRecord(o, s, |record|, g.dumpDue), CallbackFailed(record))
    else (s, CallbackFailed(record))
  }

  /** The retry loop of doGet: skip ended and broken files until a record or no file is left. */
  function ReadLoop(o: Options, s: State, g: GetArgs): (State, GetResult)
    requires s.rfd.Some? ==> Reading(s)
    decreases |s.ds|
  {
    if s.rfd.None? then (s, NoData)
    else
      var b := Ahead(s);
      if |b| < HEADER || Read32(b) == EOF_HINT then
        var (t, ok) := SwitchNext(s);
        if ok then ReadLoop(o, t, g) else (t, OpenFailed)
      else
        var n := Read32(b);
        if g.buf.Some? && g.buf.value < n then (s.(rfd := Some(s.rfd.value + HEADER + n)), TooSmallBuffer)
        else if HEADER + n > |b| then (s.(rfd := Some(|s.disk.files[s.ds[0]]|)), ReadFailed)
        else Handle(o, s, g, b[HEADER..HEADER + n])
  }

  /** The wake-up rotation at the start of doGet. */
  predicate WakesUp(s: State, g: GetArgs) {
    g.idle && s.batch > 0
  }

  function Get(o: Options, s: State, g: GetArgs): (State, GetResult)
    requires s.rfd.Some? ==> Reading(s)
  {
    var awake := if WakesUp(s, g) then Rotate(s, g.renameOk) else s;
    if WakesUp(s, g) && !g.renameOk then (awake, WakeupFailed)
    else if awake.rfd.None? then
      var (t, ok) := SwitchNext(awake);
      if ok then ReadLoop(o, t, g) else (t, OpenFailed)
    else
      ReadingAfterRotate(s, g.renameOk);
      ReadLoop(o, awake, g)
  }

  lemma ReadingAfterRotate(s: State, renameOk: bool)
    ensures Reading(s) ==> Reading(Rotate(s, renameOk))
  {
  }

  // ----- open -----

  function Total(files: Files, ds: seq<nat>): int {
    if ds == [] then 0 else (if ds[0] in files then |files[ds[0]]| else 0) + Total(files, ds[1..])
  }

  /** doOpen on a directory with the given sorted listing, with loadUnfinishedFile. */
  function Open(disk: Disk, listing: seq<nat>): State {
    var s := State(disk, listing, None, None, Total(disk.files, listing), |disk.writeFile|, None, 0, 0);
    if disk.pos.None? then s
    else if disk.pos.value.name !in disk.files then s.(disk := disk.(pos := None), posSeek := -1)
    else
      var p := disk.pos.value;
      s.(cur := Some(p.name), rfd := Some(p.seek), posName := Some(p.name), posSeek := p.seek)
  }
}
