/**
 The DiskCache object (diskcache/diskcache.go:78-134): its methods change the directory
 and the fields in place, and compute the functions of DiskQueue.dfy.
 */
module DiskCache {
  import opened Framing
  import opened DiskQueue
  import opened Wrappers

  class DiskCache {
    const opts: Options
    var closed: bool

    // the directory
    var files: Files
    var writeFile: Bytes
    var posFile: Option<Pos>

    // the object
    var dataFiles: seq<nat>
    var curReadfile: Option<nat>
    var rfd: Option<nat>
    var size: int
    var curBatchSize: int
    var posName: Option<nat>
    var posSeek: int
    var posCnt: nat

    ghost function View(): State
      reads this
    {
      State(Disk(files, writeFile, posFile), dataFiles, curReadfile, rfd, size, curBatchSize, posName, posSeek, posCnt)
    }

    /** An open read file is the lowest one. */
    ghost predicate Valid()
      reads this
    {
      rfd.Some? ==> Reading(View())
    }

    /** doOpen with loadUnfinishedFile; the listing is the sorted directory. */
    constructor (opts: Options, disk: Disk, listing: seq<nat>)
      ensures !closed && this.opts == opts && View() == Open(disk, listing)
      ensures (disk.pos.Some? && disk.pos.value.name in disk.files ==> listing != [] && listing[0] == disk.pos.value.name) ==> Valid()
    {
      this.opts := opts;
      closed := false;
      files, writeFile, posFile := disk.files, disk.writeFile, disk.pos;
      curBatchSize := |disk.writeFile|;
      dataFiles := listing;
      curReadfile, rfd, posName, posSeek, posCnt := None, None, None, 0, 0;
      var total := 0;
      for i := 0 to |listing|
        invariant Total(disk.files, listing) == total + Total(disk.files, listing[i..])
      {
        assert listing[i..][0] == listing[i] && listing[i..][1..] == listing[i + 1..];
        if listing[i] in disk.files {
          total := total + |disk.files[listing[i]]|;
        }
      }
      size := total;
      if disk.pos.Some? {
        if disk.pos.value.name !in disk.files {
          posFile, posSeek := None, -1;
        } else {
          curReadfile, rfd := Some(disk.pos.value.name), Some(disk.pos.value.seek);
          posName, posSeek := Some(disk.pos.value.name), disk.pos.value.seek;
        }
      }
    }

    /** Close releases the descriptors and leaves the directory as it is. */
    method Close()
      modifies `closed, `rfd
      ensures closed && rfd.None? && Valid()
      ensures View().disk == old(View().disk)
    {
      closed := true;
      rfd := None;
    }

    method Rotate(renameOk: bool)
      requires Valid()
      modifies this
      ensures Valid() && closed == old(closed) && View() == DiskQueue.Rotate(old(View()), renameOk)
    {
      if !renameOk {
        curBatchSize := |writeFile|;
        return;
      }
      var newfile := NextNumber(dataFiles);
      var sealedBytes := writeFile + EOF_MARK;
      files := files[newfile := sealedBytes];
      if |sealedBytes| > HEADER {
        size := size + |sealedBytes|;
      }
      dataFiles := dataFiles + [newfile];
      writeFile, curBatchSize := [], 0;
    }

    /** dropBatch; false when the lowest file is missing. */
    method DropBatch() returns (ok: bool)
      requires Valid()
      modifies this
      ensures Valid() && closed == old(closed) && (View(), ok) == TryDrop(old(View()))
    {
      if dataFiles == [] {
        return true;
      }
      var fname := dataFiles[0];
      if rfd.Some? && curReadfile == Some(fname) {
        rfd := None;
      }
      if fname !in files {
        return false;
      }
      size := size - |files[fname]|;
      files := files - {fname};
      dataFiles := dataFiles[1..];
      return true;
    }

    /** Put; None when the cache is closed. */
    method Put(data: Bytes, renameOk: bool) returns (r: Option<PutResult>)
      requires Valid()
      modifies this
      ensures Valid() && closed == old(closed)
      ensures closed ==> r == None && View() == old(View())
      ensures !closed ==> r.Some? && (View(), r.value) == DiskQueue.Put(opts, old(View()), data, renameOk)
    {
      if closed {
        return None;
      }
      if opts.capacity > 0 && size + |data| > opts.capacity {
        if opts.noDrop || opts.filoDrop {
          return Some(CacheFull);
        }
        var ok := DropBatch();
        if !ok {
          return Some(DropFailed);
        }
      }
      if opts.maxDataSize > 0 && ToInt32(|data|) > opts.maxDataSize {
        return Some(TooLarge);
      }
      writeFile := writeFile + Frame(data);
      curBatchSize := curBatchSize + HEADER + |data|;
      if curBatchSize >= opts.batchSize {
        Rotate(renameOk);
        return Some(if renameOk then PutOk else StoredNotRotated);
      }
      return Some(PutOk);
    }

    method RemoveCurrentReadingFile()
      requires curReadfile.Some?
      modifies this
      ensures Valid() && closed == old(closed) && View() == RemoveCurrent(old(View()))
    {
      rfd := None;
      var f := curReadfile.value;
      if f in files {
        if |files[f]| > HEADER {
          size := size - |files[f]|;
        }
        files := files - {f};
      }
      assert files == old(files) - {f};
      curReadfile := None;
      if |dataFiles| > 0 {
        dataFiles := dataFiles[1..];
      }
    }

    method SwitchNextFile() returns (ok: bool)
      requires Valid()
      modifies this
      ensures Valid() && closed == old(closed) && (View(), ok) == SwitchNext(old(View()))
      ensures rfd.Some? ==> ok
    {
      if curReadfile.Some? {
        RemoveCurrentReadingFile();
      }
      posName, posSeek, posFile := None, -1, None;
      if dataFiles == [] {
        return true;
      }
      curReadfile := Some(dataFiles[0]);
      if dataFiles[0] !in files {
        return false;
      }
      rfd := Some(0);
      posName, posSeek, posFile := Some(dataFiles[0]), 0, Some(Pos(dataFiles[0], 0));
      return true;
    }

    /** Move past a record of n bytes, updating .pos. */
    method Pass(n: nat, dumpDue: bool)
      requires Valid() && rfd.Some?
      modifies this
      ensures Valid() && closed == old(closed) && View() == PassRecord(opts, old(View()), n, dumpDue)
    {
      rfd := Some(rfd.value + HEADER + n);
      if n > 0 {
        posSeek := posSeek + HEADER + n;
        if opts.dumpCount > 0 {
          posCnt := posCnt + 1;
        }
        if opts.dumpCount == 0 || posCnt % opts.dumpCount == 0 || dumpDue {
          posFile := if posName.Some? && posSeek >= 0 then Some(Pos(posName.value, posSeek)) else None;
        }
      }
    }

    /** doGet: wake up an idle write file, then read until a record, an error or no file; None when closed. */
    method Get(g: GetArgs) returns (r: Option<GetResult>)
      requires Valid()
      modifies this
      ensures Valid() && closed == old(closed)
      ensures closed ==> r == None && View() == old(View())
      ensures !closed ==> r.Some? && (View(), r.value) == DiskQueue.Get(opts, old(View()), g)
    {
      if closed {
        return None;
      }
      if g.idle && curBatchSize > 0 {
        Rotate(g.renameOk);
        if !g.renameOk {
          return Some(WakeupFailed);
        }
      }
      if rfd.None? {
        var ok := SwitchNextFile();
        if !ok {
          return Some(OpenFailed);
        }
      }
      var res := ReadNext(g);
      return Some(res);
    }

    /** The part of doGet behind the header: buffer, data, callback and position. */
    method ReadRecord(g: GetArgs) returns (r: GetResult)
      requires Valid() && rfd.Some? && HEADER <= |Ahead(View())| && Read32(Ahead(View())) != EOF_HINT
      modifies this
      ensures Valid() && closed == old(closed)
      ensures (View(), r) == ReadLoop(opts, old(View()), g)
    {
      var b := Rest(files[dataFiles[0]], rfd.value);
      var n := Read32(b);
      if g.buf.Some? && g.buf.value < n {
        rfd := Some(rfd.value + HEADER + n);
        return TooSmallBuffer;
      }
      if HEADER + n > |b| {
        rfd := Some(|files[dataFiles[0]]|);
        return ReadFailed;
      }
      var record := b[HEADER..HEADER + n];
      if g.fn(record) {
        Pass(n, g.dumpDue);
        return Got(record);
      }
      if opts.noFallback {
        Pass(n, g.dumpDue);
      }
      return CallbackFailed(record);
    }

    /** The retry loop of doGet. */
    method ReadNext(g: GetArgs) returns (r: GetResult)
      requires Valid()
      modifies this
      ensures Valid() && closed == old(closed)
      ensures (View(), r) == ReadLoop(opts, old(View()), g)
    {
      while rfd.Some?
        invariant Valid() && closed == old(closed)
        invariant ReadLoop(opts, View(), g) == ReadLoop(opts, old(View()), g)
        decreases |dataFiles|
      {
        var b := Rest(files[dataFiles[0]], rfd.value);
        if |b| < HEADER || Read32(b) == EOF_HINT {
          var ok := SwitchNextFile();
          if !ok {
            return OpenFailed;
          }
        } else {
          r := ReadRecord(g);
          return;
        }
      }
      return NoData;
    }
  }
}
