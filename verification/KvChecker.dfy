/** The checker as it runs: fields rewritten through shared pointers, the slice compacted while it is scanned. */
module KvChecker {
  import opened KvCheck
  import opened Wrappers

  class Field {
    var key: Bytes
    var isTag: bool
    var val: Value

    constructor (key: Bytes, isTag: bool, val: Value)
      ensures this.key == key && this.isTag == isTag && this.val == val
    {
      this.key, this.isTag, this.val := key, isTag, val;
    }
  }

  ghost function EntryOf(f: Field): Entry
    reads f
  {
    Entry(f.key, f.isTag, f.val)
  }

  /** The contents of the fields. */
  ghost function View(fs: set<Field>): Heap<Field?>
    reads fs
  {
    map f | f in fs :: EntryOf(f)
  }

  /** The pointers of the slice, none of them nil. */
  ghost predicate Slice(kvs: array<Field?>, fs: set<Field>)
    reads kvs
  {
    forall i :: 0 <= i < kvs.Length ==> kvs[i] != null && kvs[i] in fs
  }

  /** trimSuffixAll with a backslash. */
  method TrimSuffixAll(s: Bytes) returns (x: Bytes)
    ensures x == TrimAll(s)
  {
    x := s;
    while x != [] && x[|x| - 1] == BACKSLASH
      invariant TrimAll(x) == TrimAll(s)
      decreases |x|
    {
      x := x[..|x| - 1];
    }
  }

  method ReplaceAll(s: Bytes, a: byte, b: byte) returns (x: Bytes)
    ensures x == Replace(s, a, b)
  {
    x := [];
    var i := 0;
    while i < |s|
      invariant 0 <= i == |x| <= |s|
      invariant forall j :: 0 <= j < i ==> x[j] == if s[j] == a then b else s[j]
    {
      x := x + [if s[i] == a then b else s[i]];
      i := i + 1;
    }
  }

  /** adjustKV. */
  method AdjustKV(s: Bytes) returns (x: Bytes)
    ensures x == Adjusted(s)
  {
    x := TrimSuffixAll(s);
    x := ReplaceAll(x, NEWLINE, SPACE);
  }

  /** kvs.Get(key) != nil. */
  method Get(kvs: array<Field?>, ghost fs: set<Field>, key: Bytes) returns (found: bool)
    requires Slice(kvs, fs)
    ensures found == HasKey(View(fs), kvs[..], key)
  {
    var i := 0;
    while i < kvs.Length
      invariant 0 <= i <= kvs.Length
      invariant forall j :: 0 <= j < i ==> kvs[j].key != key
    {
      if kvs[i].key == key {
        assert View(fs)[kvs[i]].key == key && kvs[i] in kvs[..];
        return true;
      }
      i := i + 1;
    }
    forall x <- kvs[..]
      ensures View(fs)[x].key != key
    {
      var j :| 0 <= j < kvs.Length && kvs[j] == x;
    }
    return false;
  }

  lemma CountNext(heap: Heap<Field?>, kvs: seq<Field?>, i: nat, key: Bytes)
    requires InHeap(heap, kvs) && i < |kvs|
    ensures CountKey(heap, kvs[..i + 1], key) == CountKey(heap, kvs[..i], key) + if heap[kvs[i]].key == key then 1 else 0
  {
    assert kvs[..i + 1][..i] == kvs[..i];
  }

  /** The scan of keyConflict. */
  method Occurrences(kvs: array<Field?>, ghost fs: set<Field>, key: Bytes) returns (n: nat)
    requires Slice(kvs, fs)
    ensures n == CountKey(View(fs), kvs[..], key)
  {
    n := 0;
    var i := 0;
    while i < kvs.Length
      invariant 0 <= i <= kvs.Length
      invariant n == CountKey(View(fs), kvs[..i], key)
    {
      assert kvs[..][..i] == kvs[..i] && kvs[..][..i + 1] == kvs[..i + 1];
      CountNext(View(fs), kvs[..], i, key);
      if kvs[i].key == key {
        n := n + 1;
      }
      i := i + 1;
    }
    assert kvs[..kvs.Length] == kvs[..];
  }

  /** canSkipKeyConflicts: a set of the keys seen so far, from 16 elements on. */
  method CanSkipKeyConflicts(kvs: array<Field?>, ghost fs: set<Field>) returns (unique: bool)
    requires Slice(kvs, fs)
    ensures unique == CanSkip(View(fs), kvs[..])
  {
    if kvs.Length < 16 {
      return false;
    }
    var keys: set<Bytes> := {};
    var i := 0;
    while i < kvs.Length
      invariant 0 <= i <= kvs.Length
      invariant keys == set j | 0 <= j < i :: kvs[j].key
      invariant forall p, q :: 0 <= p < q < i ==> kvs[p].key != kvs[q].key
    {
      if kvs[i].key in keys {
        var j :| 0 <= j < i && kvs[j].key == kvs[i].key;
        assert View(fs)[kvs[..][j]].key == View(fs)[kvs[..][i]].key;
        return false;
      }
      keys := keys + {kvs[i].key};
      i := i + 1;
    }
    return true;
  }

  lemma RoundsNext(cfg: Config, l: Loop<Field?>, i: nat, skip: bool)
    requires LoopOk(l, i) && i < |l.arr|
    ensures Rounds(cfg, l, i, skip) == Rounds(cfg, Round(cfg, l, i, skip), i + 1, skip)
  {
  }

  lemma RoundsDone(cfg: Config, l: Loop<Field?>, skip: bool)
    requires LoopOk(l, |l.arr|)
    ensures Rounds(cfg, l, |l.arr|, skip) == l
  {
  }

  /** Removed elements become nil. */
  method ClearTail(kvs: array<Field?>, n: nat)
    requires n <= kvs.Length
    modifies kvs
    ensures kvs[..n] == old(kvs[..n]) && forall j :: n <= j < kvs.Length ==> kvs[j] == null
  {
    var j := n;
    while j < kvs.Length
      invariant n <= j <= kvs.Length && kvs[..n] == old(kvs[..n])
      invariant forall k :: n <= k < j ==> kvs[k] == null
    {
      kvs[j] := null;
      j := j + 1;
    }
  }

  class Checker {
    const cfg: Config
    var warns: seq<Warn>

    constructor (cfg: Config)
      ensures this.cfg == cfg && warns == []
    {
      this.cfg := cfg;
      warns := [];
    }

    method AddWarn(w: Warn)
      modifies this`warns
      ensures warns == old(warns) + [w]
    {
      warns := warns + [w];
    }

    /** The checker's state as the specification sees it. */
    ghost function Now(fs: set<Field>, ok: bool): Progress<Field?>
      reads this, fs
    {
      Progress(View(fs), ok, warns)
    }

    /** A key that differs from the field's own is taken over unless it is in use. */
    method RenameTo(f: Field, kvs: array<Field?>, ghost fs: set<Field>, newKey: Bytes, w: Warn, clash: Warn) returns (ok: bool)
      requires Slice(kvs, fs) && f in fs
      modifies this`warns, f`key
      ensures Now(fs, ok) == Rename(old(Now(fs, true)), kvs[..], f, newKey, w, clash)
    {
      ok := true;
      if newKey != f.key {
        AddWarn(w);
        var used := Get(kvs, fs, newKey);
        if used {
          AddWarn(clash);
          ok := false;
        } else {
          f.key := newKey;
        }
      }
    }

    method Truncate(f: Field, kvs: array<Field?>, ghost fs: set<Field>) returns (ok: bool)
      requires Slice(kvs, fs) && f in fs
      modifies this`warns, f`key
      ensures Now(fs, ok) == TruncateKey(cfg, old(Now(fs, true)), kvs[..], f)
    {
      var newKey := Cut(f.key, KeyLimit(cfg, f.isTag));
      ok := RenameTo(f, kvs, fs, newKey, Warn(if f.isTag then MaxTagKeyLen else MaxFieldKeyLen, Plain, [], |f.key|), Warn(InvalidTagKey, AfterTruncate, newKey, 0));
    }

    method Adjust(f: Field, kvs: array<Field?>, ghost fs: set<Field>) returns (ok: bool)
      requires Slice(kvs, fs) && f in fs
      modifies this`warns, f`key
      ensures Now(fs, ok) == AdjustKey(old(Now(fs, true)), kvs[..], f)
    {
      var newKey := AdjustKV(f.key);
      ok := RenameTo(f, kvs, fs, newKey, Warn(if f.isTag then InvalidTagKey else NROrTailEscape, Plain, f.key, 0), Warn(InvalidTagKey, AfterAdjust, newKey, 0));
    }

    method Undot(f: Field, kvs: array<Field?>, ghost fs: set<Field>) returns (ok: bool)
      requires Slice(kvs, fs) && f in fs
      modifies this`warns, f`key
      ensures Now(fs, ok) == UndotKey(cfg, old(Now(fs, true)), kvs[..], f)
    {
      var newKey := f.key;
      if !cfg.dotInKey {
        newKey := ReplaceAll(f.key, DOT, UNDERSCORE);
      }
      ok := RenameTo(f, kvs, fs, newKey, Warn(if f.isTag then InvalidTagKey else DotInKey, FoundDot, f.key, 0), Warn(InvalidTagKey, AfterAdjust, newKey, 0));
    }

    /** The three rewritings in the order of the field's kind, up to the first clash. */
    method Rewrite(f: Field, kvs: array<Field?>, ghost fs: set<Field>) returns (ok: bool)
      requires Slice(kvs, fs) && f in fs
      modifies this`warns, f`key
      ensures Now(fs, ok) == RewriteKey(cfg, old(Now(fs, true)), kvs[..], f)
    {
      ok := Truncate(f, kvs, fs);
      if ok {
        if f.isTag {
          ok := Adjust(f, kvs, fs);
          if ok {
            ok := Undot(f, kvs, fs);
          }
        } else {
          ok := Undot(f, kvs, fs);
          if ok {
            ok := Adjust(f, kvs, fs);
          }
        }
      }
    }

    /** keyDisabled, then keyConflict. */
    method Admit(f: Field, kvs: array<Field?>, ghost fs: set<Field>, skip: bool) returns (ok: bool)
      requires Slice(kvs, fs) && f in fs
      modifies this`warns
      ensures Now(fs, ok) == AdmitKey(cfg, old(Now(fs, true)), kvs[..], f, skip)
    {
      if f.key == [] || f.key in cfg.disabledKeys {
        AddWarn(Warn(TagDisabled, Plain, f.key, 0));
        return false;
      }
      if !skip {
        var n := Occurrences(kvs, fs, f.key);
        if n > 1 {
          AddWarn(Warn(KeyNameConflict, Plain, f.key, 0));
          return false;
        }
      }
      return true;
    }

    method SetValue(f: Field, ghost fs: set<Field>) returns (ok: bool)
      requires f in fs && TagsAreStrings(View(fs))
      modifies this`warns, f`val
      ensures Now(fs, ok) == CheckValue(cfg, old(Now(fs, true)), f)
    {
      assert View(fs)[f].isTag ==> View(fs)[f].val.S?;
      var v := if f.isTag then TagValue(cfg, f.val.s) else FieldValue(cfg, f.key, f.val);
      f.val := v.val;
      warns := warns + v.warns;
      return v.ok;
    }

    /** checkKV. */
    method CheckKV(f: Field, kvs: array<Field?>, ghost fs: set<Field>, skip: bool) returns (ok: bool)
      requires Slice(kvs, fs) && f in fs && TagsAreStrings(View(fs))
      modifies this`warns, f
      ensures Now(fs, ok) == CheckOne(cfg, old(View(fs)), old(warns), kvs[..], f, skip)
    {
      ok := Rewrite(f, kvs, fs);
      if ok {
        ok := Admit(f, kvs, fs, skip);
        if ok {
          ok := SetValue(f, fs);
        }
      }
    }

    ghost function State(kvs: array<Field?>, fs: set<Field>, n: nat): Loop<Field?>
      reads this, kvs, fs
    {
      Loop(View(fs), kvs[..], n, warns)
    }

    /** One round of the loop: a kept field moves to position n. */
    method CheckAt(kvs: array<Field?>, ghost fs: set<Field>, n: nat, i: nat, skip: bool) returns (n': nat)
      requires Slice(kvs, fs) && n <= i < kvs.Length && TagsAreStrings(View(fs))
      modifies this`warns, kvs, fs
      ensures Slice(kvs, fs) && State(kvs, fs, n') == Round(cfg, old(State(kvs, fs, n)), i, skip)
    {
      n' := n;
      var f := kvs[i];
      var ok := CheckKV(f, kvs, fs, skip);
      if ok {
        kvs[n] := f;
        n' := n + 1;
      }
    }

    /** The loop stands before element i in state l. */
    ghost predicate At(kvs: array<Field?>, fs: set<Field>, n: nat, i: nat, l: Loop<Field?>)
      reads this, kvs, fs
    {
      Slice(kvs, fs) && l == State(kvs, fs, n) && LoopOk(l, i)
    }

    /** The same round, against what the loop still has to compute. */
    method CheckNext(kvs: array<Field?>, ghost fs: set<Field>, n: nat, i: nat, skip: bool, ghost l: Loop<Field?>) returns (n': nat, ghost l': Loop<Field?>)
      requires At(kvs, fs, n, i, l) && i < kvs.Length
      modifies this`warns, kvs, fs
      ensures At(kvs, fs, n', i + 1, l') && Rounds(cfg, l', i + 1, skip) == Rounds(cfg, l, i, skip)
    {
      RoundsNext(cfg, l, i, skip);
      l' := Round(cfg, l, i, skip);
      n' := CheckAt(kvs, fs, n, i, skip);
    }

    /** The loop of checkKVs. */
    method CheckEach(kvs: array<Field?>, ghost fs: set<Field>, skip: bool) returns (n: nat)
      requires Slice(kvs, fs) && TagsAreStrings(View(fs))
      modifies this`warns, kvs, fs
      ensures State(kvs, fs, n) == Rounds(cfg, old(State(kvs, fs, 0)), 0, skip)
    {
      ghost var l := State(kvs, fs, 0);
      ghost var goal := Rounds(cfg, l, 0, skip);
      n := 0;
      var i := 0;
      while i < kvs.Length
        invariant 0 <= i <= kvs.Length && At(kvs, fs, n, i, l) && goal == Rounds(cfg, l, i, skip)
      {
        n, l := CheckNext(kvs, fs, n, i, skip, l);
        i := i + 1;
      }
      RoundsDone(cfg, l, skip);
    }

    /** checkKVs: the kept fields are the first n, behind them the slice is cleared. */
    method CheckKVs(kvs: array<Field?>, ghost fs: set<Field>) returns (n: nat)
      requires Slice(kvs, fs) && TagsAreStrings(View(fs))
      modifies this`warns, kvs, fs
      ensures var l := CheckAll(cfg, old(View(fs)), old(kvs[..]), old(warns));
              && n == l.idx <= kvs.Length && kvs[..n] == l.arr[..n] && View(fs) == l.heap && warns == l.warns
      ensures forall j :: n <= j < kvs.Length ==> kvs[j] == null
    {
      var skip := CanSkipKeyConflicts(kvs, fs);
      n := CheckEach(kvs, fs, skip);
      ghost var kept := kvs[..];
      ClearTail(kvs, n);
      assert kvs[..n] == kept[..n];
    }
  }
}
