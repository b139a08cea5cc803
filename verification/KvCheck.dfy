/**
 The key-value checker (point/check.go): fields are reached through pointers of some
 type R, their contents are in a heap, and the pointers are in a slice that the
 checker compacts while it scans it. The point pool is off.
 */
module KvCheck {
  import opened Wrappers

  datatype Float = Finite(r: real) | PlusInf | MinusInf | NaN

  /** The value kinds of a Field; Any stands for Field_A. */
  datatype Value = I(i: int) | U(u: nat) | F(f: Float) | B(b: bool) | D(d: Bytes) | S(s: Bytes) | Any | Nil

  datatype Entry = Entry(key: Bytes, isTag: bool, val: Value)

  datatype Config = Config(
    maxTagKeyLen: int, maxFieldKeyLen: int, maxTagValLen: int, maxFieldValLen: int,
    dotInKey: bool, u64Field: bool, strField: bool, disabledKeys: seq<Bytes>)

  datatype WarnKind =
    | MaxTagKeyLen | MaxFieldKeyLen | MaxTagValueLen | MaxFieldValueLen | InvalidTagKey | DotInKey
    | NROrTailEscape | TagDisabled | KeyNameConflict | MaxFieldValueInt | InfToMax | InfToMin
    | NilField | InvalidFieldValueType

  /** Which of the messages of its kind it is. */
  datatype Note = Plain | AfterTruncate | AfterAdjust | FoundDot

  /** A warning: its kind and message, the key or value it quotes, and the length it reports. */
  datatype Warn = Warn(kind: WarnKind, note: Note, text: Bytes, got: nat)

  const SPACE: byte := 32
  const NEWLINE: byte := 10
  const BACKSLASH: byte := 92
  const DOT: byte := 46
  const UNDERSCORE: byte := 95

  // ----- rewriting keys -----

  /** trimSuffixAll with a backslash. */
  function TrimAll(x: Bytes): Bytes {
    if x != [] && x[|x| - 1] == BACKSLASH then TrimAll(x[..|x| - 1]) else x
  }

  function Replace(x: Bytes, a: byte, b: byte): (r: Bytes)
    ensures |r| == |x| && forall i :: 0 <= i < |x| ==> r[i] == if x[i] == a then b else x[i]
  {
    seq(|x|, i requires 0 <= i < |x| => if x[i] == a then b else x[i])
  }

  /** adjustKV. */
  function Adjusted(x: Bytes): Bytes {
    Replace(TrimAll(x), NEWLINE, SPACE)
  }

  function Cut(x: Bytes, limit: int): Bytes {
    if limit > 0 && |x| > limit then x[..limit] else x
  }

  function Undotted(cfg: Config, x: Bytes): Bytes {
    if cfg.dotInKey then x else Replace(x, DOT, UNDERSCORE)
  }

  function KeyLimit(cfg: Config, isTag: bool): int {
    if isTag then cfg.maxTagKeyLen else cfg.maxFieldKeyLen
  }

  // ----- scans over the slice -----

  type Heap<R> = map<R, Entry>

  ghost predicate InHeap<R>(heap: Heap<R>, arr: seq<R>) {
    forall r <- arr :: r in heap
  }

  /** kvs.Get(key) != nil. */
  ghost predicate HasKey<R>(heap: Heap<R>, arr: seq<R>, key: Bytes)
    requires InHeap(heap, arr)
  {
    exists r <- arr :: heap[r].key == key
  }

  /** How many elements of the slice have the key. */
  ghost function CountKey<R>(heap: Heap<R>, arr: seq<R>, key: Bytes): nat
    requires InHeap(heap, arr)
  {
    if arr == [] then 0
    else CountKey(heap, arr[..|arr| - 1], key) + if heap[arr[|arr| - 1]].key == key then 1 else 0
  }

  // ----- one field -----

  /** The checker's progress: the heap, whether the field is still kept, and the warnings. */
  datatype Progress<R> = Progress(heap: Heap<R>, ok: bool, warns: seq<Warn>)

  /** Only r's contents differ, and its kind is the same. */
  ghost predicate OnlyAt<R>(heap: Heap<R>, heap': Heap<R>, r: R) {
    && r in heap && heap'.Keys == heap.Keys
    && heap'[r].isTag == heap[r].isTag
    && forall q <- heap :: q != r ==> heap'[q] == heap[q]
  }

  /** Give r a new key, unless it is in use. */
  ghost function Rename<R>(st: Progress<R>, arr: seq<R>, r: R, newKey: Bytes, w: Warn, clash: Warn): (st': Progress<R>)
    requires InHeap(st.heap, arr) && r in st.heap
    ensures OnlyAt(st.heap, st'.heap, r) && st'.heap[r].val == st.heap[r].val
    ensures st'.ok ==> st.ok && st'.heap[r].key == newKey
  {
    if !st.ok || newKey == st.heap[r].key then st
    else if HasKey(st.heap, arr, newKey) then Progress(st.heap, false, st.warns + [w, clash])
    else Progress(st.heap[r := st.heap[r].(key := newKey)], true, st.warns + [w])
  }

  ghost function TruncateKey<R>(cfg: Config, st: Progress<R>, arr: seq<R>, r: R): (st': Progress<R>)
    requires InHeap(st.heap, arr) && r in st.heap
    ensures OnlyAt(st.heap, st'.heap, r) && st'.heap[r].val == st.heap[r].val
    ensures st'.ok ==> st.ok && st'.heap[r].key == Cut(st.heap[r].key, KeyLimit(cfg, st.heap[r].isTag))
  {
    var f := st.heap[r];
    var newKey := Cut(f.key, KeyLimit(cfg, f.isTag));
    Rename(st, arr, r, newKey, Warn(if f.isTag then MaxTagKeyLen else MaxFieldKeyLen, Plain, [], |f.key|), Warn(InvalidTagKey, AfterTruncate, newKey, 0))
  }

  ghost function AdjustKey<R>(st: Progress<R>, arr: seq<R>, r: R): (st': Progress<R>)
    requires InHeap(st.heap, arr) && r in st.heap
    ensures OnlyAt(st.heap, st'.heap, r) && st'.heap[r].val == st.heap[r].val
    ensures st'.ok ==> st.ok && st'.heap[r].key == Adjusted(st.heap[r].key)
  {
    var f := st.heap[r];
    Rename(st, arr, r, Adjusted(f.key), Warn(if f.isTag then InvalidTagKey else NROrTailEscape, Plain, f.key, 0), Warn(InvalidTagKey, AfterAdjust, Adjusted(f.key), 0))
  }

  ghost function UndotKey<R>(cfg: Config, st: Progress<R>, arr: seq<R>, r: R): (st': Progress<R>)
    requires InHeap(st.heap, arr) && r in st.heap
    ensures OnlyAt(st.heap, st'.heap, r) && st'.heap[r].val == st.heap[r].val
    ensures st'.ok ==> st.ok && st'.heap[r].key == Undotted(cfg, st.heap[r].key)
  {
    var f := st.heap[r];
    Rename(st, arr, r, Undotted(cfg, f.key), Warn(if f.isTag then InvalidTagKey else DotInKey, FoundDot, f.key, 0), Warn(InvalidTagKey, AfterAdjust, Undotted(cfg, f.key), 0))
  }

  /** Tags lose escapes before dots, fields dots before escapes. */
  ghost function RewriteKey<R>(cfg: Config, st: Progress<R>, arr: seq<R>, r: R): (st': Progress<R>)
    requires InHeap(st.heap, arr) && r in st.heap
    ensures OnlyAt(st.heap, st'.heap, r) && st'.heap[r].val == st.heap[r].val
  {
    var cut := TruncateKey(cfg, st, arr, r);
    if st.heap[r].isTag then UndotKey(cfg, AdjustKey(cut, arr, r), arr, r)
    else AdjustKey(UndotKey(cfg, cut, arr, r), arr, r)
  }

  /** keyDisabled and keyConflict. */
  ghost function AdmitKey<R>(cfg: Config, st: Progress<R>, arr: seq<R>, r: R, skip: bool): (st': Progress<R>)
    requires InHeap(st.heap, arr) && r in st.heap
    ensures st'.heap == st.heap && (st'.ok ==> st.ok)
  {
    var key := st.heap[r].key;
    if !st.ok then st
    else if key == [] || key in cfg.disabledKeys then Progress(st.heap, false, st.warns + [Warn(TagDisabled, Plain, key, 0)])
    else if !skip && CountKey(st.heap, arr, key) > 1 then Progress(st.heap, false, st.warns + [Warn(KeyNameConflict, Plain, key, 0)])
    else st
  }

  /** A value after its check: whether the field is kept, and the warnings. */
  datatype Checked = Checked(val: Value, ok: bool, warns: seq<Warn>)

  function TagValue(cfg: Config, s: Bytes): Checked {
    var t := if s != [] then Adjusted(s) else s;
    Checked(S(Cut(t, cfg.maxTagValLen)), true,
            (if t != s then [Warn(NROrTailEscape, Plain, s, 0)] else []) +
            (if Cut(t, cfg.maxTagValLen) != t then [Warn(MaxTagValueLen, Plain, [], |t|)] else []))
  }

  const MAX_INT64: int := TWO_63 - 1

  /** math.MaxUint64 and math.MinInt64 as float64. */
  const MAX_UINT64_FLOAT := Finite(18446744073709551616.0)
  const MIN_INT64_FLOAT := Finite(-9223372036854775808.0)

  function FieldValue(cfg: Config, key: Bytes, val: Value): Checked {
    match val
    case U(u) =>
      if cfg.u64Field then Checked(val, true, [])
      else if u > MAX_INT64 then Checked(val, false, [Warn(MaxFieldValueInt, Plain, key, u)])
      else Checked(I(u), true, [])
    case F(f) =>
      if f.PlusInf? then Checked(F(MAX_UINT64_FLOAT), true, [Warn(InfToMax, Plain, key, 0)])
      else if f.MinusInf? then Checked(F(MIN_INT64_FLOAT), true, [Warn(InfToMin, Plain, key, 0)])
      else Checked(val, true, [])
    case D(d) =>
      if !cfg.strField then Checked(val, false, [Warn(InvalidFieldValueType, Plain, key, 0)])
      else Checked(D(Cut(d, cfg.maxFieldValLen)), true, if Cut(d, cfg.maxFieldValLen) != d then [Warn(MaxFieldValueLen, Plain, key, |d|)] else [])
    case S(s) =>
      if !cfg.strField then Checked(val, false, [Warn(InvalidFieldValueType, Plain, key, 0)])
      else Checked(S(Cut(s, cfg.maxFieldValLen)), true, if Cut(s, cfg.maxFieldValLen) != s then [Warn(MaxFieldValueLen, Plain, key, |s|)] else [])
    case Nil => Checked(val, true, [Warn(NilField, Plain, key, 0)])
    case _ => Checked(val, true, [])
  }

  /** A tag's value must be a string: the code asserts that type. */
  ghost predicate TagsAreStrings<R>(heap: Heap<R>) {
    forall r <- heap :: heap[r].isTag ==> heap[r].val.S?
  }

  ghost function CheckValue<R>(cfg: Config, st: Progress<R>, r: R): (st': Progress<R>)
    requires r in st.heap && TagsAreStrings(st.heap)
    ensures OnlyAt(st.heap, st'.heap, r) && TagsAreStrings(st'.heap) && st'.heap[r].key == st.heap[r].key && (st'.ok ==> st.ok)
  {
    if !st.ok then st
    else
      var f := st.heap[r];
      var v := if f.isTag then TagValue(cfg, f.val.s) else FieldValue(cfg, f.key, f.val);
      Progress(st.heap[r := f.(val := v.val)], v.ok, st.warns + v.warns)
  }

  /** checkKV. */
  ghost function CheckOne<R>(cfg: Config, heap: Heap<R>, warns: seq<Warn>, arr: seq<R>, r: R, skip: bool): (st': Progress<R>)
    requires InHeap(heap, arr) && r in heap && TagsAreStrings(heap)
    ensures OnlyAt(heap, st'.heap, r) && TagsAreStrings(st'.heap)
  {
    CheckValue(cfg, AdmitKey(cfg, RewriteKey(cfg, Progress(heap, true, warns), arr, r), arr, r, skip), r)
  }

  // ----- the loop -----

  /** The loop's state before element i: the first idx elements of arr are kept. */
  datatype Loop<R> = Loop(heap: Heap<R>, arr: seq<R>, idx: nat, warns: seq<Warn>)

  ghost predicate LoopOk<R>(l: Loop<R>, i: nat) {
    InHeap(l.heap, l.arr) && TagsAreStrings(l.heap) && l.idx <= i <= |l.arr|
  }

  /** One round: a kept element moves to position idx of the slice that is being scanned. */
  ghost function Round<R>(cfg: Config, l: Loop<R>, i: nat, skip: bool): (l': Loop<R>)
    requires LoopOk(l, i) && i < |l.arr|
    ensures LoopOk(l', i + 1) && |l'.arr| == |l.arr|
  {
    var c := CheckOne(cfg, l.heap, l.warns, l.arr, l.arr[i], skip);
    if c.ok then Loop(c.heap, l.arr[l.idx := l.arr[i]], l.idx + 1, c.warns)
    else Loop(c.heap, l.arr, l.idx, c.warns)
  }

  ghost function Rounds<R>(cfg: Config, l: Loop<R>, i: nat, skip: bool): (l': Loop<R>)
    requires LoopOk(l, i)
    ensures LoopOk(l', |l'.arr|) && |l'.arr| == |l.arr|
    decreases |l.arr| - i
  {
    if i == |l.arr| then l else Rounds(cfg, Round(cfg, l, i, skip), i + 1, skip)
  }

  ghost predicate DistinctKeys<R>(heap: Heap<R>, arr: seq<R>)
    requires InHeap(heap, arr)
  {
    forall p, q :: 0 <= p < q < |arr| ==> heap[arr[p]].key != heap[arr[q]].key
  }

  /** canSkipKeyConflicts: from 16 elements on, when the keys are distinct. */
  ghost predicate CanSkip<R>(heap: Heap<R>, arr: seq<R>)
    requires InHeap(heap, arr)
  {
    |arr| >= 16 && DistinctKeys(heap, arr)
  }

  /** checkKVs, without trimming and required keys: the kept pointers are the first idx. */
  ghost function CheckAll<R>(cfg: Config, heap: Heap<R>, arr: seq<R>, warns: seq<Warn>): Loop<R>
    requires InHeap(heap, arr) && TagsAreStrings(heap)
  {
    Rounds(cfg, Loop(heap, arr, 0, warns), 0, CanSkip(heap, arr))
  }
}
