/** What the checker makes of values, and what checking a second time does. */
module KvValues {
  import opened KvCheck
  import opened KvProofs
  import opened Wrappers

  // ----- one value -----

  /** A field value that can be stored as it is. */
  predicate Storable(cfg: Config, v: Value) {
    match v
    case U(_) => cfg.u64Field
    case F(f) => !f.PlusInf? && !f.MinusInf?
    case D(d) => cfg.strField && (cfg.maxFieldValLen > 0 ==> |d| <= cfg.maxFieldValLen)
    case S(s) => cfg.strField && (cfg.maxFieldValLen > 0 ==> |s| <= cfg.maxFieldValLen)
    case _ => true
  }

  /** A prefix, and with a limit no longer than that. */
  predicate PrefixUpTo(r: Bytes, x: Bytes, limit: int) {
    r <= x && |r| == if 0 < limit < |x| then limit else |x|
  }

  /**
   A field is refused exactly for an unsigned number above the int64 range when those are
   off, or a string when those are off. Otherwise its value can be stored, and it is the
   same number, an infinity made finite, the same string up to its limit, or unchanged.
   */
  lemma FieldValueMeans(cfg: Config, key: Bytes, val: Value)
    ensures var c := FieldValue(cfg, key, val);
            && (!c.ok <==> (val.U? && !cfg.u64Field && val.u >= TWO_63) || ((val.S? || val.D?) && !cfg.strField))
            && (c.ok ==> Storable(cfg, c.val))
            && (Storable(cfg, val) ==> c.ok && c.val == val && (c.warns != [] <==> val.Nil?))
            && (c.ok && val.U? ==> c.val == val || c.val == I(val.u))
            && (val.F? && val.f.PlusInf? ==> c.val == F(Finite(18446744073709551616.0)))
            && (val.F? && val.f.MinusInf? ==> c.val == F(Finite(-9223372036854775808.0)))
            && (c.ok && val.S? ==> c.val.S? && PrefixUpTo(c.val.s, val.s, cfg.maxFieldValLen))
            && (c.ok && val.D? ==> c.val.D? && PrefixUpTo(c.val.d, val.d, cfg.maxFieldValLen))
            && (c.ok && (c.val == val || val.U?) && !val.Nil? <==> c.warns == [])
  {
  }

  /** A tag value without newline and within its limit. */
  predicate TagStorable(cfg: Config, s: Bytes) {
    NEWLINE !in s && (cfg.maxTagValLen > 0 ==> |s| <= cfg.maxTagValLen)
  }

  predicate EndsInBackslash(s: Bytes) {
    s != [] && s[|s| - 1] == BACKSLASH
  }

  lemma TrimmedAlready(x: Bytes)
    requires !EndsInBackslash(x)
    ensures TrimAll(x) == x
  {
  }

  lemma AdjustedAlready(x: Bytes)
    requires NEWLINE !in x && !EndsInBackslash(x)
    ensures Adjusted(x) == x
  {
    TrimmedAlready(x);
    assert Replace(x, NEWLINE, SPACE) == x;
  }

  /**
   A tag's value loses its trailing backslashes, has spaces for newlines and is cut at its
   limit. Checking it again changes it exactly when the cut left a backslash at its end.
   */
  lemma TagValueMeans(cfg: Config, s: Bytes)
    ensures var r := TagValue(cfg, s).val;
            && r.S? && TagStorable(cfg, r.s) && PrefixUpTo(r.s, Replace(TrimAll(s), NEWLINE, SPACE), cfg.maxTagValLen)
            && (TagValue(cfg, r.s).val == r <==> !EndsInBackslash(r.s))
    ensures TagValue(cfg, s).warns == [] <==> TagValue(cfg, s).val == S(s)
  {
    TrimAllClean(s);
    AdjustedClean(s);
    var r := TagValue(cfg, s).val.s;
    if EndsInBackslash(r) {
      AdjustedClean(r);
    } else {
      AdjustedAlready(r);
    }
  }

  /** For instance a\b, cut at two bytes, is a\ after one check and a after two. */
  lemma CutLeavesBackslash(cfg: Config)
    requires cfg.maxTagValLen == 2
    ensures TagValue(cfg, [97, 92, 98]).val == S([97, 92]) && TagValue(cfg, [97, 92]).val == S([97])
  {
    assert TrimAll([97, 92]) == TrimAll([97, 92][..1]) && [97, 92][..1] == [97];
    assert [97, 92, 98][..2] == [97, 92];
    AdjustedAlready([97, 92, 98]);
    AdjustedAlready([97]);
    assert Adjusted([97, 92]) == Adjusted([97]);
  }

  /** An entry whose value can be stored. */
  predicate ValueOk(cfg: Config, e: Entry) {
    if e.isTag then e.val.S? && TagStorable(cfg, e.val.s) else Storable(cfg, e.val)
  }

  lemma FinalValueOk(cfg: Config, e: Entry)
    requires e.isTag ==> e.val.S?
    requires !e.isTag ==> FieldValue(cfg, FinalKey(cfg, e), e.val).ok
    ensures ValueOk(cfg, FinalEntry(cfg, e))
  {
    if e.isTag {
      TagValueMeans(cfg, e.val.s);
    } else {
      FieldValueMeans(cfg, FinalKey(cfg, e), e.val);
    }
  }

  // ----- all values -----

  lemma PassedValue<R>(cfg: Config, heap: Heap<R>, warns: seq<Warn>, arr: seq<R>, r: R, skip: bool)
    requires InHeap(heap, arr) && r in heap && TagsAreStrings(heap)
    requires CheckOne(cfg, heap, warns, arr, r, skip).ok
    ensures ValueOk(cfg, CheckOne(cfg, heap, warns, arr, r, skip).heap[r])
  {
    var st := Progress(heap, true, warns);
    PassedMeans(cfg, heap, warns, arr, r, skip);
    RewriteIsFinal(cfg, st, arr, r);
    FinalValueOk(cfg, heap[r]);
  }

  ghost predicate ValuesOk<R>(cfg: Config, l: Loop<R>, i: nat)
    requires LoopOk(l, i)
  {
    forall p :: 0 <= p < l.idx ==> ValueOk(cfg, l.heap[l.arr[p]])
  }

  lemma RoundValues<R>(cfg: Config, l: Loop<R>, i: nat)
    requires LoopOk(l, i) && i < |l.arr| && Kept(cfg, l, i) && ValuesOk(cfg, l, i)
    ensures ValuesOk(cfg, Round(cfg, l, i, false), i + 1)
  {
    var c := CheckOne(cfg, l.heap, l.warns, l.arr, l.arr[i], false);
    assert forall p :: 0 <= p < l.idx ==> c.heap[l.arr[p]] == l.heap[l.arr[p]];
    if c.ok {
      PassedValue(cfg, l.heap, l.warns, l.arr, l.arr[i], false);
    }
  }

  lemma {:induction false} RoundsValues<R>(cfg: Config, l: Loop<R>, i: nat)
    requires LoopOk(l, i) && Kept(cfg, l, i) && ValuesOk(cfg, l, i)
    ensures var r := Rounds(cfg, l, i, false); ValuesOk(cfg, r, |r.arr|)
    decreases |l.arr| - i
  {
    if i < |l.arr| {
      RoundKept(cfg, l, i);
      RoundValues(cfg, l, i);
      RoundsValues(cfg, Round(cfg, l, i, false), i + 1);
    }
  }

  /** For every input, shared keys and shared pointers included, every surviving field has a value that can be stored. */
  lemma CheckedValues<R>(cfg: Config, heap: Heap<R>, arr: seq<R>, warns: seq<Warn>)
    requires InHeap(heap, arr) && TagsAreStrings(heap)
    ensures var l := CheckAll(cfg, heap, arr, warns); forall p :: 0 <= p < l.idx ==> ValueOk(cfg, l.heap[l.arr[p]])
  {
    FastPathIsLegacy(cfg, heap, arr, warns);
    RoundsValues(cfg, Loop(heap, arr, 0, warns), 0);
  }

  // ----- from rounds to the loop -----

  /** A relation between the loop at one element and at a later one. */
  type Relation<!R> = (Loop<R>, nat, Loop<R>, nat) -> bool

  ghost predicate Transitive<R(!new)>(p: Relation<R>) {
    && (forall l: Loop<R>, i: nat :: p(l, i, l, i))
    && (forall a: Loop<R>, i: nat, b: Loop<R>, j: nat, c: Loop<R>, k: nat :: p(a, i, b, j) && p(b, j, c, k) ==> p(a, i, c, k))
  }

  ghost predicate HoldsOfRounds<R(!new)>(cfg: Config, skip: bool, p: Relation<R>) {
    forall l: Loop<R>, i: nat :: LoopOk(l, i) && i < |l.arr| ==> p(l, i, Round(cfg, l, i, skip), i + 1)
  }

  /** What every round does, the loop does. */
  lemma {:induction false} RoundsRelate<R(!new)>(cfg: Config, l: Loop<R>, i: nat, skip: bool, p: Relation<R>)
    requires LoopOk(l, i) && Transitive(p) && HoldsOfRounds(cfg, skip, p)
    ensures p(l, i, Rounds(cfg, l, i, skip), |l.arr|)
    decreases |l.arr| - i
  {
    if i < |l.arr| {
      var l' := Round(cfg, l, i, skip);
      assert p(l, i, l', i + 1);
      RoundsRelate(cfg, l', i + 1, skip, p);
    }
  }

  // ----- checking again -----

  /** Checking changes nothing in the entry. */
  predicate Settled(cfg: Config, e: Entry) {
    KeyOk(cfg, e) && ValueOk(cfg, e) && (e.isTag ==> !EndsInBackslash(e.val.s))
  }

  lemma CleanStays(cfg: Config, e: Entry)
    requires Clean(cfg, e.isTag, e.key)
    ensures Cut(e.key, KeyLimit(cfg, e.isTag)) == e.key && Adjusted(e.key) == e.key && Undotted(cfg, e.key) == e.key
  {
    AdjustedAlready(e.key);
    if !cfg.dotInKey {
      assert Replace(e.key, DOT, UNDERSCORE) == e.key;
    }
  }

  lemma CleanKeyStays<R>(cfg: Config, heap: Heap<R>, warns: seq<Warn>, arr: seq<R>, r: R)
    requires InHeap(heap, arr) && r in heap && Clean(cfg, heap[r].isTag, heap[r].key)
    ensures RewriteKey(cfg, Progress(heap, true, warns), arr, r) == Progress(heap, true, warns)
  {
    CleanStays(cfg, heap[r]);
  }

  /** The value of an entry with a good key is kept as it is, exactly unless it is a tag's and ends in a backslash. */
  lemma ValueStays(cfg: Config, e: Entry)
    requires ValueOk(cfg, e)
    ensures var c := if e.isTag then TagValue(cfg, e.val.s) else FieldValue(cfg, e.key, e.val);
            c.ok && (c.val == e.val <==> e.isTag ==> !EndsInBackslash(e.val.s))
  {
    if e.isTag {
      TagValueMeans(cfg, e.val.s);
      if EndsInBackslash(e.val.s) {
        AdjustedClean(e.val.s);
        TrimAllClean(e.val.s);
      } else {
        AdjustedAlready(e.val.s);
      }
    } else {
      FieldValueMeans(cfg, e.key, e.val);
    }
  }

  /** A good entry whose key nobody shares is kept, and unchanged exactly when it is settled. */
  lemma CheckOneStays<R>(cfg: Config, heap: Heap<R>, warns: seq<Warn>, arr: seq<R>, i: nat, skip: bool)
    requires InHeap(heap, arr) && TagsAreStrings(heap) && i < |arr| && DistinctKeys(heap, arr)
    requires KeyOk(cfg, heap[arr[i]]) && ValueOk(cfg, heap[arr[i]])
    ensures var c := CheckOne(cfg, heap, warns, arr, arr[i], skip);
            c.ok && (c.heap == heap <==> Settled(cfg, heap[arr[i]])) && c.heap[arr[i]].key == heap[arr[i]].key
  {
    var (r, st) := (arr[i], Progress(heap, true, warns));
    CleanKeyStays(cfg, heap, warns, arr, r);
    CountAtMostOne(heap, arr, heap[r].key, i);
    assert AdmitKey(cfg, st, arr, r, skip) == st;
    ValueStays(cfg, heap[r]);
    var h := CheckValue(cfg, st, r).heap;
    if Settled(cfg, heap[r]) {
      assert h[r] == heap[r];
      assert h == heap;
    } else {
      assert h[r] != heap[r];
    }
  }

  /** All entries are good and their keys distinct: what a first check leaves. */
  ghost predicate AllGood<R>(cfg: Config, heap: Heap<R>, arr: seq<R>) {
    && InHeap(heap, arr) && TagsAreStrings(heap) && DistinctKeys(heap, arr)
    && forall r <- arr :: KeyOk(cfg, heap[r]) && ValueOk(cfg, heap[r])
  }

  lemma RoundStays<R>(cfg: Config, heap: Heap<R>, arr: seq<R>, warns: seq<Warn>, i: nat, skip: bool)
    requires AllGood(cfg, heap, arr) && i < |arr| && Settled(cfg, heap[arr[i]])
    ensures var l := Round(cfg, Loop(heap, arr, i, warns), i, skip); l == Loop(heap, arr, i + 1, l.warns)
  {
    CheckOneStays(cfg, heap, warns, arr, i, skip);
    assert arr[i := arr[i]] == arr;
  }

  ghost predicate AllSettled<R>(cfg: Config, heap: Heap<R>, arr: seq<R>)
    requires InHeap(heap, arr)
  {
    forall r <- arr :: Settled(cfg, heap[r])
  }

  lemma {:induction false} RoundsStay<R>(cfg: Config, heap: Heap<R>, arr: seq<R>, warns: seq<Warn>, i: nat, skip: bool)
    requires AllGood(cfg, heap, arr) && i <= |arr| && AllSettled(cfg, heap, arr)
    ensures Rounds(cfg, Loop(heap, arr, i, warns), i, skip).heap == heap
    decreases |arr| - i
  {
    if i < |arr| {
      RoundStays(cfg, heap, arr, warns, i, skip);
      RoundsStay(cfg, heap, arr, Round(cfg, Loop(heap, arr, i, warns), i, skip).warns, i + 1, skip);
    }
  }

  lemma RoundGood<R>(cfg: Config, l: Loop<R>, i: nat, skip: bool)
    requires LoopOk(l, i) && i < |l.arr| && l.idx == i && AllGood(cfg, l.heap, l.arr)
    ensures var l' := Round(cfg, l, i, skip); l'.arr == l.arr && l'.idx == i + 1 && AllGood(cfg, l'.heap, l'.arr)
  {
    var c := CheckOne(cfg, l.heap, l.warns, l.arr, l.arr[i], skip);
    CheckOneStays(cfg, l.heap, l.warns, l.arr, i, skip);
    PassedValue(cfg, l.heap, l.warns, l.arr, l.arr[i], skip);
    assert l.arr[i := l.arr[i]] == l.arr;
    forall r <- l.arr
      ensures c.heap[r].key == l.heap[r].key && KeyOk(cfg, c.heap[r]) && ValueOk(cfg, c.heap[r])
    {
      if r != l.arr[i] {
        assert c.heap[r] == l.heap[r];
      }
    }
  }

  /** From good entries, all kept so far, to good entries, all kept. */
  ghost predicate StaysGood<R>(cfg: Config, l: Loop<R>, i: nat, l': Loop<R>, j: nat) {
    l.idx == i && AllGood(cfg, l.heap, l.arr) ==> l'.arr == l.arr && l'.idx == j && AllGood(cfg, l'.heap, l'.arr)
  }

  lemma StaysGoodTransitive<R(!new)>(cfg: Config)
    ensures Transitive((l: Loop<R>, i: nat, l': Loop<R>, j: nat) => StaysGood(cfg, l, i, l', j))
  {
  }

  /** Good entries are all kept, in their places. */
  lemma RoundsGood<R(!new)>(cfg: Config, l: Loop<R>, i: nat, skip: bool)
    requires LoopOk(l, i)
    ensures StaysGood(cfg, l, i, Rounds(cfg, l, i, skip), |l.arr|)
  {
    var p := (l: Loop<R>, i: nat, l': Loop<R>, j: nat) => StaysGood(cfg, l, i, l', j);
    StaysGoodTransitive<R>(cfg);
    forall l: Loop<R>, i: nat | LoopOk(l, i) && i < |l.arr|
      ensures p(l, i, Round(cfg, l, i, skip), i + 1)
    {
      if l.idx == i && AllGood(cfg, l.heap, l.arr) {
        RoundGood(cfg, l, i, skip);
      }
    }
    RoundsRelate(cfg, l, i, skip, p);
  }

  /** An entry stays as it is exactly when it is settled, and what it becomes is settled. */
  lemma FinalSettled(cfg: Config, e: Entry)
    requires KeyOk(cfg, e) && ValueOk(cfg, e)
    ensures FinalEntry(cfg, e) == e <==> Settled(cfg, e)
    ensures Settled(cfg, FinalEntry(cfg, e))
  {
    CleanStays(cfg, e);
    ValueStays(cfg, e);
    if e.isTag {
      TagValueMeans(cfg, e.val.s);
      AdjustedClean(e.val.s);
      assert TagValue(cfg, e.val.s).val == S(Adjusted(e.val.s)) || e.val.s == [];
    } else {
      FieldValueMeans(cfg, e.key, e.val);
    }
  }

  /** Checking good entries keeps them all; it changes none exactly when all are settled, and leaves them all settled. */
  lemma GoodStays<R(!new)>(cfg: Config, heap: Heap<R>, arr: seq<R>, warns: seq<Warn>)
    requires AllGood(cfg, heap, arr)
    ensures var l := CheckAll(cfg, heap, arr, warns);
            && l.arr == arr && l.idx == |arr| && AllGood(cfg, l.heap, arr)
            && (l.heap == heap <==> AllSettled(cfg, heap, arr)) && AllSettled(cfg, l.heap, arr)
  {
    var l := CheckAll(cfg, heap, arr, warns);
    RoundsGood(cfg, Loop(heap, arr, 0, warns), 0, CanSkip(heap, arr));
    KeptInOrder(cfg, heap, arr, warns);
    forall r <- arr
      ensures l.heap[r] == FinalEntry(cfg, heap[r]) && Settled(cfg, l.heap[r]) && (l.heap[r] == heap[r] <==> Settled(cfg, heap[r]))
    {
      var p :| 0 <= p < |arr| && arr[p] == r;
      assert l.heap[l.arr[p]] == FinalEntry(cfg, heap[l.arr[p]]);
      FinalSettled(cfg, heap[r]);
    }
    if AllSettled(cfg, heap, arr) {
      RoundsStay(cfg, heap, arr, warns, 0, CanSkip(heap, arr));
    }
  }

  lemma CheckedIsGood<R>(cfg: Config, heap: Heap<R>, arr: seq<R>, warns: seq<Warn>)
    requires InHeap(heap, arr) && TagsAreStrings(heap)
    ensures var l := CheckAll(cfg, heap, arr, warns); AllGood(cfg, l.heap, l.arr[..l.idx])
  {
    CheckedKeys(cfg, heap, arr, warns);
    CheckedValues(cfg, heap, arr, warns);
  }

  /** Some tag's value ends in a backslash. */
  ghost predicate SomeTagUnsettled<R>(heap: Heap<R>, arr: seq<R>)
    requires InHeap(heap, arr) && TagsAreStrings(heap)
  {
    exists r <- arr :: heap[r].isTag && EndsInBackslash(heap[r].val.s)
  }

  /**
   Checking twice, for every input: the second check keeps every field of the first, and
   changes one if and only if the first left a tag value that ends in a backslash, cut off
   before more text. A third check never changes anything.
   */
  lemma CheckedTwice<R(!new)>(cfg: Config, heap: Heap<R>, arr: seq<R>, warns: seq<Warn>)
    requires InHeap(heap, arr) && TagsAreStrings(heap)
    ensures var l := CheckAll(cfg, heap, arr, warns);
            var kept := l.arr[..l.idx];
            && AllGood(cfg, l.heap, kept)
            && var l' := CheckAll(cfg, l.heap, kept, []);
               && l'.arr == kept && l'.idx == |kept| && AllGood(cfg, l'.heap, kept)
               && (l'.heap == l.heap <==> !SomeTagUnsettled(l.heap, kept))
               && CheckAll(cfg, l'.heap, kept, []).heap == l'.heap
  {
    var l := CheckAll(cfg, heap, arr, warns);
    var kept := l.arr[..l.idx];
    CheckedIsGood(cfg, heap, arr, warns);
    GoodStays(cfg, l.heap, kept, []);
    GoodStays(cfg, CheckAll(cfg, l.heap, kept, []).heap, kept, []);
  }

  // ----- keys, byte by byte -----

  /** What becomes of one byte of a key. */
  function KeyByte(cfg: Config, c: byte): byte {
    if c == 10 then 32 else if c == 46 && !cfg.dotInKey then 95 else c
  }

  /** The bytes of x from k on are backslashes. */
  predicate BackslashesFrom(x: Bytes, k: nat) {
    forall i :: k <= i < |x| ==> x[i] == 92
  }

  lemma {:induction false} TrimmedTail(x: Bytes)
    ensures BackslashesFrom(x, |TrimAll(x)|)
  {
    if x != [] && x[|x| - 1] == BACKSLASH {
      TrimmedTail(x[..|x| - 1]);
      TrimAllClean(x[..|x| - 1]);
      forall i | |TrimAll(x)| <= i < |x|
        ensures x[i] == 92
      {
        assert i < |x| - 1 ==> x[..|x| - 1][i] == x[i];
      }
    }
  }

  /** A key is cut at the limit for tags or for fields, loses the backslashes at its end, and has spaces for newlines and, where dots are off, underscores for dots. */
  lemma FinalKeyMeans(cfg: Config, e: Entry)
    ensures var (k, limit) := (FinalKey(cfg, e), if e.isTag then cfg.maxTagKeyLen else cfg.maxFieldKeyLen);
            var n := if 0 < limit < |e.key| then limit else |e.key|;
            && |k| <= n && (forall i :: 0 <= i < |k| ==> k[i] == KeyByte(cfg, e.key[i]))
            && BackslashesFrom(e.key[..n], |k|) && !EndsInBackslash(k)
  {
    var cut := Cut(e.key, KeyLimit(cfg, e.isTag));
    FinalKeyClean(cfg, e);
    TrimmedTail(cut);
    TrimAllClean(cut);
    TrimmedTail(Undotted(cfg, cut));
    TrimAllClean(Undotted(cfg, cut));
  }

  /** The limits of the configuration, tags and fields told apart, hold of every surviving field. */
  lemma LimitsKept<R>(cfg: Config, heap: Heap<R>, arr: seq<R>, warns: seq<Warn>, p: nat)
    requires InHeap(heap, arr) && TagsAreStrings(heap) && p < CheckAll(cfg, heap, arr, warns).idx
    ensures var l := CheckAll(cfg, heap, arr, warns);
            var e := l.heap[l.arr[p]];
            && (e.isTag && cfg.maxTagKeyLen > 0 ==> |e.key| <= cfg.maxTagKeyLen)
            && (!e.isTag && cfg.maxFieldKeyLen > 0 ==> |e.key| <= cfg.maxFieldKeyLen)
            && (e.isTag && cfg.maxTagValLen > 0 ==> |e.val.s| <= cfg.maxTagValLen)
            && (!e.isTag && e.val.S? && cfg.maxFieldValLen > 0 ==> |e.val.s| <= cfg.maxFieldValLen)
            && (!e.isTag && e.val.D? && cfg.maxFieldValLen > 0 ==> |e.val.d| <= cfg.maxFieldValLen)
  {
    CheckedKeys(cfg, heap, arr, warns);
    CheckedValues(cfg, heap, arr, warns);
  }

  // ----- no silent change -----

  /** The entry is the same, but for an unsigned number that is now signed. */
  predicate Same(e: Entry, e': Entry) {
    e'.key == e.key && e'.isTag == e.isTag && (e'.val == e.val || (e.val.U? && e'.val == I(e.val.u)))
  }

  /** Warnings are only added, and without a new one nothing happened. */
  ghost predicate Warned<R>(st: Progress<R>, st': Progress<R>) {
    |st'.warns| >= |st.warns| && (|st'.warns| == |st.warns| ==> st' == st)
  }

  lemma TruncateWarns<R>(cfg: Config, st: Progress<R>, arr: seq<R>, r: R)
    requires InHeap(st.heap, arr) && r in st.heap
    ensures Warned(st, TruncateKey(cfg, st, arr, r))
  {
  }

  lemma AdjustWarns<R>(st: Progress<R>, arr: seq<R>, r: R)
    requires InHeap(st.heap, arr) && r in st.heap
    ensures Warned(st, AdjustKey(st, arr, r))
  {
  }

  lemma UndotWarns<R>(cfg: Config, st: Progress<R>, arr: seq<R>, r: R)
    requires InHeap(st.heap, arr) && r in st.heap
    ensures Warned(st, UndotKey(cfg, st, arr, r))
  {
  }

  lemma RewriteWarns<R>(cfg: Config, st: Progress<R>, arr: seq<R>, r: R)
    requires InHeap(st.heap, arr) && r in st.heap
    ensures Warned(st, RewriteKey(cfg, st, arr, r))
  {
    var cut := TruncateKey(cfg, st, arr, r);
    TruncateWarns(cfg, st, arr, r);
    if st.heap[r].isTag {
      AdjustWarns(cut, arr, r);
      UndotWarns(cfg, AdjustKey(cut, arr, r), arr, r);
    } else {
      UndotWarns(cfg, cut, arr, r);
      AdjustWarns(UndotKey(cfg, cut, arr, r), arr, r);
    }
  }

  /** A field is kept without a warning only as it was. */
  lemma CheckOneWarns<R>(cfg: Config, heap: Heap<R>, warns: seq<Warn>, arr: seq<R>, r: R, skip: bool)
    requires InHeap(heap, arr) && r in heap && TagsAreStrings(heap)
    ensures var c := CheckOne(cfg, heap, warns, arr, r, skip);
            |c.warns| >= |warns| && (|c.warns| == |warns| ==> c.ok && Same(heap[r], c.heap[r]))
  {
    var st := Progress(heap, true, warns);
    var w := RewriteKey(cfg, st, arr, r);
    RewriteWarns(cfg, st, arr, r);
    var a := AdmitKey(cfg, w, arr, r, skip);
    if a.ok {
      var f := a.heap[r];
      if f.isTag {
        TagValueMeans(cfg, f.val.s);
      } else {
        FieldValueMeans(cfg, f.key, f.val);
      }
    }
  }

  /** From element i to element j of the loop: without a new warning everything was kept, and the entry of r is as it was. */
  ghost predicate Silent<R>(l: Loop<R>, i: nat, l': Loop<R>, j: nat, r: R) {
    && |l'.warns| >= |l.warns|
    && (|l'.warns| == |l.warns| ==> l'.idx - l.idx == j - i && (l.idx == i ==> l'.arr == l.arr))
    && (|l'.warns| == |l.warns| && r in l.heap ==> r in l'.heap && Same(l.heap[r], l'.heap[r]))
  }

  lemma SilentTransitive<R(!new)>(r: R)
    ensures Transitive((l: Loop<R>, i: nat, l': Loop<R>, j: nat) => Silent(l, i, l', j, r))
  {
  }

  lemma RoundSilent<R>(cfg: Config, l: Loop<R>, i: nat, skip: bool, r: R)
    requires LoopOk(l, i) && i < |l.arr|
    ensures Silent(l, i, Round(cfg, l, i, skip), i + 1, r)
  {
    CheckOneWarns(cfg, l.heap, l.warns, l.arr, l.arr[i], skip);
    assert l.idx == i ==> l.arr[l.idx := l.arr[i]] == l.arr;
  }

  lemma RoundsSilent<R(!new)>(cfg: Config, l: Loop<R>, i: nat, skip: bool, r: R)
    requires LoopOk(l, i)
    ensures Silent(l, i, Rounds(cfg, l, i, skip), |l.arr|, r)
  {
    var p := (l: Loop<R>, i: nat, l': Loop<R>, j: nat) => Silent(l, i, l', j, r);
    SilentTransitive(r);
    forall l: Loop<R>, i: nat | LoopOk(l, i) && i < |l.arr|
      ensures p(l, i, Round(cfg, l, i, skip), i + 1)
    {
      RoundSilent(cfg, l, i, skip, r);
    }
    RoundsRelate(cfg, l, i, skip, p);
  }

  /** Nothing is changed or lost in silence: a check that adds no warning keeps every field, in its place and as it was, but for unsigned numbers made signed. */
  lemma NoSilentChange<R(!new)>(cfg: Config, heap: Heap<R>, arr: seq<R>, warns: seq<Warn>, r: R)
    requires InHeap(heap, arr) && TagsAreStrings(heap) && r in heap
    ensures var l := CheckAll(cfg, heap, arr, warns);
            |l.warns| >= |warns| && (|l.warns| == |warns| ==> l.idx == |arr| && l.arr == arr && r in l.heap && Same(heap[r], l.heap[r]))
  {
    RoundsSilent(cfg, Loop(heap, arr, 0, warns), 0, CanSkip(heap, arr), r);
  }
}
