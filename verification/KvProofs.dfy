/** What the key-value checker guarantees, for every slice and every configuration. */
module KvProofs {
  import opened KvCheck
  import opened Wrappers

  // ----- counting -----

  lemma {:induction false} CountAtMostOne<R>(heap: Heap<R>, arr: seq<R>, key: Bytes, i: nat)
    requires InHeap(heap, arr) && forall p :: 0 <= p < |arr| && p != i ==> heap[arr[p]].key != key
    ensures CountKey(heap, arr, key) <= if i < |arr| then 1 else 0
  {
    if arr != [] {
      CountAtMostOne(heap, arr[..|arr| - 1], key, i);
    }
  }

  lemma {:induction false} CountAtLeast<R>(heap: Heap<R>, arr: seq<R>, key: Bytes, p: nat)
    requires InHeap(heap, arr) && p < |arr| && heap[arr[p]].key == key
    ensures CountKey(heap, arr, key) >= 1
  {
    if p < |arr| - 1 {
      CountAtLeast(heap, arr[..|arr| - 1], key, p);
    }
  }

  lemma {:induction false} CountTwo<R>(heap: Heap<R>, arr: seq<R>, key: Bytes, p: nat, q: nat)
    requires InHeap(heap, arr) && p < q < |arr| && heap[arr[p]].key == key && heap[arr[q]].key == key
    ensures CountKey(heap, arr, key) >= 2
  {
    var init := arr[..|arr| - 1];
    if q < |arr| - 1 {
      CountTwo(heap, init, key, p, q);
    } else {
      CountAtLeast(heap, init, key, p);
    }
  }

  // ----- distinct keys: the conflict scans find nothing -----

  /** Different fields of the slice have different keys. */
  ghost predicate KeysApart<R>(heap: Heap<R>, arr: seq<R>)
    requires InHeap(heap, arr)
  {
    forall x <- arr, y <- arr :: x != y ==> heap[x].key != heap[y].key
  }

  /** A field not yet checked stands in one place only. */
  ghost predicate RestOnce<R>(arr: seq<R>, i: nat) {
    forall j, p :: i <= j < |arr| && 0 <= p < |arr| && p != j ==> arr[p] != arr[j]
  }

  lemma RewriteApart<R>(cfg: Config, st: Progress<R>, arr: seq<R>, r: R)
    requires InHeap(st.heap, arr) && r in st.heap && KeysApart(st.heap, arr)
    ensures KeysApart(RewriteKey(cfg, st, arr, r).heap, arr)
  {
    var cut := TruncateKey(cfg, st, arr, r);
    TruncateApart(cfg, st, arr, r);
    if st.heap[r].isTag {
      AdjustApart(cut, arr, r);
      UndotApart(cfg, AdjustKey(cut, arr, r), arr, r);
    } else {
      UndotApart(cfg, cut, arr, r);
      AdjustApart(UndotKey(cfg, cut, arr, r), arr, r);
    }
  }

  lemma TruncateApart<R>(cfg: Config, st: Progress<R>, arr: seq<R>, r: R)
    requires InHeap(st.heap, arr) && r in st.heap && KeysApart(st.heap, arr)
    ensures KeysApart(TruncateKey(cfg, st, arr, r).heap, arr)
  {
  }

  lemma AdjustApart<R>(st: Progress<R>, arr: seq<R>, r: R)
    requires InHeap(st.heap, arr) && r in st.heap && KeysApart(st.heap, arr)
    ensures KeysApart(AdjustKey(st, arr, r).heap, arr)
  {
  }

  lemma UndotApart<R>(cfg: Config, st: Progress<R>, arr: seq<R>, r: R)
    requires InHeap(st.heap, arr) && r in st.heap && KeysApart(st.heap, arr)
    ensures KeysApart(UndotKey(cfg, st, arr, r).heap, arr)
  {
  }

  /** With the keys apart, the field being checked is the only one with its key, so the scan finds no conflict. */
  lemma NoConflict<R>(heap: Heap<R>, arr: seq<R>, i: nat)
    requires InHeap(heap, arr) && KeysApart(heap, arr) && RestOnce(arr, i) && i < |arr|
    ensures CountKey(heap, arr, heap[arr[i]].key) <= 1
  {
    forall p | 0 <= p < |arr| && p != i
      ensures heap[arr[p]].key != heap[arr[i]].key
    {
      assert arr[p] in arr && arr[i] in arr && arr[p] != arr[i];
    }
    CountAtMostOne(heap, arr, heap[arr[i]].key, i);
  }

  ghost predicate Apart<R>(l: Loop<R>, i: nat)
    requires LoopOk(l, i)
  {
    KeysApart(l.heap, l.arr) && RestOnce(l.arr, i)
  }

  lemma CheckOneSame<R>(cfg: Config, l: Loop<R>, i: nat)
    requires LoopOk(l, i) && i < |l.arr| && Apart(l, i)
    ensures CheckOne(cfg, l.heap, l.warns, l.arr, l.arr[i], true) == CheckOne(cfg, l.heap, l.warns, l.arr, l.arr[i], false)
    ensures KeysApart(CheckOne(cfg, l.heap, l.warns, l.arr, l.arr[i], true).heap, l.arr)
  {
    var st, r := Progress(l.heap, true, l.warns), l.arr[i];
    RewriteApart(cfg, st, l.arr, r);
    NoConflict(RewriteKey(cfg, st, l.arr, r).heap, l.arr, i);
    CheckValueApart(cfg, AdmitKey(cfg, RewriteKey(cfg, st, l.arr, r), l.arr, r, true), l.arr, r);
  }

  lemma CheckValueApart<R>(cfg: Config, st: Progress<R>, arr: seq<R>, r: R)
    requires InHeap(st.heap, arr) && r in st.heap && TagsAreStrings(st.heap) && KeysApart(st.heap, arr)
    ensures KeysApart(CheckValue(cfg, st, r).heap, arr)
  {
  }

  /** Moving the kept element down leaves the rest in one place each. */
  lemma RoundApart<R>(cfg: Config, l: Loop<R>, i: nat)
    requires LoopOk(l, i) && i < |l.arr| && Apart(l, i)
    ensures Apart(Round(cfg, l, i, true), i + 1) && Round(cfg, l, i, true) == Round(cfg, l, i, false)
  {
    CheckOneSame(cfg, l, i);
    var l' := Round(cfg, l, i, true);
    forall x <- l'.arr
      ensures x in l.arr
    {
    }
  }

  lemma {:induction false} RoundsSame<R>(cfg: Config, l: Loop<R>, i: nat)
    requires LoopOk(l, i) && Apart(l, i)
    ensures Rounds(cfg, l, i, true) == Rounds(cfg, l, i, false)
    decreases |l.arr| - i
  {
    if i < |l.arr| {
      RoundApart(cfg, l, i);
      RoundsSame(cfg, Round(cfg, l, i, true), i + 1);
    }
  }

  lemma DistinctIsApart<R>(heap: Heap<R>, arr: seq<R>, warns: seq<Warn>)
    requires InHeap(heap, arr) && TagsAreStrings(heap) && DistinctKeys(heap, arr)
    ensures Apart(Loop(heap, arr, 0, warns), 0)
  {
  }

  /** With distinct keys, skipping the conflict scans changes nothing: the same fields, contents and warnings. */
  lemma SkipChangesNothing<R>(cfg: Config, heap: Heap<R>, arr: seq<R>, warns: seq<Warn>)
    requires InHeap(heap, arr) && TagsAreStrings(heap) && DistinctKeys(heap, arr)
    ensures Rounds(cfg, Loop(heap, arr, 0, warns), 0, true) == Rounds(cfg, Loop(heap, arr, 0, warns), 0, false)
  {
    DistinctIsApart(heap, arr, warns);
    RoundsSame(cfg, Loop(heap, arr, 0, warns), 0);
  }

  /** So the checker computes what it would without the fast path, on every input. */
  lemma FastPathIsLegacy<R>(cfg: Config, heap: Heap<R>, arr: seq<R>, warns: seq<Warn>)
    requires InHeap(heap, arr) && TagsAreStrings(heap)
    ensures CheckAll(cfg, heap, arr, warns) == Rounds(cfg, Loop(heap, arr, 0, warns), 0, false)
  {
    if CanSkip(heap, arr) {
      SkipChangesNothing(cfg, heap, arr, warns);
    }
  }

  // ----- what survives -----

  /** The key a field ends up with. */
  function FinalKey(cfg: Config, e: Entry): Bytes {
    var cut := Cut(e.key, KeyLimit(cfg, e.isTag));
    if e.isTag then Undotted(cfg, Adjusted(cut)) else Adjusted(Undotted(cfg, cut))
  }

  /** A key without newline, trailing backslash, or dots when they are off, and within its limit. */
  predicate Clean(cfg: Config, isTag: bool, key: Bytes) {
    && NEWLINE !in key
    && (key != [] ==> key[|key| - 1] != BACKSLASH)
    && (!cfg.dotInKey ==> DOT !in key)
    && (KeyLimit(cfg, isTag) > 0 ==> |key| <= KeyLimit(cfg, isTag))
  }

  lemma {:induction false} TrimAllClean(x: Bytes)
    ensures |TrimAll(x)| <= |x| && TrimAll(x) == x[..|TrimAll(x)|]
    ensures TrimAll(x) != [] ==> TrimAll(x)[|TrimAll(x)| - 1] != BACKSLASH
  {
    if x != [] && x[|x| - 1] == BACKSLASH {
      TrimAllClean(x[..|x| - 1]);
    }
  }

  lemma AdjustedClean(x: Bytes)
    ensures var a := Adjusted(x); |a| <= |x| && NEWLINE !in a && (a != [] ==> a[|a| - 1] != BACKSLASH) && (DOT !in x ==> DOT !in a)
  {
    TrimAllClean(x);
  }

  lemma FinalKeyClean(cfg: Config, e: Entry)
    ensures Clean(cfg, e.isTag, FinalKey(cfg, e))
  {
    var cut := Cut(e.key, KeyLimit(cfg, e.isTag));
    AdjustedClean(cut);
    AdjustedClean(Undotted(cfg, cut));
  }

  lemma RewriteIsFinal<R>(cfg: Config, st: Progress<R>, arr: seq<R>, r: R)
    requires InHeap(st.heap, arr) && r in st.heap && RewriteKey(cfg, st, arr, r).ok
    ensures RewriteKey(cfg, st, arr, r).heap[r].key == FinalKey(cfg, st.heap[r])
  {
  }

  /** Not empty and not disabled. */
  predicate Allowed(cfg: Config, key: Bytes) {
    key != [] && key !in cfg.disabledKeys
  }

  function FinalValue(cfg: Config, e: Entry): Value
    requires e.isTag ==> e.val.S?
  {
    if e.isTag then TagValue(cfg, e.val.s).val else FieldValue(cfg, FinalKey(cfg, e), e.val).val
  }

  /** What is known of a field that passes its check. */
  lemma PassedMeans<R>(cfg: Config, heap: Heap<R>, warns: seq<Warn>, arr: seq<R>, r: R, skip: bool)
    requires InHeap(heap, arr) && r in heap && TagsAreStrings(heap)
    requires CheckOne(cfg, heap, warns, arr, r, skip).ok
    ensures var h := CheckOne(cfg, heap, warns, arr, r, skip).heap;
            && h[r] == Entry(FinalKey(cfg, heap[r]), heap[r].isTag, FinalValue(cfg, heap[r]))
            && Allowed(cfg, h[r].key) && Clean(cfg, h[r].isTag, h[r].key)
            && (!skip ==> CountKey(h, arr, h[r].key) <= 1)
  {
    var st := Progress(heap, true, warns);
    var w := RewriteKey(cfg, st, arr, r);
    var a := AdmitKey(cfg, w, arr, r, skip);
    RewriteIsFinal(cfg, st, arr, r);
    FinalKeyClean(cfg, heap[r]);
    CountSame(a.heap, CheckValue(cfg, a, r).heap, arr, a.heap[r].key);
  }

  lemma {:induction false} CountSame<R>(heap: Heap<R>, heap': Heap<R>, arr: seq<R>, key: Bytes)
    requires InHeap(heap, arr) && InHeap(heap', arr) && forall x <- arr :: heap'[x].key == heap[x].key
    ensures CountKey(heap', arr, key) == CountKey(heap, arr, key)
  {
    if arr != [] {
      CountSame(heap, heap', arr[..|arr| - 1], key);
    }
  }

  /** The kept fields: distinct allowed clean keys, and none of them still to be checked. */
  ghost predicate Kept<R>(cfg: Config, l: Loop<R>, i: nat)
    requires LoopOk(l, i)
  {
    && (forall p, q :: 0 <= p < q < l.idx ==> l.heap[l.arr[p]].key != l.heap[l.arr[q]].key)
    && (forall p :: 0 <= p < l.idx ==> KeyOk(cfg, l.heap[l.arr[p]]))
    && (forall p, j :: 0 <= p < l.idx && i <= j < |l.arr| ==> l.arr[p] != l.arr[j])
  }

  predicate KeyOk(cfg: Config, e: Entry) {
    Allowed(cfg, e.key) && Clean(cfg, e.isTag, e.key)
  }

  /** A field that passes shares its key with no other place of the slice, its own later ones included. */
  lemma PassedAlone<R>(cfg: Config, l: Loop<R>, i: nat, p: nat)
    requires LoopOk(l, i) && i < |l.arr| && CheckOne(cfg, l.heap, l.warns, l.arr, l.arr[i], false).ok && p < |l.arr| && p != i
    ensures var h := CheckOne(cfg, l.heap, l.warns, l.arr, l.arr[i], false).heap; h[l.arr[p]].key != h[l.arr[i]].key && l.arr[p] != l.arr[i]
  {
    var r := l.arr[i];
    PassedMeans(cfg, l.heap, l.warns, l.arr, r, false);
    var h := CheckOne(cfg, l.heap, l.warns, l.arr, r, false).heap;
    if h[l.arr[p]].key == h[r].key {
      CountTwo(h, l.arr, h[r].key, if p < i then p else i, if p < i then i else p);
    }
  }

  /** One more is kept, with a good key that no other place of the slice has. */
  lemma KeptGrows<R>(cfg: Config, l: Loop<R>, l': Loop<R>, i: nat)
    requires LoopOk(l, i) && LoopOk(l', i + 1) && i < |l.arr| && Kept(cfg, l, i)
    requires l'.idx == l.idx + 1 && l'.arr == l.arr[l.idx := l.arr[i]] && l'.heap.Keys == l.heap.Keys
    requires forall p :: 0 <= p < l.idx ==> l'.heap[l.arr[p]] == l.heap[l.arr[p]]
    requires KeyOk(cfg, l'.heap[l.arr[i]])
    requires forall p :: 0 <= p < |l.arr| && p != i ==> l'.heap[l.arr[p]].key != l'.heap[l.arr[i]].key && l.arr[p] != l.arr[i]
    ensures Kept(cfg, l', i + 1)
  {
    assert l'.arr[l.idx] == l.arr[i] && forall p :: 0 <= p < |l.arr| && p != l.idx ==> l'.arr[p] == l.arr[p];
  }

  lemma RoundKept<R>(cfg: Config, l: Loop<R>, i: nat)
    requires LoopOk(l, i) && i < |l.arr| && Kept(cfg, l, i)
    ensures Kept(cfg, Round(cfg, l, i, false), i + 1)
  {
    var c := CheckOne(cfg, l.heap, l.warns, l.arr, l.arr[i], false);
    var l' := Round(cfg, l, i, false);
    assert forall p :: 0 <= p < l.idx ==> c.heap[l.arr[p]] == l.heap[l.arr[p]];
    if c.ok {
      PassedMeans(cfg, l.heap, l.warns, l.arr, l.arr[i], false);
      forall p: nat | p < |l.arr| && p != i
        ensures c.heap[l.arr[p]].key != c.heap[l.arr[i]].key && l.arr[p] != l.arr[i]
      {
        PassedAlone(cfg, l, i, p);
      }
      KeptGrows(cfg, l, l', i);
    }
  }

  lemma {:induction false} RoundsKept<R>(cfg: Config, l: Loop<R>, i: nat)
    requires LoopOk(l, i) && Kept(cfg, l, i)
    ensures var r := Rounds(cfg, l, i, false); Kept(cfg, r, |r.arr|)
    decreases |l.arr| - i
  {
    if i < |l.arr| {
      RoundKept(cfg, l, i);
      RoundsKept(cfg, Round(cfg, l, i, false), i + 1);
    }
  }

  /** For every input, shared keys and shared pointers included, the kept fields have distinct keys, each allowed and clean. */
  lemma CheckedKeys<R>(cfg: Config, heap: Heap<R>, arr: seq<R>, warns: seq<Warn>)
    requires InHeap(heap, arr) && TagsAreStrings(heap)
    ensures var l := CheckAll(cfg, heap, arr, warns);
            && (forall p, q :: 0 <= p < q < l.idx ==> l.heap[l.arr[p]].key != l.heap[l.arr[q]].key)
            && (forall p :: 0 <= p < l.idx ==> KeyOk(cfg, l.heap[l.arr[p]]))
  {
    FastPathIsLegacy(cfg, heap, arr, warns);
    RoundsKept(cfg, Loop(heap, arr, 0, warns), 0);
  }

  // ----- order and contents -----

  ghost predicate Subsequence<R>(xs: seq<R>, ys: seq<R>) {
    || xs == []
    || (ys != [] && xs[|xs| - 1] == ys[|ys| - 1] && Subsequence(xs[..|xs| - 1], ys[..|ys| - 1]))
    || (ys != [] && Subsequence(xs, ys[..|ys| - 1]))
  }

  /** What is kept so far stands in its order, and the rest where it stood. */
  ghost predicate Ordered<R>(arr: seq<R>, l: Loop<R>, i: nat)
    requires LoopOk(l, i)
  {
    && |l.arr| == |arr| && Subsequence(l.arr[..l.idx], arr[..i])
    && forall j :: i <= j < |arr| ==> l.arr[j] == arr[j]
  }

  /** Element i is dropped, or moves to position idx. */
  lemma SubsequenceNext<R>(arr: seq<R>, a: seq<R>, idx: nat, i: nat)
    requires idx <= i < |arr| == |a| && Subsequence(a[..idx], arr[..i])
    ensures Subsequence(a[..idx], arr[..i + 1])
    ensures Subsequence(a[idx := arr[i]][..idx + 1], arr[..i + 1])
  {
    assert arr[..i + 1] == arr[..i] + [arr[i]] && arr[..i + 1][..i] == arr[..i];
    SubsequenceGrows(a[..idx], arr[..i], arr[i]);
    assert a[idx := arr[i]][..idx + 1] == a[..idx] + [arr[i]];
  }

  lemma RoundOrdered<R>(cfg: Config, arr: seq<R>, l: Loop<R>, i: nat, skip: bool)
    requires LoopOk(l, i) && Ordered(arr, l, i) && i < |arr|
    ensures Ordered(arr, Round(cfg, l, i, skip), i + 1)
  {
    SubsequenceNext(arr, l.arr, l.idx, i);
  }

  function FinalEntry(cfg: Config, e: Entry): Entry
    requires e.isTag ==> e.val.S?
  {
    Entry(FinalKey(cfg, e), e.isTag, FinalValue(cfg, e))
  }

  /** What is kept was rewritten from what it was, and the rest is as it was. */
  ghost predicate Rewritten<R>(cfg: Config, heap: Heap<R>, arr: seq<R>, l: Loop<R>, i: nat)
    requires LoopOk(l, i) && InHeap(heap, arr) && TagsAreStrings(heap)
  {
    && |l.arr| == |arr|
    && (forall j :: i <= j < |arr| ==> l.heap[l.arr[j]] == heap[arr[j]])
    && (forall p :: 0 <= p < l.idx ==> l.arr[p] in arr[..i] && l.heap[l.arr[p]] == FinalEntry(cfg, heap[l.arr[p]]))
  }

  /** The elements from i on are where they were. */
  ghost predicate RestInPlace<R>(arr: seq<R>, l: Loop<R>, i: nat) {
    |l.arr| == |arr| && forall j :: i <= j < |arr| ==> l.arr[j] == arr[j]
  }

  /** Element i stands in no other place. */
  ghost predicate OnlyHere<R>(arr: seq<R>, i: nat)
    requires i < |arr|
  {
    arr[i] !in arr[..i] && forall j :: i < j < |arr| ==> arr[j] != arr[i]
  }

  lemma RoundRewritten<R>(cfg: Config, heap: Heap<R>, arr: seq<R>, l: Loop<R>, i: nat, skip: bool)
    requires LoopOk(l, i) && InHeap(heap, arr) && TagsAreStrings(heap)
    requires RestInPlace(arr, l, i) && Rewritten(cfg, heap, arr, l, i) && i < |arr| && OnlyHere(arr, i)
    ensures Rewritten(cfg, heap, arr, Round(cfg, l, i, skip), i + 1)
  {
    var r := arr[i];
    if CheckOne(cfg, l.heap, l.warns, l.arr, r, skip).ok {
      PassedMeans(cfg, l.heap, l.warns, l.arr, r, skip);
    }
    MoveRewritten(cfg, heap, arr, l, Round(cfg, l, i, skip), i);
  }

  /** The loop moves on from element i, of which alone the contents may have changed. */
  ghost predicate MovesOn<R>(cfg: Config, heap: Heap<R>, arr: seq<R>, l: Loop<R>, l': Loop<R>, i: nat)
    requires InHeap(heap, arr) && TagsAreStrings(heap) && i < |arr|
  {
    && OnlyAt(l.heap, l'.heap, arr[i])
    && ((l'.idx == l.idx && l'.arr == l.arr)
        || (l'.idx == l.idx + 1 && l.idx < |l.arr| && l'.arr == l.arr[l.idx := arr[i]] && l'.heap[arr[i]] == FinalEntry(cfg, heap[arr[i]])))
  }

  lemma RestAsItWas<R>(cfg: Config, heap: Heap<R>, arr: seq<R>, l: Loop<R>, l': Loop<R>, i: nat, j: nat)
    requires LoopOk(l, i) && LoopOk(l', i + 1) && InHeap(heap, arr) && TagsAreStrings(heap)
    requires RestInPlace(arr, l, i) && Rewritten(cfg, heap, arr, l, i) && i + 1 <= j < |arr| && arr[i] != arr[j]
    requires MovesOn(cfg, heap, arr, l, l', i)
    ensures l'.heap[l'.arr[j]] == heap[arr[j]]
  {
    assert l'.arr[j] == l.arr[j] == arr[j];
  }

  lemma KeptAsItWas<R>(cfg: Config, heap: Heap<R>, arr: seq<R>, l: Loop<R>, l': Loop<R>, i: nat, p: nat)
    requires LoopOk(l, i) && LoopOk(l', i + 1) && InHeap(heap, arr) && TagsAreStrings(heap) && i < |arr|
    requires Rewritten(cfg, heap, arr, l, i) && arr[i] !in arr[..i] && p < l.idx
    requires MovesOn(cfg, heap, arr, l, l', i)
    ensures l'.arr[p] == l.arr[p] && l'.arr[p] in arr[..i] && l'.heap[l'.arr[p]] == FinalEntry(cfg, heap[l'.arr[p]])
  {
    assert l'.arr[p] == l.arr[p] && l.arr[p] in arr[..i];
  }

  lemma MoveRewritten<R>(cfg: Config, heap: Heap<R>, arr: seq<R>, l: Loop<R>, l': Loop<R>, i: nat)
    requires LoopOk(l, i) && LoopOk(l', i + 1) && InHeap(heap, arr) && TagsAreStrings(heap)
    requires RestInPlace(arr, l, i) && Rewritten(cfg, heap, arr, l, i) && i < |arr| && OnlyHere(arr, i)
    requires MovesOn(cfg, heap, arr, l, l', i)
    ensures Rewritten(cfg, heap, arr, l', i + 1)
  {
    assert arr[..i + 1] == arr[..i] + [arr[i]];
    forall j | i + 1 <= j < |arr|
      ensures l'.heap[l'.arr[j]] == heap[arr[j]]
    {
      RestAsItWas(cfg, heap, arr, l, l', i, j);
    }
    forall p | 0 <= p < l'.idx
      ensures l'.arr[p] in arr[..i + 1] && l'.heap[l'.arr[p]] == FinalEntry(cfg, heap[l'.arr[p]])
    {
      if p < l.idx {
        KeptAsItWas(cfg, heap, arr, l, l', i, p);
      }
    }
  }

  lemma SubsequenceGrows<R>(xs: seq<R>, ys: seq<R>, r: R)
    requires Subsequence(xs, ys)
    ensures Subsequence(xs + [r], ys + [r])
  {
  }

  lemma {:induction false} RoundsProgress<R>(cfg: Config, heap: Heap<R>, arr: seq<R>, l: Loop<R>, i: nat, skip: bool)
    requires LoopOk(l, i) && InHeap(heap, arr) && TagsAreStrings(heap)
    requires Ordered(arr, l, i) && Rewritten(cfg, heap, arr, l, i)
    requires forall p, q :: 0 <= p < q < |arr| ==> arr[p] != arr[q]
    ensures Ordered(arr, Rounds(cfg, l, i, skip), |arr|) && Rewritten(cfg, heap, arr, Rounds(cfg, l, i, skip), |arr|)
    decreases |arr| - i
  {
    if i < |arr| {
      RoundOrdered(cfg, arr, l, i, skip);
      RoundRewritten(cfg, heap, arr, l, i, skip);
      RoundsProgress(cfg, heap, arr, Round(cfg, l, i, skip), i + 1, skip);
    }
  }

  /** With distinct pointers, compacting in place keeps the order, and every kept field is its own rewritten original. */
  lemma KeptInOrder<R>(cfg: Config, heap: Heap<R>, arr: seq<R>, warns: seq<Warn>)
    requires InHeap(heap, arr) && TagsAreStrings(heap) && forall p, q :: 0 <= p < q < |arr| ==> arr[p] != arr[q]
    ensures var l := CheckAll(cfg, heap, arr, warns);
            && Subsequence(l.arr[..l.idx], arr)
            && forall p :: 0 <= p < l.idx ==>
                             && l.arr[p] in arr
                             && l.heap[l.arr[p]] == FinalEntry(cfg, heap[l.arr[p]])
  {
    RoundsProgress(cfg, heap, arr, Loop(heap, arr, 0, warns), 0, CanSkip(heap, arr));
    assert arr[..|arr|] == arr;
  }
}
