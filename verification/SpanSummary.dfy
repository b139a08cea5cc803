/**
 The span summary a packet carries (aggregate/tail-sampling.go:593-729) and its
 merge (aggregate/timewheel.go:234-252).
 */
module SpanSummary {
  import opened Filter
  import opened Wrappers

  datatype Summary = Summary(
    error: bool, httpError: bool, bizError: bool, traceKeep: bool,
    maxSpan: int, root: int, maxNonroot: int)

  const ZERO := Summary(false, false, false, false, 0, 0, 0)

  /** isHTTPErrorStatus: exactly three bytes, 4xx or 5xx. */
  predicate IsHttpErrorStatus(code: string) {
    |code| == 3 && (code[0] == '4' || code[0] == '5') && '0' <= code[1] <= '9' && '0' <= code[2] <= '9'
  }

  function Max(a: int, b: int): int {
    if b > a then b else a
  }

  /** Go's float64 to int64 conversion, inside the int64 range. */
  function Truncate(f: real): int {
    if f >= 0.0 then f.Floor else -((-f).Floor)
  }

  predicate Tagged(span: Span, key: string, s: string) {
    key in span && span[key] == Str(s)
  }

  predicate HasError(span: Span) { Tagged(span, "status", "error") }

  predicate HasHttpError(span: Span) {
    "http_status_code" in span && span["http_status_code"].Str? && IsHttpErrorStatus(span["http_status_code"].s)
  }

  predicate HasBizError(span: Span) {
    "body_code" in span && span["body_code"].Str? && span["body_code"].s != "0" && span["body_code"].s != "200"
  }

  predicate HasTraceKeep(span: Span) { "trace_keep" in span && span["trace_keep"] == Bool(true) }

  /** The duration that enters the summary: an int64, or a float64 truncated. */
  function SummaryDuration(span: Span): Option<int> {
    if "duration" !in span then None
    else
      match span["duration"]
      case Int(d) => Some(d)
      case Float(f) => Some(Truncate(f))
      case _ => None
  }

  predicate IsRoot(span: Span) { Tagged(span, "parent_id", "0") }

  predicate IsChild(span: Span) {
    "parent_id" in span && span["parent_id"].Str? && span["parent_id"].s != "0"
  }

  /** What applySpanPredicatesWith reads off one span. */
  datatype Facts = Facts(
    error: bool, httpError: bool, bizError: bool, traceKeep: bool,
    duration: Option<int>, root: bool, child: bool)

  function FactsOf(span: Span): Facts {
    Facts(HasError(span), HasHttpError(span), HasBizError(span), HasTraceKeep(span),
          SummaryDuration(span), IsRoot(span), IsChild(span))
  }

  function Record(s: Summary, f: Facts): Summary {
    var flagged := s.(
      error := s.error || f.error, httpError := s.httpError || f.httpError,
      bizError := s.bizError || f.bizError, traceKeep := s.traceKeep || f.traceKeep);
    match f.duration
    case None => flagged
    case Some(d) =>
      flagged.(
      maxSpan := Max(s.maxSpan, d),
      root := if f.root then Max(s.root, d) else s.root,
      maxNonroot := if f.child then Max(s.maxNonroot, d) else s.maxNonroot)
  }

  /** applySpanPredicatesWith: one span's contribution. */
  function Absorb(s: Summary, span: Span): Summary {
    Record(s, FactsOf(span))
  }

  /** The summary of a span list, oldest span first. */
  function Summarize(spans: seq<Span>): Summary {
    if spans == [] then ZERO else Absorb(Summarize(spans[..|spans| - 1]), spans[|spans| - 1])
  }

  /** mergeSpanPredicates. */
  function Merge(dst: Summary, src: Summary): Summary {
    Summary(
      dst.error || src.error, dst.httpError || src.httpError,
      dst.bizError || src.bizError, dst.traceKeep || src.traceKeep,
      Max(dst.maxSpan, src.maxSpan), Max(dst.root, src.root), Max(dst.maxNonroot, src.maxNonroot))
  }

  predicate NonNegative(s: Summary) {
    s.maxSpan >= 0 && s.root >= 0 && s.maxNonroot >= 0
  }

  /** packetHasSpanPredicates: the summary is trusted only when some field is set. */
  predicate HasPredicates(s: Summary) {
    s.error || s.httpError || s.bizError || s.traceKeep || s.maxSpan > 0 || s.root > 0 || s.maxNonroot > 0
  }

  lemma {:induction false} SummarizeNonNegative(spans: seq<Span>)
    ensures NonNegative(Summarize(spans))
  {
    if spans != [] {
      SummarizeNonNegative(spans[..|spans| - 1]);
    }
  }

  lemma MaxAssociates(a: int, b: int, c: int)
    ensures Max(Max(a, b), c) == Max(a, Max(b, c))
  {
  }

  lemma RecordMerge(a: Summary, b: Summary, f: Facts)
    ensures Record(Merge(a, b), f) == Merge(a, Record(b, f))
  {
    if f.duration.Some? {
      var d := f.duration.value;
      MaxAssociates(a.maxSpan, b.maxSpan, d);
      MaxAssociates(a.root, b.root, d);
      MaxAssociates(a.maxNonroot, b.maxNonroot, d);
    }
  }

  /** The summary of concatenated span lists is the merge of the two summaries. */
  lemma {:induction false} SummarizeConcat(a: seq<Span>, b: seq<Span>)
    ensures Summarize(a + b) == Merge(Summarize(a), Summarize(b))
    decreases |b|
  {
    if b == [] {
      assert a + b == a;
      SummarizeNonNegative(a);
    } else {
      var init, last := b[..|b| - 1], b[|b| - 1];
      assert (a + b)[..|a + b| - 1] == a + init;
      SummarizeConcat(a, init);
      RecordMerge(Summarize(a), Summarize(init), FactsOf(last));
    }
  }

  /** Merging is a commutative, associative, idempotent operation with unit ZERO, so order does not matter. */
  lemma MergeLaws(a: Summary, b: Summary, c: Summary)
    ensures Merge(a, b) == Merge(b, a)
    ensures Merge(a, Merge(b, c)) == Merge(Merge(a, b), c)
    ensures Merge(a, a) == a
    ensures NonNegative(a) ==> Merge(a, ZERO) == a
  {
  }

  function MergeAll(lists: seq<seq<Span>>): Summary {
    if lists == [] then ZERO else Merge(Summarize(lists[0]), MergeAll(lists[1..]))
  }

  function Flatten(lists: seq<seq<Span>>): seq<Span> {
    if lists == [] then [] else lists[0] + Flatten(lists[1..])
  }

  /** Any number of packets: merging their own summaries summarises the merged payload. */
  lemma {:induction false} MergeAllIsSummaryOfAll(lists: seq<seq<Span>>)
    ensures MergeAll(lists) == Summarize(Flatten(lists))
  {
    if lists != [] {
      MergeAllIsSummaryOfAll(lists[1..]);
      SummarizeConcat(lists[0], Flatten(lists[1..]));
    }
  }

  predicate AnySpan(spans: seq<Span>, p: Span -> bool) {
    exists i :: 0 <= i < |spans| && p(spans[i])
  }

  lemma AnySpanSnoc(init: seq<Span>, last: Span, p: Span -> bool)
    ensures AnySpan(init + [last], p) <==> AnySpan(init, p) || p(last)
  {
    var all := init + [last];
    assert all[|init|] == last;
    assert forall i :: 0 <= i < |init| ==> all[i] == init[i];
  }

  /** What the summary of a list knows: which facts some span of the list has. */
  lemma {:induction false} SummaryCharacterised(spans: seq<Span>, t: int)
    requires t >= 0
    ensures Summarize(spans).error <==> AnySpan(spans, HasError)
    ensures Summarize(spans).httpError <==> AnySpan(spans, HasHttpError)
    ensures Summarize(spans).bizError <==> AnySpan(spans, HasBizError)
    ensures Summarize(spans).traceKeep <==> AnySpan(spans, HasTraceKeep)
    ensures Summarize(spans).maxSpan > t <==> AnySpan(spans, span => LongerThan(span, t))
    ensures Summarize(spans).root > t <==> AnySpan(spans, span => LongerThan(span, t) && IsRoot(span))
    ensures Summarize(spans).maxNonroot > t <==> AnySpan(spans, span => LongerThan(span, t) && IsChild(span))
  {
    if spans != [] {
      var init, last := spans[..|spans| - 1], spans[|spans| - 1];
      assert spans == init + [last];
      SummaryCharacterised(init, t);
      SummaryStep(init, last, t);
      AnySpanSnoc(init, last, HasError);
      AnySpanSnoc(init, last, HasHttpError);
      AnySpanSnoc(init, last, HasBizError);
      AnySpanSnoc(init, last, HasTraceKeep);
      AnySpanSnoc(init, last, span => LongerThan(span, t));
      AnySpanSnoc(init, last, span => LongerThan(span, t) && IsRoot(span));
      AnySpanSnoc(init, last, span => LongerThan(span, t) && IsChild(span));
    }
  }

  predicate LongerThan(span: Span, t: int) {
    SummaryDuration(span).Some? && SummaryDuration(span).value > t
  }

  lemma SummaryStep(init: seq<Span>, last: Span, t: int)
    requires t >= 0
    ensures var (s, s') := (Summarize(init), Summarize(init + [last]));
            && (s'.error <==> s.error || HasError(last))
            && (s'.httpError <==> s.httpError || HasHttpError(last))
            && (s'.bizError <==> s.bizError || HasBizError(last))
            && (s'.traceKeep <==> s.traceKeep || HasTraceKeep(last))
            && (s'.maxSpan > t <==> s.maxSpan > t || LongerThan(last, t))
            && (s'.root > t <==> s.root > t || (LongerThan(last, t) && IsRoot(last)))
            && (s'.maxNonroot > t <==> s.maxNonroot > t || (LongerThan(last, t) && IsChild(last)))
  {
    assert (init + [last])[..|init + [last]| - 1] == init;
    RecordPasses(Summarize(init), FactsOf(last), t);
  }

  lemma RecordPasses(s: Summary, f: Facts, t: int)
    ensures var (s', longer) := (Record(s, f), f.duration.Some? && f.duration.value > t);
            && (s'.maxSpan > t <==> s.maxSpan > t || longer)
            && (s'.root > t <==> s.root > t || (longer && f.root))
            && (s'.maxNonroot > t <==> s.maxNonroot > t || (longer && f.child))
  {
  }

  /** A summary is trusted exactly when it says anything at all; so the summary of a list is, exactly when one of its spans has a flag or a positive duration. */
  lemma TrustedMeans(s: Summary, spans: seq<Span>)
    ensures NonNegative(s) ==> (HasPredicates(s) <==> s != ZERO)
    ensures HasPredicates(Summarize(spans)) <==>
            || AnySpan(spans, HasError) || AnySpan(spans, HasHttpError) || AnySpan(spans, HasBizError) || AnySpan(spans, HasTraceKeep)
            || AnySpan(spans, span => LongerThan(span, 0))
  {
    SummaryCharacterised(spans, 0);
  }

  /** A float duration is above a whole threshold exactly when it reaches the next whole number. */
  lemma TruncatedAbove(f: real, t: int)
    requires t >= 0
    ensures Truncate(f) > t <==> f >= (t + 1) as real
    ensures f < 0.0 ==> Truncate(f) <= 0
  {
  }

  function Digit(n: nat): char
    requires n < 10
  {
    "0123456789"[n]
  }

  /** A status counts as an HTTP error exactly when it is the decimal form of a number from 400 to 599. */
  lemma HttpErrorMeans(code: string)
    ensures IsHttpErrorStatus(code) <==> exists n: nat :: 400 <= n <= 599 && code == [Digit(n / 100), Digit(n / 10 % 10), Digit(n % 10)]
  {
    if IsHttpErrorStatus(code) {
      var (a, b, c) := (code[0] as int - '0' as int, code[1] as int - '0' as int, code[2] as int - '0' as int);
      var n: nat := 100 * a + 10 * b + c;
      assert n / 100 == a && n / 10 % 10 == b && n % 10 == c;
      assert code == [Digit(n / 100), Digit(n / 10 % 10), Digit(n % 10)];
    }
  }
}
