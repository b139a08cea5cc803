/** Exactly which conjunctions the summary decides: the converse of the exactness theorem. */
module ExactnessProofs {
  import opened Filter
  import opened SpanSummary
  import opened Compiler
  import opened CompilerProofs
  import opened Wrappers

  // ----- what a conjunction says about one span -----

  /** A conjunction of atoms, with parentheses and without OR. */
  predicate IsConjunction(n: Node) {
    match n
    case ParenExpr(p) => IsConjunction(p)
    case BinaryExpr(AND, l, r) => IsConjunction(l) && IsConjunction(r)
    case BinaryExpr(OR, _, _) => false
    case BinaryExpr(_, _, _) => true
    case _ => false
  }

  predicate IsFlag(e: SummaryExpr) {
    e.PredError? || e.PredHttpError? || e.PredBizError? || e.PredTraceKeep?
  }

  /** The flags a conjunction of flags is made of. */
  function FlagsOf(e: SummaryExpr): set<SummaryExpr> {
    match e
    case Both(l, r) => FlagsOf(l) + FlagsOf(r)
    case _ => {e}
  }

  function Flags(p: SpanPred): set<SummaryExpr> {
    if p.flag.None? then {} else FlagsOf(p.flag.value)
  }

  /** A conjunction of flags, a parent test and a duration test. */
  ghost predicate Plain(p: SpanPred) {
    p.durationGT >= 0 && (forall f <- Flags(p) :: IsFlag(f)) && (p.flag.Some? ==> Flags(p) != {})
  }

  /** The conjunction on one span, its flags included. */
  ghost predicate HoldsOn(p: SpanPred, span: Span) {
    SpanHolds(p, span) && forall f <- Flags(p) :: FlagHolds(f, span)
  }

  lemma MergeHoldsOn(a: SpanPred, b: SpanPred, span: Span)
    requires Plain(a) && Plain(b) && MergePreds(a, b).Some?
    ensures var p := MergePreds(a, b).value;
            && Plain(p) && Flags(p) == Flags(a) + Flags(b)
            && (HoldsOn(p, span) <==> HoldsOn(a, span) && HoldsOn(b, span))
  {
    var p := MergePreds(a, b).value;
    assert Flags(p) == Flags(a) + Flags(b);
    MergeImplied(a.(flag := None), b.(flag := None), span, ZERO);
  }

  lemma AtomHoldsOn(re: Matcher, op: Op, l: Node, r: Node, span: Span)
    requires HttpTextsMean4xx5xx(re) && Shaped(span) && CompileAtomic(op, l, r).Some?
    ensures var p := CompileAtomic(op, l, r).value; Plain(p) && SingleEval(re, op, l, r, span) == Holds(HoldsOn(p, span))
  {
    AtomMeaning(re, op, l, r, span);
  }

  lemma {:induction false} ConjunctionMeaning(re: Matcher, n: Node, span: Span)
    requires HttpTextsMean4xx5xx(re) && Shaped(span) && IsConjunction(n) && CompileNode(n).Some?
    ensures Plain(CompileNode(n).value)
    ensures IsEvaluable(n) && Eval(re, n, span) == Holds(HoldsOn(CompileNode(n).value, span))
  {
    match n
    case ParenExpr(p) => ConjunctionMeaning(re, p, span);
    case BinaryExpr(op, l, r) =>
      if op.AND? {
        ConjunctionMeaning(re, l, span);
        ConjunctionMeaning(re, r, span);
        MergeHoldsOn(CompileNode(l).value, CompileNode(r).value, span);
      } else {
        AtomMeaning(re, op, l, r, span);
        AtomHoldsOn(re, op, l, r, span);
      }
  }

  lemma {:induction false} ConjunctionsMeaning(re: Matcher, acc: SpanPred, conds: seq<Node>, span: Span)
    requires HttpTextsMean4xx5xx(re) && Shaped(span) && Plain(acc)
    requires (forall c <- conds :: IsConjunction(c)) && CompileConds(acc, conds).Some?
    ensures var p := CompileConds(acc, conds).value;
            Plain(p) && (HoldsOn(p, span) <==> HoldsOn(acc, span) && EvalAll(re, conds, span).Yes?)
    decreases conds
  {
    if conds != [] {
      ConjunctionMeaning(re, conds[0], span);
      var part := CompileNode(conds[0]).value;
      MergeHoldsOn(acc, part, span);
      ConjunctionsMeaning(re, MergePreds(acc, part).value, conds[1..], span);
    }
  }

  // ----- what it says about the summary -----

  lemma {:induction false} FlagsTest(e: SummaryExpr, s: Summary)
    requires forall f <- FlagsOf(e) :: IsFlag(f)
    ensures Test(e, s) <==> forall f <- FlagsOf(e) :: Test(f, s)
  {
    if e.Both? {
      assert forall f <- FlagsOf(e.l) :: f in FlagsOf(e);
      assert forall f <- FlagsOf(e.r) :: f in FlagsOf(e);
      FlagsTest(e.l, s);
      FlagsTest(e.r, s);
    }
  }

  /** One flag alone, or no flag and a duration. */
  predicate OneTest(p: SpanPred) {
    if p.flag.None? then p.durationGT > 0
    else p.parent.Anywhere? && p.durationGT == 0 && |Flags(p)| == 1
  }

  /** The conjunction of a {} list. */
  function ConjunctionOf(n: Node): SpanPred
    requires CompileCondition(n).Some?
  {
    CompileConds(UNCONSTRAINED, n.conds).value
  }

  ghost predicate Decides(re: Matcher, n: Node, spans: seq<Span>)
    requires CompileCondition(n).Some?
  {
    Test(CompileCondition(n).value, Summarize(spans)) <==> SomeSpan(re, n, spans)
  }

  /** The walk finds a span exactly when one passes the whole conjunction. */
  lemma SomeSpanMeaning(re: Matcher, n: Node, spans: seq<Span>)
    requires HttpTextsMean4xx5xx(re) && AllShaped(spans)
    requires CompileCondition(n).Some? && forall c <- n.conds :: IsConjunction(c)
    ensures Plain(ConjunctionOf(n))
    ensures SomeSpan(re, n, spans) <==> exists i :: 0 <= i < |spans| && HoldsOn(ConjunctionOf(n), spans[i])
  {
    ConjunctionsMeaning(re, UNCONSTRAINED, n.conds, map[]);
    forall i | 0 <= i < |spans|
      ensures Eval(re, n, spans[i]).Yes? <==> HoldsOn(ConjunctionOf(n), spans[i])
    {
      ConjunctionsMeaning(re, UNCONSTRAINED, n.conds, spans[i]);
    }
  }

  lemma OneTestDecides(re: Matcher, n: Node, spans: seq<Span>)
    requires HttpTextsMean4xx5xx(re) && AllWellTyped(spans)
    requires CompileCondition(n).Some? && forall c <- n.conds :: IsConjunction(c)
    requires OneTest(ConjunctionOf(n))
    ensures Decides(re, n, spans)
  {
    var p := ConjunctionOf(n);
    SomeSpanMeaning(re, n, spans);
    if p.flag.None? {
      FinishExact(p, spans);
      assert forall i :: 0 <= i < |spans| ==> HoldsOn(p, spans[i]) == SpanHolds(p, spans[i]);
    } else {
      var f :| f in Flags(p);
      Singleton(Flags(p), f);
      FlagsTest(p.flag.value, Summarize(spans));
      FlagExact(f, spans);
    }
  }

  lemma Singleton<T>(s: set<T>, x: T)
    requires x in s && |s| == 1
    ensures s == {x}
  {
    assert |s - {x}| == 0;
  }

  // ----- spans that tell the other conjunctions apart -----

  /** A span with one flag, no duration and the given parent. */
  function FlagSpan(f: SummaryExpr, parent: string): Span
    requires IsFlag(f)
  {
    match f
    case PredError => map["parent_id" := Str(parent), "status" := Str("error")]
    case PredHttpError => map["parent_id" := Str(parent), "http_status_code" := Str("500")]
    case PredBizError => map["parent_id" := Str(parent), "body_code" := Str("1")]
    case PredTraceKeep => map["parent_id" := Str(parent), "trace_keep" := Bool(true)]
  }

  /** A span without flags. */
  function LongSpan(parent: string, duration: int): Span {
    map["parent_id" := Str(parent), "duration" := Int(duration)]
  }

  lemma FlagSpanHas(f: SummaryExpr, parent: string)
    requires IsFlag(f)
    ensures FlagHolds(f, FlagSpan(f, parent)) && WellTyped(FlagSpan(f, parent)) && "duration" !in FlagSpan(f, parent)
    ensures FlagSpan(f, parent)["parent_id"] == Str(parent)
  {
  }

  lemma FlagSpanHasNoOther(f: SummaryExpr, parent: string, g: SummaryExpr)
    requires IsFlag(f) && IsFlag(g) && g != f
    ensures !FlagHolds(g, FlagSpan(f, parent))
  {
  }

  lemma LongSpanHas(parent: string, duration: int, g: SummaryExpr)
    requires IsFlag(g)
    ensures !FlagHolds(g, LongSpan(parent, duration)) && WellTyped(LongSpan(parent, duration))
    ensures SummaryDuration(LongSpan(parent, duration)) == Some(duration)
  {
  }

  /** A parent that passes the test, and one that does not. */
  function Right(p: Parent): string {
    if p.Nonroot? then "1" else "0"
  }

  function Wrong(p: Parent): string {
    if p.Nonroot? then "0" else "1"
  }

  /** One span for each flag, with the wrong parent, and a long span with the right one. */
  function Scattered(p: SpanPred): seq<Span> {
    var w := Wrong(p.parent);
    [FlagSpan(PredError, w), FlagSpan(PredHttpError, w), FlagSpan(PredBizError, w), FlagSpan(PredTraceKeep, w),
     LongSpan(Right(p.parent), p.durationGT + 1)]
  }

  function Position(f: SummaryExpr): nat
    requires IsFlag(f)
  {
    if f.PredError? then 0 else if f.PredHttpError? then 1 else if f.PredBizError? then 2 else 3
  }

  lemma ScatteredTyped(p: SpanPred)
    ensures AllWellTyped(Scattered(p))
  {
    FlagSpanHas(PredError, Wrong(p.parent));
    FlagSpanHas(PredHttpError, Wrong(p.parent));
    FlagSpanHas(PredBizError, Wrong(p.parent));
    FlagSpanHas(PredTraceKeep, Wrong(p.parent));
    LongSpanHas(Right(p.parent), p.durationGT + 1, PredError);
  }

  lemma ScatteredFlag(p: SpanPred, f: SummaryExpr)
    requires IsFlag(f)
    ensures Test(f, Summarize(Scattered(p)))
  {
    FlagSpanHas(f, Wrong(p.parent));
    assert Scattered(p)[Position(f)] == FlagSpan(f, Wrong(p.parent));
    FlagReachesSummary(f, Scattered(p), Position(f));
  }

  lemma ScatteredDuration(p: SpanPred)
    requires p.durationGT > 0
    ensures Test(Finish(p.(flag := None)).value, Summarize(Scattered(p)))
  {
    var q, spans := p.(flag := None), Scattered(p);
    ScatteredTyped(p);
    FinishExact(q, spans);
    assert SpanHolds(q, spans[4]);
  }

  /** The summary of the scattered spans passes the conjunction. */
  lemma ScatteredPasses(p: SpanPred)
    requires Plain(p) && Finish(p).Some?
    ensures Test(Finish(p).value, Summarize(Scattered(p)))
  {
    if p.flag.Some? {
      forall f <- Flags(p)
        ensures Test(f, Summarize(Scattered(p)))
      {
        ScatteredFlag(p, f);
      }
      FlagsTest(p.flag.value, Summarize(Scattered(p)));
    }
    if p.durationGT > 0 {
      ScatteredDuration(p);
    }
  }

  /** A span with one flag fails every conjunction with another flag, a duration or a parent test. */
  lemma FlagSpanFails(p: SpanPred, f: SummaryExpr)
    requires Plain(p) && p.flag.Some? && !OneTest(p) && IsFlag(f)
    ensures !HoldsOn(p, FlagSpan(f, Wrong(p.parent)))
  {
    var span := FlagSpan(f, Wrong(p.parent));
    FlagSpanHas(f, Wrong(p.parent));
    if p.parent.Anywhere? && p.durationGT == 0 {
      var g := Another(Flags(p), f);
      FlagSpanHasNoOther(f, Wrong(p.parent), g);
    }
  }

  lemma Another<T>(s: set<T>, x: T) returns (y: T)
    requires s != {} && |s| != 1
    ensures y in s && y != x
  {
    assert s != {x};
    assert exists z :: z in s && z != x;
    y :| y in s && y != x;
  }

  lemma ScatteredFails(p: SpanPred, i: nat)
    requires Plain(p) && p.flag.Some? && !OneTest(p) && i < 5
    ensures !HoldsOn(p, Scattered(p)[i])
  {
    if i == 4 {
      var g :| g in Flags(p);
      LongSpanHas(Right(p.parent), p.durationGT + 1, g);
    } else {
      var f := if i == 0 then PredError else if i == 1 then PredHttpError else if i == 2 then PredBizError else PredTraceKeep;
      FlagSpanFails(p, f);
    }
  }

  /** The spans above tell a conjunction of more than one test from its summary. */
  lemma ScatteredTells(re: Matcher, n: Node)
    requires HttpTextsMean4xx5xx(re) && CompileCondition(n).Some? && forall c <- n.conds :: IsConjunction(c)
    requires !OneTest(ConjunctionOf(n)) && ConjunctionOf(n).durationGT < TWO_63 - 1
    ensures AllWellTyped(Scattered(ConjunctionOf(n))) && !Decides(re, n, Scattered(ConjunctionOf(n)))
  {
    var p := ConjunctionOf(n);
    ScatteredTyped(p);
    SomeSpanMeaning(re, n, Scattered(p));
    ScatteredPasses(p);
    forall i: nat | i < 5
      ensures !HoldsOn(p, Scattered(p)[i])
    {
      ScatteredFails(p, i);
    }
  }

  /**
   A conjunction that compiles is decided by the summary, for every list of well-typed
   spans, if and only if it is one flag alone or has no flag. The threshold is one that
   an int64 duration can exceed.
   */
  lemma ConjunctionExactly(re: Matcher, n: Node)
    requires HttpTextsMean4xx5xx(re) && CompileCondition(n).Some? && forall c <- n.conds :: IsConjunction(c)
    requires ConjunctionOf(n).durationGT < TWO_63 - 1
    ensures (forall spans | AllWellTyped(spans) :: Decides(re, n, spans)) <==> OneTest(ConjunctionOf(n))
  {
    if OneTest(ConjunctionOf(n)) {
      forall spans | AllWellTyped(spans)
        ensures Decides(re, n, spans)
      {
        OneTestDecides(re, n, spans);
      }
    } else {
      ScatteredTells(re, n);
    }
  }
}
