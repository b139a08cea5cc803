/**
 What the compiled predicate means for the spans behind the summary: it never
 misses a matching span, and on the conditions named by IsExact it matches exactly.
 */
module CompilerProofs {
  import opened Filter
  import opened SpanSummary
  import opened Compiler
  import opened Wrappers

  /** The accepted regular expressions match exactly the 4xx and 5xx codes. */
  ghost predicate HttpTextsMean4xx5xx(re: Matcher) {
    forall t, s :: t in HTTP_ERROR_TEXTS ==> re(t, s) == IsHttpErrorStatus(s)
  }

  /** No value is Go's nil, which the evaluator cannot compare. */
  predicate NoNull(span: Span) {
    forall k :: k in span ==> span[k] != Null
  }

  /** body_code is a string or absent, and a span with an integer duration that a condition can ask for says who its parent is. */
  predicate Shaped(span: Span) {
    && NoNull(span)
    && ("body_code" in span ==> span["body_code"].Str?)
    && ("duration" in span && span["duration"].Int? && span["duration"].i > 1 ==> "parent_id" in span)
  }

  /** Shaped, and no float duration enters the summary with a value a condition can ask for. */
  predicate WellTyped(span: Span) {
    Shaped(span) && ("duration" in span && span["duration"].Float? ==> Truncate(span["duration"].f) <= 1)
  }

  ghost predicate AllShaped(spans: seq<Span>) {
    forall i :: 0 <= i < |spans| ==> Shaped(spans[i])
  }

  ghost predicate AllWellTyped(spans: seq<Span>) {
    forall i :: 0 <= i < |spans| ==> WellTyped(spans[i])
  }

  // ----- what one atom says about one span -----

  predicate ParentHolds(p: Parent, span: Span) {
    match p
    case Anywhere => true
    case Root => IsRoot(span)
    case Nonroot => "parent_id" !in span || IsChild(span)
  }

  predicate DurationHolds(t: int, span: Span) {
    t > 0 ==> "duration" in span && span["duration"].Int? && span["duration"].i > t
  }

  /** The parent and duration tests of a conjunction, on one span. */
  predicate SpanHolds(p: SpanPred, span: Span) {
    ParentHolds(p.parent, span) && DurationHolds(p.durationGT, span)
  }

  predicate FlagHolds(e: SummaryExpr, span: Span) {
    match e
    case PredError => HasError(span)
    case PredHttpError => HasHttpError(span)
    case PredBizError => HasBizError(span)
    case PredTraceKeep => HasTraceKeep(span)
    case _ => false
  }

  lemma {:induction false} ItemsMembers(nodes: seq<Node>, x: Operand)
    ensures x in Items(nodes) <==> exists n :: n in nodes && IsListItem(n) && LiteralOf(n) == x
  {
    if nodes != [] {
      ItemsMembers(nodes[1..], x);
      assert forall n :: n in nodes <==> n == nodes[0] || n in nodes[1..];
    }
  }

  /** NOT_IN fails exactly when an operand equals the field, or null stands for its absence. */
  lemma {:induction false} NotInMeaning(re: Matcher, items: seq<Operand>, name: string, span: Span)
    requires name in span ==> span[name].Str?
    requires forall x :: x in items ==> x.NilOperand? || (x.V? && x.v.Str?)
    ensures NotInList(re, items, name, span) ==
            Holds((if name in span then V(span[name]) else NilOperand) !in items)
  {
    if items != [] {
      assert items[0] in items;
      NotInMeaning(re, items[1..], name, span);
      assert forall x :: x in items <==> x == items[0] || x in items[1..];
    }
  }

  /** The operands of the business-error list. */
  lemma BizItems(r: Node)
    requires IsBizErrorList(r)
    ensures forall x :: x in Items(r.nodes) <==> x == V(Str("0")) || x == V(Str("200")) || x == NilOperand
  {
    assert r.nodes == [r.nodes[0], r.nodes[1], r.nodes[2]];
    forall x
      ensures x in Items(r.nodes) <==> x == V(Str("0")) || x == V(Str("200")) || x == NilOperand
    {
      ItemsMembers(r.nodes, x);
      assert LiteralOf(StringLiteral("0")) == V(Str("0")) && LiteralOf(StringLiteral("200")) == V(Str("200"));
      assert LiteralOf(NilLiteral) == NilOperand;
    }
  }

  lemma BizErrorAtom(re: Matcher, r: Node, span: Span)
    requires IsBizErrorList(r) && Shaped(span)
    ensures SingleEval(re, NOT_IN, Identifier("body_code"), r, span) == Holds(HasBizError(span))
  {
    BizItems(r);
    NotInMeaning(re, Items(r.nodes), "body_code", span);
  }

  lemma HttpErrorAtom(re: Matcher, r: Node, span: Span)
    requires HttpTextsMean4xx5xx(re) && IsHttpErrorRegex(r)
    ensures SingleEval(re, MATCH, Identifier("http_status_code"), r, span) == Holds(HasHttpError(span))
  {
    var text := r.nodes[0].text;
    assert r.nodes == [Regex(text)];
    assert MatchAny(re, MATCH, r.nodes[1..], "http_status_code", span) == No;
    if "http_status_code" in span && span["http_status_code"].Str? {
      assert re(text, span["http_status_code"].s) == IsHttpErrorStatus(span["http_status_code"].s);
    }
  }

  /** An atom that compiles evaluates, without panic, to the span fact it stands for. */
  lemma AtomMeaning(re: Matcher, op: Op, l: Node, r: Node, span: Span)
    requires HttpTextsMean4xx5xx(re) && Shaped(span)
    requires CompileAtomic(op, l, r).Some?
    ensures !op.AND? && !op.OR? && !op.OtherOp?
    ensures var p := CompileAtomic(op, l, r).value;
            && p.durationGT >= 0
            && (p.flag.Some? ==> p == Flag(p.flag.value).value)
            && SingleEval(re, op, l, r, span) ==
               Holds(if p.flag.Some? then FlagHolds(p.flag.value, span) else SpanHolds(p, span))
  {
    if l.name == "body_code" {
      BizErrorAtom(re, r, span);
    } else if l.name == "http_status_code" {
      HttpErrorAtom(re, r, span);
    }
  }

  // ----- over-approximation -----

  /** The conjunction p on one span, its flags read off a summary covering the span. */
  predicate Implied(p: SpanPred, span: Span, sum: Summary) {
    SpanHolds(p, span) && (p.flag.Some? ==> Test(p.flag.value, sum))
  }

  lemma FlagReachesSummary(e: SummaryExpr, spans: seq<Span>, i: nat)
    requires i < |spans| && FlagHolds(e, spans[i])
    ensures Test(e, Summarize(spans))
  {
  }

  lemma FinishSound(p: SpanPred, spans: seq<Span>, i: nat)
    requires i < |spans| && Shaped(spans[i])
    requires Implied(p, spans[i], Summarize(spans)) && Finish(p).Some?
    ensures Test(Finish(p).value, Summarize(spans))
  {
    if p.durationGT > 0 {
      SummaryCharacterised(spans, p.durationGT);
      assert LongerThan(spans[i], p.durationGT);
    }
  }

  lemma MergeImplied(a: SpanPred, b: SpanPred, span: Span, sum: Summary)
    requires MergePreds(a, b).Some?
    ensures Implied(MergePreds(a, b).value, span, sum) <==> Implied(a, span, sum) && Implied(b, span, sum)
  {
  }

  /** A compiled condition never panics, and where it holds the conjunction it became holds too. */
  lemma {:induction false} NodeSound(re: Matcher, n: Node, spans: seq<Span>, i: nat)
    requires HttpTextsMean4xx5xx(re) && AllShaped(spans) && i < |spans|
    requires CompileNode(n).Some?
    ensures IsEvaluable(n) && Eval(re, n, spans[i]) != Panics
    ensures Eval(re, n, spans[i]).Yes? ==> Implied(CompileNode(n).value, spans[i], Summarize(spans))
  {
    var (span, sum) := (spans[i], Summarize(spans));
    match n
    case ParenExpr(p) => NodeSound(re, p, spans, i);
    case BinaryExpr(op, l, r) =>
      if op.AND? || op.OR? {
        NodeSound(re, l, spans, i);
        NodeSound(re, r, spans, i);
        var (a, b) := (CompileNode(l).value, CompileNode(r).value);
        if op.AND? {
          MergeImplied(a, b, span, sum);
        } else if Eval(re, l, span).Yes? {
          FinishSound(a, spans, i);
        } else if Eval(re, r, span).Yes? {
          FinishSound(b, spans, i);
        }
      } else {
        AtomMeaning(re, op, l, r, span);
        var p := CompileNode(n).value;
        if p.flag.Some? && FlagHolds(p.flag.value, span) {
          FlagReachesSummary(p.flag.value, spans, i);
        }
      }
  }

  lemma {:induction false} CondsSound(re: Matcher, acc: SpanPred, conds: seq<Node>, spans: seq<Span>, i: nat)
    requires HttpTextsMean4xx5xx(re) && AllShaped(spans) && i < |spans|
    requires CompileConds(acc, conds).Some?
    ensures EvalAll(re, conds, spans[i]) != Panics
    ensures Implied(acc, spans[i], Summarize(spans)) && EvalAll(re, conds, spans[i]).Yes? ==>
              Implied(CompileConds(acc, conds).value, spans[i], Summarize(spans))
    decreases conds
  {
    if conds != [] {
      NodeSound(re, conds[0], spans, i);
      var part := CompileNode(conds[0]).value;
      MergeImplied(acc, part, spans[i], Summarize(spans));
      CondsSound(re, MergePreds(acc, part).value, conds[1..], spans, i);
    }
  }

  /** One {} condition: if it holds of some span, its predicate holds of the summary. */
  lemma ConditionSound(re: Matcher, n: Node, spans: seq<Span>, i: nat)
    requires HttpTextsMean4xx5xx(re) && AllShaped(spans) && i < |spans|
    requires CompileCondition(n).Some?
    ensures Eval(re, n, spans[i]) != Panics
    ensures Eval(re, n, spans[i]).Yes? ==> Test(CompileCondition(n).value, Summarize(spans))
  {
    CondsSound(re, UNCONSTRAINED, n.conds, spans, i);
    if Eval(re, n, spans[i]).Yes? {
      FinishSound(CompileConds(UNCONSTRAINED, n.conds).value, spans, i);
    }
  }

  // ----- exactness -----

  /** A conjunction of parent_id and duration tests. */
  predicate IsChain(n: Node) {
    match n
    case ParenExpr(p) => IsChain(p)
    case BinaryExpr(AND, l, r) => IsChain(l) && IsChain(r)
    case BinaryExpr(OR, _, _) => false
    case BinaryExpr(op, l, r) => CompileAtomic(op, l, r).Some? && CompileAtomic(op, l, r).value.flag.None?
    case _ => false
  }

  predicate TestsDuration(n: Node) {
    match n
    case ParenExpr(p) => TestsDuration(p)
    case BinaryExpr(AND, l, r) => TestsDuration(l) || TestsDuration(r)
    case BinaryExpr(op, l, r) => l == Identifier("duration")
    case _ => false
  }

  /** One flag alone, or a chain that tests a duration, or a disjunction of such parts. */
  predicate IsExactPart(n: Node) {
    match n
    case ParenExpr(p) => IsExactPart(p)
    case BinaryExpr(OR, l, r) => IsExactPart(l) && IsExactPart(r)
    case BinaryExpr(AND, l, r) => IsChain(n) && TestsDuration(n)
    case BinaryExpr(op, l, r) => l != Identifier("parent_id")
    case _ => false
  }

  /** A {} list of one exact part, or of chains of which one tests a duration. */
  predicate IsExact(n: Node) {
    n.WhereCondition? &&
    ((|n.conds| == 1 && IsExactPart(n.conds[0])) ||
     ((forall c :: c in n.conds ==> IsChain(c)) && exists c :: c in n.conds && TestsDuration(c)))
  }

  lemma {:induction false} ChainMeaning(re: Matcher, n: Node, span: Span)
    requires HttpTextsMean4xx5xx(re) && Shaped(span)
    requires IsChain(n) && CompileNode(n).Some?
    ensures var p := CompileNode(n).value;
            p.flag.None? && p.durationGT >= 0 && (p.durationGT > 0 <==> TestsDuration(n))
    ensures IsEvaluable(n) && Eval(re, n, span) == Holds(SpanHolds(CompileNode(n).value, span))
  {
    match n
    case ParenExpr(p) => ChainMeaning(re, p, span);
    case BinaryExpr(op, l, r) =>
      if op.AND? {
        ChainMeaning(re, l, span);
        ChainMeaning(re, r, span);
      } else {
        AtomMeaning(re, op, l, r, span);
      }
  }

  ghost predicate SomeSpan(re: Matcher, n: Node, spans: seq<Span>) {
    AnySpan(spans, span => Eval(re, n, span).Yes?)
  }

  lemma AnySpanCongruent(spans: seq<Span>, p: Span -> bool, q: Span -> bool)
    requires forall i :: 0 <= i < |spans| ==> p(spans[i]) == q(spans[i])
    ensures AnySpan(spans, p) == AnySpan(spans, q)
  {
  }

  /** A conjunction of span tests holds of the summary exactly when one span passes them all. */
  lemma FinishExact(p: SpanPred, spans: seq<Span>)
    requires p.flag.None? && p.durationGT > 0 && AllWellTyped(spans)
    ensures Finish(p).Some?
    ensures Test(Finish(p).value, Summarize(spans)) == AnySpan(spans, span => SpanHolds(p, span))
  {
  }

  lemma FlagExact(e: SummaryExpr, spans: seq<Span>)
    requires e.PredError? || e.PredHttpError? || e.PredBizError? || e.PredTraceKeep?
    ensures Test(e, Summarize(spans)) <==> exists i :: 0 <= i < |spans| && FlagHolds(e, spans[i])
  {
    SummaryCharacterised(spans, 0);
  }

  /** On an exact part the compiled predicate holds of the summary exactly when some span matches. */
  lemma {:induction false} PartExact(re: Matcher, n: Node, spans: seq<Span>)
    requires HttpTextsMean4xx5xx(re) && AllWellTyped(spans)
    requires IsExactPart(n) && CompileNode(n).Some?
    ensures IsEvaluable(n) && CompileNode(n).value.durationGT >= 0
    ensures Finish(CompileNode(n).value).Some?
    ensures Test(Finish(CompileNode(n).value).value, Summarize(spans)) <==> SomeSpan(re, n, spans)
  {
    match n
    case ParenExpr(p) =>
      PartExact(re, p, spans);
      assert forall i :: 0 <= i < |spans| ==> Eval(re, n, spans[i]) == Eval(re, p, spans[i]);
    case BinaryExpr(op, l, r) =>
      if op.OR? {
        PartExact(re, l, spans);
        PartExact(re, r, spans);
        forall i | 0 <= i < |spans|
          ensures Eval(re, n, spans[i]).Yes? <==> Eval(re, l, spans[i]).Yes? || Eval(re, r, spans[i]).Yes?
        {
          NodeSound(re, l, spans, i);
          NodeSound(re, r, spans, i);
        }
      } else if op.AND? || l == Identifier("duration") {
        ChainExact(re, n, spans);
      } else {
        FlagAtomExact(re, n, spans);
      }
  }

  lemma ChainExact(re: Matcher, n: Node, spans: seq<Span>)
    requires HttpTextsMean4xx5xx(re) && AllWellTyped(spans)
    requires IsChain(n) && TestsDuration(n) && CompileNode(n).Some?
    ensures IsEvaluable(n) && CompileNode(n).value.durationGT > 0
    ensures Finish(CompileNode(n).value).Some?
    ensures Test(Finish(CompileNode(n).value).value, Summarize(spans)) <==> SomeSpan(re, n, spans)
  {
    ChainMeaning(re, n, map[]);
    var p := CompileNode(n).value;
    FinishExact(p, spans);
    forall i | 0 <= i < |spans|
      ensures Eval(re, n, spans[i]).Yes? == SpanHolds(p, spans[i])
    {
      ChainMeaning(re, n, spans[i]);
    }
    AnySpanCongruent(spans, span => SpanHolds(p, span), span => Eval(re, n, span).Yes?);
  }

  lemma FlagAtomExact(re: Matcher, n: Node, spans: seq<Span>)
    requires HttpTextsMean4xx5xx(re) && AllWellTyped(spans)
    requires n.BinaryExpr? && !n.op.AND? && !n.op.OR?
    requires CompileNode(n).Some? && CompileNode(n).value.flag.Some?
    ensures Finish(CompileNode(n).value) == CompileNode(n).value.flag
    ensures Test(Finish(CompileNode(n).value).value, Summarize(spans)) <==> SomeSpan(re, n, spans)
  {
    AtomMeaning(re, n.op, n.lhs, n.rhs, map[]);
    var e := CompileNode(n).value.flag.value;
    FlagExact(e, spans);
    forall i | 0 <= i < |spans|
      ensures Eval(re, n, spans[i]).Yes? <==> FlagHolds(e, spans[i])
    {
      AtomMeaning(re, n.op, n.lhs, n.rhs, spans[i]);
    }
  }

  lemma {:induction false} ChainsMeaning(re: Matcher, acc: SpanPred, conds: seq<Node>, span: Span)
    requires HttpTextsMean4xx5xx(re) && Shaped(span)
    requires acc.flag.None? && acc.durationGT >= 0
    requires (forall c :: c in conds ==> IsChain(c)) && CompileConds(acc, conds).Some?
    ensures var p := CompileConds(acc, conds).value;
            && p.flag.None?
            && p.durationGT >= acc.durationGT
            && ((exists c :: c in conds && TestsDuration(c)) ==> p.durationGT > 0)
            && (SpanHolds(p, span) <==> SpanHolds(acc, span) && EvalAll(re, conds, span).Yes?)
    decreases conds
  {
    if conds != [] {
      ChainMeaning(re, conds[0], span);
      var part := CompileNode(conds[0]).value;
      MergeImplied(acc, part, span, ZERO);
      assert forall c :: c in conds <==> c == conds[0] || c in conds[1..];
      ChainsMeaning(re, MergePreds(acc, part).value, conds[1..], span);
    }
  }

  /** On an exact {} condition the fast predicate and the span walk agree. */
  lemma ConditionExact(re: Matcher, n: Node, spans: seq<Span>)
    requires HttpTextsMean4xx5xx(re) && AllWellTyped(spans)
    requires IsExact(n) && CompileCondition(n).Some?
    ensures Test(CompileCondition(n).value, Summarize(spans)) <==> SomeSpan(re, n, spans)
  {
    if |n.conds| == 1 && IsExactPart(n.conds[0]) {
      var c := n.conds[0];
      assert n.conds == [c] && n.conds[1..] == [];
      PartExact(re, c, spans);
      assert MergePreds(UNCONSTRAINED, CompileNode(c).value) == CompileNode(c);
      assert CompileConds(UNCONSTRAINED, n.conds) == CompileNode(c);
      forall i | 0 <= i < |spans|
        ensures Eval(re, n, spans[i]).Yes? <==> Eval(re, c, spans[i]).Yes?
      {
        assert EvalAll(re, n.conds[1..], spans[i]).Yes?;
      }
    } else {
      var p := CompileConds(UNCONSTRAINED, n.conds).value;
      ChainsMeaning(re, UNCONSTRAINED, n.conds, map[]);
      FinishExact(p, spans);
      forall i | 0 <= i < |spans|
        ensures Eval(re, n, spans[i]).Yes? <==> SpanHolds(p, spans[i])
      {
        ChainsMeaning(re, UNCONSTRAINED, n.conds, spans[i]);
      }
      AnySpanCongruent(spans, span => SpanHolds(p, span), span => Eval(re, n, span).Yes?);
    }
  }
}
