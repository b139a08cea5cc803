/**
 Exactly which conditions the summary decides, OR included: both sides as disjunctions of
 conjunctions, and when a test of the one implies a conjunction of the other.
 */
module DisjunctionProofs {
  import opened Filter
  import opened SpanSummary
  import opened Compiler
  import opened CompilerProofs
  import opened ExactnessProofs
  import opened Wrappers

  // ----- the walk's side -----

  /** A conjunction of tests on one span: flags, parent tests and the largest duration threshold. */
  datatype Conjunction = Conjunction(flags: set<SummaryExpr>, parents: set<Parent>, duration: int)

  const NO_TEST := Conjunction({}, {}, 0)

  function AndOf(a: Conjunction, b: Conjunction): Conjunction {
    Conjunction(a.flags + b.flags, a.parents + b.parents, Max(a.duration, b.duration))
  }

  /** The conjunctions of one atom: one, or none if it does not compile. */
  function AtomTests(op: Op, l: Node, r: Node): set<Conjunction> {
    var p := CompileAtomic(op, l, r);
    if p.None? then {}
    else {Conjunction(Flags(p.value), if p.value.parent.Anywhere? then {} else {p.value.parent}, p.value.durationGT)}
  }

  function AllPairs(a: set<Conjunction>, b: set<Conjunction>): set<Conjunction> {
    set x, y | x in a && y in b :: AndOf(x, y)
  }

  /** A condition as a disjunction of conjunctions of its atoms. */
  function Conjunctions(n: Node): set<Conjunction> {
    match n
    case ParenExpr(p) => Conjunctions(p)
    case BinaryExpr(AND, l, r) => AllPairs(Conjunctions(l), Conjunctions(r))
    case BinaryExpr(OR, l, r) => Conjunctions(l) + Conjunctions(r)
    case BinaryExpr(op, l, r) => AtomTests(op, l, r)
    case _ => {}
  }

  function ConjunctionsOfAll(acc: set<Conjunction>, conds: seq<Node>): set<Conjunction>
    decreases conds
  {
    if conds == [] then acc else ConjunctionsOfAll(AllPairs(acc, Conjunctions(conds[0])), conds[1..])
  }

  ghost predicate Passes(c: Conjunction, span: Span) {
    && (forall f <- c.flags :: FlagHolds(f, span))
    && (forall p <- c.parents :: ParentHolds(p, span))
    && DurationHolds(c.duration, span)
  }

  ghost predicate PassesOne(cs: set<Conjunction>, span: Span) {
    exists c <- cs :: Passes(c, span)
  }

  lemma AndPasses(a: Conjunction, b: Conjunction, span: Span)
    ensures Passes(AndOf(a, b), span) <==> Passes(a, span) && Passes(b, span)
  {
  }

  lemma PairsPass(a: set<Conjunction>, b: set<Conjunction>, span: Span)
    ensures PassesOne(AllPairs(a, b), span) <==> PassesOne(a, span) && PassesOne(b, span)
  {
    if PassesOne(AllPairs(a, b), span) {
      var c :| c in AllPairs(a, b) && Passes(c, span);
      var x, y :| x in a && y in b && c == AndOf(x, y);
      AndPasses(x, y, span);
    }
    if PassesOne(a, span) && PassesOne(b, span) {
      var x :| x in a && Passes(x, span);
      var y :| y in b && Passes(y, span);
      AndPasses(x, y, span);
      assert AndOf(x, y) in AllPairs(a, b);
    }
  }

  lemma UnionPasses(a: set<Conjunction>, b: set<Conjunction>, span: Span)
    ensures PassesOne(a + b, span) <==> PassesOne(a, span) || PassesOne(b, span)
  {
  }

  lemma AtomPasses(re: Matcher, op: Op, l: Node, r: Node, span: Span)
    requires HttpTextsMean4xx5xx(re) && Shaped(span) && CompileAtomic(op, l, r).Some?
    ensures SingleEval(re, op, l, r, span) == Holds(PassesOne(AtomTests(op, l, r), span))
  {
    AtomHoldsOn(re, op, l, r, span);
    var p := CompileAtomic(op, l, r).value;
    var c := Conjunction(Flags(p), if p.parent.Anywhere? then {} else {p.parent}, p.durationGT);
    assert AtomTests(op, l, r) == {c};
    assert Passes(c, span) <==> HoldsOn(p, span);
  }

  /** A condition that compiles evaluates to one of its conjunctions passing. */
  lemma {:induction false} ConjunctionsMean(re: Matcher, n: Node, span: Span)
    requires HttpTextsMean4xx5xx(re) && Shaped(span) && CompileNode(n).Some?
    ensures IsEvaluable(n) && Eval(re, n, span) == Holds(PassesOne(Conjunctions(n), span))
  {
    match n
    case ParenExpr(p) => ConjunctionsMean(re, p, span);
    case BinaryExpr(op, l, r) =>
      if op.AND? {
        ConjunctionsMean(re, l, span);
        ConjunctionsMean(re, r, span);
        PairsPass(Conjunctions(l), Conjunctions(r), span);
      } else if op.OR? {
        ConjunctionsMean(re, l, span);
        ConjunctionsMean(re, r, span);
        UnionPasses(Conjunctions(l), Conjunctions(r), span);
      } else {
        AtomMeaning(re, op, l, r, span);
        AtomPasses(re, op, l, r, span);
      }
  }

  lemma {:induction false} ConjunctionsOfAllMean(re: Matcher, p: SpanPred, acc: set<Conjunction>, conds: seq<Node>, span: Span)
    requires HttpTextsMean4xx5xx(re) && Shaped(span) && CompileConds(p, conds).Some?
    ensures EvalAll(re, conds, span) != Panics
    ensures PassesOne(ConjunctionsOfAll(acc, conds), span) <==> PassesOne(acc, span) && EvalAll(re, conds, span).Yes?
    decreases conds
  {
    if conds != [] {
      ConjunctionsMean(re, conds[0], span);
      PairsPass(acc, Conjunctions(conds[0]), span);
      ConjunctionsOfAllMean(re, MergePreds(p, CompileNode(conds[0]).value).value, AllPairs(acc, Conjunctions(conds[0])), conds[1..], span);
    }
  }

  // ----- the summary's side -----

  /** The closures that compileAtomic and eval make; OR and AND only join them. */
  predicate IsTest(e: SummaryExpr) {
    IsFlag(e) || ((e.RootOver? || e.NonrootOver? || e.SpanOver?) && e.us > 0)
  }

  predicate IsJoin(e: SummaryExpr) {
    match e
    case Both(l, r) => IsJoin(l) && IsJoin(r)
    case Either(l, r) => IsJoin(l) && IsJoin(r)
    case _ => IsTest(e)
  }

  /** A summary expression as a disjunction of sets of tests. */
  function TestSets(e: SummaryExpr): set<set<SummaryExpr>> {
    match e
    case Both(l, r) => set x, y | x in TestSets(l) && y in TestSets(r) :: x + y
    case Either(l, r) => TestSets(l) + TestSets(r)
    case _ => {{e}}
  }

  ghost predicate AllTrue(ts: set<SummaryExpr>, s: Summary) {
    forall t <- ts :: Test(t, s)
  }

  lemma {:induction false} TestSetsMean(e: SummaryExpr, s: Summary)
    requires IsJoin(e)
    ensures Test(e, s) <==> exists ts <- TestSets(e) :: AllTrue(ts, s)
    ensures forall ts <- TestSets(e), t <- ts :: IsTest(t)
  {
    match e
    case Both(l, r) =>
      TestSetsMean(l, s);
      TestSetsMean(r, s);
      if Test(e, s) {
        var x :| x in TestSets(l) && AllTrue(x, s);
        var y :| y in TestSets(r) && AllTrue(y, s);
        assert x + y in TestSets(e) && AllTrue(x + y, s);
      }
      if ts :| ts in TestSets(e) && AllTrue(ts, s) {
        var x, y :| x in TestSets(l) && y in TestSets(r) && ts == x + y;
        assert AllTrue(x, s) && AllTrue(y, s);
      }
    case Either(l, r) =>
      TestSetsMean(l, s);
      TestSetsMean(r, s);
    case _ => SingleTest(e, s);
  }

  lemma SingleTest(e: SummaryExpr, s: Summary)
    requires IsTest(e)
    ensures Test(e, s) <==> exists ts <- TestSets(e) :: AllTrue(ts, s)
  {
    assert TestSets(e) == {{e}};
    assert {e} in TestSets(e) && e in {e};
    assert AllTrue({e}, s) <==> Test(e, s);
  }

  /** What a test asks of one span. */
  predicate Meets(t: SummaryExpr, span: Span) {
    match t
    case RootOver(us) => LongerThan(span, us) && IsRoot(span)
    case NonrootOver(us) => LongerThan(span, us) && IsChild(span)
    case SpanOver(us) => LongerThan(span, us)
    case _ => FlagHolds(t, span)
  }

  lemma TestMeans(t: SummaryExpr, spans: seq<Span>)
    requires IsTest(t)
    ensures Test(t, Summarize(spans)) <==> exists i :: 0 <= i < |spans| && Meets(t, spans[i])
  {
    if IsFlag(t) {
      FlagExact(t, spans);
    } else {
      SummaryCharacterised(spans, t.us);
    }
  }

  // ----- a test that implies a conjunction -----

  /** Every well-typed span that meets the test passes the conjunction. */
  predicate Implies(t: SummaryExpr, c: Conjunction) {
    match t
    case RootOver(us) => c.flags == {} && c.parents <= {Root} && c.duration <= us
    case NonrootOver(us) => c.flags == {} && c.parents <= {Nonroot} && c.duration <= us
    case SpanOver(us) => c.flags == {} && c.parents == {} && c.duration <= us
    case _ => c.flags <= {t} && c.parents == {} && c.duration <= 0
  }

  lemma ImpliesPasses(t: SummaryExpr, c: Conjunction, span: Span)
    requires IsTest(t) && Implies(t, c) && WellTyped(span) && Meets(t, span)
    ensures Passes(c, span)
  {
  }

  /** A span that meets this test and as little else as can be: its parent is no string where the test does not ask. */
  function Barely(t: SummaryExpr): Span
    requires IsTest(t)
  {
    match t
    case RootOver(us) => map["parent_id" := Str("0"), "duration" := Int(us + 1)]
    case NonrootOver(us) => map["parent_id" := Str("1"), "duration" := Int(us + 1)]
    case SpanOver(us) => map["parent_id" := Int(0), "duration" := Int(us + 1)]
    case PredError => map["parent_id" := Int(0), "status" := Str("error")]
    case PredHttpError => map["parent_id" := Int(0), "http_status_code" := Str("500")]
    case PredBizError => map["parent_id" := Int(0), "body_code" := Str("1")]
    case PredTraceKeep => map["parent_id" := Int(0), "trace_keep" := Bool(true)]
  }

  lemma BarelyMeets(t: SummaryExpr)
    requires IsTest(t)
    ensures Meets(t, Barely(t)) && WellTyped(Barely(t))
  {
  }

  lemma BarelyFlags(t: SummaryExpr, f: SummaryExpr)
    requires IsTest(t) && IsFlag(f) && FlagHolds(f, Barely(t))
    ensures f == t
  {
  }

  lemma BarelyParent(t: SummaryExpr, p: Parent)
    requires IsTest(t) && !p.Anywhere? && ParentHolds(p, Barely(t))
    ensures (t.RootOver? && p.Root?) || (t.NonrootOver? && p.Nonroot?)
  {
  }

  lemma BarelyDuration(t: SummaryExpr, d: int)
    requires IsTest(t) && DurationHolds(d, Barely(t))
    ensures d <= if IsFlag(t) then 0 else t.us
  {
  }

  /** The parts of a conjunction are flags and parent tests. */
  ghost predicate OfTests(c: Conjunction) {
    (forall f <- c.flags :: IsFlag(f)) && (forall p <- c.parents :: !p.Anywhere?)
  }

  /** The bare span of a test passes only what the test implies. */
  lemma BarelyPasses(t: SummaryExpr, c: Conjunction)
    requires IsTest(t) && OfTests(c) && Passes(c, Barely(t))
    ensures Implies(t, c)
  {
    forall f <- c.flags
      ensures f == t
    {
      BarelyFlags(t, f);
    }
    forall p <- c.parents
      ensures (t.RootOver? && p.Root?) || (t.NonrootOver? && p.Nonroot?)
    {
      BarelyParent(t, p);
    }
    BarelyDuration(t, c.duration);
    if !IsFlag(t) {
      assert c.flags == {};
    }
  }

  // ----- what the compiler makes -----

  lemma FinishIsJoin(p: SpanPred)
    requires p.flag.Some? ==> IsJoin(p.flag.value)
    ensures Finish(p).Some? ==> IsJoin(Finish(p).value)
  {
  }

  lemma {:induction false} CompiledIsJoin(n: Node)
    ensures CompileNode(n).Some? && CompileNode(n).value.flag.Some? ==> IsJoin(CompileNode(n).value.flag.value)
  {
    match n
    case ParenExpr(p) => CompiledIsJoin(p);
    case BinaryExpr(op, l, r) =>
      if op.AND? || op.OR? {
        CompiledIsJoin(l);
        CompiledIsJoin(r);
        if CompileNode(l).Some? && CompileNode(r).Some? {
          FinishIsJoin(CompileNode(l).value);
          FinishIsJoin(CompileNode(r).value);
        }
      }
    case _ =>
  }

  lemma {:induction false} CompiledCondsIsJoin(acc: SpanPred, conds: seq<Node>)
    requires acc.flag.Some? ==> IsJoin(acc.flag.value)
    ensures var p := CompileConds(acc, conds); p.Some? && p.value.flag.Some? ==> IsJoin(p.value.flag.value)
    decreases conds
  {
    if conds != [] && conds[0].BinaryExpr? && CompileNode(conds[0]).Some? {
      CompiledIsJoin(conds[0]);
      var merged := MergePreds(acc, CompileNode(conds[0]).value);
      if merged.Some? {
        CompiledCondsIsJoin(merged.value, conds[1..]);
      }
    }
  }

  lemma ConditionIsJoin(n: Node)
    requires CompileCondition(n).Some?
    ensures IsJoin(CompileCondition(n).value)
  {
    CompiledCondsIsJoin(UNCONSTRAINED, n.conds);
    FinishIsJoin(CompileConds(UNCONSTRAINED, n.conds).value);
  }

  ghost predicate AllOfTests(cs: set<Conjunction>) {
    forall c <- cs :: OfTests(c)
  }

  lemma PairsOfTests(a: set<Conjunction>, b: set<Conjunction>)
    requires AllOfTests(a) && AllOfTests(b)
    ensures AllOfTests(AllPairs(a, b))
  {
  }

  lemma {:induction false} ConjunctionsOfTests(n: Node)
    ensures AllOfTests(Conjunctions(n))
  {
    match n
    case ParenExpr(p) => ConjunctionsOfTests(p);
    case BinaryExpr(op, l, r) =>
      if op.AND? || op.OR? {
        ConjunctionsOfTests(l);
        ConjunctionsOfTests(r);
        PairsOfTests(Conjunctions(l), Conjunctions(r));
      }
    case _ =>
  }

  lemma {:induction false} ConjunctionsOfAllOfTests(acc: set<Conjunction>, conds: seq<Node>)
    requires AllOfTests(acc)
    ensures AllOfTests(ConjunctionsOfAll(acc, conds))
    decreases conds
  {
    if conds != [] {
      ConjunctionsOfTests(conds[0]);
      PairsOfTests(acc, Conjunctions(conds[0]));
      ConjunctionsOfAllOfTests(AllPairs(acc, Conjunctions(conds[0])), conds[1..]);
    }
  }

  // ----- the theorem -----

  /** The conjunctions of a {} list. */
  function ConjunctionsIn(n: Node): set<Conjunction>
    requires n.WhereCondition?
  {
    ConjunctionsOfAll({NO_TEST}, n.conds)
  }

  /** The walk finds a span exactly when one passes one of the conjunctions. */
  lemma WalkPasses(re: Matcher, n: Node, spans: seq<Span>)
    requires HttpTextsMean4xx5xx(re) && AllShaped(spans) && CompileCondition(n).Some?
    ensures SomeSpan(re, n, spans) <==> exists i :: 0 <= i < |spans| && PassesOne(ConjunctionsIn(n), spans[i])
  {
    forall i | 0 <= i < |spans|
      ensures Eval(re, n, spans[i]).Yes? <==> PassesOne(ConjunctionsIn(n), spans[i])
    {
      ConjunctionsOfAllMean(re, UNCONSTRAINED, {NO_TEST}, n.conds, spans[i]);
      assert NO_TEST in {NO_TEST} && Passes(NO_TEST, spans[i]);
    }
  }

  /** Whatever set of tests the summary can be passed with, one of its tests alone implies a conjunction of the condition. */
  ghost predicate EachImplied(n: Node)
    requires CompileCondition(n).Some?
  {
    forall ts <- TestSets(CompileCondition(n).value) :: OneImplies(ts, ConjunctionsIn(n))
  }

  ghost predicate OneImplies(ts: set<SummaryExpr>, cs: set<Conjunction>) {
    exists t <- ts, c <- cs :: Implies(t, c)
  }

  lemma ImpliedDecides(re: Matcher, n: Node, spans: seq<Span>)
    requires HttpTextsMean4xx5xx(re) && AllWellTyped(spans) && CompileCondition(n).Some? && EachImplied(n)
    ensures Decides(re, n, spans)
  {
    var e := CompileCondition(n).value;
    ConditionIsJoin(n);
    TestSetsMean(e, Summarize(spans));
    WalkPasses(re, n, spans);
    if Test(e, Summarize(spans)) {
      var ts :| ts in TestSets(e) && AllTrue(ts, Summarize(spans));
      assert OneImplies(ts, ConjunctionsIn(n));
      var t, c :| t in ts && c in ConjunctionsIn(n) && Implies(t, c);
      TestMeans(t, spans);
      var i :| 0 <= i < |spans| && Meets(t, spans[i]);
      ImpliesPasses(t, c, spans[i]);
    }
    if SomeSpan(re, n, spans) {
      var i :| 0 <= i < |spans| && Eval(re, n, spans[i]).Yes?;
      ConditionSound(re, n, spans, i);
    }
  }

  /** The bare spans of a set of tests, in some order. */
  lemma {:induction false} BareSpans(ts: set<SummaryExpr>) returns (spans: seq<Span>)
    requires forall t <- ts :: IsTest(t)
    ensures forall t <- ts :: Barely(t) in spans
    ensures forall span <- spans :: exists t <- ts :: span == Barely(t)
    ensures AllWellTyped(spans)
    decreases ts
  {
    if ts == {} {
      spans := [];
    } else {
      var t :| t in ts;
      var rest := BareSpans(ts - {t});
      BarelyMeets(t);
      spans := [Barely(t)] + rest;
    }
  }

  lemma BareSpansPass(ts: set<SummaryExpr>, spans: seq<Span>)
    requires (forall t <- ts :: IsTest(t)) && forall t <- ts :: Barely(t) in spans
    ensures AllTrue(ts, Summarize(spans))
  {
    forall t <- ts
      ensures Test(t, Summarize(spans))
    {
      var i :| 0 <= i < |spans| && spans[i] == Barely(t);
      BarelyMeets(t);
      TestMeans(t, spans);
    }
  }

  /** A set of tests of which none implies a conjunction: its bare spans pass the summary, and none of them matches. */
  lemma BareSpansTell(re: Matcher, n: Node, ts: set<SummaryExpr>) returns (spans: seq<Span>)
    requires HttpTextsMean4xx5xx(re) && CompileCondition(n).Some?
    requires ts in TestSets(CompileCondition(n).value) && !OneImplies(ts, ConjunctionsIn(n))
    ensures AllWellTyped(spans) && !Decides(re, n, spans)
  {
    var e := CompileCondition(n).value;
    ConditionIsJoin(n);
    TestSetsMean(e, ZERO);
    spans := BareSpans(ts);
    BareSpansPass(ts, spans);
    TestSetsMean(e, Summarize(spans));
    WalkPasses(re, n, spans);
    ConjunctionsOfAllOfTests({NO_TEST}, n.conds);
    forall i | 0 <= i < |spans|
      ensures !PassesOne(ConjunctionsIn(n), spans[i])
    {
      assert spans[i] in spans;
      var t :| t in ts && spans[i] == Barely(t);
      forall c <- ConjunctionsIn(n)
        ensures !Passes(c, spans[i])
      {
        if Passes(c, spans[i]) {
          BarelyPasses(t, c);
        }
      }
    }
  }

  /** Every duration threshold is one that an int64 duration can exceed. */
  predicate Exceedable(e: SummaryExpr) {
    match e
    case Both(l, r) => Exceedable(l) && Exceedable(r)
    case Either(l, r) => Exceedable(l) && Exceedable(r)
    case RootOver(us) => us < TWO_63 - 1
    case NonrootOver(us) => us < TWO_63 - 1
    case SpanOver(us) => us < TWO_63 - 1
    case _ => true
  }

  /**
   Which conditions the summary decides, for any nesting of AND, OR and parentheses that
   compiles: on every list of well-typed spans summary and walk agree, if and only if every
   set of tests that passes the summary has one test that alone implies one of the
   conjunctions of the condition.
   */
  lemma ConditionExactly(re: Matcher, n: Node)
    requires HttpTextsMean4xx5xx(re) && CompileCondition(n).Some? && Exceedable(CompileCondition(n).value)
    ensures (forall spans | AllWellTyped(spans) :: Decides(re, n, spans)) <==> EachImplied(n)
  {
    if EachImplied(n) {
      forall spans | AllWellTyped(spans)
        ensures Decides(re, n, spans)
      {
        ImpliedDecides(re, n, spans);
      }
    } else {
      var ts :| ts in TestSets(CompileCondition(n).value) && !OneImplies(ts, ConjunctionsIn(n));
      var spans := BareSpansTell(re, n, ts);
    }
  }

  /** A condition that the summary decides on every list of well-typed spans, if it compiles at all. */
  ghost predicate Decided(n: Node) {
    CompileCondition(n).Some? ==> EachImplied(n)
  }

  /** The shapes of IsExact are such conditions. */
  lemma ExactIsDecided(n: Node)
    requires IsExact(n)
    ensures Decided(n)
  {
    if CompileCondition(n).Some? && !EachImplied(n) {
      var re: Matcher := (text, subject) => IsHttpErrorStatus(subject);
      var ts :| ts in TestSets(CompileCondition(n).value) && !OneImplies(ts, ConjunctionsIn(n));
      var spans := BareSpansTell(re, n, ts);
      ConditionExact(re, n, spans);
    }
  }
}
