/**
 Where the fast decision and the walk part: each lemma names an input outside the
 conditions of the theorems in CompilerProofs, DecisionProofs and SpillRuns.
 */
module Boundaries {
  import opened Filter
  import opened SpanSummary
  import opened Compiler
  import opened CompilerProofs
  import opened ExactnessProofs
  import opened Packets
  import Sampler
  import opened Decisions
  import SpillProofs
  import opened Wrappers

  const IS_NOT_ROOT := BinaryExpr(NEQ, Identifier("parent_id"), StringLiteral("0"))
  const IS_SLOW := BinaryExpr(GT, Identifier("duration"), IntLiteral(1))
  const SLOW_CHILD := BinaryExpr(AND, IS_NOT_ROOT, IS_SLOW)
  const IS_BIZ_ERROR :=
    BinaryExpr(NOT_IN, Identifier("body_code"), NodeList([StringLiteral("0"), StringLiteral("200"), NilLiteral]))

  /** The {} list of one condition. */
  function Just(n: Node): Node {
    WhereCondition([n])
  }

  lemma {:induction false} EvalJust(re: Matcher, n: Node, span: Span)
    requires n.BinaryExpr?
    ensures Eval(re, Just(n), span) == Eval(re, n, span)
  {
    assert [n][1..] == [];
    assert EvalAll(re, [n], span) == (match Eval(re, n, span) case Yes => EvalAll(re, [], span) case v => v);
  }

  lemma {:induction false} CompileJust(n: Node)
    requires n.BinaryExpr? && CompileNode(n).Some? && CompileNode(n).value.durationGT >= 0
    ensures CompileCondition(Just(n)) == Finish(CompileNode(n).value)
  {
    assert [n][1..] == [];
    var merged := MergePreds(UNCONSTRAINED, CompileNode(n).value);
    assert CompileConds(UNCONSTRAINED, [n]) == CompileConds(merged.value, []);
  }

  lemma SummaryOfOne(span: Span)
    ensures Summarize([span]) == Absorb(ZERO, span)
  {
  }

  lemma {:induction false} NotRootWithoutParent(re: Matcher, a: Span)
    requires "parent_id" !in a
    ensures Eval(re, IS_NOT_ROOT, a) == Yes
  {
  }

  lemma {:induction false} SlowHolds(re: Matcher, a: Span)
    requires "duration" in a && a["duration"].Int? && a["duration"].i > 1
    ensures Eval(re, IS_SLOW, a) == Yes
  {
  }

  lemma NotInNonrootMaximum(a: Span)
    requires "parent_id" !in a
    ensures Summarize([a]).maxNonroot == 0
  {
  }

  /** A slow span without parent_id passes "not the root" in the walk and is in neither summary maximum. */
  lemma {:induction false} MissingParentIsNotCounted(re: Matcher, a: Span)
    requires "parent_id" !in a && "duration" in a && a["duration"].Int? && a["duration"].i > 1
    ensures var n := SLOW_CHILD;
            && CompileCondition(Just(n)) == Some(NonrootOver(1)) && IsExactPart(n)
            && !Test(NonrootOver(1), Summarize([a]))
            && SomeSpan(re, Just(n), [a])
  {
    var n := SLOW_CHILD;
    CompileJust(n);
    EvalJust(re, n, a);
    NotRootWithoutParent(re, a);
    SlowHolds(re, a);
    NotInNonrootMaximum(a);
    assert Eval(re, Just(n), [a][0]).Yes?;
  }

  lemma BizErrorCompiles()
    ensures CompileCondition(Just(IS_BIZ_ERROR)) == Some(PredBizError) && IsExactPart(IS_BIZ_ERROR)
    ensures IsBizErrorList(IS_BIZ_ERROR.rhs)
  {
  }

  lemma {:induction false} OtherBodyCodeIsNotListed(re: Matcher, r: Node, a: Span)
    requires IsBizErrorList(r) && "body_code" in a && !a["body_code"].Str? && !a["body_code"].Null?
    ensures SingleEval(re, NOT_IN, Identifier("body_code"), r, a) == Yes
  {
    BizItems(r);
    NotInOtherType(re, Items(r.nodes), a);
  }

  lemma OtherBodyCodeIsNoError(a: Span)
    requires "body_code" in a && !a["body_code"].Str? && !a["body_code"].Null?
    ensures !Summarize([a]).bizError
  {
  }

  /** A body_code that is not a string is not in the list for the walk, and no error for the summary. */
  lemma {:induction false} NonStringBodyCode(re: Matcher, a: Span)
    requires "body_code" in a && !a["body_code"].Str? && !a["body_code"].Null?
    ensures && CompileCondition(Just(IS_BIZ_ERROR)) == Some(PredBizError) && IsExactPart(IS_BIZ_ERROR)
            && !Test(PredBizError, Summarize([a]))
            && SomeSpan(re, Just(IS_BIZ_ERROR), [a])
  {
    BizErrorCompiles();
    EvalJust(re, IS_BIZ_ERROR, a);
    OtherBodyCodeIsNotListed(re, IS_BIZ_ERROR.rhs, a);
    OtherBodyCodeIsNoError(a);
    assert Eval(re, Just(IS_BIZ_ERROR), [a][0]).Yes?;
  }

  lemma {:induction false} NotInOtherType(re: Matcher, items: seq<Operand>, span: Span)
    requires "body_code" in span && !span["body_code"].Str? && !span["body_code"].Null?
    requires forall x :: x in items ==> x.NilOperand? || (x.V? && x.v.Str?)
    ensures NotInList(re, items, "body_code", span) == Yes
  {
    if items != [] {
      assert items[0] in items;
      NotInOtherType(re, items[1..], span);
    }
  }

  /** A float duration enters the summary and never compares with an integer literal in the walk. */
  lemma {:induction false} FloatDuration(re: Matcher, a: Span)
    requires "duration" in a && a["duration"].Float? && Truncate(a["duration"].f) > 1
    ensures && CompileCondition(Just(IS_SLOW)) == Some(SpanOver(1)) && IsExactPart(IS_SLOW)
            && Test(SpanOver(1), Summarize([a]))
            && !SomeSpan(re, Just(IS_SLOW), [a])
  {
    CompileJust(IS_SLOW);
    EvalJust(re, IS_SLOW, a);
    SummaryOfOne(a);
    assert SingleEval(re, GT, IS_SLOW.lhs, IS_SLOW.rhs, a) == No;
  }

  lemma JustIsExact(n: Node)
    requires IsExactPart(n)
    ensures IsExact(Just(n))
  {
    assert [n][0] == n;
  }

  /**
   A span without null is decided by the summary, for every exact condition that compiles,
   if and only if its body_code is absent or a string, no float duration truncates above 1,
   and no integer duration above 1 lacks a parent_id.
   */
  lemma SpanExactly(re: Matcher, a: Span)
    requires HttpTextsMean4xx5xx(re) && NoNull(a)
    ensures (forall n | IsExact(n) && CompileCondition(n).Some? :: Decides(re, n, [a])) <==> WellTyped(a)
  {
    if WellTyped(a) {
      assert AllWellTyped([a]);
      forall n | IsExact(n) && CompileCondition(n).Some?
        ensures Decides(re, n, [a])
      {
        ConditionExact(re, n, [a]);
      }
    } else if "body_code" in a && !a["body_code"].Str? {
      JustIsExact(IS_BIZ_ERROR);
      NonStringBodyCode(re, a);
      assert !Decides(re, Just(IS_BIZ_ERROR), [a]);
    } else if "duration" in a && a["duration"].Float? {
      JustIsExact(IS_SLOW);
      FloatDuration(re, a);
      assert !Decides(re, Just(IS_SLOW), [a]);
    } else {
      JustIsExact(SLOW_CHILD);
      MissingParentIsNotCounted(re, a);
      assert !Decides(re, Just(SLOW_CHILD), [a]);
    }
  }

  const MATCH_ALL := Pipeline(Probabilistic, "", Keep, 1.0, None)

  /** A spilled payload whose first point does not decode is kept from its summary; in memory it would be dropped. */
  lemma SpilledGarbageIsKept(env: Env, p: Packet, cfg: Sampler.Config, bytes: Bytes, threshold: nat)
    requires |bytes| > threshold && !FirstPointDecodes(env, bytes)
    requires p.payload == [] && p.compression == COMPRESSION_NONE && HasPredicates(p.summary)
    requires Sampler.PipelinesFor(cfg, p) == [Some(MATCH_ALL)]
    ensures var g := Sampler.Group(p, 0, Sampler.Element(0, 0), Some(1));
            var store := Sampler.Store(map[1 := bytes], 1);
            && Sampler.Decide(env, cfg, Sampler.On(threshold), store, g).Kept() == Some(p.(payload := bytes))
            && Sampler.Decide(env, cfg, Sampler.Off, SpillProofs.NO_STORE, SpillProofs.Plain(g, store)).Kept() == None
  {
    var g := Sampler.Group(p, 0, Sampler.Element(0, 0), Some(1));
    var store := Sampler.Store(map[1 := bytes], 1);
    var ps := [Some(MATCH_ALL)];
    assert ps[1..] == [];
    assert CompilePipeline(Some(MATCH_ALL)) == Some(Always);
    assert CompileAll(ps[1..]) == Some([]);
    assert CompileAll(ps) == Some([Always] + []);
    assert [Always] + [] == [Always];
    assert (1.0 * (SAMPLE_RANGE as real)).Floor == SAMPLE_RANGE;
    SpillProofs.DecidePlain(env, cfg, Sampler.On(threshold), store, g);
  }
}
