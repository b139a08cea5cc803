/**
 The predicate compiler (aggregate/pipeline_predicates.go): a condition becomes an
 expression over the span summary. The closures of the source are the values of
 SummaryExpr and Test is their application.
 */
module Compiler {
  import opened Filter
  import opened SpanSummary
  import opened Wrappers

  datatype SummaryExpr =
    | PredError
    | PredHttpError
    | PredBizError
    | PredTraceKeep
    | RootOver(us: int)
    | NonrootOver(us: int)
    | SpanOver(us: int)
    | Both(l: SummaryExpr, r: SummaryExpr)
    | Either(l: SummaryExpr, r: SummaryExpr)
    | AnyOf(es: seq<SummaryExpr>)
    | Always

  predicate Test(e: SummaryExpr, s: Summary)
    decreases e
  {
    match e
    case PredError => s.error
    case PredHttpError => s.httpError
    case PredBizError => s.bizError
    case PredTraceKeep => s.traceKeep
    case RootOver(us) => s.root > us
    case NonrootOver(us) => s.maxNonroot > us
    case SpanOver(us) => s.maxSpan > us
    case Both(l, r) => Test(l, s) && Test(r, s)
    case Either(l, r) => Test(l, s) || Test(r, s)
    case AnyOf(es) => exists i :: 0 <= i < |es| && Test(es[i], s)
    case Always => true
  }

  datatype Parent = Anywhere | Root | Nonroot

  /** A conjunction under construction; durationGT 0 means unconstrained. */
  datatype SpanPred = SpanPred(flag: Option<SummaryExpr>, parent: Parent, durationGT: int)

  const UNCONSTRAINED := SpanPred(None, Anywhere, 0)

  function Flag(e: SummaryExpr): Option<SpanPred> {
    Some(SpanPred(Some(e), Anywhere, 0))
  }

  const HTTP_ERROR_TEXTS: set<string> := {
    "^[45][0-9][0-9]$",
    "^4[0-9][0-9]$|^5[0-9][0-9]$",
    "^[45]\\d\\d$",
    "^4\\d\\d$|^5\\d\\d$",
    "^[45][0-9]{2}$",
    "^4[0-9]{2}$|^5[0-9]{2}$"
  }

  predicate IsHttpErrorRegex(n: Node) {
    n.NodeList? && |n.nodes| == 1 && n.nodes[0].Regex? && n.nodes[0].text in HTTP_ERROR_TEXTS
  }

  /** The NOT_IN list is "0", "200" and null, in some order. */
  predicate IsBizErrorList(n: Node) {
    n.NodeList? && |n.nodes| == 3 &&
    StringLiteral("0") in n.nodes && StringLiteral("200") in n.nodes && NilLiteral in n.nodes
  }

  /** The scan of isBizErrorList, with its three found-markers. */
  method ScanBizErrorList(n: Node) returns (ok: bool)
    ensures ok <==> IsBizErrorList(n)
  {
    if !n.NodeList? || |n.nodes| != 3 {
      return false;
    }
    var hasZero, has200, hasNil := false, false, false;
    for i := 0 to |n.nodes|
      invariant hasZero <==> StringLiteral("0") in n.nodes[..i]
      invariant has200 <==> StringLiteral("200") in n.nodes[..i]
      invariant hasNil <==> NilLiteral in n.nodes[..i]
    {
      assert n.nodes[..i + 1] == n.nodes[..i] + [n.nodes[i]];
      match n.nodes[i] {
        case StringLiteral(s) =>
          if s == "0" {
            hasZero := true;
          } else if s == "200" {
            has200 := true;
          }
        case NilLiteral => hasNil := true;
        case _ =>
      }
    }
    assert n.nodes[..|n.nodes|] == n.nodes;
    return hasZero && has200 && hasNil;
  }

  function CompileAtomic(op: Op, l: Node, r: Node): Option<SpanPred> {
    if !l.Identifier? then None
    else if l.name == "status" then
      if op.EQ? && r == StringLiteral("error") then Flag(PredError) else None
    else if l.name == "http_status_code" then
      if op.MATCH? && IsHttpErrorRegex(r) then Flag(PredHttpError) else None
    else if l.name == "body_code" then
      if op.NOT_IN? && IsBizErrorList(r) then Flag(PredBizError) else None
    else if l.name == "trace_keep" then
      if op.EQ? && r == BoolLiteral(true) then Flag(PredTraceKeep) else None
    else if l.name == "parent_id" then
      if r != StringLiteral("0") then None
      else if op.EQ? then Some(SpanPred(None, Root, 0))
      else if op.NEQ? then Some(SpanPred(None, Nonroot, 0))
      else None
    else if l.name == "duration" then
      if op.GT? && r.IntLiteral? && r.i > 0 then Some(SpanPred(None, Anywhere, r.i)) else None
    else None
  }

  /** mergePreds: conjunction; clashing parent tests are refused. */
  function MergePreds(a: SpanPred, b: SpanPred): Option<SpanPred> {
    if !a.parent.Anywhere? && !b.parent.Anywhere? && a.parent != b.parent then None
    else
      Some(SpanPred(
             if a.flag.Some? && b.flag.Some? then Some(Both(a.flag.value, b.flag.value))
             else if a.flag.Some? then a.flag else b.flag,
             if !a.parent.Anywhere? then a.parent else b.parent,
             Max(a.durationGT, b.durationGT)))
  }

  /** spanPred.eval: the decision expression, if the summary can express it. */
  function Finish(p: SpanPred): Option<SummaryExpr> {
    var dur :=
      if p.durationGT <= 0 then None
      else
        match p.parent
        case Root => Some(RootOver(p.durationGT))
        case Nonroot => Some(NonrootOver(p.durationGT))
        case Anywhere => Some(SpanOver(p.durationGT));
    if p.flag.Some? && dur.Some? then Some(Both(p.flag.value, dur.value))
    else if p.flag.Some? then p.flag
    else dur
  }

  /** compilePred after asBinaryExpr, which looks through parentheses. */
  function CompileNode(n: Node): Option<SpanPred> {
    match n
    case ParenExpr(p) => CompileNode(p)
    case BinaryExpr(AND, l, r) =>
      var (a, b) := (CompileNode(l), CompileNode(r));
      if a.None? || b.None? then None else MergePreds(a.value, b.value)
    case BinaryExpr(OR, l, r) =>
      var (a, b) := (CompileNode(l), CompileNode(r));
      if a.None? || b.None? then None
      else
        var (f, g) := (Finish(a.value), Finish(b.value));
        if f.None? || g.None? then None else Flag(Either(f.value, g.value))
    case BinaryExpr(op, l, r) => CompileAtomic(op, l, r)
    case _ => None
  }

  /** The conjunction of a whole {} list, merged from the left onto acc. */
  function CompileConds(acc: SpanPred, conds: seq<Node>): Option<SpanPred>
    decreases conds
  {
    if conds == [] then Some(acc)
    else if !conds[0].BinaryExpr? then None
    else
      var part := CompileNode(conds[0]);
      if part.None? then None
      else
        var merged := MergePreds(acc, part.value);
        if merged.None? then None else CompileConds(merged.value, conds[1..])
  }

  /** compileWhereCondition; a conjunction without expression counts as not compiled. */
  function CompileCondition(n: Node): Option<SummaryExpr> {
    if !n.WhereCondition? then None
    else
      var p := CompileConds(UNCONSTRAINED, n.conds);
      if p.None? then None else Finish(p.value)
  }

  /** All conditions of one pipeline. */
  function CompileConditions(conds: seq<Node>): Option<seq<SummaryExpr>> {
    if conds == [] then Some([])
    else
      var (e, es) := (CompileCondition(conds[0]), CompileConditions(conds[1..]));
      if e.None? || es.None? then None else Some([e.value] + es.value)
  }

  lemma {:induction false} CompileConditionsAt(conds: seq<Node>, i: nat)
    requires CompileConditions(conds).Some? && i < |conds|
    ensures |CompileConditions(conds).value| == |conds|
    ensures CompileCondition(conds[i]) == Some(CompileConditions(conds).value[i])
  {
    if i > 0 {
      CompileConditionsAt(conds[1..], i - 1);
    } else if |conds| > 1 {
      CompileConditionsAt(conds[1..], 0);
    }
  }

  lemma {:induction false} CompileConditionsTotal(conds: seq<Node>)
    ensures CompileConditions(conds).Some? <==> forall n :: n in conds ==> CompileCondition(n).Some?
    ensures CompileConditions(conds).Some? ==> |CompileConditions(conds).value| == |conds|
  {
    if conds != [] {
      CompileConditionsTotal(conds[1..]);
      assert forall n :: n in conds <==> n == conds[0] || n in conds[1..];
    }
  }

  /** The accumulator loop of compileWhereCondition. */
  method CompileConditionLoop(n: Node) returns (e: Option<SummaryExpr>)
    ensures e == CompileCondition(n)
  {
    if !n.WhereCondition? {
      return None;
    }
    var combined := UNCONSTRAINED;
    for i := 0 to |n.conds|
      invariant CompileConds(UNCONSTRAINED, n.conds) == CompileConds(combined, n.conds[i..])
    {
      assert n.conds[i..][0] == n.conds[i] && n.conds[i..][1..] == n.conds[i + 1..];
      if !n.conds[i].BinaryExpr? {
        return None;
      }
      var part := CompileNode(n.conds[i]);
      if part.None? {
        return None;
      }
      var merged := MergePreds(combined, part.value);
      if merged.None? {
        return None;
      }
      combined := merged.value;
    }
    return Finish(combined);
  }

  datatype Kind = Condition | Probabilistic | OtherKind
  datatype Action = Keep | Drop | OtherAction

  /** A SamplingPipeline; conds is what Apply parsed from a non-empty condition text. */
  datatype Pipeline = Pipeline(kind: Kind, condition: string, action: Action, rate: real, conds: Option<seq<Node>>)

  predicate IsMatchAll(p: Pipeline) {
    p.kind.Probabilistic? && p.condition == "" && p.rate > 0.0
  }

  /** compilePipelinePredicate; None in the argument is a nil pipeline. */
  function CompilePipeline(p: Option<Pipeline>): Option<SummaryExpr> {
    if p.None? then None
    else if IsMatchAll(p.value) then Some(Always)
    else if p.value.conds.None? then None
    else
      var es := CompileConditions(p.value.conds.value);
      if es.None? then None else Some(AnyOf(es.value))
  }

  method CompilePipelineLoop(p: Option<Pipeline>) returns (e: Option<SummaryExpr>)
    ensures e == CompilePipeline(p)
  {
    if p.None? {
      return None;
    }
    if IsMatchAll(p.value) {
      return Some(Always);
    }
    if p.value.conds.None? {
      return None;
    }
    var conds := p.value.conds.value;
    CompileConditionsTotal(conds);
    var exprs := [];
    for i := 0 to |conds|
      invariant |exprs| == i
      invariant forall j :: 0 <= j < i ==> CompileCondition(conds[j]) == Some(exprs[j])
    {
      var expr := CompileConditionLoop(conds[i]);
      if expr.None? {
        return None;
      }
      exprs := exprs + [expr.value];
    }
    forall j | 0 <= j < |conds| ensures CompileConditions(conds).value[j] == exprs[j] {
      CompileConditionsAt(conds, j);
    }
    assert CompileConditions(conds).value == exprs;
    return Some(AnyOf(exprs));
  }

  /** compilePipelinesFast: all or nothing. */
  function CompileAll(ps: seq<Option<Pipeline>>): Option<seq<SummaryExpr>> {
    if ps == [] then Some([])
    else
      var (e, es) := (CompilePipeline(ps[0]), CompileAll(ps[1..]));
      if e.None? || es.None? then None else Some([e.value] + es.value)
  }

  function After(done: seq<SummaryExpr>, rest: Option<seq<SummaryExpr>>): Option<seq<SummaryExpr>> {
    if rest.None? then None else Some(done + rest.value)
  }

  lemma AfterOneMore(done: seq<SummaryExpr>, e: SummaryExpr, rest: Option<seq<SummaryExpr>>)
    ensures After(done + [e], rest) == After(done, After([e], rest))
    ensures After([], rest) == rest
  {
    if rest.Some? {
      assert done + [e] + rest.value == done + ([e] + rest.value);
      assert [] + rest.value == rest.value;
    }
  }

  /** The loop of compilePipelinesFast. */
  method CompileAllLoop(ps: seq<Option<Pipeline>>) returns (es: Option<seq<SummaryExpr>>)
    ensures es == CompileAll(ps)
  {
    var exprs: seq<SummaryExpr> := [];
    AfterOneMore([], Always, CompileAll(ps));
    assert ps[0..] == ps;
    for i := 0 to |ps|
      invariant CompileAll(ps) == After(exprs, CompileAll(ps[i..]))
    {
      var e := CompilePipelineLoop(ps[i]);
      assert ps[i..][0] == ps[i] && ps[i..][1..] == ps[i + 1..];
      if e.None? {
        return None;
      }
      AfterOneMore(exprs, e.value, CompileAll(ps[i + 1..]));
      exprs := exprs + [e.value];
    }
    assert ps[|ps|..] == [] && exprs + [] == exprs;
    return Some(exprs);
  }

  lemma {:induction false} CompileAllAt(ps: seq<Option<Pipeline>>, i: nat)
    requires CompileAll(ps).Some? && i < |ps|
    ensures |CompileAll(ps).value| == |ps|
    ensures CompilePipeline(ps[i]) == Some(CompileAll(ps).value[i])
  {
    if i > 0 {
      CompileAllAt(ps[1..], i - 1);
    } else if |ps| > 1 {
      CompileAllAt(ps[1..], 0);
    }
  }
}
