/** Exactly which conditions the compiler takes. */
module CompilableProofs {
  import opened Filter
  import opened SpanSummary
  import opened Compiler
  import opened Wrappers

  /** The tests on parent_id. */
  predicate RootTest(n: Node) {
    n == BinaryExpr(EQ, Identifier("parent_id"), StringLiteral("0"))
  }

  predicate NonrootTest(n: Node) {
    n == BinaryExpr(NEQ, Identifier("parent_id"), StringLiteral("0"))
  }

  /** The tests that a flag of the summary, or one of its maxima, answers. */
  predicate SummaryTest(n: Node) {
    || n == BinaryExpr(EQ, Identifier("status"), StringLiteral("error"))
    || n == BinaryExpr(EQ, Identifier("trace_keep"), BoolLiteral(true))
    || (n.BinaryExpr? && n.op == MATCH && n.lhs == Identifier("http_status_code") && IsHttpErrorRegex(n.rhs))
    || (n.BinaryExpr? && n.op == NOT_IN && n.lhs == Identifier("body_code") && IsBizErrorList(n.rhs))
    || (n.BinaryExpr? && n.op == GT && n.lhs == Identifier("duration") && n.rhs.IntLiteral? && n.rhs.i > 0)
  }

  predicate Connective(n: Node) {
    n.BinaryExpr? && (n.op.AND? || n.op.OR?)
  }

  /** A test that satisfies p is joined by AND at the top of n. */
  predicate TopTest(n: Node, p: Node -> bool) {
    match n
    case ParenExpr(m) => TopTest(m, p)
    case BinaryExpr(AND, l, r) => TopTest(l, p) || TopTest(r, p)
    case _ => p(n)
  }

  /** The summary can answer something at the top of n: a test of its own, or an OR. */
  predicate Answerable(n: Node) {
    TopTest(n, m => SummaryTest(m) || (Connective(m) && m.op.OR?))
  }

  predicate Contradictory(l: Node, r: Node) {
    (TopTest(l, RootTest) && TopTest(r, NonrootTest)) || (TopTest(l, NonrootTest) && TopTest(r, RootTest))
  }

  /** Known tests, no AND of a root and a non-root test, and no OR with a side the summary cannot answer. */
  predicate Compilable(n: Node) {
    match n
    case ParenExpr(m) => Compilable(m)
    case BinaryExpr(AND, l, r) => Compilable(l) && Compilable(r) && !Contradictory(l, r)
    case BinaryExpr(OR, l, r) => Compilable(l) && Compilable(r) && Answerable(l) && Answerable(r)
    case _ => RootTest(n) || NonrootTest(n) || SummaryTest(n)
  }

  /** What the compiled conjunction remembers of n. */
  ghost predicate Remembers(p: SpanPred, n: Node) {
    && (p.parent.Root? <==> TopTest(n, RootTest)) && (p.parent.Nonroot? <==> TopTest(n, NonrootTest))
    && (Finish(p).Some? <==> Answerable(n))
    && p.durationGT >= 0
  }

  lemma FinishSome(p: SpanPred)
    ensures Finish(p).Some? <==> p.flag.Some? || p.durationGT > 0
  {
  }

  lemma AtomCompiles(n: Node)
    requires n.BinaryExpr? && !Connective(n)
    ensures CompileAtomic(n.op, n.lhs, n.rhs).Some? <==> RootTest(n) || NonrootTest(n) || SummaryTest(n)
    ensures CompileAtomic(n.op, n.lhs, n.rhs).Some? ==> Remembers(CompileAtomic(n.op, n.lhs, n.rhs).value, n)
  {
  }

  lemma {:induction false} NodeCompiles(n: Node)
    ensures CompileNode(n).Some? <==> Compilable(n)
    ensures CompileNode(n).Some? ==> Remembers(CompileNode(n).value, n)
  {
    match n
    case ParenExpr(m) => NodeCompiles(m);
    case BinaryExpr(op, l, r) =>
      if op.AND? || op.OR? {
        NodeCompiles(l);
        NodeCompiles(r);
        if CompileNode(l).Some? && CompileNode(r).Some? {
          FinishSome(CompileNode(l).value);
          FinishSome(CompileNode(r).value);
        }
        if CompileNode(n).Some? {
          FinishSome(CompileNode(n).value);
        }
      } else {
        AtomCompiles(n);
      }
    case _ =>
  }

  // ----- a whole list -----

  /** Some member of the list has such a test at its top. */
  ghost predicate AnyTop(conds: seq<Node>, p: Node -> bool) {
    exists c <- conds :: TopTest(c, p)
  }

  ghost predicate AnyAnswerable(conds: seq<Node>) {
    exists c <- conds :: Answerable(c)
  }

  /** The conjunction under construction stands for the members done. */
  ghost predicate Stands(acc: SpanPred, done: seq<Node>) {
    && (acc.parent.Root? <==> AnyTop(done, RootTest)) && (acc.parent.Nonroot? <==> AnyTop(done, NonrootTest))
    && (Finish(acc).Some? <==> AnyAnswerable(done))
    && acc.durationGT >= 0
  }

  lemma AnyTopSnoc(done: seq<Node>, c: Node, p: Node -> bool)
    ensures AnyTop(done + [c], p) <==> AnyTop(done, p) || TopTest(c, p)
  {
    assert c in done + [c] && forall d :: d in done + [c] <==> d in done || d == c;
  }

  lemma AnyAnswerableSnoc(done: seq<Node>, c: Node)
    ensures AnyAnswerable(done + [c]) <==> AnyAnswerable(done) || Answerable(c)
  {
    assert c in done + [c] && forall d :: d in done + [c] <==> d in done || d == c;
  }

  lemma StandsNext(acc: SpanPred, done: seq<Node>, c: Node)
    requires Stands(acc, done) && CompileNode(c).Some? && MergePreds(acc, CompileNode(c).value).Some?
    ensures Stands(MergePreds(acc, CompileNode(c).value).value, done + [c])
  {
    NodeCompiles(c);
    AnyTopSnoc(done, c, RootTest);
    AnyTopSnoc(done, c, NonrootTest);
    AnyAnswerableSnoc(done, c);
    FinishSome(acc);
    FinishSome(CompileNode(c).value);
    FinishSome(MergePreds(acc, CompileNode(c).value).value);
  }

  /** The members still to come compile, and no root test meets a non-root test. */
  ghost predicate Consistent(done: seq<Node>, conds: seq<Node>) {
    && (forall c <- conds :: c.BinaryExpr? && Compilable(c))
    && !(AnyTop(done + conds, RootTest) && AnyTop(done + conds, NonrootTest))
  }

  lemma {:induction false} ListCompiles(acc: SpanPred, done: seq<Node>, conds: seq<Node>)
    requires Stands(acc, done)
    ensures CompileConds(acc, conds).Some? <==> Consistent(done, conds)
    ensures CompileConds(acc, conds).Some? ==> Stands(CompileConds(acc, conds).value, done + conds)
    decreases |conds|
  {
    if conds == [] {
      assert done + conds == done;
    } else {
      var (c, rest) := (conds[0], conds[1..]);
      assert done + conds == done + [c] + rest;
      assert c in conds && forall d :: d in conds <==> d == c || d in rest;
      NodeCompiles(c);
      if c.BinaryExpr? && CompileNode(c).Some? {
        AnyTopSnoc(done, c, RootTest);
        AnyTopSnoc(done, c, NonrootTest);
        Longer(done + [c], rest, RootTest);
        Longer(done + [c], rest, NonrootTest);
        if MergePreds(acc, CompileNode(c).value).Some? {
          StandsNext(acc, done, c);
          ListCompiles(MergePreds(acc, CompileNode(c).value).value, done + [c], rest);
        }
      }
    }
  }

  lemma Longer(done: seq<Node>, rest: seq<Node>, p: Node -> bool)
    ensures AnyTop(done, p) ==> AnyTop(done + rest, p)
  {
    assert forall d :: d in done ==> d in done + rest;
  }

  /**
   A condition compiles if and only if its members are binary expressions of known tests,
   no root test is joined with a non-root test, no OR has a side of parent tests alone, and
   the whole is not made of parent tests alone.
   */
  lemma ConditionCompiles(conds: seq<Node>)
    ensures CompileCondition(WhereCondition(conds)).Some? <==>
            && (forall c <- conds :: c.BinaryExpr? && Compilable(c))
            && !(AnyTop(conds, RootTest) && AnyTop(conds, NonrootTest))
            && AnyAnswerable(conds)
  {
    ListCompiles(UNCONSTRAINED, [], conds);
    assert [] + conds == conds;
  }

  /** The regular expressions for HTTP errors that compile, as texts. */
  lemma HttpTextsCompile(text: string)
    ensures CompileNode(BinaryExpr(MATCH, Identifier("http_status_code"), NodeList([Regex(text)]))).Some? <==>
            || text == "^[45][0-9][0-9]$" || text == "^4[0-9][0-9]$|^5[0-9][0-9]$"
            || text == "^[45][0-9]{2}$" || text == "^4[0-9]{2}$|^5[0-9]{2}$"
            || text == "^[45]\\d\\d$" || text == "^4\\d\\d$|^5\\d\\d$"
  {
  }
}
