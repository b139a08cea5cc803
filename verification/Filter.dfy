/**
 The condition language of filter/ast.go and its evaluator in filter/eval.go.

 Evaluation has three results: the condition holds, it does not, or the Go code
 panics (reflect.TypeOf on a nil interface, or a failed type assertion).
 Regular expressions are an oracle: the text of the expression and the subject
 string decide the match.
 */
module Filter {

  datatype Op = AND | OR | GTE | GT | LT | LTE | NEQ | EQ | IN | NOT_IN | MATCH | NOT_MATCH | OtherOp

  datatype Node =
    | BinaryExpr(op: Op, lhs: Node, rhs: Node)
    | ParenExpr(param: Node)
    | WhereCondition(conds: seq<Node>)
    | Identifier(name: string)
    | StringLiteral(s: string)
    | IntLiteral(i: int)
    | FloatLiteral(f: real)
    | BoolLiteral(b: bool)
    | NilLiteral
    | Regex(text: string)
    | NodeList(nodes: seq<Node>)
    | OtherNode
    | Missing // a nil Node

  /** What a point's Get returns for a present key; Null is Go's nil interface. */
  datatype Value =
    | Str(s: string)
    | Int(i: int)
    | Uint(u: nat)
    | Float(f: real)
    | Bool(b: bool)
    | Blob(d: string)
    | Null

  type Span = map<string, Value>

  type Matcher = (string, string) -> bool

  datatype Verdict = Yes | No | Panics

  /** An operand of binEval: a value, the nil literal, or a regular expression. */
  datatype Operand = V(v: Value) | NilOperand | Rx(text: string)

  function Holds(b: bool): Verdict {
    if b then Yes else No
  }

  predicate IsComparison(op: Op) {
    op.GTE? || op.GT? || op.LT? || op.LTE? || op.EQ? || op.NEQ?
  }

  /** Both operands have the same Go dynamic type. */
  predicate SameType(l: Operand, r: Operand) {
    match (l, r)
    case (V(a), V(b)) =>
      (a.Str? && b.Str?) || (a.Int? && b.Int?) || (a.Uint? && b.Uint?) || (a.Float? && b.Float?) ||
      (a.Bool? && b.Bool?) || (a.Blob? && b.Blob?)
    case (NilOperand, NilOperand) => true
    case (Rx(_), Rx(_)) => true
    case _ => false
  }

  predicate AlmostEqual(a: real, b: real) {
    -0.000000001 <= a - b <= 0.000000001
  }

  predicate StrLess(a: string, b: string)
    decreases |a|
  {
    if b == "" then false
    else if a == "" then true
    else a[0] < b[0] || (a[0] == b[0] && StrLess(a[1..], b[1..]))
  }

  predicate CompareStr(op: Op, l: string, r: string) {
    match op
    case GTE => !StrLess(l, r)
    case LTE => !StrLess(r, l)
    case LT => StrLess(l, r)
    case GT => StrLess(r, l)
    case _ => false
  }

  predicate CompareInt(op: Op, l: int, r: int) {
    match op
    case GTE => l >= r
    case LTE => l <= r
    case LT => l < r
    case GT => l > r
    case _ => false
  }

  predicate CompareReal(op: Op, l: real, r: real) {
    match op
    case GTE => l >= r
    case LTE => l <= r
    case LT => l < r
    case GT => l > r
    case _ => false
  }

  /** binEval (filter/eval.go:144-242). */
  function BinEval(re: Matcher, op: Op, l: Operand, r: Operand): Verdict {
    if r.Rx? then
      if l.V? && l.v.Str? then CompareOperands(re, op, l, r) else No
    else if l == V(Null) || r == V(Null) then Panics
    else if !IsComparison(op) then No
    else if r.NilOperand? || SameType(l, r) then CompareOperands(re, op, l, r)
    else No
  }

  /** The second half of binEval, once the type check has passed. */
  function CompareOperands(re: Matcher, op: Op, l: Operand, r: Operand): Verdict
    requires r.Rx? ==> l.V? && l.v.Str?
  {
    match op
    case EQ =>
      if l.V? && l.v.Float? then Holds(r.V? && r.v.Float? && AlmostEqual(l.v.f, r.v.f))
      else if r.Rx? then Holds(re(r.text, l.v.s))
      else Holds(l == r)
    case MATCH => if r.Rx? then Holds(re(r.text, l.v.s)) else No
    case NOT_MATCH => if r.Rx? then Holds(!re(r.text, l.v.s)) else No
    case NEQ => Holds(l != r)
    case GTE | GT | LT | LTE =>
      if l.V? && r.V? then
        match (l.v, r.v)
        case (Int(a), Int(b)) => Holds(CompareInt(op, a, b))
        case (Str(a), Str(b)) => Holds(CompareStr(op, a, b))
        case (Float(a), Float(b)) => Holds(CompareReal(op, a, b))
        case _ => No
      else No
    case _ => No
  }

  predicate IsEvaluable(n: Node) {
    n.BinaryExpr? || n.ParenExpr? || n.WhereCondition?
  }

  /** Eval of BinaryExpr, ParenExpr and WhereCondition (filter/eval.go:43-86, filter/ast.go:867-883). */
  function Eval(re: Matcher, n: Node, data: Span): Verdict
    decreases n, 1
  {
    match n
    case BinaryExpr(AND, l, r) =>
      if !IsEvaluable(l) || !IsEvaluable(r) then No
      else (match Eval(re, l, data) case Yes => Eval(re, r, data) case v => v)
    case BinaryExpr(OR, l, r) =>
      if !IsEvaluable(l) || !IsEvaluable(r) then No
      else (match Eval(re, l, data) case No => Eval(re, r, data) case v => v)
    case BinaryExpr(op, l, r) => if op.OtherOp? then No else SingleEval(re, op, l, r, data)
    case ParenExpr(p) => if IsEvaluable(p) then Eval(re, p, data) else No
    case WhereCondition(conds) => EvalAll(re, conds, data)
    case _ => No
  }

  /** The conjunction inside one {}: only BinaryExpr members are accepted. */
  function EvalAll(re: Matcher, conds: seq<Node>, data: Span): Verdict
    decreases conds, 0
  {
    if conds == [] then Yes
    else if !conds[0].BinaryExpr? then No
    else (match Eval(re, conds[0], data) case Yes => EvalAll(re, conds[1..], data) case v => v)
  }

  /** WhereConditions.Eval (filter/ast.go:921-936): some condition holds before a malformed member. */
  function EvalAny(re: Matcher, conds: seq<Node>, data: Span): Verdict {
    if conds == [] then No
    else if !conds[0].WhereCondition? then No
    else (match Eval(re, conds[0], data) case No => EvalAny(re, conds[1..], data) case v => v)
  }

  /** The literal on one side as an operand; a node list leaves Go's nil there. */
  function LiteralOf(n: Node): Operand {
    match n
    case StringLiteral(s) => V(Str(s))
    case IntLiteral(i) => V(Int(i))
    case FloatLiteral(f) => V(Float(f))
    case BoolLiteral(b) => V(Bool(b))
    case NilLiteral => NilOperand
    case Regex(t) => Rx(t)
    case _ => V(Null)
  }

  predicate IsRhs(n: Node) {
    n.StringLiteral? || n.IntLiteral? || n.FloatLiteral? || n.BoolLiteral? || n.NilLiteral? || n.Regex? || n.NodeList?
  }

  predicate IsListItem(n: Node) {
    IsRhs(n) && !n.NodeList?
  }

  /** The operands of a node list; members of other kinds are skipped. */
  function Items(nodes: seq<Node>): seq<Operand> {
    if nodes == [] then []
    else (if IsListItem(nodes[0]) then [LiteralOf(nodes[0])] else []) + Items(nodes[1..])
  }

  lemma ItemsAppend(nodes: seq<Node>, n: Node)
    ensures Items(nodes + [n]) == Items(nodes) + (if IsListItem(n) then [LiteralOf(n)] else [])
  {
    if nodes != [] {
      assert (nodes + [n])[1..] == nodes[1..] + [n];
      ItemsAppend(nodes[1..], n);
    }
  }

  /** The loop of filter/eval.go:318-338 that builds the operand list. */
  method CollectItems(nodes: seq<Node>) returns (arr: seq<Operand>)
    ensures arr == Items(nodes)
  {
    arr := [];
    for i := 0 to |nodes|
      invariant arr == Items(nodes[..i])
    {
      assert nodes[..i + 1] == nodes[..i] + [nodes[i]];
      ItemsAppend(nodes[..i], nodes[i]);
      if IsListItem(nodes[i]) {
        arr := arr + [LiteralOf(nodes[i])];
      }
    }
    assert nodes[..|nodes|] == nodes;
  }

  /** singleEval (filter/eval.go:298-439), for the operators doEval lets through. */
  function SingleEval(re: Matcher, op: Op, l: Node, r: Node, data: Span): Verdict {
    if l.Missing? || r.Missing? || !IsRhs(r) then No
    else if r.NodeList? && Missing in r.nodes then Panics
    else if l.NilLiteral? || l.IntLiteral? || l.FloatLiteral? || l.BoolLiteral? || l.StringLiteral? then
      BinEval(re, op, LiteralOf(l), LiteralOf(r))
    else if !l.Identifier? then No
    else if op.MATCH? || op.NOT_MATCH? then
      if r.NodeList? then MatchAny(re, op, r.nodes, l.name, data) else Panics
    else if op.IN? then InList(re, if r.NodeList? then Items(r.nodes) else [], l.name, data)
    else if op.NOT_IN? then NotInList(re, if r.NodeList? then Items(r.nodes) else [], l.name, data)
    else if IsComparison(op) then
      if l.name in data then BinEval(re, op, V(data[l.name]), LiteralOf(r))
      else BinEval(re, op, LiteralOf(r), NilOperand)
    else No
  }

  function MatchAny(re: Matcher, op: Op, nodes: seq<Node>, name: string, data: Span): Verdict {
    if nodes == [] then No
    else
      var hit :=
        if name in data && data[name].Str? && nodes[0].Regex? then BinEval(re, op, V(data[name]), Rx(nodes[0].text))
        else No;
      match hit case No => MatchAny(re, op, nodes[1..], name, data) case v => v
  }

  function InList(re: Matcher, items: seq<Operand>, name: string, data: Span): Verdict {
    if items == [] then No
    else if name in data then
      match BinEval(re, EQ, V(data[name]), items[0]) case No => InList(re, items[1..], name, data) case v => v
    else BinEval(re, EQ, items[0], NilOperand)
  }

  function NotInList(re: Matcher, items: seq<Operand>, name: string, data: Span): Verdict {
    if items == [] then Yes
    else
      var hit :=
        if name in data then BinEval(re, EQ, V(data[name]), items[0]) else BinEval(re, EQ, items[0], NilOperand);
      match hit
      case Yes => No
      case Panics => Panics
      case No => NotInList(re, items[1..], name, data)
  }
}
