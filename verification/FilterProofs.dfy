/** What the condition language means: lists, comparisons, and the connectives, each in terms of the literals written down. */
module FilterProofs {
  import opened Filter

  // ----- one value against one literal -----

  /** The value equals the literal; floats up to one part in 10^9, a regular expression by matching. */
  predicate Equals(re: Matcher, v: Value, n: Node) {
    match n
    case StringLiteral(s) => v == Str(s)
    case IntLiteral(i) => v == Int(i)
    case FloatLiteral(f) => v.Float? && -0.000000001 <= v.f - f <= 0.000000001
    case BoolLiteral(b) => v == Bool(b)
    case Regex(text) => v.Str? && re(text, v.s)
    case _ => false
  }

  /** The value and the literal have one type, or the literal is null. */
  predicate Comparable(v: Value, n: Node) {
    match n
    case StringLiteral(_) => v.Str?
    case IntLiteral(_) => v.Int?
    case FloatLiteral(_) => v.Float?
    case BoolLiteral(_) => v.Bool?
    case NilLiteral => true
    case Regex(_) => v.Str?
    case _ => false
  }

  lemma EqualsMeans(re: Matcher, v: Value, n: Node)
    requires IsListItem(n) && !v.Null?
    ensures BinEval(re, EQ, V(v), LiteralOf(n)) == Holds(Equals(re, v, n))
  {
  }

  lemma NilMeans(re: Matcher, n: Node)
    requires IsListItem(n)
    ensures BinEval(re, EQ, LiteralOf(n), NilOperand) == Holds(n.NilLiteral?)
  {
  }

  // ----- IN and NOT_IN -----

  /** Some literal of the list equals the value. */
  ghost predicate Listed(re: Matcher, v: Value, nodes: seq<Node>) {
    exists n <- nodes :: Equals(re, v, n)
  }

  lemma {:induction false} InPresent(re: Matcher, nodes: seq<Node>, name: string, data: Span)
    requires name in data && !data[name].Null?
    ensures InList(re, Items(nodes), name, data) == Holds(Listed(re, data[name], nodes))
    ensures NotInList(re, Items(nodes), name, data) == Holds(!Listed(re, data[name], nodes))
  {
    if nodes != [] {
      InPresent(re, nodes[1..], name, data);
      assert forall n :: n in nodes <==> n == nodes[0] || n in nodes[1..];
      if IsListItem(nodes[0]) {
        EqualsMeans(re, data[name], nodes[0]);
        assert Items(nodes)[0] == LiteralOf(nodes[0]) && Items(nodes)[1..] == Items(nodes[1..]);
      } else {
        assert Items(nodes) == Items(nodes[1..]);
      }
    }
  }

  /** Null is written in the list. */
  ghost predicate ListsNull(nodes: seq<Node>) {
    NilLiteral in nodes
  }

  /** The first literal of the list is null. */
  predicate StartsWithNull(nodes: seq<Node>) {
    nodes != [] && if IsListItem(nodes[0]) then nodes[0].NilLiteral? else StartsWithNull(nodes[1..])
  }

  lemma {:induction false} InAbsent(re: Matcher, nodes: seq<Node>, name: string, data: Span)
    requires name !in data
    ensures InList(re, Items(nodes), name, data) == Holds(StartsWithNull(nodes))
    ensures NotInList(re, Items(nodes), name, data) == Holds(!ListsNull(nodes))
  {
    if nodes != [] {
      InAbsent(re, nodes[1..], name, data);
      assert forall n :: n in nodes <==> n == nodes[0] || n in nodes[1..];
      if IsListItem(nodes[0]) {
        NilMeans(re, nodes[0]);
        assert Items(nodes)[0] == LiteralOf(nodes[0]) && Items(nodes)[1..] == Items(nodes[1..]);
      } else {
        assert Items(nodes) == Items(nodes[1..]);
      }
    }
  }

  /** The literals of the list, if any, are regular expressions. */
  ghost predicate OnlyRegexes(nodes: seq<Node>) {
    forall n <- nodes :: !n.StringLiteral? && !n.IntLiteral? && !n.FloatLiteral? && !n.BoolLiteral? && !n.NilLiteral?
  }

  lemma NullMeans(re: Matcher, n: Node)
    requires IsListItem(n)
    ensures BinEval(re, EQ, V(Null), LiteralOf(n)) == if n.Regex? then No else Panics
  {
  }

  lemma RegexesCons(nodes: seq<Node>)
    requires nodes != []
    ensures OnlyRegexes(nodes) <==> (IsListItem(nodes[0]) ==> nodes[0].Regex?) && OnlyRegexes(nodes[1..])
  {
    assert forall n :: n in nodes <==> n == nodes[0] || n in nodes[1..];
  }

  lemma {:induction false} InNull(re: Matcher, nodes: seq<Node>, name: string, data: Span)
    requires name in data && data[name].Null?
    ensures InList(re, Items(nodes), name, data) == if OnlyRegexes(nodes) then No else Panics
    ensures NotInList(re, Items(nodes), name, data) == if OnlyRegexes(nodes) then Yes else Panics
  {
    if nodes != [] {
      InNull(re, nodes[1..], name, data);
      RegexesCons(nodes);
      if IsListItem(nodes[0]) {
        NullMeans(re, nodes[0]);
        assert Items(nodes)[0] == LiteralOf(nodes[0]) && Items(nodes)[1..] == Items(nodes[1..]);
      } else {
        assert Items(nodes) == Items(nodes[1..]);
      }
    }
  }

  /**
   IN holds of a present value if and only if one of the literals of the list equals it, and
   NOT_IN is its negation. For a key that is absent, IN looks at the first literal only and
   holds when that is null, and NOT_IN holds when null is not in the list at all. A null
   value makes both panic, unless the list has only regular expressions.
   */
  lemma {:induction false} InMeans(re: Matcher, name: string, nodes: seq<Node>, data: Span)
    requires Missing !in nodes
    ensures var (isIn, isNot) := (Eval(re, BinaryExpr(IN, Identifier(name), NodeList(nodes)), data), Eval(re, BinaryExpr(NOT_IN, Identifier(name), NodeList(nodes)), data));
            if name !in data then isIn == Holds(StartsWithNull(nodes)) && isNot == Holds(NilLiteral !in nodes)
            else if data[name].Null? then (isIn.Panics? <==> !OnlyRegexes(nodes)) && (isNot.Panics? <==> !OnlyRegexes(nodes)) && !isIn.Yes? && !isNot.No?
            else isIn == Holds(Listed(re, data[name], nodes)) && isNot == Holds(!Listed(re, data[name], nodes))
  {
    if name !in data {
      InAbsent(re, nodes, name, data);
    } else if data[name].Null? {
      InNull(re, nodes, name, data);
    } else {
      InPresent(re, nodes, name, data);
    }
  }

  // ----- MATCH and NOT_MATCH -----

  /** Some expression of the list matches the string, or does not, as wanted. */
  ghost predicate SomeMatch(re: Matcher, nodes: seq<Node>, s: string, wanted: bool) {
    exists n <- nodes :: n.Regex? && re(n.text, s) == wanted
  }

  lemma {:induction false} MatchAnyMeans(re: Matcher, nodes: seq<Node>, name: string, data: Span, wanted: bool)
    ensures MatchAny(re, if wanted then MATCH else NOT_MATCH, nodes, name, data) ==
            Holds(name in data && data[name].Str? && SomeMatch(re, nodes, data[name].s, wanted))
  {
    if nodes != [] {
      MatchAnyMeans(re, nodes[1..], name, data, wanted);
      assert forall n :: n in nodes <==> n == nodes[0] || n in nodes[1..];
    }
  }

  /** MATCH holds of a string that one of the expressions matches, NOT_MATCH of one that some expression does not match, and neither of anything else. */
  lemma MatchMeans(re: Matcher, name: string, nodes: seq<Node>, data: Span)
    requires Missing !in nodes
    ensures Eval(re, BinaryExpr(MATCH, Identifier(name), NodeList(nodes)), data) ==
            Holds(name in data && data[name].Str? && SomeMatch(re, nodes, data[name].s, true))
    ensures Eval(re, BinaryExpr(NOT_MATCH, Identifier(name), NodeList(nodes)), data) ==
            Holds(name in data && data[name].Str? && SomeMatch(re, nodes, data[name].s, false))
  {
    MatchAnyMeans(re, nodes, name, data, true);
    MatchAnyMeans(re, nodes, name, data, false);
  }

  // ----- comparisons -----

  /** A condition on one key. */
  function Compare(op: Op, name: string, n: Node): Node {
    BinaryExpr(op, Identifier(name), n)
  }

  lemma CompareEval(re: Matcher, op: Op, name: string, n: Node, data: Span)
    requires IsListItem(n) && IsComparison(op)
    ensures Eval(re, Compare(op, name, n), data) ==
            if name in data then BinEval(re, op, V(data[name]), LiteralOf(n)) else BinEval(re, op, LiteralOf(n), NilOperand)
  {
  }

  lemma UnequalMeans(re: Matcher, v: Value, n: Node)
    requires IsListItem(n) && !v.Null?
    ensures BinEval(re, NEQ, V(v), LiteralOf(n)) ==
            Holds(Comparable(v, n) && (n.Regex? || n.NilLiteral? || if n.FloatLiteral? then v.f != n.f else !Equals(re, v, n)))
  {
  }

  /**
   Equality of a present value is Equals. Inequality is not its negation: it needs a
   literal of the value's type, or null, and takes floats exactly. An absent key is equal
   to null alone.
   */
  lemma EqualityMeans(re: Matcher, name: string, n: Node, data: Span)
    requires IsListItem(n)
    ensures name in data && !data[name].Null? ==>
              && Eval(re, Compare(EQ, name, n), data) == Holds(Equals(re, data[name], n))
              && Eval(re, Compare(NEQ, name, n), data) ==
                 Holds(Comparable(data[name], n) && (n.Regex? || n.NilLiteral? || if n.FloatLiteral? then data[name].f != n.f else !Equals(re, data[name], n)))
    ensures name !in data ==>
              Eval(re, Compare(EQ, name, n), data) == Holds(n.NilLiteral?) && Eval(re, Compare(NEQ, name, n), data) == Holds(!n.NilLiteral?)
    ensures name in data && data[name].Null? ==>
              var v := if n.Regex? then No else Panics;
              Eval(re, Compare(EQ, name, n), data) == v && Eval(re, Compare(NEQ, name, n), data) == v
  {
    CompareEval(re, EQ, name, n, data);
    CompareEval(re, NEQ, name, n, data);
    if name in data && !data[name].Null? {
      EqualsMeans(re, data[name], n);
      UnequalMeans(re, data[name], n);
    }
  }

  /** The literal is written for the value. */
  predicate Writes(lit: Node, v: Value) {
    match lit
    case StringLiteral(s) => v == Str(s)
    case IntLiteral(i) => v == Int(i)
    case FloatLiteral(f) => v == Float(f)
    case BoolLiteral(b) => v == Bool(b)
    case _ => false
  }

  /** A literal on the left is compared as a key that holds it; null on the left equals null alone. */
  lemma LiteralLeft(re: Matcher, op: Op, name: string, lit: Node, v: Value, n: Node, data: Span)
    requires IsListItem(n) && IsComparison(op) && Writes(lit, v)
    ensures Eval(re, BinaryExpr(op, lit, n), data) == Eval(re, Compare(op, name, n), data[name := v])
    ensures Eval(re, BinaryExpr(op, NilLiteral, n), data) == Holds(op.EQ? && n.NilLiteral?)
  {
  }

  /** The first difference of the strings, or the end of one of them, decides. */
  ghost predicate Before(a: string, b: string) {
    exists i :: 0 <= i <= |a| && i < |b| && a[..i] == b[..i] && (i == |a| || a[i] < b[i])
  }

  lemma SameStart(a: string, b: string, i: nat)
    requires i <= |a| && i <= |b| && a[..i] == b[..i]
    ensures i > 0 ==> a[0] == b[0]
  {
    assert i > 0 ==> a[..i][0] == a[0] && b[..i][0] == b[0];
  }

  lemma {:induction false} StrLessMeans(a: string, b: string)
    ensures StrLess(a, b) <==> Before(a, b)
  {
    if a != [] && b != [] {
      StrLessMeans(a[1..], b[1..]);
      if a[0] < b[0] {
        assert a[..0] == b[..0];
      } else if a[0] == b[0] {
        if Before(a[1..], b[1..]) {
          var i :| 0 <= i <= |a[1..]| && i < |b[1..]| && a[1..][..i] == b[1..][..i] && (i == |a[1..]| || a[1..][i] < b[1..][i]);
          assert a[..i + 1] == [a[0]] + a[1..][..i] && b[..i + 1] == [b[0]] + b[1..][..i];
          assert Before(a, b);
        }
        if Before(a, b) {
          var i :| 0 <= i <= |a| && i < |b| && a[..i] == b[..i] && (i == |a| || a[i] < b[i]);
          assert i > 0 && a[1..][..i - 1] == a[..i][1..] && b[1..][..i - 1] == b[..i][1..];
        }
      } else if Before(a, b) {
        var i :| 0 <= i <= |a| && i < |b| && a[..i] == b[..i] && (i == |a| || a[i] < b[i]);
        SameStart(a, b, i);
      }
    } else if b != [] {
      assert a[..0] == b[..0];
    }
  }

  /** The value is less than the literal, in the order of their type. */
  ghost predicate Less(v: Value, n: Node) {
    || (v.Int? && n.IntLiteral? && v.i < n.i)
    || (v.Float? && n.FloatLiteral? && v.f < n.f)
    || (v.Str? && n.StringLiteral? && Before(v.s, n.s))
  }

  ghost predicate More(v: Value, n: Node) {
    || (v.Int? && n.IntLiteral? && v.i > n.i)
    || (v.Float? && n.FloatLiteral? && v.f > n.f)
    || (v.Str? && n.StringLiteral? && Before(n.s, v.s))
  }

  /** The types that have an order. */
  predicate Ordered(v: Value, n: Node) {
    (v.Int? && n.IntLiteral?) || (v.Float? && n.FloatLiteral?) || (v.Str? && n.StringLiteral?)
  }

  /** The verdict of one comparison of a value with a literal. */
  ghost function Ordering(op: Op, v: Value, n: Node): Verdict {
    match op
    case LT => Holds(Less(v, n))
    case GT => Holds(More(v, n))
    case GTE => Holds(Ordered(v, n) && !Less(v, n))
    case LTE => Holds(Ordered(v, n) && !More(v, n))
    case _ => No
  }

  lemma OrderingMeans(re: Matcher, op: Op, v: Value, n: Node)
    requires IsListItem(n) && !v.Null? && (op.LT? || op.GT? || op.LTE? || op.GTE?)
    ensures BinEval(re, op, V(v), LiteralOf(n)) == Ordering(op, v, n)
  {
    if v.Str? && n.StringLiteral? {
      StrLessMeans(v.s, n.s);
      StrLessMeans(n.s, v.s);
    }
  }

  /** Comparisons of a present value hold by the order of its type, which the literal must share; an absent key compares with nothing. */
  lemma OrderMeans(re: Matcher, name: string, n: Node, data: Span)
    requires IsListItem(n)
    ensures name in data && !data[name].Null? ==>
              && Eval(re, Compare(LT, name, n), data) == Holds(Less(data[name], n))
              && Eval(re, Compare(GT, name, n), data) == Holds(More(data[name], n))
              && Eval(re, Compare(GTE, name, n), data) == Holds(Ordered(data[name], n) && !Less(data[name], n))
              && Eval(re, Compare(LTE, name, n), data) == Holds(Ordered(data[name], n) && !More(data[name], n))
    ensures name !in data ==>
              && Eval(re, Compare(LT, name, n), data) == No && Eval(re, Compare(GT, name, n), data) == No
              && Eval(re, Compare(LTE, name, n), data) == No && Eval(re, Compare(GTE, name, n), data) == No
  {
    CompareEval(re, LT, name, n, data);
    CompareEval(re, GT, name, n, data);
    CompareEval(re, GTE, name, n, data);
    CompareEval(re, LTE, name, n, data);
    if name in data && !data[name].Null? {
      OrderingMeans(re, LT, data[name], n);
      OrderingMeans(re, GT, data[name], n);
      OrderingMeans(re, GTE, data[name], n);
      OrderingMeans(re, LTE, data[name], n);
    }
  }

  lemma {:induction false} StrLessOrder(a: string, b: string, c: string)
    ensures !(StrLess(a, b) && StrLess(b, a)) && (StrLess(a, b) || StrLess(b, a) || a == b) && !StrLess(a, a)
    ensures StrLess(a, b) && StrLess(b, c) ==> StrLess(a, c)
    decreases |a|
  {
    if a != [] && b != [] {
      StrLessOrder(a[1..], b[1..], if c == [] then [] else c[1..]);
      assert a == [a[0]] + a[1..] && b == [b[0]] + b[1..];
    } else if a != [] {
      StrLessOrder(a[1..], [], []);
    }
  }

  /** A value compared with a value, as the evaluator does it once both are known. */
  predicate Lt(v: Value, w: Value) {
    BinEval((_, _) => false, LT, V(v), V(w)).Yes?
  }

  /** On integers, floats and strings the order is strict, total and transitive. */
  lemma OrderLaws(u: Value, v: Value, w: Value)
    requires (u.Int? && v.Int? && w.Int?) || (u.Float? && v.Float? && w.Float?) || (u.Str? && v.Str? && w.Str?)
    ensures !Lt(u, u) && !(Lt(u, v) && Lt(v, u)) && (Lt(u, v) || Lt(v, u) || u == v)
    ensures Lt(u, v) && Lt(v, w) ==> Lt(u, w)
  {
    if u.Str? {
      StrLessOrder(u.s, v.s, w.s);
      StrLessOrder(v.s, w.s, u.s);
    }
  }

  // ----- connectives -----

  /** AND and OR of two conditions, from the left: the right side is not looked at when the left decides or panics. */
  lemma ConnectivesMean(re: Matcher, l: Node, r: Node, data: Span)
    requires IsEvaluable(l) && IsEvaluable(r)
    ensures var (a, b, both, either) := (Eval(re, l, data), Eval(re, r, data), Eval(re, BinaryExpr(AND, l, r), data), Eval(re, BinaryExpr(OR, l, r), data));
            && (both.Yes? <==> a.Yes? && b.Yes?) && (both.Panics? <==> a.Panics? || (a.Yes? && b.Panics?))
            && (either.No? <==> a.No? && b.No?) && (either.Panics? <==> a.Panics? || (a.No? && b.Panics?))
            && Eval(re, ParenExpr(l), data) == a
  {
  }

  /** A {} list holds exactly when all its members are binary expressions that hold. */
  lemma {:induction false} WhereMeans(re: Matcher, conds: seq<Node>, data: Span)
    ensures Eval(re, WhereCondition(conds), data).Yes? <==> forall c <- conds :: c.BinaryExpr? && Eval(re, c, data).Yes?
    ensures Eval(re, WhereCondition(conds), data).Panics? <==> exists i :: PanicsAt(re, conds, data, i)
  {
    if conds != [] {
      WhereMeans(re, conds[1..], data);
      assert Eval(re, WhereCondition(conds[1..]), data) == EvalAll(re, conds[1..], data);
      assert forall c :: c in conds <==> c == conds[0] || c in conds[1..];
      WherePanics(re, conds, data);
    }
  }

  /** conds[i] panics after members that hold. */
  ghost predicate PanicsAt(re: Matcher, conds: seq<Node>, data: Span, i: int) {
    0 <= i < |conds| && conds[i].BinaryExpr? && Eval(re, conds[i], data).Panics? &&
    forall j :: 0 <= j < i ==> conds[j].BinaryExpr? && Eval(re, conds[j], data).Yes?
  }

  lemma WherePanics(re: Matcher, conds: seq<Node>, data: Span)
    requires conds != []
    ensures (exists i :: PanicsAt(re, conds, data, i)) <==>
            PanicsAt(re, conds, data, 0) || (conds[0].BinaryExpr? && Eval(re, conds[0], data).Yes? && exists i :: PanicsAt(re, conds[1..], data, i))
  {
    if i :| PanicsAt(re, conds, data, i) && i > 0 {
      assert PanicsAt(re, conds[1..], data, i - 1);
    }
    if conds[0].BinaryExpr? && Eval(re, conds[0], data).Yes? {
      if i :| PanicsAt(re, conds[1..], data, i) {
        assert PanicsAt(re, conds, data, i + 1);
      }
    }
  }

  /** Several {} lists hold exactly when one of them does and those before it are lists that do not. */
  lemma {:induction false} AnyMeans(re: Matcher, conds: seq<Node>, data: Span)
    ensures EvalAny(re, conds, data).Yes? <==>
            exists i :: 0 <= i < |conds| && conds[i].WhereCondition? && Eval(re, conds[i], data).Yes? && Passed(re, conds, data, i)
  {
    if conds != [] {
      AnyMeans(re, conds[1..], data);
      if i :| 0 < i < |conds| && conds[i].WhereCondition? && Eval(re, conds[i], data).Yes? && Passed(re, conds, data, i) {
        assert conds[1..][i - 1] == conds[i] && Passed(re, conds[1..], data, i - 1);
      }
      if conds[0].WhereCondition? && Eval(re, conds[0], data).No? {
        if i :| 0 <= i < |conds[1..]| && conds[1..][i].WhereCondition? && Eval(re, conds[1..][i], data).Yes? && Passed(re, conds[1..], data, i) {
          assert conds[i + 1] == conds[1..][i] && Passed(re, conds, data, i + 1);
        }
      }
    }
  }

  ghost predicate Passed(re: Matcher, conds: seq<Node>, data: Span, i: int)
    requires 0 <= i <= |conds|
  {
    forall j :: 0 <= j < i ==> conds[j].WhereCondition? && Eval(re, conds[j], data).No?
  }

  // ----- malformed conditions -----

  /** No condition at all, an operator that is none, and AND or OR with a side that is no condition: they do not hold, and do not panic. */
  lemma MalformedFails(re: Matcher, op: Op, l: Node, r: Node, data: Span)
    ensures !IsEvaluable(l) ==> Eval(re, l, data) == No && Eval(re, ParenExpr(l), data) == No
    ensures (op.AND? || op.OR?) && (!IsEvaluable(l) || !IsEvaluable(r)) ==> Eval(re, BinaryExpr(op, l, r), data) == No
    ensures Eval(re, BinaryExpr(OtherOp, l, r), data) == No
  {
  }

  /** Without a list, MATCH and NOT_MATCH panic and IN and NOT_IN take it as empty; with a list, comparisons panic. */
  lemma ListsWhereTheyBelong(re: Matcher, name: string, n: Node, nodes: seq<Node>, data: Span)
    requires IsListItem(n) && Missing !in nodes
    ensures Eval(re, Compare(MATCH, name, n), data) == Panics && Eval(re, Compare(NOT_MATCH, name, n), data) == Panics
    ensures Eval(re, Compare(IN, name, n), data) == No && Eval(re, Compare(NOT_IN, name, n), data) == Yes
    ensures Eval(re, Compare(EQ, name, NodeList(nodes)), data) == Panics && Eval(re, Compare(GT, name, NodeList(nodes)), data) == Panics
  {
  }
}
