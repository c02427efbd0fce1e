// The annotator and the printer of expressions together: what the printer changes in an
// expression depends on the flags the walk left on its nodes.
module AnnotatedPrinting {
  import opened Options
  import opened SyntaxTrees
  import opened Annotation
  import E = Expressions
  import L = ExpressionLowering

  function OperatorOf(t: E.Token): Operator {
    if t.Equals? then EqualsSign else if t.Slash? then Slash else OtherOperator
  }

  function Child(c: Children, i: nat): Option<Node>
    decreases c
  {
    if c.End? then None else if i == 0 then c.child else Child(c.rest, i - 1)
  }

  predicate ChildIs(n: Node, i: nat, e: E.Expr)
    decreases e, 1
  {
    Child(n.children, i).Some? && Is(Child(n.children, i).value, e)
  }

  /** The node is the root of this expression. A leaf is any node but a binary expression,
      whatever is inside it. */
  predicate Is(n: Node, e: E.Expr)
    decreases e, 0
  {
    match e
    case Leaf(_) => !n.kind.Binary?
    case Paren(x) => n.kind.Other? && ChildIs(n, 0, x)
    case Prefix(_, x) => n.kind.Other? && ChildIs(n, 0, x)
    case Postfix(x, _) => n.kind.Other? && ChildIs(n, 0, x)
    case Binary(t, l, r) => n.kind == SyntaxTrees.Binary(OperatorOf(t)) && ChildIs(n, 0, l) && ChildIs(n, 1, r)
    case Ternary(c, t, f) => n.kind.Other? && ChildIs(n, 0, c) && ChildIs(n, 1, t) && ChildIs(n, 2, f)
  }

  /** The operator printed for a node with or without the flag for GML's equals. */
  function PrintedOperator(t: E.Token, lowered: bool): E.Token {
    if lowered then E.EqualTo else if t == E.Assign then E.Equals else t
  }

  /** The text of an expression printed from the flags on its nodes. */
  function FlaggedText(n: Node, e: E.Expr, f: Facts): seq<E.Token>
    requires Is(n, e)
    decreases e, 0
  {
    match e
    case Leaf(s) => [E.Operand(s)]
    case Paren(x) => [E.OpenParen] + ChildText(n, 0, x, f) + [E.CloseParen]
    case Prefix(t, x) => [t] + ChildText(n, 0, x, f)
    case Postfix(x, t) => ChildText(n, 0, x, f) + [t]
    case Binary(t, l, r) =>
      ChildText(n, 0, l, f) + [PrintedOperator(t, n.id in f.lowered)]
      + (if n.id in f.divisions && t == E.Slash then [E.DoubleCast] else []) + ChildText(n, 1, r, f)
    case Ternary(c, t, g) =>
      ChildText(n, 0, c, f) + [E.Question] + ChildText(n, 1, t, f) + [E.Colon] + ChildText(n, 2, g, f)
  }

  function ChildText(n: Node, i: nat, e: E.Expr, f: Facts): seq<E.Token>
    requires ChildIs(n, i, e)
    decreases e, 1
  {
    FlaggedText(Child(n.children, i).value, e, f)
  }

  // ---- the walk meets every part of what it meets ----

  lemma {:induction false} ChildOfMet(parent: Kind, i: nat, c: Children, k: nat)
    requires Child(c, k).Some?
    ensures (Child(c, k).value, StatementChild(parent, i + k)) in OrderOf(parent, i, c)
    decreases c
  {
    if k == 0 {
      assert Order(c.child.value, StatementChild(parent, i))[0] == (c.child.value, StatementChild(parent, i));
    } else {
      ChildOfMet(parent, i + 1, c.rest, k - 1);
    }
  }

  lemma {:induction false} PartsAreMet(root: Node, at: bool, v: Visit, w: Visit)
    requires v in Order(root, at) && w in Order(v.0, v.1)
    ensures w in Order(root, at)
    decreases root, 1
  {
    if v != (root, at) {
      assert Order(root, at) == [(root, at)] + OrderOf(root.kind, 0, root.children);
      PartsOfAreMet(root.kind, 0, root.children, v, w);
    }
  }

  lemma {:induction false} PartsOfAreMet(parent: Kind, i: nat, c: Children, v: Visit, w: Visit)
    requires v in OrderOf(parent, i, c) && w in Order(v.0, v.1)
    ensures w in OrderOf(parent, i, c)
    decreases c, 0
  {
    if c.child.Some? && v in Order(c.child.value, StatementChild(parent, i)) {
      PartsAreMet(c.child.value, StatementChild(parent, i), v, w);
    } else {
      PartsOfAreMet(parent, i + 1, c.rest, v, w);
    }
  }

  lemma ChildIsMet(root: Node, at: bool, n: Node, statement: bool, k: nat)
    requires (n, statement) in Order(root, at) && Child(n.children, k).Some?
    ensures (Child(n.children, k).value, StatementChild(n.kind, k)) in Order(root, at)
  {
    ChildOfMet(n.kind, 0, n.children, k);
    PartsAreMet(root, at, (n, statement), (Child(n.children, k).value, StatementChild(n.kind, k)));
  }

  lemma FlagsWhereMet(root: Node, preset: set<string>, shared: set<string>, n: Node, statement: bool)
    requires Owned(root) && (n, statement) in Order(root, false)
    ensures var f := Annotate(root, preset, true, shared);
      && (n.id in f.lowered <==> IsEquals(n) && !statement)
      && (n.id in f.divisions <==> n.kind == SyntaxTrees.Binary(Slash))
  {
    hide Order, After;
    var i :| 0 <= i < |Order(root, false)| && Order(root, false)[i] == (n, statement);
    WalkMeetsEachNodeOnce(root, false);
    FlagsOfNode(Facts(preset, {}, {}, map[]), Order(root, false), true, shared, i);
  }

  // ---- what is printed ----

  /** Child k of a node prints as what it is there: a statement of a block or a branch of an
      if with its = assigning, a condition or an operand with every = comparing. */
  lemma {:induction false} HeldExpressionPrints(
      root: Node, preset: set<string>, shared: set<string>, n: Node, statement: bool, k: nat, e: E.Expr)
    requires Owned(root) && (n, statement) in Order(root, false) && ChildIs(n, k, e)
    ensures ChildText(n, k, e, Annotate(root, preset, true, shared)) == L.LoweredText(e, StatementChild(n.kind, k))
    decreases e, 1
  {
    ChildIsMet(root, false, n, statement, k);
    FlagsPrintLowered(root, preset, shared, Child(n.children, k).value, StatementChild(n.kind, k), e);
  }

  /** Wherever an expression stands in annotated code, at statement position or not, its
      flags make the printer write the lowered text for that position. */
  lemma {:induction false} FlagsPrintLowered(
      root: Node, preset: set<string>, shared: set<string>, n: Node, statement: bool, e: E.Expr)
    requires Owned(root) && (n, statement) in Order(root, false) && Is(n, e)
    ensures FlaggedText(n, e, Annotate(root, preset, true, shared)) == L.LoweredText(e, statement)
    decreases e, 0
  {
    hide Order, Annotate, Owned, OrderOf;
    match e
    case Leaf(_) =>
    case Paren(x) => HeldExpressionPrints(root, preset, shared, n, statement, 0, x);
    case Prefix(_, x) => HeldExpressionPrints(root, preset, shared, n, statement, 0, x);
    case Postfix(x, _) => HeldExpressionPrints(root, preset, shared, n, statement, 0, x);
    case Binary(t, l, r) =>
      FlagsWhereMet(root, preset, shared, n, statement);
      HeldExpressionPrints(root, preset, shared, n, statement, 0, l);
      HeldExpressionPrints(root, preset, shared, n, statement, 1, r);
    case Ternary(c, t, f) =>
      HeldExpressionPrints(root, preset, shared, n, statement, 0, c);
      HeldExpressionPrints(root, preset, shared, n, statement, 1, t);
      HeldExpressionPrints(root, preset, shared, n, statement, 2, f);
  }
}

// Statements by the roles of their parts, and what the flags make of each role.
module AnnotatedStatements {
  import opened Options
  import opened SyntaxTrees
  import opened Annotation
  import opened AnnotatedPrinting
  import E = Expressions
  import L = ExpressionLowering

  /** Code by its roles. Value is an expression that is a statement; Jump is a statement
      without parts. */
  datatype Code =
    | Value(value: E.Expr)
    | Statements(stmts: List)
    | Conditional(cond: E.Expr, thn: Option<Code>, els: Option<Code>)
    | Counting(init: Option<Code>, test: Option<E.Expr>, step: Option<Code>, body: Option<Code>)
    | Looping(cond: E.Expr, body: Option<Code>)
    | DoLooping(body: Option<Code>, cond: E.Expr)
    | Within(target: E.Expr, body: Option<Code>)
    | Jump

  datatype List = Nil | Cons(head: Code, tail: List)

  /** The node is this code, each part at the place its kind of node has it. */
  predicate IsCode(n: Node, c: Code)
    decreases c, 0
  {
    match c
    case Value(e) => Is(n, e)
    case Statements(ss) => n.kind.CodeBlock? && AreCode(n.children, ss)
    case Conditional(cond, thn, els) =>
      n.kind.If? && ChildIs(n, 0, cond) && PartIs(n, 1, thn) && PartIs(n, 2, els)
    case Counting(init, test, step, body) =>
      n.kind.For? && PartIs(n, 0, init) && (test.Some? ==> ChildIs(n, 1, test.value))
      && PartIs(n, 2, step) && PartIs(n, 3, body)
    case Looping(cond, body) => n.kind.While? && ChildIs(n, 0, cond) && PartIs(n, 1, body)
    case DoLooping(body, cond) => n.kind.Do? && PartIs(n, 0, body) && ChildIs(n, 1, cond)
    case Within(target, body) => n.kind.With? && ChildIs(n, 0, target) && PartIs(n, 1, body)
    case Jump => true
  }

  predicate PartIs(n: Node, i: nat, part: Option<Code>)
    decreases part, 1
  {
    part.Some? ==> Child(n.children, i).Some? && IsCode(Child(n.children, i).value, part.value)
  }

  predicate AreCode(c: Children, ss: List)
    decreases ss, 0
  {
    match ss
    case Nil => c.End?
    case Cons(s, rest) => c.More? && c.child.Some? && IsCode(c.child.value, s) && AreCode(c.rest, rest)
  }

  /** Printed from these flags, the expression has its root = assigning. */
  ghost predicate Assigns(n: Node, e: E.Expr, f: Facts) {
    Is(n, e) && FlaggedText(n, e, f) == L.LoweredText(e, true)
  }

  /** Child i is this expression, and every = in it is printed as a comparison. */
  ghost predicate Compares(n: Node, i: nat, e: E.Expr, f: Facts) {
    ChildIs(n, i, e) && ChildText(n, i, e, f) == L.LoweredText(e, false)
  }

  /** Every statement that is an expression assigns: in a block, as a branch, as the body
      of a loop or of a with, as the first or last part of a for. Every condition, and the
      object of a with, compares. */
  ghost predicate RolesPrinted(n: Node, c: Code, f: Facts)
    decreases c, 0
  {
    match c
    case Value(e) => Assigns(n, e, f)
    case Statements(ss) => AllRolesPrinted(n.children, ss, f)
    case Conditional(cond, thn, els) =>
      Compares(n, 0, cond, f) && PartPrinted(n, 1, thn, f) && PartPrinted(n, 2, els, f)
    case Counting(init, test, step, body) =>
      PartPrinted(n, 0, init, f) && (test.Some? ==> Compares(n, 1, test.value, f))
      && PartPrinted(n, 2, step, f) && PartPrinted(n, 3, body, f)
    case Looping(cond, body) => Compares(n, 0, cond, f) && PartPrinted(n, 1, body, f)
    case DoLooping(body, cond) => PartPrinted(n, 0, body, f) && Compares(n, 1, cond, f)
    case Within(target, body) => Compares(n, 0, target, f) && PartPrinted(n, 1, body, f)
    case Jump => true
  }

  ghost predicate PartPrinted(n: Node, i: nat, part: Option<Code>, f: Facts)
    decreases part, 1
  {
    part.Some? ==> Child(n.children, i).Some? && RolesPrinted(Child(n.children, i).value, part.value, f)
  }

  ghost predicate AllRolesPrinted(c: Children, ss: List, f: Facts)
    decreases ss, 0
  {
    match ss
    case Nil => true
    case Cons(s, rest) =>
      c.More? && c.child.Some? && RolesPrinted(c.child.value, s, f) && AllRolesPrinted(c.rest, rest, f)
  }

  lemma ConditionCompares(root: Node, preset: set<string>, shared: set<string>, n: Node, at: bool, i: nat, e: E.Expr)
    requires Owned(root) && (n, at) in Order(root, false) && ChildIs(n, i, e) && !StatementChild(n.kind, i)
    ensures Compares(n, i, e, Annotate(root, preset, true, shared))
  {
    HeldExpressionPrints(root, preset, shared, n, at, i, e);
  }

  lemma {:induction false} PartIsPrinted(
      root: Node, preset: set<string>, shared: set<string>, n: Node, at: bool, i: nat, part: Option<Code>)
    requires Owned(root) && (n, at) in Order(root, false) && PartIs(n, i, part) && StatementChild(n.kind, i)
    ensures PartPrinted(n, i, part, Annotate(root, preset, true, shared))
    decreases part, 1
  {
    if part.Some? {
      ChildIsMet(root, false, n, at, i);
      RolesArePrinted(root, preset, shared, Child(n.children, i).value, true, part.value);
    }
  }

  /** Wherever code stands in an annotated tree, the flags print every role as it should
      be; an expression that is a statement is one the walk met as a statement. */
  lemma {:induction false} RolesArePrinted(
      root: Node, preset: set<string>, shared: set<string>, n: Node, at: bool, c: Code)
    requires Owned(root) && (n, at) in Order(root, false) && IsCode(n, c) && (c.Value? ==> at)
    ensures RolesPrinted(n, c, Annotate(root, preset, true, shared))
    decreases c, 0
  {
    hide Order, OrderOf, Annotate, Owned, Is, Compares;
    match c
    case Value(e) => FlagsPrintLowered(root, preset, shared, n, at, e);
    case Statements(ss) => BlockIsPrinted(root, preset, shared, n, at, 0, n.children, ss);
    case Conditional(cond, thn, els) =>
      ConditionCompares(root, preset, shared, n, at, 0, cond);
      PartIsPrinted(root, preset, shared, n, at, 1, thn);
      PartIsPrinted(root, preset, shared, n, at, 2, els);
    case Counting(init, test, step, body) =>
      PartIsPrinted(root, preset, shared, n, at, 0, init);
      if test.Some? { ConditionCompares(root, preset, shared, n, at, 1, test.value); }
      PartIsPrinted(root, preset, shared, n, at, 2, step);
      PartIsPrinted(root, preset, shared, n, at, 3, body);
    case Looping(cond, body) =>
      ConditionCompares(root, preset, shared, n, at, 0, cond);
      PartIsPrinted(root, preset, shared, n, at, 1, body);
    case DoLooping(body, cond) =>
      PartIsPrinted(root, preset, shared, n, at, 0, body);
      ConditionCompares(root, preset, shared, n, at, 1, cond);
    case Within(target, body) =>
      ConditionCompares(root, preset, shared, n, at, 0, target);
      PartIsPrinted(root, preset, shared, n, at, 1, body);
    case Jump =>
  }

  /** The children of a block from the i-th on. */
  lemma {:induction false} BlockIsPrinted(
      root: Node, preset: set<string>, shared: set<string>, n: Node, at: bool, i: nat, c: Children, ss: List)
    requires Owned(root) && (n, at) in Order(root, false) && n.kind.CodeBlock? && AreCode(c, ss)
    requires forall k: nat :: Child(c, k) == Child(n.children, i + k)
    ensures AllRolesPrinted(c, ss, Annotate(root, preset, true, shared))
    decreases ss, 0
  {
    hide Order, OrderOf, Annotate, Owned, Is;
    if ss.Cons? {
      assert Child(c, 0) == Child(n.children, i + 0);
      ChildIsMet(root, false, n, at, i);
      RolesArePrinted(root, preset, shared, c.child.value, true, ss.head);
      forall k: nat ensures Child(c.rest, k) == Child(n.children, i + 1 + k) {
        assert Child(c, k + 1) == Child(n.children, i + (k + 1));
      }
      BlockIsPrinted(root, preset, shared, n, at, i + 1, c.rest, ss.tail);
    }
  }

  /** A whole piece of code under GML's equals: = assigns exactly where a statement stands. */
  lemma ProgramRolesArePrinted(root: Node, preset: set<string>, shared: set<string>, c: Code)
    requires Owned(root) && c.Statements? && IsCode(root, c)
    ensures RolesPrinted(root, c, Annotate(root, preset, true, shared))
  {
    assert Order(root, false)[0] == (root, false);
    RolesArePrinted(root, preset, shared, root, false, c);
  }
}
