// SemanticAnnotator: one stateful pre-order walk, and what it leaves on each node.
module SyntaxTrees {
  import opened Options

  datatype Operator = EqualsSign | Slash | OtherOperator

  /** A declarator; plain says it is a bare name, without pointer or array modifiers. */
  datatype Declarator = Declarator(name: string, plain: bool)

  /** Node kinds the annotator or its traversal tells apart. A Declaration carries the
      name of its base type when that is a class. */
  datatype Kind =
    | CodeBlock | If | For | While | Do | With
    | Binary(op: Operator)
    | ScopeAccess(dot: bool, name: string)
    | Identifier(name: string)
    | Declaration(classType: Option<string>, declarators: seq<Declarator>)
    | Other

  /** A node: its address, its kind, and its children in visit order (None when null). */
  datatype Node = Node(id: nat, kind: Kind, children: Children)
  datatype Children = End | More(child: Option<Node>, rest: Children)

  function Ids(n: Node): set<nat>
    decreases n, 0
  {
    {n.id} + IdsOf(n.children)
  }

  function IdsOf(c: Children): set<nat>
    decreases c, 0
  {
    if c.End? then {} else (if c.child.Some? then Ids(c.child.value) else {}) + IdsOf(c.rest)
  }

  /** Nodes are owned once, so no address occurs twice. */
  predicate Owned(n: Node)
    decreases n, 0
  {
    n.id !in IdsOf(n.children) && AllOwned(n.children)
  }

  predicate AllOwned(c: Children)
    decreases c, 0
  {
    c.More? ==>
      && (c.child.Some? ==> Owned(c.child.value) && Ids(c.child.value) !! IdsOf(c.rest))
      && AllOwned(c.rest)
  }

  /** Child i of a node of this kind stands at statement position. */
  predicate StatementChild(kind: Kind, i: nat) {
    match kind
    case CodeBlock => true
    case If => i == 1 || i == 2
    case For => i == 0 || i == 2 || i == 3
    case While => i == 1
    case Do => i == 0
    case With => i == 1
    case _ => false
  }

  predicate IsEquals(n: Node) {
    n.kind == Binary(EqualsSign)
  }

  /** A node met on the walk, and whether it stood at statement position. */
  type Visit = (Node, bool)

  /** The pre-order walk. */
  function Order(n: Node, statement: bool): seq<Visit>
    decreases n, 0
  {
    [(n, statement)] + OrderOf(n.kind, 0, n.children)
  }

  function OrderOf(parent: Kind, i: nat, c: Children): seq<Visit>
    decreases c, 0
  {
    if c.End? then []
    else
      (if c.child.Some? then Order(c.child.value, StatementChild(parent, i)) else [])
      + OrderOf(parent, i + 1, c.rest)
  }

  /** The names a declaration makes class-typed locals. */
  function DeclaredLocals(n: Node): set<string> {
    match n.kind
    case Declaration(Some(t), ds) =>
      if t == "var" || t == "variant" then {}
      else set d | d in ds && d.name != "" && d.plain :: d.name
    case _ => {}
  }

  /** The name left of the dot of an access, when that is a bare name. */
  function LeftName(n: Node): Option<string> {
    if n.children.More? && n.children.child.Some? && n.children.child.value.kind.Identifier?
    then Some(n.children.child.value.kind.name)
    else None
  }

  predicate IsDotAccess(n: Node) {
    n.kind.ScopeAccess? && n.kind.dot && n.children.More? && n.children.child.Some?
  }

  datatype AccessKind = Member | VarAccess | Global | Local | Shared
}

module Annotation {
  import opened Options
  import opened SyntaxTrees

  /** How a dot access is classified when these names are class-typed locals. */
  function Classify(n: Node, locals: set<string>, shared: set<string>): AccessKind
    requires IsDotAccess(n)
  {
    match LeftName(n)
    case None => VarAccess
    case Some(left) =>
      if left == "global" then Global
      else if left == "local" then Local
      else if left in locals then Member
      else if n.kind.name in shared then Shared
      else VarAccess
  }

  /** What the walk has found and set so far. */
  datatype Facts = Facts(
    locals: set<string>, lowered: set<nat>, divisions: set<nat>, kinds: map<nat, AccessKind>)

  function Step(f: Facts, v: Visit, gmlEquals: bool, shared: set<string>): Facts {
    var (n, statement) := v;
    Facts(f.locals + DeclaredLocals(n),
          if gmlEquals && IsEquals(n) && !statement then f.lowered + {n.id} else f.lowered,
          if n.kind == Binary(Slash) then f.divisions + {n.id} else f.divisions,
          if IsDotAccess(n) then f.kinds[n.id := Classify(n, f.locals, shared)] else f.kinds)
  }

  function After(f: Facts, order: seq<Visit>, gmlEquals: bool, shared: set<string>): Facts
    decreases |order|
  {
    if order == [] then f
    else After(Step(f, order[0], gmlEquals, shared), order[1..], gmlEquals, shared)
  }

  class SemanticAnnotator {
    const gmlEquals: bool
    const sharedLocals: set<string>
    var statementEquals: set<nat>
    var structLocals: set<string>
    // The flags the walk sets on nodes, by node address.
    var lowerGmlEquals: set<nat>
    var lowerRealDivision: set<nat>
    var accessKind: map<nat, AccessKind>

    ghost function Found(): Facts
      reads this
    {
      Facts(structLocals, lowerGmlEquals, lowerRealDivision, accessKind)
    }

    constructor (gmlEquals: bool, sharedLocals: set<string>)
      ensures this.gmlEquals == gmlEquals && this.sharedLocals == sharedLocals
      ensures statementEquals == {} && Found() == Facts({}, {}, {}, map[])
    {
      this.gmlEquals, this.sharedLocals := gmlEquals, sharedLocals;
      statementEquals, structLocals := {}, {};
      lowerGmlEquals, lowerRealDivision, accessKind := {}, {}, map[];
    }

    method DeclareLocal(name: string)
      modifies this`structLocals
      ensures structLocals == old(structLocals) + {name}
    {
      structLocals := structLocals + {name};
    }

    method MarkStatement(stmt: Option<Node>)
      modifies this`statementEquals
      ensures statementEquals
           == old(statementEquals) + (if stmt.Some? && IsEquals(stmt.value) then {stmt.value.id} else {})
    {
      if stmt.Some? && stmt.value.kind.Binary? && stmt.value.kind.op == EqualsSign {
        statementEquals := statementEquals + {stmt.value.id};
      }
    }

    /** The visits of the statement-position holders. */
    method MarkStatements(n: Node)
      modifies this`statementEquals
      ensures statementEquals == old(statementEquals) + Marked(n.kind, 0, n.children)
    {
      var c, i := n.children, 0;
      while c.More?
        invariant statementEquals + Marked(n.kind, i, c) == old(statementEquals) + Marked(n.kind, 0, n.children)
        decreases c
      {
        if StatementChild(n.kind, i) {
          MarkStatement(c.child);
        }
        c, i := c.rest, i + 1;
      }
    }

    method VisitBinaryExpression(n: Node)
      requires n.kind.Binary?
      modifies this`lowerGmlEquals, this`lowerRealDivision
      ensures lowerRealDivision == old(lowerRealDivision) + (if n.kind.op == Slash then {n.id} else {})
      ensures lowerGmlEquals == old(lowerGmlEquals)
        + (if gmlEquals && IsEquals(n) && n.id !in statementEquals then {n.id} else {})
    {
      if n.kind.op == Slash {
        lowerRealDivision := lowerRealDivision + {n.id};
      }
      if gmlEquals && n.kind.op == EqualsSign && n.id !in statementEquals {
        lowerGmlEquals := lowerGmlEquals + {n.id};
      }
    }

    method RecordLocals(n: Node)
      requires n.kind.Declaration?
      modifies this`structLocals
      ensures structLocals == old(structLocals) + DeclaredLocals(n)
    {
      if n.kind.classType.None? || n.kind.classType.value == "var" || n.kind.classType.value == "variant" {
        return;
      }
      var ds := n.kind.declarators;
      for i := 0 to |ds|
        invariant structLocals == old(structLocals) + set d | d in ds[..i] && d.name != "" && d.plain :: d.name
      {
        assert ds[..i + 1] == ds[..i] + [ds[i]];
        if ds[i].name != "" && ds[i].plain {
          structLocals := structLocals + {ds[i].name};
        }
      }
      assert ds[..|ds|] == ds;
    }

    method ClassifyAccess(n: Node)
      requires n.kind.ScopeAccess?
      modifies this`accessKind
      ensures accessKind == if IsDotAccess(n)
        then old(accessKind)[n.id := Classify(n, structLocals, sharedLocals)] else old(accessKind)
    {
      if n.kind.dot && n.children.More? && n.children.child.Some? {
        var lhs := n.children.child.value;
        var kind := VarAccess;
        if lhs.kind.Identifier? {
          var left := lhs.kind.name;
          if left == "global" {
            kind := Global;
          } else if left == "local" {
            kind := Local;
          } else if left in structLocals {
            kind := Member;
          } else if n.kind.name in sharedLocals {
            kind := Shared;
          }
        }
        accessKind := accessKind[n.id := kind];
      }
    }

    /** The walk of a whole piece of code by a fresh annotator, class-typed locals preset. */
    method VisitNodes(root: Node)
      requires Owned(root) && root.kind.CodeBlock?
      requires statementEquals == {} && Found() == Facts(structLocals, {}, {}, map[])
      modifies this
      ensures Found() == Annotate(root, old(structLocals), gmlEquals, sharedLocals)
    {
      Walk(root, false);
    }

    /** The node's own visit. */
    method VisitNode(n: Node, ghost statement: bool)
      requires IsEquals(n) ==> (n.id in statementEquals <==> statement)
      modifies this
      ensures statementEquals == old(statementEquals) + Marked(n.kind, 0, n.children)
      ensures Found() == Step(old(Found()), (n, statement), gmlEquals, sharedLocals)
    {
      if !n.kind.CodeBlock? && !n.kind.If? && !n.kind.For? && !n.kind.While? && !n.kind.Do? && !n.kind.With? {
        NothingMarked(n.kind, 0, n.children);
      }
      match n.kind
      case CodeBlock | If | For | While | Do | With => MarkStatements(n);
      case Binary(_) => VisitBinaryExpression(n);
      case ScopeAccess(_, _) => ClassifyAccess(n);
      case Declaration(_, _) => RecordLocals(n);
      case _ =>
    }

    /** Node::RecurusiveVisit: the node, then its children. */
    method Walk(n: Node, ghost statement: bool)
      requires Owned(n)
      requires IsEquals(n) ==> (n.id in statementEquals <==> statement)
      requires IdsOf(n.children) !! statementEquals
      modifies this
      ensures old(statementEquals) <= statementEquals <= old(statementEquals) + IdsOf(n.children)
      ensures Found() == After(old(Found()), Order(n, statement), gmlEquals, sharedLocals)
      decreases n, 1
    {
      MarkedAreIds(n.kind, 0, n.children);
      ghost var order := Order(n, statement);
      assert order[0] == (n, statement) && order[1..] == OrderOf(n.kind, 0, n.children);
      VisitNode(n, statement);
      WalkChildren(n.kind, 0, n.children);
    }

    method WalkChildren(parent: Kind, i: nat, c: Children)
      requires AllOwned(c)
      requires statementEquals * IdsOf(c) == Marked(parent, i, c)
      modifies this
      ensures old(statementEquals) <= statementEquals <= old(statementEquals) + IdsOf(c)
      ensures Found() == After(old(Found()), OrderOf(parent, i, c), gmlEquals, sharedLocals)
      decreases c, 1
    {
      hide Step, Classify, Owned, DeclaredLocals;
      if c.More? {
        MarkedAreIds(parent, i + 1, c.rest);
        ghost var first := if c.child.Some? then Order(c.child.value, StatementChild(parent, i)) else [];
        if c.child.Some? {
          MarkedHere(parent, i, c, statementEquals);
          Walk(c.child.value, StatementChild(parent, i));
        }
        AfterJoins(old(Found()), first, OrderOf(parent, i + 1, c.rest), gmlEquals, sharedLocals);
        WalkChildren(parent, i + 1, c.rest);
      }
    }
  }

  /** What the walk of a whole tree leaves. */
  function Annotate(root: Node, preset: set<string>, gmlEquals: bool, shared: set<string>): Facts {
    After(Facts(preset, {}, {}, map[]), Order(root, false), gmlEquals, shared)
  }

  /** The = children marking puts in statement_equals_. */
  function Marked(parent: Kind, i: nat, c: Children): set<nat>
    decreases c
  {
    if c.End? then {}
    else
      (if StatementChild(parent, i) && c.child.Some? && IsEquals(c.child.value) then {c.child.value.id} else {})
      + Marked(parent, i + 1, c.rest)
  }

  lemma {:induction false} MarkedAreIds(parent: Kind, i: nat, c: Children)
    ensures Marked(parent, i, c) <= IdsOf(c)
    decreases c
  {
    if c.More? { MarkedAreIds(parent, i + 1, c.rest); }
  }

  lemma {:induction false} NothingMarked(parent: Kind, i: nat, c: Children)
    requires !(parent.CodeBlock? || parent.If? || parent.For? || parent.While? || parent.Do? || parent.With?)
    ensures Marked(parent, i, c) == {}
    decreases c
  {
    if c.More? { NothingMarked(parent, i + 1, c.rest); }
  }

  /** Marks put in place by the parent reach exactly this child and those after it. */
  lemma MarkedHere(parent: Kind, i: nat, c: Children, marks: set<nat>)
    requires c.More? && c.child.Some? && AllOwned(c)
    requires marks * IdsOf(c) == Marked(parent, i, c)
    ensures var n := c.child.value;
      && (IsEquals(n) ==> (n.id in marks <==> StatementChild(parent, i)))
      && IdsOf(n.children) !! marks
      && marks * IdsOf(c.rest) == Marked(parent, i + 1, c.rest)
  {
    var n := c.child.value;
    MarkedAreIds(parent, i + 1, c.rest);
    assert n.id in Ids(n) && n.id in IdsOf(c);
    assert IdsOf(n.children) <= Ids(n) && Ids(n) !! IdsOf(c.rest);
  }

  lemma {:induction false} AfterJoins(f: Facts, a: seq<Visit>, b: seq<Visit>, gmlEquals: bool, shared: set<string>)
    ensures After(f, a + b, gmlEquals, shared) == After(After(f, a, gmlEquals, shared), b, gmlEquals, shared)
    decreases |a|
  {
    if a == [] {
      assert a + b == b;
    } else {
      assert (a + b)[1..] == a[1..] + b && (a + b)[0] == a[0];
      AfterJoins(Step(f, a[0], gmlEquals, shared), a[1..], b, gmlEquals, shared);
    }
  }

  // ---- what the flags say about the tree ----

  ghost predicate DistinctIds(order: seq<Visit>) {
    forall i, j :: 0 <= i < j < |order| ==> order[i].0.id != order[j].0.id
  }

  function IdsIn(order: seq<Visit>): set<nat> {
    set i | 0 <= i < |order| :: order[i].0.id
  }

  lemma DistinctJoin(a: seq<Visit>, b: seq<Visit>)
    requires DistinctIds(a) && DistinctIds(b) && IdsIn(a) !! IdsIn(b)
    ensures DistinctIds(a + b) && IdsIn(a + b) == IdsIn(a) + IdsIn(b)
  {
    var ab := a + b;
    forall i | 0 <= i < |a| ensures ab[i] == a[i] && a[i].0.id in IdsIn(a) {}
    forall i | 0 <= i < |b| ensures ab[|a| + i] == b[i] && b[i].0.id in IdsIn(b) {}
    forall i, j | 0 <= i < j < |ab| ensures ab[i].0.id != ab[j].0.id {
      if i < |a| <= j {
        assert ab[j] == b[j - |a|];
      } else if |a| <= i {
        assert ab[i] == b[i - |a|] && ab[j] == b[j - |a|];
      }
    }
    forall x | x in IdsIn(b) ensures x in IdsIn(ab) {
      var i :| 0 <= i < |b| && x == b[i].0.id;
      assert ab[|a| + i] == b[i];
    }
  }

  lemma {:induction false} WalkMeetsEachNodeOnce(n: Node, statement: bool)
    requires Owned(n)
    ensures DistinctIds(Order(n, statement)) && IdsIn(Order(n, statement)) == Ids(n)
    decreases n, 0
  {
    ChildrenMetOnce(n.kind, 0, n.children);
    assert IdsIn([(n, statement)]) == {n.id} by { assert [(n, statement)][0].0.id == n.id; }
    DistinctJoin([(n, statement)], OrderOf(n.kind, 0, n.children));
  }

  lemma {:induction false} ChildrenMetOnce(parent: Kind, i: nat, c: Children)
    requires AllOwned(c)
    ensures DistinctIds(OrderOf(parent, i, c)) && IdsIn(OrderOf(parent, i, c)) == IdsOf(c)
    decreases c, 0
  {
    if c.More? {
      ChildrenMetOnce(parent, i + 1, c.rest);
      var first := if c.child.Some? then Order(c.child.value, StatementChild(parent, i)) else [];
      if c.child.Some? {
        WalkMeetsEachNodeOnce(c.child.value, StatementChild(parent, i));
      }
      DistinctJoin(first, OrderOf(parent, i + 1, c.rest));
    }
  }

  /** A node's flags are set by its own visit, from the names found before it, and kept. */
  lemma {:induction false} FlagsOfNode(f: Facts, order: seq<Visit>, gmlEquals: bool, shared: set<string>, i: nat)
    requires DistinctIds(order) && i < |order|
    requires f.lowered !! IdsIn(order) && f.divisions !! IdsIn(order)
    ensures var (g, (n, statement)) := (After(f, order, gmlEquals, shared), order[i]);
      && (n.id in g.lowered <==> gmlEquals && IsEquals(n) && !statement)
      && (n.id in g.divisions <==> n.kind == Binary(Slash))
      && (IsDotAccess(n) ==> n.id in g.kinds && g.kinds[n.id] == Classify(n, NamesBefore(f.locals, order, i), shared))
    decreases |order|
  {
    var f', rest := Step(f, order[0], gmlEquals, shared), order[1..];
    RestIsDistinct(order);
    if i == 0 {
      UnmetKeep(f', rest, gmlEquals, shared, order[0].0.id);
      assert NamesBefore(f.locals, order, 0) == f.locals;
    } else {
      assert order[i].0.id in IdsIn(order);
      assert rest[i - 1] == order[i];
      FlagsOfNode(f', rest, gmlEquals, shared, i - 1);
      NamesShift(f.locals, order, i);
    }
  }

  /** The names preset or declared by the first i nodes of the walk. */
  ghost function NamesBefore(preset: set<string>, order: seq<Visit>, i: nat): set<string>
    requires i <= |order|
  {
    preset + set j, name | 0 <= j < i && name in DeclaredLocals(order[j].0) :: name
  }

  lemma NamesShift(preset: set<string>, order: seq<Visit>, i: nat)
    requires 0 < i <= |order|
    ensures NamesBefore(preset + DeclaredLocals(order[0].0), order[1..], i - 1) == NamesBefore(preset, order, i)
  {
    var rest := order[1..];
    forall j | 0 <= j < i - 1 ensures rest[j] == order[j + 1] {}
    forall name | name in NamesBefore(preset, order, i)
      ensures name in NamesBefore(preset + DeclaredLocals(order[0].0), rest, i - 1)
    {
      if name !in preset && name !in DeclaredLocals(order[0].0) {
        var j :| 0 <= j < i && name in DeclaredLocals(order[j].0);
        assert rest[j - 1] == order[j];
      }
    }
    forall name | name in NamesBefore(preset + DeclaredLocals(order[0].0), rest, i - 1)
      ensures name in NamesBefore(preset, order, i)
    {
      if name !in preset && name !in DeclaredLocals(order[0].0) {
        var j :| 0 <= j < i - 1 && name in DeclaredLocals(rest[j].0);
        assert order[j + 1] == rest[j];
      }
    }
  }

  lemma RestIsDistinct(order: seq<Visit>)
    requires DistinctIds(order) && order != []
    ensures DistinctIds(order[1..]) && IdsIn(order) == {order[0].0.id} + IdsIn(order[1..])
    ensures order[0].0.id !in IdsIn(order[1..])
  {
    var rest := order[1..];
    forall j | 0 <= j < |rest| ensures rest[j] == order[j + 1] {}
    assert order[0].0.id in IdsIn(order);
    forall x | x in IdsIn(rest) ensures x in IdsIn(order) {
      var j :| 0 <= j < |rest| && x == rest[j].0.id;
      assert order[j + 1].0.id == x;
    }
    forall x | x in IdsIn(order) && x != order[0].0.id ensures x in IdsIn(rest) {
      var j :| 0 <= j < |order| && x == order[j].0.id;
      assert rest[j - 1].0.id == x;
    }
  }

  lemma {:induction false} UnmetKeep(f: Facts, order: seq<Visit>, gmlEquals: bool, shared: set<string>, id: nat)
    requires DistinctIds(order) && id !in IdsIn(order)
    ensures var g := After(f, order, gmlEquals, shared);
      && (id in g.lowered <==> id in f.lowered)
      && (id in g.divisions <==> id in f.divisions)
      && (id in g.kinds <==> id in f.kinds)
      && (id in f.kinds ==> g.kinds[id] == f.kinds[id])
    decreases |order|
  {
    if order != [] {
      RestIsDistinct(order);
      UnmetKeep(Step(f, order[0], gmlEquals, shared), order[1..], gmlEquals, shared, id);
    }
  }

  /** A node is lowered to == exactly when it is = and was not met at statement position. */
  lemma LoweredExactlyOffStatement(root: Node, preset: set<string>, shared: set<string>, i: nat)
    requires Owned(root) && i < |Order(root, false)|
    ensures var (n, statement) := Order(root, false)[i];
      && (n.id in Annotate(root, preset, true, shared).lowered <==> IsEquals(n) && !statement)
      && n.id !in Annotate(root, preset, false, shared).lowered
  {
    WalkMeetsEachNodeOnce(root, false);
    FlagsOfNode(Facts(preset, {}, {}, map[]), Order(root, false), true, shared, i);
    FlagsOfNode(Facts(preset, {}, {}, map[]), Order(root, false), false, shared, i);
  }

  /** A declaration of the name alone, of a class type that is neither var nor variant. */
  predicate Declares(n: Node, name: string) {
    match n.kind
    case Declaration(Some(t), ds) =>
      name != "" && t != "var" && t != "variant" && Declarator(name, true) in ds
    case _ => false
  }

  /** A dot on a name other than global and local is plain member access exactly when the
      name was preset or a plain class-typed declaration of it came earlier in the walk. */
  lemma MemberExactlyAfterDeclaration(root: Node, preset: set<string>, gmlEquals: bool, shared: set<string>, i: nat)
    requires Owned(root) && i < |Order(root, false)|
    requires var n := Order(root, false)[i].0;
      IsDotAccess(n) && LeftName(n).Some? && LeftName(n).value != "global" && LeftName(n).value != "local"
    ensures var (order, g) := (Order(root, false), Annotate(root, preset, gmlEquals, shared));
      && order[i].0.id in g.kinds
      && (g.kinds[order[i].0.id] == Member
          <==> LeftName(order[i].0).value in preset
               || exists j :: 0 <= j < i && Declares(order[j].0, LeftName(order[i].0).value))
  {
    hide Order, After, Classify, IsDotAccess, LeftName;
    var order := Order(root, false);
    WalkMeetsEachNodeOnce(root, false);
    FlagsOfNode(Facts(preset, {}, {}, map[]), order, gmlEquals, shared, i);
    NamesAreDeclared(preset, order, i, LeftName(order[i].0).value);
    ClassifyIsMember(order[i].0, NamesBefore(preset, order, i), shared);
  }

  lemma NamesAreDeclared(preset: set<string>, order: seq<Visit>, i: nat, name: string)
    requires i <= |order|
    ensures name in NamesBefore(preset, order, i) <==> name in preset || exists j :: 0 <= j < i && Declares(order[j].0, name)
  {
    hide DeclaredLocals, Declares;
    forall j | 0 <= j < i ensures name in DeclaredLocals(order[j].0) <==> Declares(order[j].0, name) {
      LocalsAreDeclared(order[j].0, name);
    }
  }

  lemma LocalsAreDeclared(n: Node, name: string)
    ensures name in DeclaredLocals(n) <==> Declares(n, name)
  {
  }

  lemma ClassifyIsMember(n: Node, locals: set<string>, shared: set<string>)
    requires IsDotAccess(n) && LeftName(n).Some? && LeftName(n).value != "global" && LeftName(n).value != "local"
    ensures Classify(n, locals, shared) == Member <==> LeftName(n).value in locals
  {
  }

  /** The other kinds of access: global and local by those names, shared when the field is
      a shared local of what is no member access, and variable access in every other case. */
  lemma AccessKindsExactly(root: Node, preset: set<string>, gmlEquals: bool, shared: set<string>, i: nat)
    requires Owned(root) && i < |Order(root, false)| && IsDotAccess(Order(root, false)[i].0)
    ensures var (n, g) := (Order(root, false)[i].0, Annotate(root, preset, gmlEquals, shared));
      n.id in g.kinds
      && var kind, lhs := g.kinds[n.id], n.children.child.value;
        && (kind == Global <==> lhs.kind == Identifier("global"))
        && (kind == Local <==> lhs.kind == Identifier("local"))
        && (kind == Shared <==> lhs.kind.Identifier? && kind !in {Global, Local, Member} && n.kind.name in shared)
        && (kind == VarAccess <==> !lhs.kind.Identifier? || (kind !in {Global, Local, Member} && n.kind.name !in shared))
  {
    hide Order, After, NamesBefore;
    var order := Order(root, false);
    WalkMeetsEachNodeOnce(root, false);
    FlagsOfNode(Facts(preset, {}, {}, map[]), order, gmlEquals, shared, i);
  }

  /** Declaring a name before the walk makes it a member access wherever it stands left of a
      dot, and changes nothing else. */
  lemma PresetChangesItsNameOnly(root: Node, preset: set<string>, name: string, gmlEquals: bool, shared: set<string>, i: nat)
    requires Owned(root) && i < |Order(root, false)|
    ensures var (n, _) := Order(root, false)[i];
      var (before, after) := (Annotate(root, preset, gmlEquals, shared), Annotate(root, preset + {name}, gmlEquals, shared));
      && (n.id in after.lowered <==> n.id in before.lowered)
      && (IsDotAccess(n) ==>
            n.id in after.kinds && n.id in before.kinds
            && after.kinds[n.id]
               == if LeftName(n) == Some(name) && name != "global" && name != "local" then Member
                  else before.kinds[n.id])
  {
    hide Order, After, DistinctIds, Owned, LeftName;
    var order := Order(root, false);
    WalkMeetsEachNodeOnce(root, false);
    FlagsOfNode(Facts(preset, {}, {}, map[]), order, gmlEquals, shared, i);
    FlagsOfNode(Facts(preset + {name}, {}, {}, map[]), order, gmlEquals, shared, i);
    assert NamesBefore(preset + {name}, order, i) == NamesBefore(preset, order, i) + {name};
  }
}
