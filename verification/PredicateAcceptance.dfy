/** Which predicates lowering accepts, and the error it returns for the others. */
module PredicateAcceptance {
  import opened Wrappers
  import opened RelationalAlgebra
  import opened PredicateCompiler

  /** A predicate somewhere inside another, and the relation it is applied to there. */
  datatype Node = Node(pred: Pred, at: Relation)

  /** A predicate and all that it contains, each before its parts and left before right. What stands behind a
      reference, a path or a to-many field applies to the target relation. */
  function Nodes(p: Pred, root: Relation): seq<Node> {
    [Node(p, root)] +
    match p
    case And(first, second) => Nodes(first, root) + Nodes(second, root)
    case Or(first, second) => Nodes(first, root) + Nodes(second, root)
    case Not(inner) => Nodes(inner, root)
    case RefTo(_, _, _, target, where) => Nodes(where, target.relation)
    case Path(_, target, where) => Nodes(where, target.relation)
    case Many(_, _, target, where) => Nodes(where, target.relation)
    case _ => []
  }

  // ----- What can be wrong with one of them -----

  /** A field of another relation than the one it is applied to. */
  predicate ForeignField(n: Node) {
    match n.pred
    case EqConst(relation, _, _, _) => relation != n.at.id
    case EqColumns(left, right, _, _, _) => left != n.at.id || right != n.at.id
    case Order(relation, _, _, _, _) => relation != n.at.id
    case Between(relation, _, _, _, _) => relation != n.at.id
    case OptionalIsSome(relation, _, _) => relation != n.at.id
    case _ => false
  }

  /** A reference, path or relationship declared for a row of another shape. */
  predicate ForeignStart(n: Node) {
    match n.pred
    case RefTo(sourceWidth, _, _, _, _) => sourceWidth != |n.at.equivs|
    case Path(hops, _, _) => hops == [] || hops[0].sourceRelation != n.at.id || hops[0].sourceWidth != |n.at.equivs|
    case Many(field, _, _, _) => field.sourceWidth != |n.at.equivs|
    case _ => false
  }

  /** A comparison of values that have no ordering. */
  predicate Unordered(n: Node) {
    (n.pred.Order? || n.pred.Between?) && n.pred.ordering.None?
  }

  /** A reference to objects that have no identity. */
  predicate Anonymous(n: Node) {
    n.pred.RefTo? && n.pred.target.identity.None?
  }

  function BrokenField(n: Node): Option<LowerError> {
    if n.pred.Many? || n.pred.ManyCount? then n.pred.field.error else None
  }

  function Fault(n: Node): Option<LowerError> {
    if BrokenField(n).Some? then BrokenField(n)
    else if ForeignField(n) || ForeignStart(n) then Some(InvalidPlan)
    else if Unordered(n) || Anonymous(n) then Some(InvalidSchema)
    else None
  }

  /** Nothing is wrong with it at any depth. */
  predicate Acceptable(p: Pred, root: Relation) {
    forall n | n in Nodes(p, root) :: Fault(n).None?
  }

  /** The error of the first node that has one. */
  predicate FirstFault(nodes: seq<Node>, e: LowerError) {
    exists i | 0 <= i < |nodes| :: Fault(nodes[i]) == Some(e) && forall j | 0 <= j < i :: Fault(nodes[j]).None?
  }

  // ----- Lowering -----

  function Found(nodes: seq<Node>): Option<LowerError> {
    if nodes == [] then None else if Fault(nodes[0]).Some? then Fault(nodes[0]) else Found(nodes[1..])
  }

  lemma {:induction false} FoundBoth(a: seq<Node>, b: seq<Node>)
    ensures Found(a + b) == if Found(a).Some? then Found(a) else Found(b)
  {
    if a == [] {
      assert a + b == b;
    } else {
      hide Fault;
      assert (a + b)[1..] == a[1..] + b;
      FoundBoth(a[1..], b);
    }
  }

  lemma {:induction false} FoundIs(nodes: seq<Node>)
    ensures Found(nodes).None? <==> forall n | n in nodes :: Fault(n).None?
    ensures Found(nodes).Some? ==> FirstFault(nodes, Found(nodes).value)
  {
    if nodes != [] {
      hide Fault;
      assert nodes == [nodes[0]] + nodes[1..];
      FoundIs(nodes[1..]);
      if Fault(nodes[0]).None? && Found(nodes[1..]).Some? {
        var e := Found(nodes[1..]).value;
        var i :| 0 <= i < |nodes[1..]| && Fault(nodes[1..][i]) == Some(e) && forall j | 0 <= j < i :: Fault(nodes[1..][j]).None?;
        var k := i + 1;
        forall j | 0 <= j < k ensures Fault(nodes[j]).None? {
          if j > 0 { assert nodes[j] == nodes[1..][j - 1]; }
        }
        assert Fault(nodes[k]) == Some(e);
      }
    }
  }

  lemma FirstFaultUnique(nodes: seq<Node>, a: LowerError, b: LowerError)
    requires FirstFault(nodes, a) && FirstFault(nodes, b)
    ensures a == b
  {
    hide Fault;
    var i :| 0 <= i < |nodes| && Fault(nodes[i]) == Some(a) && forall j | 0 <= j < i :: Fault(nodes[j]).None?;
    var k :| 0 <= k < |nodes| && Fault(nodes[k]) == Some(b) && forall j | 0 <= j < k :: Fault(nodes[j]).None?;
    assert i == k;
  }

  lemma OneNode(n: Node)
    ensures Found([n]) == Fault(n)
  {
  }

  lemma {:induction false} LowerFinds(p: Pred, input: RelExpr, root: Relation)
    ensures var r := Lower(p, input, root);
            if Found(Nodes(p, root)).None? then r.Ok? else r == Err(Found(Nodes(p, root)).value)
    decreases p
  {
    hide Found;
    OneNode(Node(p, root));
    match p
    case And(first, second) =>
      FoundBoth([Node(p, root)], Nodes(first, root) + Nodes(second, root));
      FoundBoth(Nodes(first, root), Nodes(second, root));
      LowerFinds(first, input, root);
      if Lower(first, input, root).Ok? { LowerFinds(second, Lower(first, input, root).value, root); }
    case Or(first, second) =>
      FoundBoth([Node(p, root)], Nodes(first, root) + Nodes(second, root));
      FoundBoth(Nodes(first, root), Nodes(second, root));
      LowerFinds(first, input, root);
      LowerFinds(second, input, root);
    case Not(inner) =>
      FoundBoth([Node(p, root)], Nodes(inner, root));
      LowerFinds(inner, input, root);
    case RefTo(_, _, _, target, where) =>
      FoundBoth([Node(p, root)], Nodes(where, target.relation));
      LowerFinds(where, Scan(target.relation.id), target.relation);
    case Path(_, target, where) =>
      FoundBoth([Node(p, root)], Nodes(where, target.relation));
      LowerFinds(where, Scan(target.relation.id), target.relation);
    case Many(_, _, target, where) =>
      FoundBoth([Node(p, root)], Nodes(where, target.relation));
      LowerFinds(where, Scan(target.relation.id), target.relation);
    case _ =>
      assert Nodes(p, root) == [Node(p, root)];
  }

  /** Lowering accepts exactly the predicates with nothing wrong at any depth, and otherwise returns what is wrong with
      the first node that has a fault, whatever query it is applied to. */
  lemma LowerAccepts(p: Pred, input: RelExpr, root: Relation)
    ensures Lower(p, input, root).Ok? <==> Acceptable(p, root)
    ensures forall e :: Lower(p, input, root) == Err(e) <==> FirstFault(Nodes(p, root), e)
  {
    hide Lower, Nodes, Found, Fault, FirstFault;
    LowerFinds(p, input, root);
    FoundIs(Nodes(p, root));
    forall e ensures Lower(p, input, root) == Err(e) <==> FirstFault(Nodes(p, root), e) {
      if FirstFault(Nodes(p, root), e) {
        FaultyHasError(Nodes(p, root), e);
        FirstFaultUnique(Nodes(p, root), e, Found(Nodes(p, root)).value);
      }
    }
  }

  lemma FaultyHasError(nodes: seq<Node>, e: LowerError)
    requires FirstFault(nodes, e)
    ensures Found(nodes).Some?
  {
    hide Fault;
    FoundIs(nodes);
  }
}
