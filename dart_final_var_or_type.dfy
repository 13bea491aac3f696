/**
 * The PSI node class for the `finalVarOrType` grammar rule
 * (Dart/gen/com/jetbrains/lang/dart/psi/impl/DartFinalVarOrTypeImpl.java):
 * the lookup of its type child and the `accept` entry point of double
 * dispatch into DartVisitor.
 */
module DartFinalVarOrType {
  import opened Wrappers
  import opened DartVisitor

  /** A composite PSI element: its kind and its composite children, in order. */
  datatype Node = Node(kind: Kind, children: seq<Node>)

  /** The nodes a DartFinalVarOrTypeImpl wraps. */
  type FinalVarOrTypeNode = n: Node | n.kind == CompositeNode(FinalVarOrType) witness Node(CompositeNode(FinalVarOrType), [])

  /** No child before position `i` has kind `k`. */
  predicate NoneOfKindBefore(children: seq<Node>, k: Kind, i: int)
    requires i <= |children|
  {
    forall j :: 0 <= j < i ==> children[j].kind != k
  }

  /** Position of the first child of kind `k`, as `findChildByClass` scans. */
  function FirstChildOfKind(children: seq<Node>, k: Kind): (r: Option<nat>)
    ensures r.Some? ==> r.value < |children| && children[r.value].kind == k
    ensures r.Some? ==> NoneOfKindBefore(children, k, r.value)
    ensures r.None? ==> NoneOfKindBefore(children, k, |children|)
  {
    if children == [] then None
    else if children[0].kind == k then Some(0)
    else match FirstChildOfKind(children[1..], k)
      case None => None
      case Some(i) => Some(i + 1)
  }

  /**
   * `getType`: the first child that is a DartType, or null (`None`) when
   * there is none.
   */
  function GetType(self: FinalVarOrTypeNode): (r: Option<Node>)
    ensures r.None? <==> forall i :: 0 <= i < |self.children| ==> self.children[i].kind != CompositeNode(Type)
    ensures r.Some? ==> r.value.kind == CompositeNode(Type)
    ensures r.Some? ==> exists i :: 0 <= i < |self.children| && self.children[i] == r.value
                                    && NoneOfKindBefore(self.children, CompositeNode(Type), i)
  {
    match FirstChildOfKind(self.children, CompositeNode(Type))
    case None => None
    case Some(i) => Some(self.children[i])
  }

  /** A platform PsiElementVisitor: a DartVisitor subclass or any other visitor. */
  datatype PsiElementVisitor = DartVisitorInstance(visitor: Visitor) | OtherVisitor

  /** One invocation of a visitor operation on a node. */
  datatype Call = Call(op: Op, arg: Node)

  /**
   * What `accept` does: the Dart visitor operations it runs, in order, or
   * the delegation to the base class's `accept` for a non-Dart visitor.
   */
  datatype AcceptOutcome = Dispatched(calls: seq<Call>) | DelegatedToSuper

  /** The calls of the operations `ops`, each on node `n`. */
  function CallsOn(ops: seq<Op>, n: Node): (calls: seq<Call>)
    ensures |calls| == |ops|
    ensures forall i :: 0 <= i < |ops| ==> calls[i] == Call(ops[i], n)
  {
    seq(|ops|, i requires 0 <= i < |ops| => Call(ops[i], n))
  }

  /**
   * `accept`: a DartVisitor gets `visitFinalVarOrType(this)`, whose body
   * then runs the default chain as far as the visitor's overrides let it;
   * any other visitor is handed to the base class.
   */
  function Accept(self: FinalVarOrTypeNode, visitor: PsiElementVisitor): (r: AcceptOutcome)
    ensures r.DelegatedToSuper? <==> visitor.OtherVisitor?
    ensures r.Dispatched? ==> |r.calls| >= 1 && r.calls[0] == Call(VisitKind(CompositeNode(FinalVarOrType)), self)
    ensures r.Dispatched? ==> forall i :: 1 <= i < |r.calls| ==> r.calls[i].op.VisitCategory?
    ensures r.Dispatched? ==> forall i :: 0 <= i < |r.calls| ==> r.calls[i].arg == self
    ensures visitor.DartVisitorInstance? ==>
      r == Dispatched(CallsOn(Run(visitor.visitor, VisitKind(CompositeNode(FinalVarOrType))), self))
  {
    match visitor
    case DartVisitorInstance(v) => Dispatched(CallsOn(Run(v, VisitKind(CompositeNode(FinalVarOrType))), self))
    case OtherVisitor => DelegatedToSuper
  }

  /**
   * With a DartVisitor that overrides nothing, `accept` runs
   * visitFinalVarOrType, visitPsiCompositeElement and visitElement, once
   * each, on the node itself.
   */
  lemma AcceptWithDefaultVisitor(self: FinalVarOrTypeNode)
    ensures Accept(self, DartVisitorInstance(DefaultVisitor)) ==
      Dispatched([Call(VisitKind(CompositeNode(FinalVarOrType)), self),
                  Call(VisitCategory(PsiCompositeElement), self),
                  Call(Root, self)])
  {
    DefaultVisitorRunsWholeChain(VisitKind(CompositeNode(FinalVarOrType)));
    KindChainShape(CompositeNode(FinalVarOrType));
  }

  /** visitFinalVarOrType runs exactly once per `accept` with a DartVisitor. */
  lemma AcceptVisitsKindOnce(self: FinalVarOrTypeNode, v: Visitor)
    ensures var r := Accept(self, DartVisitorInstance(v));
      r.Dispatched? && multiset(r.calls)[Call(VisitKind(CompositeNode(FinalVarOrType)), self)] == 1
  {
    var calls := Accept(self, DartVisitorInstance(v)).calls;
    assert calls == [calls[0]] + calls[1..];
    assert Call(VisitKind(CompositeNode(FinalVarOrType)), self) !in calls[1..];
  }

  /**
   * A visitor that overrides a single operation is called on that
   * operation through `accept` exactly when the operation is
   * visitFinalVarOrType, visitPsiCompositeElement or visitElement, and
   * then that override fires once.
   */
  lemma AcceptReachesSingleOverride(self: FinalVarOrTypeNode, target: Op, body: OverrideBody)
    ensures var v := Visitor(map[target := body]);
      var r := Accept(self, DartVisitorInstance(v));
      && r.Dispatched?
      && (Call(target, self) in r.calls <==>
            target in [VisitKind(CompositeNode(FinalVarOrType)), VisitCategory(PsiCompositeElement), Root])
      && Fired(v, VisitKind(CompositeNode(FinalVarOrType))) ==
            if Call(target, self) in r.calls then [target] else []
  {
    var v := Visitor(map[target := body]);
    var op := VisitKind(CompositeNode(FinalVarOrType));
    var ran := Run(v, op);
    SingleOverrideFiresOnce(target, body, op);
    KindChainShape(CompositeNode(FinalVarOrType));
    assert target in ran <==> target in DefaultChain(op) by {
      assert target in Overridden(v, ran) <==> target in ran;
    }
    var calls := Accept(self, DartVisitorInstance(v)).calls;
    assert Call(target, self) in calls <==> target in ran by {
      if Call(target, self) in calls {
        var i :| 0 <= i < |calls| && calls[i] == Call(target, self);
        assert ran[i] == target;
      }
      if target in ran {
        var i :| 0 <= i < |ran| && ran[i] == target;
        assert calls[i] == Call(target, self);
      }
    }
  }
}
