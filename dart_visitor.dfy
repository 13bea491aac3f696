/**
 * The default-dispatch chain of the generated Dart PSI visitor
 * (Dart/gen/com/jetbrains/lang/dart/psi/DartVisitor.java).
 *
 * Every `visitX` method of the visitor has a body made of exactly one
 * forwarding call: a concrete node kind forwards to one category operation
 * (or straight to `visitPsiCompositeElement`), every category forwards to
 * `visitPsiCompositeElement`, and that one forwards to the root operation
 * `visitElement` inherited from the platform visitor, which does nothing.
 * The forwarding table is modelled as the functions `CategoryOf`,
 * `ParentOf` and `Forward`; a visitor subclass is modelled by the set of
 * operations it overrides.
 */
module DartVisitor {
  import opened Wrappers

  /*
   * The concrete node kinds, one per `visitX` method for a node interface,
   * grouped by the one forwarding call in that method's body: the grouping
   * is the visitor's forwarding table. The operator tokens
   * (AdditiveOperator, EqualityOperator, ...) forward to
   * `visitPsiCompositeElement`, not to `visitOperator`.
   */

  /** The kinds whose `visitX` method forwards to `visitExpression`. */
  datatype ExpressionKind =
    | AdditiveExpression | ArrayAccessExpression | AsExpression | AssignExpression
    | BitwiseExpression | CallExpression | CascadeReferenceExpression | CompareExpression
    | CompoundLiteralExpression | ConstConstructorExpression | FunctionExpression
    | IsExpression | IteratorExpression | LibraryComponentReferenceExpression
    | ListLiteralExpression | LiteralExpression | LogicAndExpression | LogicOrExpression
    | MapLiteralExpression | MultiplicativeExpression | NewExpression
    | ParenthesizedExpression | PrefixExpression | ReferenceExpression | ShiftExpression
    | StringLiteralExpression | SuffixExpression | SuperExpression | TernaryExpression
    | ThisExpression | ValueExpression

  /** The kinds whose `visitX` method forwards to `visitComponent`. */
  datatype ComponentKind =
    | FactoryConstructorDeclaration | FunctionDeclaration | FunctionDeclarationWithBody
    | FunctionDeclarationWithBodyOrNative | FunctionTypeAlias | GetterDeclaration | Label
    | MethodDeclaration | MethodPrototypeDeclaration | NamedConstructorDeclaration
    | SetterDeclaration | TypeParameter | VarAccessDeclaration | VarDeclarationListPart

  /** The kinds whose `visitX` method forwards to `visitClass`. */
  datatype ClassKind =
    | ClassDefinition | InterfaceDefinition

  /** The kinds whose `visitX` method forwards to `visitExecutionScope`. */
  datatype ExecutionScopeKind =
    | ClassBody | InterfaceBody | Statements

  /** The kinds whose `visitX` method forwards to `visitOperator`. */
  datatype OperatorKind =
    | AbstractOperatorDeclaration | OperatorDeclaration | OperatorPrototype

  /** The kinds whose `visitX` method forwards to `visitReference`. */
  datatype ReferenceKind =
    | LibraryId | PathOrLibraryReference

  /** The kinds whose `visitX` method forwards to `visitPsiCompositeElement`. */
  datatype CompositeKind =
    | AdditiveOperator | ArgumentList | Arguments | AssertStatement | AssignmentOperator
    | BitwiseOperator | Block | BreakStatement | CatchPart | ContinueStatement | DefaultCase
    | DefaultFactroy | DefaultFormalNamedParameter | DoWhileStatement | EqualityOperator
    | ExportStatement | ExpressionList | FactorySpecification | FieldFormalParameter
    | FieldInitializer | FinalVarOrType | FinallyPart | ForInPart | ForLoopParts
    | ForLoopPartsInBraces | ForStatement | FormalParameterList | FunctionBody
    | FunctionExpressionBody | HideCombinator | Id | IfStatement | ImportStatement
    | Initializers | Interfaces | LibraryReferenceList | LibraryStatement | LongTemplateEntry
    | MapLiteralEntry | Metadata | Mixins | MultiplicativeOperator | NamedArgument
    | NamedFormalParameters | NativeStatement | NormalFormalParameter | OnPart
    | PartOfStatement | PrefixOperator | Redirection | RelationalOperator | ResourceStatement
    | ReturnStatement | ReturnType | ShiftOperator | ShiftRightOperator | ShortTemplateEntry
    | ShowCombinator | SourceStatement | SuperCallOrFieldInitializer | Superclass
    | Superinterfaces | SwitchCase | SwitchStatement | ThrowStatement | TryStatement | Type
    | TypeArguments | TypeList | TypeParameters | UserDefinableOperator | VarDeclaration
    | VarDeclarationList | VarInit | WhileStatement

  /** A concrete node kind. */
  datatype Kind =
    | ExpressionNode(expression: ExpressionKind)
    | ComponentNode(component: ComponentKind)
    | ClassNode(classKind: ClassKind)
    | ExecutionScopeNode(scope: ExecutionScopeKind)
    | ComponentName           // forwards to visitNamedElement
    | QualifiedComponentName  // forwards to visitQNamedElement
    | OperatorNode(operator: OperatorKind)
    | ReferenceNode(reference: ReferenceKind)
    | CompositeNode(composite: CompositeKind)

  /**
   * The abstract categories: the eight interfaces the kind operations
   * forward to, `PsiCompositeElement`, and the platform root `Element`.
   */
  datatype Category =
    | Expression | Component | Class | ExecutionScope | NamedElement
    | QNamedElement | Operator | Reference | PsiCompositeElement | Element

  /** A visitor operation: `visitX` for a kind or for a category. */
  datatype Op = VisitKind(kind: Kind) | VisitCategory(category: Category)

  /** The category a kind's operation forwards to (the one call in its body). */
  function CategoryOf(k: Kind): (c: Category)
    ensures c != Element
  {
    match k
    case ExpressionNode(_) => Expression
    case ComponentNode(_) => Component
    case ClassNode(_) => Class
    case ExecutionScopeNode(_) => ExecutionScope
    case ComponentName => NamedElement
    case QualifiedComponentName => QNamedElement
    case OperatorNode(_) => Operator
    case ReferenceNode(_) => Reference
    case CompositeNode(_) => PsiCompositeElement
  }

  /**
   * The category a category's operation forwards to; `None` for the root,
   * whose operation is the platform's no-op `visitElement`.
   */
  function ParentOf(c: Category): (p: Option<Category>)
    ensures p.None? <==> c == Element
    ensures p.Some? ==> Height(VisitCategory(p.value)) + 1 == Height(VisitCategory(c))
  {
    match c
    case Element => None
    case PsiCompositeElement => Some(Element)
    case _ => Some(PsiCompositeElement)
  }

  /** The number of forwarding steps from an operation to the root. */
  function Height(op: Op): nat
  {
    match op
    case VisitKind(k) => if CategoryOf(k) == PsiCompositeElement then 2 else 3
    case VisitCategory(Element) => 0
    case VisitCategory(PsiCompositeElement) => 1
    case VisitCategory(_) => 2
  }

  const Root: Op := VisitCategory(Element)

  /** The single operation the default body of `op` calls, if any. */
  function Forward(op: Op): (next: Option<Op>)
    ensures next.None? <==> op == Root
    ensures next.Some? ==> Height(next.value) + 1 == Height(op)
  {
    match op
    case VisitKind(k) => Some(VisitCategory(CategoryOf(k)))
    case VisitCategory(c) =>
      match ParentOf(c)
      case None => None
      case Some(p) => Some(VisitCategory(p))
  }

  /** No operation occurs twice in `ops`. */
  predicate Distinct(ops: seq<Op>)
  {
    forall i, j :: 0 <= i < j < |ops| ==> ops[i] != ops[j]
  }

  /**
   * The operations a visitor that overrides nothing runs when `op` is
   * called: `op` itself and then each forwarding target up to the root.
   */
  function DefaultChain(op: Op): (chain: seq<Op>)
    ensures |chain| == Height(op) + 1 <= 4
    ensures chain[0] == op && chain[|chain| - 1] == Root
    decreases Height(op)
  {
    match Forward(op)
    case None => [op]
    case Some(next) => [op] + DefaultChain(next)
  }

  /**
   * The default chain follows the forwarding calls one step at a time,
   * each step one level closer to the root, so no operation runs twice.
   */
  lemma {:induction false} DefaultChainSteps(op: Op)
    ensures var chain := DefaultChain(op);
      && (forall i :: 0 <= i < |chain| - 1 ==> Forward(chain[i]) == Some(chain[i + 1]))
      && (forall i :: 0 <= i < |chain| ==> Height(chain[i]) == Height(op) - i)
      && Distinct(chain)
    decreases Height(op)
  {
    if op != Root {
      var next := Forward(op).value;
      DefaultChainSteps(next);
      var chain := DefaultChain(op);
      assert chain == [op] + DefaultChain(next);
      assert forall i :: 1 <= i < |chain| ==> chain[i] == DefaultChain(next)[i - 1];
    }
  }

  /**
   * The commented-out secondary forwarding of a kind (`// visitReference(o);`
   * under most expression kinds, `// visitComponent(o);` under
   * FunctionExpression). It is an annotation only: no default body calls it.
   */
  function SecondaryCategory(k: Kind): (r: Option<Category>)
    ensures r.Some? ==> CategoryOf(k) == Expression
    ensures r.Some? ==> r.value == Reference || r.value == Component
  {
    match k
    case ExpressionNode(e) =>
      (match e
       case FunctionExpression => Some(Component)
       case AssignExpression | IsExpression | IteratorExpression | TernaryExpression
          | ValueExpression => None
       case _ => Some(Reference))
    case _ => None
  }

  /**
   * How a subclass overrides an operation: `Intercept` does its own work and
   * does not call `super`, `CallSuper` does its own work and then calls the
   * default body (so the chain continues).
   */
  datatype OverrideBody = Intercept | CallSuper

  /** A DartVisitor subclass, given by the operations it overrides. */
  datatype Visitor = Visitor(overrides: map<Op, OverrideBody>)

  const DefaultVisitor: Visitor := Visitor(map[])

  predicate Intercepts(v: Visitor, op: Op)
  {
    op in v.overrides && v.overrides[op] == Intercept
  }

  /**
   * The operations that run, in order, when `op` is called on visitor `v`:
   * the default chain, cut after the first operation whose override does
   * not call `super`.
   */
  function Run(v: Visitor, op: Op): (ran: seq<Op>)
    ensures 1 <= |ran| <= |DefaultChain(op)| && ran == DefaultChain(op)[..|ran|]
    ensures forall i :: 0 <= i < |ran| - 1 ==> !Intercepts(v, ran[i])
    ensures ran[|ran| - 1] == Root || Intercepts(v, ran[|ran| - 1])
    decreases Height(op)
  {
    if Intercepts(v, op) then [op]
    else match Forward(op)
      case None => [op]
      case Some(next) => [op] + Run(v, next)
  }

  /** The overridden operations among `ops`, in order: the overrides that fire. */
  function Overridden(v: Visitor, ops: seq<Op>): (fired: seq<Op>)
    ensures forall op :: op in fired <==> op in ops && op in v.overrides
    ensures |fired| <= |ops|
  {
    if ops == [] then []
    else (if ops[0] in v.overrides then [ops[0]] else []) + Overridden(v, ops[1..])
  }

  /** The overrides of `v` that fire when `op` is called. */
  function Fired(v: Visitor, op: Op): seq<Op>
  {
    Overridden(v, Run(v, op))
  }

  // ---------------------------------------------------------------------
  // Properties of the forwarding table
  // ---------------------------------------------------------------------

  /**
   * A kind's default chain is the kind, its one category, then
   * PsiCompositeElement (unless that is the category itself), then the root:
   * at most three forwarding steps.
   */
  lemma KindChainShape(k: Kind)
    ensures DefaultChain(VisitKind(k)) ==
      if CategoryOf(k) == PsiCompositeElement
      then [VisitKind(k), VisitCategory(PsiCompositeElement), Root]
      else [VisitKind(k), VisitCategory(CategoryOf(k)), VisitCategory(PsiCompositeElement), Root]
  {
  }

  /** Every category other than the two top ones forwards to PsiCompositeElement. */
  lemma CategoryChainShape(c: Category)
    ensures DefaultChain(VisitCategory(c)) ==
      match c
      case Element => [Root]
      case PsiCompositeElement => [VisitCategory(PsiCompositeElement), Root]
      case _ => [VisitCategory(c), VisitCategory(PsiCompositeElement), Root]
  {
  }

  /**
   * A category operation runs in the default chain of a kind exactly when
   * it is the kind's category, PsiCompositeElement or the root.
   */
  lemma KindChainMembers(k: Kind, c: Category)
    ensures VisitCategory(c) in DefaultChain(VisitKind(k)) <==>
      c == CategoryOf(k) || c == PsiCompositeElement || c == Element
  {
    KindChainShape(k);
  }

  /**
   * A visitor that overrides nothing runs the whole default chain, and the
   * root operation runs exactly once, at its end.
   */
  lemma {:induction false} DefaultVisitorRunsWholeChain(op: Op)
    ensures Run(DefaultVisitor, op) == DefaultChain(op)
    ensures Root in Run(DefaultVisitor, op)
    ensures forall i :: 0 <= i < |Run(DefaultVisitor, op)| - 1 ==> Run(DefaultVisitor, op)[i] != Root
    decreases Height(op)
  {
    if op != Root {
      var next := Forward(op).value;
      DefaultVisitorRunsWholeChain(next);
      assert Run(DefaultVisitor, op) == [op] + Run(DefaultVisitor, next);
    }
  }

  /** Below the root, the default chain is `op` followed by the chain of its target. */
  lemma ChainStep(op: Op)
    requires op != Root
    ensures var rest := DefaultChain(Forward(op).value);
      && DefaultChain(op) == [op] + rest
      && forall j :: 0 <= j < |rest| ==> rest[j] == DefaultChain(op)[j + 1]
  {
  }

  /** An operation that is not intercepted runs, then its default body forwards. */
  lemma RunStep(v: Visitor, op: Op)
    requires op != Root && !Intercepts(v, op)
    ensures Run(v, op) == [op] + Run(v, Forward(op).value)
  {
  }

  /** `Overridden` takes the operations one at a time, from the front. */
  lemma OverriddenCons(v: Visitor, op: Op, rest: seq<Op>)
    ensures Overridden(v, [op] + rest) == (if op in v.overrides then [op] else []) + Overridden(v, rest)
  {
    assert ([op] + rest)[1..] == rest;
  }

  /**
   * The override that fires first is the most specific one: the first
   * operation of the default chain that the visitor overrides.
   */
  lemma {:induction false} MostSpecificOverrideFiresFirst(v: Visitor, op: Op, i: nat)
    requires i < |DefaultChain(op)| && DefaultChain(op)[i] in v.overrides
    requires forall j :: 0 <= j < i ==> DefaultChain(op)[j] !in v.overrides
    ensures |Run(v, op)| > i
    ensures Fired(v, op) != [] && Fired(v, op)[0] == DefaultChain(op)[i]
    decreases Height(op)
  {
    if i == 0 {
      var ran := Run(v, op);
      assert ran == [op] + ran[1..];
      OverriddenCons(v, op, ran[1..]);
    } else {
      assert op !in v.overrides;
      var next := Forward(op).value;
      ChainStep(op);
      MostSpecificOverrideFiresFirst(v, next, i - 1);
      RunStep(v, op);
      FiredStep(v, op);
      assert Fired(v, op) == Fired(v, next);
      assert DefaultChain(op)[i] == DefaultChain(next)[i - 1];
    }
  }

  /**
   * A visitor that overrides a single operation `target`, whichever kind
   * of body it has, fires that override exactly once for every call whose
   * default chain contains `target`, and never otherwise.
   */
  lemma {:induction false} SingleOverrideFiresOnce(target: Op, body: OverrideBody, op: Op)
    ensures Fired(Visitor(map[target := body]), op) ==
      if target in DefaultChain(op) then [target] else []
    decreases Height(op)
  {
    var v := Visitor(map[target := body]);
    if op == Root || (op == target && body == Intercept) {
      assert Run(v, op) == [op] + [];
      OverriddenCons(v, op, []);
      assert DefaultChain(op) == [op] + DefaultChain(op)[1..];
    } else {
      var next := Forward(op).value;
      ChainStep(op);
      SingleOverrideFiresOnce(target, body, next);
      FiredStep(v, op);
      if op == target {
        NotInOwnTail(op);
      }
    }
  }

  /** The overrides that fire after a step that is not intercepted. */
  lemma FiredStep(v: Visitor, op: Op)
    requires op != Root && !Intercepts(v, op)
    ensures Fired(v, op) == (if op in v.overrides then [op] else []) + Fired(v, Forward(op).value)
  {
    RunStep(v, op);
    OverriddenCons(v, op, Run(v, Forward(op).value));
  }

  /** An operation does not occur in the chain of its forwarding target. */
  lemma NotInOwnTail(op: Op)
    requires op != Root
    ensures op !in DefaultChain(Forward(op).value)
  {
    var rest := DefaultChain(Forward(op).value);
    DefaultChainSteps(Forward(op).value);
    assert forall j :: 0 <= j < |rest| ==> Height(rest[j]) < Height(op);
  }

  /**
   * A visitor that overrides only `visitComponent` fires for exactly the
   * kinds whose operation forwards to Component: FunctionDeclaration,
   * MethodDeclaration, Label, TypeParameter and the others, but not
   * FunctionExpression, which forwards to Expression.
   */
  lemma ComponentOverrideFiresForComponents(k: Kind)
    ensures Fired(Visitor(map[VisitCategory(Component) := Intercept]), VisitKind(k)) ==
      if CategoryOf(k) == Component then [VisitCategory(Component)] else []
    ensures k == ExpressionNode(FunctionExpression) ==>
      Fired(Visitor(map[VisitCategory(Component) := Intercept]), VisitKind(k)) == []
  {
    SingleOverrideFiresOnce(VisitCategory(Component), Intercept, VisitKind(k));
    KindChainMembers(k, Component);
  }

  /**
   * A kind-specific override that does not call `super` shadows every
   * category override: only it fires.
   */
  lemma KindOverrideShadowsCategories(v: Visitor, k: Kind)
    requires Intercepts(v, VisitKind(k))
    ensures Run(v, VisitKind(k)) == [VisitKind(k)]
    ensures Fired(v, VisitKind(k)) == [VisitKind(k)]
  {
  }

  /**
   * The commented-out secondary forwarding never runs: the secondary
   * category is not on the kind's default chain, so a visitor overriding
   * only that category's operation never fires for the kind.
   */
  lemma SecondaryCategoryNeverDispatched(k: Kind, body: OverrideBody)
    requires SecondaryCategory(k).Some?
    ensures VisitCategory(SecondaryCategory(k).value) !in DefaultChain(VisitKind(k))
    ensures Fired(Visitor(map[VisitCategory(SecondaryCategory(k).value) := body]), VisitKind(k)) == []
  {
    var c := SecondaryCategory(k).value;
    assert CategoryOf(k) == Expression;
    KindChainMembers(k, c);
    SingleOverrideFiresOnce(VisitCategory(c), body, VisitKind(k));
  }
}
