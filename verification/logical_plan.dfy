/**
  The logical plan as the visitor sees it: a closed family of logical
  operators, some of which own nested sub-plans. A plan is represented by its
  roots in the order `getRoots` yields them; the operators reachable from a
  root are reached through the operator's own children, so every plan is a
  finite tree and traversal terminates structurally.

  Every operator carries its `OperatorKey`, written `key`, so that two equal
  sub-trees at different places of a plan can still be told apart by a
  visitor that only looks at keys.
 */
module LogicalPlan {

  datatype Operator =
      /** Any logical operator without a more specific visit overload. */
    | Logical(key: nat)
      /** Any expression operator without a more specific visit overload. */
    | Expression(key: nat)
    | BinaryExpression(key: nat, lhs: Operator, rhs: Operator)
    | UnaryExpression(key: nat, operand: Operator)
      /** One entry per cogroup input, in input order. */
    | Cogroup(key: nat, groupByPlans: seq<InputGroup>)
    | Generate(key: nat, generatePlans: seq<Plan>)
    | Sort(key: nat, sortColPlans: seq<Plan>)
    | Filter(key: nat, comparisonPlan: Plan)
    | Split(key: nat, conditionPlans: seq<MaybePlan>)
    | ForEach(key: nat, forEachPlan: Plan)
    | UserFunc(key: nat, arguments: seq<Operator>)
    | BinCond(key: nat, cond: Operator, lhsOp: Operator, rhsOp: Operator)
    | Cast(key: nat, expression: Operator)
    | Regexp(key: nat, operand: Operator)
    | Load(key: nat)
    | Store(key: nat)
    | Const(key: nat)
    | Project(key: nat, sentinel: bool, expression: Operator)

  /** A nested logical plan, given by its roots in dependency order. */
  datatype Plan = Plan(roots: seq<Operator>)

  /** A slot that may hold a plan or Java's `null`. */
  datatype MaybePlan = NullPlan | Present(plan: Plan)

  /** The group-by plans the cogroup's multi-map holds for one of its inputs. */
  datatype InputGroup = InputGroup(plans: seq<MaybePlan>)

  /**
    A plan walker. The visitor pushes a dependency-order walker for every
    nested plan it enters; the walker it was constructed with, or any the
    caller pushed before, is known only by a name.
   */
  datatype Walker = DependencyOrderWalker(plan: Plan) | GivenWalker(name: nat)

  /** The non-null plans of a slot list, in order. */
  function PresentPlans(ms: seq<MaybePlan>): (ps: seq<Plan>)
    ensures |ps| <= |ms|
    ensures forall p :: p in ps <==> Present(p) in ms
  {
    if |ms| == 0 then []
    else
      var rest := PresentPlans(ms[1..]);
      assert forall m :: m in ms <==> m == ms[0] || m in ms[1..];
      match ms[0]
      case NullPlan => rest
      case Present(p) => [p] + rest
  }

  /** All group-by slots of a cogroup, input after input. */
  function AllSlots(gs: seq<InputGroup>): (ms: seq<MaybePlan>)
    ensures forall m :: m in ms <==> exists g :: g in gs && m in g.plans
  {
    if |gs| == 0 then []
    else
      var rest := AllSlots(gs[1..]);
      assert forall g :: g in gs <==> g == gs[0] || g in gs[1..];
      gs[0].plans + rest
  }

  /**
    `PresentPlans` keeps order and multiplicity: it distributes over
    concatenation, drops a null slot and keeps a present plan once.
   */
  lemma {:induction false} PresentPlansAppend(a: seq<MaybePlan>, b: seq<MaybePlan>)
    ensures PresentPlans(a + b) == PresentPlans(a) + PresentPlans(b)
    decreases |a|
  {
    if |a| == 0 {
      assert a + b == b;
    } else {
      assert (a + b)[0] == a[0];
      assert (a + b)[1..] == a[1..] + b;
      PresentPlansAppend(a[1..], b);
    }
  }

  lemma PresentPlansSingle(m: MaybePlan)
    ensures PresentPlans([m]) == if m.Present? then [m.plan] else []
  {
    assert [m][1..] == [];
  }

  /** `AllSlots` concatenates the inputs' slot lists in input order, keeping every slot. */
  lemma {:induction false} AllSlotsAppend(a: seq<InputGroup>, b: seq<InputGroup>)
    ensures AllSlots(a + b) == AllSlots(a) + AllSlots(b)
    decreases |a|
  {
    if |a| == 0 {
      assert a + b == b;
    } else {
      assert (a + b)[0] == a[0];
      assert (a + b)[1..] == a[1..] + b;
      AllSlotsAppend(a[1..], b);
      assert a[0].plans + (AllSlots(a[1..]) + AllSlots(b)) == a[0].plans + AllSlots(a[1..]) + AllSlots(b);
    }
  }

  lemma AllSlotsSingle(g: InputGroup)
    ensures AllSlots([g]) == g.plans
  {
    assert [g][1..] == [];
  }
}
