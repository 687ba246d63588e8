/**
  Consequences of `LOVisitor.DispatchMatchesExpand`: the per-overload
  traversal orders, the sentinel on projections, the skipping of null plans,
  the balance of the walker stack and what an uncaught `VisitorException`
  leaves behind.
 */
module TraversalProperties {
  import opened LogicalPlan
  import opened LOVisitor
  import opened Sequences

  // ---------------------------------------------------------------------
  // Completion and abortion in general
  // ---------------------------------------------------------------------

  /** A visit completes iff no operator in its pre-order raises; it then performs exactly that pre-order. */
  lemma TraversalCompletes(op: Operator, w: Walk, raising: set<nat>)
    ensures Dispatch(op, w, raising).Completed? <==> Clean(Expand(op), raising)
    ensures Clean(Expand(op), raising) ==>
              Dispatch(op, w, raising) == Completed(Walk(w.events + Expand(op), w.walkers))
  {
    DispatchMatchesExpand(op, w, raising);
  }

  /**
    An exception ends the traversal right after the first raising dispatch
    of the pre-order: nothing after it is dispatched, and the pops still
    pending for the nested plans entered so far never happen.
   */
  lemma TraversalAborts(op: Operator, w: Walk, raising: set<nat>)
    requires !Clean(Expand(op), raising)
    ensures exists k ::
              && 0 <= k < |Expand(op)|
              && RaisesAt(Expand(op)[k], raising)
              && Clean(Expand(op)[..k], raising)
              && Dispatch(op, w, raising)
                 == Raised(Walk(w.events + Expand(op)[..k + 1],
                                Replay(w.walkers, Expand(op)[..k + 1])))
  {
    DispatchMatchesExpand(op, w, raising);
    var es := Expand(op);
    UpToRaiseStopsAtFirst(es, raising);
    var cut := UpToRaise(es, raising);
    var k := |cut| - 1;
    assert cut == es[..k + 1];
    assert cut[..k] == es[..k];
  }

  /** Every push the pre-order of an operator performs is matched by a pop. */
  lemma ExpandIsBalanced(op: Operator, ws: seq<Walker>)
    ensures Replay(ws, Expand(op)) == ws
  {
    var none: set<nat> := {};
    assert Clean(Expand(op), none);
    DispatchMatchesExpand(op, Walk([], ws), none);
  }

  /** A completed visit leaves the walker stack as it found it, whatever the operator. */
  lemma WalkerStackRestored(op: Operator, w: Walk, raising: set<nat>)
    requires Clean(Expand(op), raising)
    ensures Dispatch(op, w, raising).walk.walkers == w.walkers
    ensures Replay(w.walkers, Expand(op)) == w.walkers
  {
    TraversalCompletes(op, w, raising);
    ExpandIsBalanced(op, w.walkers);
  }

  /**
    A nested plan is visited between one push of its own dependency-order
    walker and one pop, and the visit leaves the walker stack as it found it.
   */
  lemma NestedPlanBracketed(p: Plan, w: Walk, raising: set<nat>)
    requires Clean(ExpandEach(p.roots), raising)
    ensures VisitPlan(p, w, raising)
            == Completed(Walk(w.events + [Pushed(DependencyOrderWalker(p))]
                              + ExpandEach(p.roots) + [Popped], w.walkers))
  {
    var push := [Pushed(DependencyOrderWalker(p))];
    var es := ExpandPlan(p);
    assert Clean(es, raising) by {
      CleanConcat(push, ExpandEach(p.roots), raising);
      CleanConcat(push + ExpandEach(p.roots), [Popped], raising);
    }
    VisitPlanMatches(p, w, raising);
    AppendAssoc(w.events, push + ExpandEach(p.roots), [Popped]);
    AppendAssoc(w.events, push, ExpandEach(p.roots));
  }

  /** When the visit of a nested plan raises, that plan's walker is still on the stack. */
  lemma NestedPlanLeftOnRaise(p: Plan, w: Walk, raising: set<nat>)
    requires VisitPlan(p, w, raising).Raised?
    ensures w.walkers + [DependencyOrderWalker(p)] <= VisitPlan(p, w, raising).walk.walkers
  {
    var walker := DependencyOrderWalker(p);
    var w1 := Walk(w.events + [Pushed(walker)], w.walkers + [walker]);
    assert VisitPlan(p, w, raising) == DispatchEach(p.roots, w1, raising);
  }

  lemma ExpandEachIsBalanced(ops: seq<Operator>, ws: seq<Walker>)
    ensures Replay(ws, ExpandEach(ops)) == ws
  {
    var none: set<nat> := {};
    assert Clean(ExpandEach(ops), none);
    DispatchEachMatches(ops, Walk([], ws), none);
  }

  // ---------------------------------------------------------------------
  // Per-overload orders
  // ---------------------------------------------------------------------

  /**
    A binary expression dispatches the whole of its left operand before any
    node of its right operand, even when the right operand raises.
   */
  lemma BinaryLeftBeforeRight(key: nat, lhs: Operator, rhs: Operator, w: Walk, raising: set<nat>)
    requires key !in raising
    requires Clean(Expand(lhs), raising)
    ensures exists tail :: tail <= Expand(rhs)
              && Dispatch(BinaryExpression(key, lhs, rhs), w, raising).walk.events
                 == w.events + [Dispatched(BinaryExpression(key, lhs, rhs))] + Expand(lhs) + tail
    ensures Clean(Expand(rhs), raising) ==>
              Dispatch(BinaryExpression(key, lhs, rhs), w, raising)
              == Completed(Walk(w.events + [Dispatched(BinaryExpression(key, lhs, rhs))]
                                + Expand(lhs) + Expand(rhs), w.walkers))
  {
    var op := BinaryExpression(key, lhs, rhs);
    var w1 := Record(w, Dispatched(op));
    TraversalCompletes(lhs, w1, raising);
    var w2 := Walk(w1.events + Expand(lhs), w.walkers);
    assert Dispatch(op, w, raising) == Dispatch(rhs, w2, raising);
    DispatchMatchesExpand(rhs, w2, raising);
    var tail := UpToRaise(Expand(rhs), raising);
    assert Dispatch(rhs, w2, raising).walk.events == w2.events + tail;
    if Clean(Expand(rhs), raising) {
      TraversalCompletes(rhs, w2, raising);
    }
  }

  /**
    BinCond dispatches itself, then the condition, the true branch and the
    false branch, each completely, in that order.
   */
  lemma BinCondOrder(key: nat, cond: Operator, lhs: Operator, rhs: Operator, w: Walk, raising: set<nat>)
    requires key !in raising
    requires Clean(Expand(cond), raising) && Clean(Expand(lhs), raising) && Clean(Expand(rhs), raising)
    ensures var op := BinCond(key, cond, lhs, rhs);
            Dispatch(op, w, raising)
            == Completed(Walk(w.events + [Dispatched(op)] + Expand(cond) + Expand(lhs) + Expand(rhs),
                              w.walkers))
  {
    var op := BinCond(key, cond, lhs, rhs);
    var w1 := Record(w, Dispatched(op));
    TraversalCompletes(cond, w1, raising);
    var w2 := Walk(w1.events + Expand(cond), w.walkers);
    TraversalCompletes(lhs, w2, raising);
    var w3 := Walk(w2.events + Expand(lhs), w.walkers);
    TraversalCompletes(rhs, w3, raising);
    assert Dispatch(op, w, raising) == Dispatch(rhs, w3, raising);
  }

  lemma {:induction false} ExpandEachAppend(a: seq<Operator>, b: seq<Operator>)
    ensures ExpandEach(a + b) == ExpandEach(a) + ExpandEach(b)
    decreases |a|
  {
    if |a| == 0 {
      assert a + b == b;
    } else {
      assert (a + b)[0] == a[0];
      assert (a + b)[1..] == a[1..] + b;
      ExpandEachAppend(a[1..], b);
    }
  }

  /**
    A user function visits its arguments in list order: the trace of
    argument `i` starts right where the traces of the arguments before it
    end, and nothing but argument traces follow the call's own dispatch.
   */
  lemma UserFuncArgumentsInOrder(key: nat, args: seq<Operator>, w: Walk, raising: set<nat>)
    requires key !in raising
    requires Clean(ExpandEach(args), raising)
    ensures Dispatch(UserFunc(key, args), w, raising)
            == Completed(Walk(w.events + [Dispatched(UserFunc(key, args))] + ExpandEach(args), w.walkers))
    ensures forall i :: 0 <= i < |args| ==> ExpandEach(args[..i]) + Expand(args[i]) <= ExpandEach(args)
  {
    var w1 := Record(w, Dispatched(UserFunc(key, args)));
    assert Dispatch(UserFunc(key, args), w, raising) == DispatchEach(args, w1, raising);
    DispatchEachMatches(args, w1, raising);
    forall i | 0 <= i < |args|
      ensures ExpandEach(args[..i]) + Expand(args[i]) <= ExpandEach(args)
    {
      ArgumentTraceAt(args, i);
    }
  }

  lemma ArgumentTraceAt(args: seq<Operator>, i: nat)
    requires i < |args|
    ensures ExpandEach(args[..i]) + Expand(args[i]) <= ExpandEach(args)
  {
    assert args == args[..i] + args[i..];
    ExpandEachAppend(args[..i], args[i..]);
    assert args[i..][0] == args[i];
    assert args[i..][1..] == args[i + 1..];
    AppendAssoc(ExpandEach(args[..i]), Expand(args[i]), ExpandEach(args[i + 1..]));
  }

  /**
    Generate and Sort visit their plans in list order, each bracketed by its
    own walker; no slot of theirs is checked for null.
   */
  lemma PlanListVisitedInOrder(op: Operator, w: Walk, raising: set<nat>)
    requires op.Generate? || op.Sort?
    requires op.key !in raising
    requires Clean(ExpandPlans(if op.Generate? then op.generatePlans else op.sortColPlans), raising)
    ensures var ps := if op.Generate? then op.generatePlans else op.sortColPlans;
            Dispatch(op, w, raising)
            == Completed(Walk(w.events + [Dispatched(op)] + ExpandPlans(ps), w.walkers))
  {
    var ps := if op.Generate? then op.generatePlans else op.sortColPlans;
    var w1 := Record(w, Dispatched(op));
    assert Dispatch(op, w, raising) == VisitPlans(ps, w1, raising);
    VisitPlansMatches(ps, w1, raising);
  }

  /** The plans of a list are visited one after another, each between its own push and pop. */
  lemma {:induction false} ExpandPlansBrackets(ps: seq<Plan>, i: nat)
    requires i < |ps|
    ensures ExpandPlans(ps[..i])
            + [Pushed(DependencyOrderWalker(ps[i]))] + ExpandEach(ps[i].roots) + [Popped]
            <= ExpandPlans(ps)
  {
    assert ps == ps[..i] + ps[i..];
    ExpandPlansAppend(ps[..i], ps[i..]);
    assert ps[i..][0] == ps[i];
    AppendAssoc(ExpandPlans(ps[..i]), ExpandPlan(ps[i]), ExpandPlans(ps[i + 1..]));
  }

  /** Unary expressions, casts and regexps dispatch their one operand and nothing else. */
  lemma SingleOperandVisited(op: Operator, w: Walk, raising: set<nat>)
    requires op.UnaryExpression? || op.Cast? || op.Regexp?
    requires op.key !in raising
    requires Clean(Expand(if op.Cast? then op.expression else op.operand), raising)
    ensures var child := if op.Cast? then op.expression else op.operand;
            Dispatch(op, w, raising)
            == Completed(Walk(w.events + [Dispatched(op)] + Expand(child), w.walkers))
  {
    var child := if op.Cast? then op.expression else op.operand;
    TraversalCompletes(child, Record(w, Dispatched(op)), raising);
  }

  /**
    A projection descends into its expression iff its sentinel is false;
    with the sentinel set, not even a raising expression is reached.
   */
  lemma ProjectSentinel(key: nat, sentinel: bool, expression: Operator, w: Walk, raising: set<nat>)
    ensures Expand(Project(key, sentinel, expression)) == [Dispatched(Project(key, sentinel, expression))]
            <==> sentinel
    ensures sentinel && key !in raising ==>
              Dispatch(Project(key, sentinel, expression), w, raising)
              == Completed(Record(w, Dispatched(Project(key, sentinel, expression))))
    ensures !sentinel && key !in raising && Clean(Expand(expression), raising) ==>
              Dispatch(Project(key, sentinel, expression), w, raising)
              == Completed(Walk(w.events + [Dispatched(Project(key, sentinel, expression))]
                                + Expand(expression), w.walkers))
  {
    var op := Project(key, sentinel, expression);
    assert |Expand(expression)| > 0 by { assert Expand(expression)[0] == Dispatched(expression); }
    if !sentinel && key !in raising {
      assert |Expand(op)| > 1;
      TraversalCompletes(expression, Record(w, Dispatched(op)), raising);
    }
  }

  /** Load, Store, Const and the two generic overloads dispatch no child. */
  lemma LeavesDispatchNothing(op: Operator, w: Walk, raising: set<nat>)
    requires op.Logical? || op.Expression? || op.Load? || op.Store? || op.Const?
    ensures Expand(op) == [Dispatched(op)]
    ensures Dispatch(op, w, raising)
            == if op.key in raising then Raised(Record(w, Dispatched(op)))
               else Completed(Record(w, Dispatched(op)))
  {
  }

  // ---------------------------------------------------------------------
  // Null plans
  // ---------------------------------------------------------------------

  lemma {:induction false} ExpandPlansAppend(a: seq<Plan>, b: seq<Plan>)
    ensures ExpandPlans(a + b) == ExpandPlans(a) + ExpandPlans(b)
    decreases |a|
  {
    if |a| == 0 {
      assert a + b == b;
    } else {
      assert (a + b)[0] == a[0];
      assert (a + b)[1..] == a[1..] + b;
      ExpandPlansAppend(a[1..], b);
    }
  }

  /** A list of slots is visited as the list of its non-null plans: a null slot adds nothing. */
  lemma {:induction false} ExpandSlotsSkipsNull(ms: seq<MaybePlan>)
    ensures ExpandSlots(ms) == ExpandPlans(PresentPlans(ms))
    decreases |ms|
  {
    if |ms| > 0 {
      ExpandSlotsSkipsNull(ms[1..]);
      match ms[0]
      case NullPlan =>
      case Present(p) =>
        assert ([p] + PresentPlans(ms[1..]))[1..] == PresentPlans(ms[1..]);
    }
  }

  lemma {:induction false} ExpandSlotsAppend(a: seq<MaybePlan>, b: seq<MaybePlan>)
    ensures ExpandSlots(a + b) == ExpandSlots(a) + ExpandSlots(b)
    decreases |a|
  {
    if |a| == 0 {
      assert a + b == b;
    } else {
      assert (a + b)[0] == a[0];
      assert (a + b)[1..] == a[1..] + b;
      ExpandSlotsAppend(a[1..], b);
    }
  }

  lemma {:induction false} ExpandGroupsFlattens(gs: seq<InputGroup>)
    ensures ExpandGroups(gs) == ExpandSlots(AllSlots(gs))
    decreases |gs|
  {
    if |gs| > 0 {
      ExpandGroupsFlattens(gs[1..]);
      ExpandSlotsAppend(gs[0].plans, AllSlots(gs[1..]));
    }
  }

  /**
    Cogroup visits, input after input and plan after plan, exactly the
    non-null group-by plans, each bracketed by its own walker; a null plan
    contributes nothing and pushes no walker.
   */
  lemma CogroupVisitsPresentPlansInOrder(key: nat, gs: seq<InputGroup>, w: Walk, raising: set<nat>)
    requires key !in raising
    requires Clean(ExpandPlans(PresentPlans(AllSlots(gs))), raising)
    ensures Dispatch(Cogroup(key, gs), w, raising)
            == Completed(Walk(w.events + [Dispatched(Cogroup(key, gs))]
                              + ExpandPlans(PresentPlans(AllSlots(gs))), w.walkers))
  {
    var w1 := Record(w, Dispatched(Cogroup(key, gs)));
    assert Dispatch(Cogroup(key, gs), w, raising) == VisitGroups(gs, w1, raising);
    VisitGroupsMatches(gs, w1, raising);
    ExpandGroupsFlattens(gs);
    ExpandSlotsSkipsNull(AllSlots(gs));
  }

  /** Split visits exactly its non-null condition plans, in order. */
  lemma SplitSkipsNullPlans(key: nat, slots: seq<MaybePlan>, w: Walk, raising: set<nat>)
    requires key !in raising
    requires Clean(ExpandPlans(PresentPlans(slots)), raising)
    ensures Dispatch(Split(key, slots), w, raising)
            == Completed(Walk(w.events + [Dispatched(Split(key, slots))]
                              + ExpandPlans(PresentPlans(slots)), w.walkers))
  {
    var w1 := Record(w, Dispatched(Split(key, slots)));
    assert Dispatch(Split(key, slots), w, raising) == VisitSlots(slots, w1, raising);
    VisitSlotsMatches(slots, w1, raising);
    ExpandSlotsSkipsNull(slots);
  }

  // ---------------------------------------------------------------------
  // A raising root inside a filter condition
  // ---------------------------------------------------------------------

  /**
    Dispatching a list whose elements before `i` are clean and whose element
    `i` raises performs the pre-orders of the elements before `i`, then the
    dispatch of element `i`, and stops there with the caller's stack.
   */
  lemma {:induction false} DispatchEachAbortsAt(ops: seq<Operator>, i: nat, w: Walk, raising: set<nat>)
    requires i < |ops|
    requires Clean(ExpandEach(ops[..i]), raising)
    requires ops[i].key in raising
    ensures DispatchEach(ops, w, raising)
            == Raised(Walk(w.events + ExpandEach(ops[..i]) + [Dispatched(ops[i])], w.walkers))
    decreases i
  {
    if i == 0 {
      assert ops[..0] == [];
    } else {
      assert ops[..i][0] == ops[0];
      assert ops[..i][1..] == ops[1..][..i - 1];
      CleanConcat(Expand(ops[0]), ExpandEach(ops[1..][..i - 1]), raising);
      TraversalCompletes(ops[0], w, raising);
      var w1 := Walk(w.events + Expand(ops[0]), w.walkers);
      DispatchEachAbortsAt(ops[1..], i - 1, w1, raising);
      AppendAssoc(w.events, Expand(ops[0]), ExpandEach(ops[1..][..i - 1]));
    }
  }

  /**
    A filter whose condition root `i` raises after clean roots `0..i-1`: the
    traversal stops at that root, and the condition's walker is never popped.
   */
  lemma FilterAbortLeavesWalker(key: nat, p: Plan, i: nat, w: Walk, raising: set<nat>)
    requires key !in raising
    requires i < |p.roots|
    requires Clean(ExpandEach(p.roots[..i]), raising)
    requires p.roots[i].key in raising
    ensures Dispatch(Filter(key, p), w, raising)
            == Raised(Walk(w.events + [Dispatched(Filter(key, p)), Pushed(DependencyOrderWalker(p))]
                             + ExpandEach(p.roots[..i]) + [Dispatched(p.roots[i])],
                           w.walkers + [DependencyOrderWalker(p)]))
  {
    var op := Filter(key, p);
    var walker := DependencyOrderWalker(p);
    var w1 := Record(w, Dispatched(op));
    var w2 := Walk(w1.events + [Pushed(walker)], w.walkers + [walker]);
    DispatchEachAbortsAt(p.roots, i, w2, raising);
    assert Dispatch(op, w, raising) == VisitPlan(p, w1, raising);
    assert w2.events == w.events + [Dispatched(op), Pushed(walker)];
  }
}
