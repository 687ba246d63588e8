/**
  The default traversal of `LOVisitor`: which children each `visit` overload
  dispatches, in which order, and how every nested plan is bracketed by a
  `pushWalker` / `popWalker` pair.

  The visitor's observable behaviour is a `Walk`: the events it has performed
  so far (each dispatched operator, each push and each pop of a walker) and
  its current walker stack, top at the end. A concrete visitor may raise a
  `VisitorException`; this is modelled by the set of operator keys whose
  visit raises as soon as it is dispatched. No overload catches the
  exception, so it ends the whole traversal where it stands.
 */
module LOVisitor {
  import opened LogicalPlan
  import opened Sequences

  datatype Event = Dispatched(op: Operator) | Pushed(walker: Walker) | Popped

  datatype Walk = Walk(events: seq<Event>, walkers: seq<Walker>)

  /** How a visit ends: normally, or by a `VisitorException`. */
  datatype Outcome = Completed(walk: Walk) | Raised(walk: Walk) {
    predicate IsFailure() {
      Raised?
    }

    function PropagateFailure(): Outcome
      requires Raised?
    {
      this
    }

    function Extract(): Walk
      requires Completed?
    {
      walk
    }
  }

  function Record(w: Walk, e: Event): Walk {
    Walk(w.events + [e], w.walkers)
  }

  // ---------------------------------------------------------------------
  // The traversal, one case per `visit` overload
  // ---------------------------------------------------------------------

  /**
    `op.visit(this)`: record the dispatch, then run the overload for the
    operator's variant. Events are only ever appended; the walker stack only
    grows above the caller's part, and it is back to the caller's stack
    whenever the visit completes.
   */
  function Dispatch(op: Operator, w: Walk, raising: set<nat>): (o: Outcome)
    decreases op, 1
    ensures w.events < o.walk.events
    ensures w.walkers <= o.walk.walkers
    ensures o.Completed? ==> o.walk.walkers == w.walkers
  {
    var w1 := Record(w, Dispatched(op));
    if op.key in raising then Raised(w1)
    else
      match op
      case Logical(_) => Completed(w1)
      case Expression(_) => Completed(w1)
      case BinaryExpression(_, lhs, rhs) =>
        var w2 :- Dispatch(lhs, w1, raising);
        Dispatch(rhs, w2, raising)
      case UnaryExpression(_, operand) => Dispatch(operand, w1, raising)
      case Cogroup(_, groups) => VisitGroups(groups, w1, raising)
      case Generate(_, plans) => VisitPlans(plans, w1, raising)
      case Sort(_, plans) => VisitPlans(plans, w1, raising)
      case Filter(_, plan) => VisitPlan(plan, w1, raising)
      case Split(_, slots) => VisitSlots(slots, w1, raising)
      case ForEach(_, plan) => VisitPlan(plan, w1, raising)
      case UserFunc(_, args) => DispatchEach(args, w1, raising)
      case BinCond(_, cond, lhs, rhs) =>
        var w2 :- Dispatch(cond, w1, raising);
        var w3 :- Dispatch(lhs, w2, raising);
        Dispatch(rhs, w3, raising)
      case Cast(_, expression) => Dispatch(expression, w1, raising)
      case Regexp(_, operand) => Dispatch(operand, w1, raising)
      case Load(_) => Completed(w1)
      case Store(_) => Completed(w1)
      case Const(_) => Completed(w1)
      case Project(_, sentinel, expression) =>
        if sentinel then Completed(w1) else Dispatch(expression, w1, raising)
  }

  /** Dispatch each operator in order, stopping at the first exception. */
  function DispatchEach(ops: seq<Operator>, w: Walk, raising: set<nat>): (o: Outcome)
    decreases ops, 0
    ensures w.events <= o.walk.events
    ensures w.walkers <= o.walk.walkers
    ensures o.Completed? ==> o.walk.walkers == w.walkers
  {
    if |ops| == 0 then Completed(w)
    else
      var w1 :- Dispatch(ops[0], w, raising);
      DispatchEach(ops[1..], w1, raising)
  }

  /**
    Visit one nested plan: push a dependency-order walker for it, dispatch
    its roots, pop the walker. An exception skips the pop.
   */
  function VisitPlan(p: Plan, w: Walk, raising: set<nat>): (o: Outcome)
    decreases p, 0
    ensures w.events < o.walk.events
    ensures w.walkers <= o.walk.walkers
    ensures o.Completed? ==> o.walk.walkers == w.walkers
  {
    var walker := DependencyOrderWalker(p);
    var w1 := Walk(w.events + [Pushed(walker)], w.walkers + [walker]);
    var w2 :- DispatchEach(p.roots, w1, raising);
    Completed(Walk(w2.events + [Popped], w2.walkers[..|w2.walkers| - 1]))
  }

  /** Visit a list of nested plans in order (generate, sort). */
  function VisitPlans(ps: seq<Plan>, w: Walk, raising: set<nat>): (o: Outcome)
    decreases ps, 0
    ensures w.events <= o.walk.events
    ensures w.walkers <= o.walk.walkers
    ensures o.Completed? ==> o.walk.walkers == w.walkers
  {
    if |ps| == 0 then Completed(w)
    else
      var w1 :- VisitPlan(ps[0], w, raising);
      VisitPlans(ps[1..], w1, raising)
  }

  /** Visit a list of plan slots in order, skipping the null ones (split, one cogroup input). */
  function VisitSlots(ms: seq<MaybePlan>, w: Walk, raising: set<nat>): (o: Outcome)
    decreases ms, 0
    ensures w.events <= o.walk.events
    ensures w.walkers <= o.walk.walkers
    ensures o.Completed? ==> o.walk.walkers == w.walkers
  {
    if |ms| == 0 then Completed(w)
    else
      var w1 :- VisitSlot(ms[0], w, raising);
      VisitSlots(ms[1..], w1, raising)
  }

  /** A null slot is skipped; a present one is visited as a nested plan. */
  function VisitSlot(m: MaybePlan, w: Walk, raising: set<nat>): (o: Outcome)
    decreases m, 0
    ensures w.events <= o.walk.events
    ensures w.walkers <= o.walk.walkers
    ensures o.Completed? ==> o.walk.walkers == w.walkers
  {
    match m
    case NullPlan => Completed(w)
    case Present(p) => VisitPlan(p, w, raising)
  }

  /** Visit the group-by plans of every cogroup input, input after input. */
  function VisitGroups(gs: seq<InputGroup>, w: Walk, raising: set<nat>): (o: Outcome)
    decreases gs, 0
    ensures w.events <= o.walk.events
    ensures w.walkers <= o.walk.walkers
    ensures o.Completed? ==> o.walk.walkers == w.walkers
  {
    if |gs| == 0 then Completed(w)
    else
      var w1 :- VisitSlots(gs[0].plans, w, raising);
      VisitGroups(gs[1..], w1, raising)
  }

  // ---------------------------------------------------------------------
  // Reference: the pre-order event list of an operator, and what carrying
  // out an event list does to a walk
  // ---------------------------------------------------------------------

  /** Every event a visit of `op` performs when nothing raises, in order. */
  function Expand(op: Operator): seq<Event>
    decreases op, 1
  {
    [Dispatched(op)] +
    match op
    case Logical(_) => []
    case Expression(_) => []
    case BinaryExpression(_, lhs, rhs) => Expand(lhs) + Expand(rhs)
    case UnaryExpression(_, operand) => Expand(operand)
    case Cogroup(_, groups) => ExpandGroups(groups)
    case Generate(_, plans) => ExpandPlans(plans)
    case Sort(_, plans) => ExpandPlans(plans)
    case Filter(_, plan) => ExpandPlan(plan)
    case Split(_, slots) => ExpandSlots(slots)
    case ForEach(_, plan) => ExpandPlan(plan)
    case UserFunc(_, args) => ExpandEach(args)
    case BinCond(_, cond, lhs, rhs) => Expand(cond) + Expand(lhs) + Expand(rhs)
    case Cast(_, expression) => Expand(expression)
    case Regexp(_, operand) => Expand(operand)
    case Load(_) => []
    case Store(_) => []
    case Const(_) => []
    case Project(_, sentinel, expression) => if sentinel then [] else Expand(expression)
  }

  function ExpandEach(ops: seq<Operator>): seq<Event>
    decreases ops, 0
  {
    if |ops| == 0 then [] else Expand(ops[0]) + ExpandEach(ops[1..])
  }

  function ExpandPlan(p: Plan): seq<Event>
    decreases p, 0
  {
    [Pushed(DependencyOrderWalker(p))] + ExpandEach(p.roots) + [Popped]
  }

  function ExpandPlans(ps: seq<Plan>): seq<Event>
    decreases ps, 0
  {
    if |ps| == 0 then [] else ExpandPlan(ps[0]) + ExpandPlans(ps[1..])
  }

  function ExpandSlots(ms: seq<MaybePlan>): seq<Event>
    decreases ms, 0
  {
    if |ms| == 0 then [] else ExpandSlot(ms[0]) + ExpandSlots(ms[1..])
  }

  function ExpandSlot(m: MaybePlan): seq<Event>
    decreases m, 0
  {
    match m
    case NullPlan => []
    case Present(p) => ExpandPlan(p)
  }

  function ExpandGroups(gs: seq<InputGroup>): seq<Event>
    decreases gs, 0
  {
    if |gs| == 0 then [] else ExpandSlots(gs[0].plans) + ExpandGroups(gs[1..])
  }

  /** The event is the dispatch of an operator whose visit raises. */
  predicate RaisesAt(e: Event, raising: set<nat>) {
    e.Dispatched? && e.op.key in raising
  }

  /** No event of `es` raises. */
  predicate Clean(es: seq<Event>, raising: set<nat>) {
    forall i :: 0 <= i < |es| ==> !RaisesAt(es[i], raising)
  }

  /** The walker stack after carrying out `es` on stack `ws`. */
  function Replay(ws: seq<Walker>, es: seq<Event>): seq<Walker>
    decreases |es|
  {
    if |es| == 0 then ws
    else
      match es[0]
      case Dispatched(_) => Replay(ws, es[1..])
      case Pushed(walker) => Replay(ws + [walker], es[1..])
      case Popped => Replay(if |ws| == 0 then ws else ws[..|ws| - 1], es[1..])
  }

  /** The events up to and including the first raising one; all of `es` when none raises. */
  function UpToRaise(es: seq<Event>, raising: set<nat>): (cut: seq<Event>)
    ensures cut <= es
    ensures Clean(es, raising) ==> cut == es
  {
    if |es| == 0 then []
    else if RaisesAt(es[0], raising) then [es[0]]
    else
      var rest := UpToRaise(es[1..], raising);
      CleanCons(es, raising);
      assert ([es[0]] + rest)[1..] == rest;
      [es[0]] + rest
  }

  /** When some event raises, the cut ends at the first raising event. */
  lemma {:induction false} UpToRaiseStopsAtFirst(es: seq<Event>, raising: set<nat>)
    requires !Clean(es, raising)
    ensures var cut := UpToRaise(es, raising);
            && 0 < |cut|
            && RaisesAt(cut[|cut| - 1], raising)
            && Clean(cut[..|cut| - 1], raising)
    decreases |es|
  {
    var cut := UpToRaise(es, raising);
    if RaisesAt(es[0], raising) {
      assert cut[..0] == [];
    } else {
      CleanCons(es, raising);
      var rest := UpToRaise(es[1..], raising);
      UpToRaiseStopsAtFirst(es[1..], raising);
      assert cut == [es[0]] + rest;
      assert cut[|cut| - 1] == rest[|rest| - 1];
      assert cut[..|cut| - 1] == [es[0]] + rest[..|rest| - 1];
      CleanConcat([es[0]], rest[..|rest| - 1], raising);
    }
  }

  /** A nonempty list is clean iff its head does not raise and its tail is clean. */
  lemma CleanCons(es: seq<Event>, raising: set<nat>)
    requires |es| > 0
    ensures Clean(es, raising) <==> !RaisesAt(es[0], raising) && Clean(es[1..], raising)
  {
    if !RaisesAt(es[0], raising) && Clean(es[1..], raising) {
      forall i | 0 <= i < |es| ensures !RaisesAt(es[i], raising) {
        if i > 0 { assert es[i] == es[1..][i - 1]; }
      }
    }
  }

  /**
    Carry out `es` from walk `w` as an uncaught exception would: stop right
    after the first raising dispatch.
   */
  function Ref(es: seq<Event>, w: Walk, raising: set<nat>): Outcome {
    var cut := UpToRaise(es, raising);
    var w' := Walk(w.events + cut, Replay(w.walkers, cut));
    if Clean(es, raising) then Completed(w') else Raised(w')
  }

  /** Sequencing of two walk steps, the second run only when the first completes. */
  function Then(o: Outcome, es: seq<Event>, raising: set<nat>): Outcome {
    match o
    case Raised(_) => o
    case Completed(w1) => Ref(es, w1, raising)
  }

  // ---------------------------------------------------------------------
  // Algebra of the reference
  // ---------------------------------------------------------------------

  lemma {:induction false} ReplayConcat(ws: seq<Walker>, a: seq<Event>, b: seq<Event>)
    ensures Replay(ws, a + b) == Replay(Replay(ws, a), b)
    decreases |a|
  {
    if |a| == 0 {
      assert a + b == b;
    } else {
      assert (a + b)[0] == a[0];
      assert (a + b)[1..] == a[1..] + b;
      var ws' := match a[0]
        case Dispatched(_) => ws
        case Pushed(walker) => ws + [walker]
        case Popped => if |ws| == 0 then ws else ws[..|ws| - 1];
      ReplayConcat(ws', a[1..], b);
    }
  }

  lemma CleanConcat(a: seq<Event>, b: seq<Event>, raising: set<nat>)
    ensures Clean(a + b, raising) <==> Clean(a, raising) && Clean(b, raising)
  {
    if Clean(a, raising) && Clean(b, raising) {
      forall i | 0 <= i < |a + b| ensures !RaisesAt((a + b)[i], raising) {
        if i >= |a| { assert (a + b)[i] == b[i - |a|]; }
      }
    }
    if Clean(a + b, raising) {
      forall i | 0 <= i < |a| ensures !RaisesAt(a[i], raising) {
        assert (a + b)[i] == a[i];
      }
      forall i | 0 <= i < |b| ensures !RaisesAt(b[i], raising) {
        assert (a + b)[|a| + i] == b[i];
      }
    }
  }

  lemma {:induction false} UpToRaiseConcat(a: seq<Event>, b: seq<Event>, raising: set<nat>)
    ensures UpToRaise(a + b, raising)
            == if Clean(a, raising) then a + UpToRaise(b, raising) else UpToRaise(a, raising)
    decreases |a|
  {
    if |a| == 0 {
      assert a + b == b;
    } else {
      assert (a + b)[0] == a[0];
      if !RaisesAt(a[0], raising) {
        assert (a + b)[1..] == a[1..] + b;
        UpToRaiseConcat(a[1..], b, raising);
        CleanCons(a, raising);
        if Clean(a, raising) {
          ConsAssoc(a, UpToRaise(b, raising));
        }
      }
    }
  }

  /** Carrying out `a + b` is carrying out `a`, then `b` if `a` completed. */
  lemma RefConcat(a: seq<Event>, b: seq<Event>, w: Walk, raising: set<nat>)
    ensures Ref(a + b, w, raising) == Then(Ref(a, w, raising), b, raising)
  {
    UpToRaiseConcat(a, b, raising);
    CleanConcat(a, b, raising);
    if Clean(a, raising) {
      var cutB := UpToRaise(b, raising);
      ReplayConcat(w.walkers, a, cutB);
      assert w.events + (a + cutB) == (w.events + a) + cutB;
    }
  }

  /** Carrying out a single event. */
  lemma RefStep(e: Event, w: Walk, raising: set<nat>)
    ensures Ref([e], w, raising)
            == var w' := Walk(w.events + [e], Replay(w.walkers, [e]));
               if RaisesAt(e, raising) then Raised(w') else Completed(w')
  {
    var es := [e];
    assert es[1..] == [];
    assert UpToRaise(es, raising) == es;
    if RaisesAt(e, raising) {
      assert !Clean(es, raising) by { assert RaisesAt(es[0], raising); }
    } else {
      assert Clean(es, raising);
    }
  }

  lemma RefEmpty(w: Walk, raising: set<nat>)
    ensures Ref([], w, raising) == Completed(w)
  {
    assert w.events + [] == w.events;
  }

  // ---------------------------------------------------------------------
  // The traversal agrees with the reference
  // ---------------------------------------------------------------------

  /**
    The visit of `op` carries out exactly the pre-order event list
    `Expand(op)`, cut right after the first raising dispatch.
   */
  lemma {:induction false} DispatchMatchesExpand(op: Operator, w: Walk, raising: set<nat>)
    ensures Dispatch(op, w, raising) == Ref(Expand(op), w, raising)
    decreases op, 1
  {
    var d := Dispatched(op);
    var w1 := Record(w, d);
    RefStep(d, w, raising);
    assert Replay(w.walkers, [d]) == w.walkers by { assert [d][1..] == []; }
    var children := Expand(op)[1..];
    assert Expand(op) == [d] + children;
    RefConcat([d], children, w, raising);
    if op.key !in raising {
      match op
      case Logical(_) => RefEmpty(w1, raising);
      case Expression(_) => RefEmpty(w1, raising);
      case Load(_) => RefEmpty(w1, raising);
      case Store(_) => RefEmpty(w1, raising);
      case Const(_) => RefEmpty(w1, raising);
      case BinaryExpression(_, lhs, rhs) =>
        RefConcat(Expand(lhs), Expand(rhs), w1, raising);
        DispatchMatchesExpand(lhs, w1, raising);
        var o := Dispatch(lhs, w1, raising);
        if o.Completed? { DispatchMatchesExpand(rhs, o.walk, raising); }
      case UnaryExpression(_, operand) => DispatchMatchesExpand(operand, w1, raising);
      case Cogroup(_, groups) => VisitGroupsMatches(groups, w1, raising);
      case Generate(_, plans) => VisitPlansMatches(plans, w1, raising);
      case Sort(_, plans) => VisitPlansMatches(plans, w1, raising);
      case Filter(_, plan) => VisitPlanMatches(plan, w1, raising);
      case Split(_, slots) => VisitSlotsMatches(slots, w1, raising);
      case ForEach(_, plan) => VisitPlanMatches(plan, w1, raising);
      case UserFunc(_, args) => DispatchEachMatches(args, w1, raising);
      case BinCond(_, cond, lhs, rhs) =>
        RefConcat(Expand(cond) + Expand(lhs), Expand(rhs), w1, raising);
        RefConcat(Expand(cond), Expand(lhs), w1, raising);
        DispatchMatchesExpand(cond, w1, raising);
        var o := Dispatch(cond, w1, raising);
        if o.Completed? {
          DispatchMatchesExpand(lhs, o.walk, raising);
          var o' := Dispatch(lhs, o.walk, raising);
          if o'.Completed? { DispatchMatchesExpand(rhs, o'.walk, raising); }
        }
      case Cast(_, expression) => DispatchMatchesExpand(expression, w1, raising);
      case Regexp(_, operand) => DispatchMatchesExpand(operand, w1, raising);
      case Project(_, sentinel, expression) =>
        if sentinel { RefEmpty(w1, raising); }
        else { DispatchMatchesExpand(expression, w1, raising); }
    }
  }

  lemma {:induction false} DispatchEachMatches(ops: seq<Operator>, w: Walk, raising: set<nat>)
    ensures DispatchEach(ops, w, raising) == Ref(ExpandEach(ops), w, raising)
    decreases ops, 0
  {
    if |ops| == 0 {
      RefEmpty(w, raising);
    } else {
      RefConcat(Expand(ops[0]), ExpandEach(ops[1..]), w, raising);
      DispatchMatchesExpand(ops[0], w, raising);
      var o := Dispatch(ops[0], w, raising);
      if o.Completed? { DispatchEachMatches(ops[1..], o.walk, raising); }
    }
  }

  lemma {:induction false} VisitPlanMatches(p: Plan, w: Walk, raising: set<nat>)
    ensures VisitPlan(p, w, raising) == Ref(ExpandPlan(p), w, raising)
    decreases p, 0
  {
    var walker := DependencyOrderWalker(p);
    var push := [Pushed(walker)];
    var body := ExpandEach(p.roots);
    var w1 := Walk(w.events + push, w.walkers + [walker]);
    RefStep(Pushed(walker), w, raising);
    assert Replay(w.walkers, push) == w.walkers + [walker] by { assert push[1..] == []; }
    RefConcat(push + body, [Popped], w, raising);
    RefConcat(push, body, w, raising);
    DispatchEachMatches(p.roots, w1, raising);
    var o := DispatchEach(p.roots, w1, raising);
    if o.Completed? {
      var pop: seq<Event> := [Popped];
      RefStep(Popped, o.walk, raising);
      assert Replay(o.walk.walkers, pop) == o.walk.walkers[..|o.walk.walkers| - 1] by {
        assert pop[1..] == [];
      }
    }
  }

  lemma {:induction false} VisitPlansMatches(ps: seq<Plan>, w: Walk, raising: set<nat>)
    ensures VisitPlans(ps, w, raising) == Ref(ExpandPlans(ps), w, raising)
    decreases ps, 0
  {
    if |ps| == 0 {
      RefEmpty(w, raising);
    } else {
      RefConcat(ExpandPlan(ps[0]), ExpandPlans(ps[1..]), w, raising);
      VisitPlanMatches(ps[0], w, raising);
      var o := VisitPlan(ps[0], w, raising);
      if o.Completed? { VisitPlansMatches(ps[1..], o.walk, raising); }
    }
  }

  lemma {:induction false} VisitSlotsMatches(ms: seq<MaybePlan>, w: Walk, raising: set<nat>)
    ensures VisitSlots(ms, w, raising) == Ref(ExpandSlots(ms), w, raising)
    decreases ms, 0
  {
    if |ms| == 0 {
      RefEmpty(w, raising);
    } else {
      RefConcat(ExpandSlot(ms[0]), ExpandSlots(ms[1..]), w, raising);
      VisitSlotMatches(ms[0], w, raising);
      var o := VisitSlot(ms[0], w, raising);
      if o.Completed? { VisitSlotsMatches(ms[1..], o.walk, raising); }
    }
  }

  lemma {:induction false} VisitSlotMatches(m: MaybePlan, w: Walk, raising: set<nat>)
    ensures VisitSlot(m, w, raising) == Ref(ExpandSlot(m), w, raising)
    decreases m, 0
  {
    match m
    case NullPlan => RefEmpty(w, raising);
    case Present(p) => VisitPlanMatches(p, w, raising);
  }

  lemma {:induction false} VisitGroupsMatches(gs: seq<InputGroup>, w: Walk, raising: set<nat>)
    ensures VisitGroups(gs, w, raising) == Ref(ExpandGroups(gs), w, raising)
    decreases gs, 0
  {
    if |gs| == 0 {
      RefEmpty(w, raising);
    } else {
      RefConcat(ExpandSlots(gs[0].plans), ExpandGroups(gs[1..]), w, raising);
      VisitSlotsMatches(gs[0].plans, w, raising);
      var o := VisitSlots(gs[0].plans, w, raising);
      if o.Completed? { VisitGroupsMatches(gs[1..], o.walk, raising); }
    }
  }
}
