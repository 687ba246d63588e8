# Pig: logical-plan visitor, short-circuit OR, launcher supervision

A Dafny model of three pieces of Pig's compile/execute path, with proofs of
what each promises.

- **`LOVisitor`** is the default traversal of a logical plan. For each
  logical operator variant it fixes which children are dispatched and in
  which order. Every nested sub-plan is visited between a `pushWalker` and a
  `popWalker`.
  - `logical_plan.dfy` (module `LogicalPlan`) is the closed family of
    operators. Nested plans are lists of roots, and a plan slot may be `null`.
  - `lo_visitor.dfy` (module `LOVisitor`) has two parts:
    - the traversal `Dispatch`, one case per `visit` overload, returning a
      `Walk`: the dispatches, pushes and pops performed, plus the walker
      stack;
    - a reference: the declarative pre-order event list `Expand`, and
      `Ref`, which carries out an event list the way an uncaught
      `VisitorException` would.

    `DispatchMatchesExpand` proves that the two agree for every operator and
    every set of raising operators.
  - `traversal_properties.dfy` (module `TraversalProperties`) holds the
    consequences: per-overload orders, the projection sentinel, skipped null
    plans, walker-stack balance and what an exception leaves behind.
- **`POOr.getNext`** is the pull step of the boolean OR, over a `Result`
  envelope of status and payload (`po_or.dfy`, module `POOr`).
  - An operand is a stand-in source with a fixed result, or another `POOr`.
  - Every pull records which sources it pulled.
  - Besides the four branches of one OR, the model proves that a whole OR
    tree is a left-to-right short-circuit scan of its sources (`Scan`). It
    follows that grouping does not matter.
- **`MapReduceLauncher.launchPig`** after the job control has started
  (`launcher.dfy`, module `MapReduceLauncher`).
  - The poll loop becomes a fold over the sequence of progress samples the
    loop observes.
  - The reconciliation after the loop becomes a pure function producing the
    launcher's visible actions (log lines, `getStats` calls, `jc.stop()`) and
    its outcome (a boolean, or `ExecException`).

`sequences.dfy` (module `Sequences`) holds two concatenation facts shared by
the others.

Two behaviours of the launcher's reconciliation are worth stating
explicitly:

- An incomplete run throws only when the failed-job list is `null`
  (`MapReduceLauncher.java:70`). With an empty failed-job list it does not
  throw: it collects no failed-job statistics and returns `false`.
- The throwing path never stops the job control: the `throw` at line 71
  comes before `jc.stop()` at line 82 (`Reconcile` states
  `Stops(...) == 0` when it throws).

## Model

| member | source | states |
|---|---|---|
| LogicalPlan.PresentPlans | src/org/apache/pig/impl/logicalLayer/LOVisitor.java:194-195 | a plan is kept from a slot list iff some slot holds it, and no more plans are kept than there are slots |
| LogicalPlan.PresentPlansAppend | src/org/apache/pig/impl/logicalLayer/LOVisitor.java:194-195 | the plans kept from two consecutive slot lists are those kept from the first followed by those kept from the second, so order and multiplicity are preserved |
| LogicalPlan.PresentPlansSingle | src/org/apache/pig/impl/logicalLayer/LOVisitor.java:194-195 | a null slot contributes no plan and a present slot contributes its plan once |
| LogicalPlan.AllSlots | src/org/apache/pig/impl/logicalLayer/LOVisitor.java:119-121 | a slot is among the cogroup's group-by slots iff some input holds it |
| LogicalPlan.AllSlotsAppend | src/org/apache/pig/impl/logicalLayer/LOVisitor.java:119-121 | the slots of two consecutive input lists are the first list's slots followed by the second's, so inputs are taken in order with every slot kept |
| LogicalPlan.AllSlotsSingle | src/org/apache/pig/impl/logicalLayer/LOVisitor.java:119-121 | one input contributes exactly its own slot list |
| LOVisitor.Dispatch | src/org/apache/pig/impl/logicalLayer/LOVisitor.java:64-296 | every visit records at least its own dispatch; it never pops below the caller's walker stack; a completed visit returns the caller's walker stack unchanged |
| LOVisitor.DispatchEach | src/org/apache/pig/impl/logicalLayer/LOVisitor.java:230-236 | dispatching a list only appends events; it leaves the caller's stack intact when it completes |
| LOVisitor.VisitPlan | src/org/apache/pig/impl/logicalLayer/LOVisitor.java:176-184 | a nested-plan visit (push, roots, pop) always records an event; a completed one restores the caller's walker stack |
| LOVisitor.VisitPlans | src/org/apache/pig/impl/logicalLayer/LOVisitor.java:140-150 | visiting a plan list only appends events; when it completes, the walker stack is restored |
| LOVisitor.VisitSlots | src/org/apache/pig/impl/logicalLayer/LOVisitor.java:192-204 | visiting a slot list only appends events; when it completes, the walker stack is restored |
| LOVisitor.VisitSlot | src/org/apache/pig/impl/logicalLayer/LOVisitor.java:195-202 | a slot visit never shrinks the caller's stack; when it completes, the stack is restored |
| LOVisitor.VisitGroups | src/org/apache/pig/impl/logicalLayer/LOVisitor.java:117-132 | visiting the cogroup inputs only appends events; when it completes, the walker stack is restored |
| LOVisitor.UpToRaiseStopsAtFirst | src/org/apache/pig/impl/logicalLayer/LOVisitor.java:64-296 | when an event list raises, the part carried out ends at its first raising dispatch and nothing before it raises |
| LOVisitor.DispatchMatchesExpand | src/org/apache/pig/impl/logicalLayer/LOVisitor.java:64-296 | the visit of any operator performs exactly its pre-order event list, cut right after the first raising dispatch, with the walker stack that list's pushes and pops produce |
| LOVisitor.DispatchEachMatches | src/org/apache/pig/impl/logicalLayer/LOVisitor.java:232-235 | dispatching a list performs the concatenated pre-orders of its elements, cut at the first raise |
| LOVisitor.VisitPlanMatches | src/org/apache/pig/impl/logicalLayer/LOVisitor.java:178-183 | visiting a nested plan performs push, the roots' pre-orders, pop, cut at the first raise |
| LOVisitor.VisitPlansMatches | src/org/apache/pig/impl/logicalLayer/LOVisitor.java:142-149 | visiting a plan list performs each plan's bracketed events in order, cut at the first raise |
| LOVisitor.VisitSlotsMatches | src/org/apache/pig/impl/logicalLayer/LOVisitor.java:194-203 | visiting a slot list performs the bracketed events of each slot in order, cut at the first raise |
| LOVisitor.VisitSlotMatches | src/org/apache/pig/impl/logicalLayer/LOVisitor.java:195-202 | a null slot performs nothing; a present one performs its plan's bracketed events |
| LOVisitor.VisitGroupsMatches | src/org/apache/pig/impl/logicalLayer/LOVisitor.java:119-131 | visiting cogroup inputs performs each input's slot events in input order, cut at the first raise |
| TraversalProperties.TraversalCompletes | src/org/apache/pig/impl/logicalLayer/LOVisitor.java:64-296 | a visit completes iff no operator in its pre-order raises, and then it performs exactly that pre-order with the stack unchanged |
| TraversalProperties.TraversalAborts | src/org/apache/pig/impl/logicalLayer/LOVisitor.java:64-296 | when something raises, the visit stops right after the first raising dispatch; nothing after it happens, and the pops still pending are skipped |
| TraversalProperties.ExpandIsBalanced | src/org/apache/pig/impl/logicalLayer/LOVisitor.java:123-128 | every push in any operator's pre-order is matched by a pop, so replaying it restores any stack |
| TraversalProperties.WalkerStackRestored | src/org/apache/pig/impl/logicalLayer/LOVisitor.java:143-148 | after a completed visit of any operator the walker stack equals the stack before |
| TraversalProperties.NestedPlanBracketed | src/org/apache/pig/impl/logicalLayer/LOVisitor.java:214-220 | a nested plan whose roots do not raise is visited as exactly one push of its own dependency-order walker, its roots' pre-orders, and one pop |
| TraversalProperties.NestedPlanLeftOnRaise | src/org/apache/pig/impl/logicalLayer/LOVisitor.java:161-166 | when a nested-plan visit raises, that plan's walker stays on the stack above the caller's |
| TraversalProperties.ExpandEachIsBalanced | src/org/apache/pig/impl/logicalLayer/LOVisitor.java:196-201 | the roots of a plan, taken together, push and pop in balance |
| TraversalProperties.BinaryLeftBeforeRight | src/org/apache/pig/impl/logicalLayer/LOVisitor.java:88-97 | a binary expression performs the whole left pre-order before any event of the right one, even when the right raises; with nothing raising, the trace is self, left, right |
| TraversalProperties.BinCondOrder | src/org/apache/pig/impl/logicalLayer/LOVisitor.java:243-252 | BinCond's trace is itself, then the condition's, true branch's and false branch's pre-orders, concatenated |
| TraversalProperties.UserFuncArgumentsInOrder | src/org/apache/pig/impl/logicalLayer/LOVisitor.java:230-236 | a user function performs its arguments' pre-orders in list order, each once, each starting where the earlier arguments' end |
| TraversalProperties.ArgumentTraceAt | src/org/apache/pig/impl/logicalLayer/LOVisitor.java:232-235 | argument i's pre-order follows right after those of arguments 0..i-1 |
| TraversalProperties.PlanListVisitedInOrder | src/org/apache/pig/impl/logicalLayer/LOVisitor.java:140-168 | Generate and Sort visit all their plans in list order, each bracketed, with no null check |
| TraversalProperties.ExpandPlansBrackets | src/org/apache/pig/impl/logicalLayer/LOVisitor.java:142-149 | plan i of a list is visited between its own push and pop, right after plans 0..i-1 |
| TraversalProperties.SingleOperandVisited | src/org/apache/pig/impl/logicalLayer/LOVisitor.java:260-275 | unary expressions, casts and regexps perform their own dispatch and then exactly their one operand's pre-order |
| TraversalProperties.ProjectSentinel | src/org/apache/pig/impl/logicalLayer/LOVisitor.java:290-296 | a projection's trace is its dispatch alone iff the sentinel is set; with it set not even a raising expression is reached, and without it the expression's pre-order follows |
| TraversalProperties.LeavesDispatchNothing | src/org/apache/pig/impl/logicalLayer/LOVisitor.java:277-288 | Load, Store, Const and the two generic overloads dispatch no child; they raise only by themselves |
| TraversalProperties.ExpandSlotsSkipsNull | src/org/apache/pig/impl/logicalLayer/LOVisitor.java:195 | a slot list contributes exactly the events of its non-null plans; a null slot contributes nothing and pushes no walker |
| TraversalProperties.ExpandGroupsFlattens | src/org/apache/pig/impl/logicalLayer/LOVisitor.java:120-121 | the cogroup inputs contribute the events of all their slots, input after input |
| TraversalProperties.CogroupVisitsPresentPlansInOrder | src/org/apache/pig/impl/logicalLayer/LOVisitor.java:117-132 | cogroup visits exactly the non-null group-by plans, input after input and plan after plan, each bracketed |
| TraversalProperties.SplitSkipsNullPlans | src/org/apache/pig/impl/logicalLayer/LOVisitor.java:192-204 | split visits exactly its non-null condition plans, in order, each bracketed |
| TraversalProperties.DispatchEachAbortsAt | src/org/apache/pig/impl/logicalLayer/LOVisitor.java:232-235 | when the elements before `i` are clean and element `i` raises, dispatching the list performs the earlier elements' pre-orders and the dispatch of element `i`, and nothing after, with the caller's stack |
| TraversalProperties.FilterAbortLeavesWalker | src/org/apache/pig/impl/logicalLayer/LOVisitor.java:176-184 | a filter whose condition root `i` raises after clean roots stops right after dispatching that root, with the condition's walker still pushed and never popped |
| POOr.GetNext | src/org/apache/pig/impl/physicalLayer/expressionOperators/POOr.java:58-80 | the answer of an OR is well typed, and it pulls at least one and at most all of the tree's sources |
| POOr.OrCases | src/org/apache/pig/impl/physicalLayer/expressionOperators/POOr.java:62-79 | a non-OK or true left result is returned as it is; otherwise a non-OK right result is returned as it is; otherwise the right envelope carries `left or right`, which equals the right value |
| POOr.OrStatusAndValue | src/org/apache/pig/impl/physicalLayer/expressionOperators/POOr.java:58-80 | over two operands: OK iff left is OK and (true or right OK); an OK value is true iff a pulled operand was true; left pulled once, right at most once, and right pulled iff left is OK and false |
| POOr.Scan | src/org/apache/pig/impl/physicalLayer/expressionOperators/POOr.java:62-75 | a left-to-right short-circuit scan pulls a nonempty prefix starting with the first source |
| POOr.DeciderIsFirst | src/org/apache/pig/impl/physicalLayer/expressionOperators/POOr.java:64-69 | the source that stops a scan is the first non-OK or true one |
| POOr.ScanStopsAtDecider | src/org/apache/pig/impl/physicalLayer/expressionOperators/POOr.java:62-79 | a scan pulls exactly the sources up to the deciding one and answers its result |
| POOr.ScanAppend | src/org/apache/pig/impl/physicalLayer/expressionOperators/POOr.java:67-75 | scanning two lists: a decisive answer from the first is final; otherwise the second list's scan follows all of the first |
| POOr.GetNextIsScan | src/org/apache/pig/impl/physicalLayer/expressionOperators/POOr.java:58-80 | pulling any OR tree equals scanning its sources left to right |
| POOr.GetNextStopsAtDecider | src/org/apache/pig/impl/physicalLayer/expressionOperators/POOr.java:58-80 | an OR tree pulls its sources up to the first non-OK or true one (or all), and answers that source's result unchanged |
| POOr.GetNextPullsPrefix | src/org/apache/pig/impl/physicalLayer/expressionOperators/POOr.java:62-75 | the pulled sources are a prefix of the tree's sources, and an OK-false answer has pulled all of them |
| POOr.OrIsAssociative | src/org/apache/pig/impl/physicalLayer/expressionOperators/POOr.java:58-80 | `Or(Or(a, b), c)` and `Or(a, Or(b, c))` pull the same sources and answer the same result |
| MapReduceLauncher.PollLog | src/org/apache/pig/impl/mapReduceLayer/MapReduceLauncher.java:55-63 | every line the loop logs is a progress line of one poll carrying that poll's sample, and the lines come in poll order |
| MapReduceLauncher.PollLogLogsRises | src/org/apache/pig/impl/mapReduceLayer/MapReduceLauncher.java:59-62 | from any poll on, a poll logs iff its sample is strictly above the value the previous poll left in `lastProg` |
| MapReduceLauncher.ProgressLoggedIffStrictRise | src/org/apache/pig/impl/mapReduceLayer/MapReduceLauncher.java:54-63 | poll i logs iff sample i > sample i-1, with -1 before the first poll, and nothing else is logged |
| MapReduceLauncher.ComparesWithPreviousSample | src/org/apache/pig/impl/mapReduceLayer/MapReduceLauncher.java:60-62 | equal samples log once, and a rise after a dip logs again below an earlier high |
| MapReduceLauncher.CollectStats | src/org/apache/pig/impl/mapReduceLayer/MapReduceLauncher.java:72-74 | one `getStats` per job, in list order, and nothing else |
| MapReduceLauncher.StatsOfAppend | src/org/apache/pig/impl/mapReduceLayer/MapReduceLauncher.java:72-82 | the statistics and stops of consecutive actions add up |
| MapReduceLauncher.Reconcile | src/org/apache/pig/impl/mapReduceLayer/MapReduceLauncher.java:64-84 | throws iff incomplete with a null failed list, and then collects nothing and does not stop; otherwise returns `isComplete(final)`, collects the successful jobs (after the failed ones when incomplete) and stops exactly once, last |
| MapReduceLauncher.Conclude | src/org/apache/pig/impl/mapReduceLayer/MapReduceLauncher.java:76-84 | the returning path collects the successful jobs after the verdict's statistics, then stops once as the last action |
| MapReduceLauncher.Verdict | src/org/apache/pig/impl/mapReduceLayer/MapReduceLauncher.java:65-75 | "Completed Successfully" alone when complete; otherwise the failure line first, then statistics for exactly the failed jobs |
| MapReduceLauncher.LaunchPig | src/org/apache/pig/impl/mapReduceLayer/MapReduceLauncher.java:54-84 | the outcome, exception, statistics and single final stop of a whole launch are those of the reconciliation |
| MapReduceLauncher.LaunchPigLogsProgressFirst | src/org/apache/pig/impl/mapReduceLayer/MapReduceLauncher.java:55-63 | in a whole launch, poll i logs iff its sample rose strictly, and every progress line precedes every other action |
| MapReduceLauncher.FinishedBeforeFirstPoll | src/org/apache/pig/impl/mapReduceLayer/MapReduceLauncher.java:55-65 | with no poll, no progress line is logged and the answer depends on the final recomputation alone |

## Left out

- `Thread` start and `Thread.sleep` polling (`MapReduceLauncher.java:52-58`):
  concurrency. The loop is replaced by the finite sequence of samples it
  observes.
- `numMRJobs` and the `double` division by it: floating point. Progress is
  the already-divided `real`, so a job control with no waiting job (division
  by zero, NaN) is not modelled.
- The Hadoop `Configuration`, `JobClient` and `JobControl` internals are
  foreign libraries. The job control is reduced to its failed and
  successful job lists, each possibly `null`.
- `MRCompiler` and `JobControlCompiler` (`MapReduceLauncher.java:38-48`) are
  not part of this model.
- `calculateProgress`, `isComplete` and `getStats` belong to `Launcher`,
  which is not part of this model. `isComplete` is a parameter, progress
  values are given, and `getStats` is a recorded action.
- The text of the log messages: each line is an action carrying its value.
- `POOr.name()`, `POOr.visit(ExprPlanVisitor)` and Java serialization: not
  behaviour of the OR itself.
- POOr's `Result` objects are mutable, and the Java code overwrites the right
  operand's result in place. Aliasing between operands' results is not
  modelled: a pull yields a value.
- POOr.GetNext: requires OK results to carry a boolean. An OK result with a
  `null` payload would make the Java unboxing at line 69 or 78 throw a
  `NullPointerException`, which is not modelled.
- The internals of `PlanVisitor`, `DependencyOrderWalker` and `MultiMap`.
  `getRoots`, `getGroupByPlans`, `getInputs` and `getArguments` are given
  sequences. The walker stack is a sequence whose top is its end.
- A `null` plan where the code does not check for one (Generate, Sort,
  Filter, ForEach), or `MultiMap.get` returning `null` for a cogroup input.
  Either is a `NullPointerException` in Java. The model has no `null` plan
  in those positions.
- Operands, arguments and projection expressions are owned sub-trees, so an
  operator shared between two places of a plan is duplicated. In particular
  a `Project` whose expression leads back onto the current visit path cannot
  be expressed. That cyclic chain is what the sentinel cuts: with the
  sentinel false, `LOVisitor.java:293-294` would recurse without end on it.
  The model covers only the acyclic case, where the sentinel decides whether
  the expression is visited.
- A `null` operand or expression (`getLhsOperand()`, `getOperand()`,
  `getExpression()` and the like returning `null`) would be a Java
  `NullPointerException`. The datatype has no `null` operator, so such
  plans cannot be expressed.
- A `VisitorException` is modelled as raised by the visit of an operator as
  soon as it is dispatched (a visitor subclass overriding that overload).
  Raising after some children have been visited is not modelled separately.
- LOVisitor.Dispatch: its own contract states only event growth and stack
  discipline. The exact trace is stated by `DispatchMatchesExpand` and the
  lemmas of `TraversalProperties`.
- POOr.GetNext: its own contract states well-typedness and the number of
  pulls. Which sources are pulled, and the answer, are stated by
  `GetNextIsScan`, `GetNextStopsAtDecider` and `GetNextPullsPrefix`.
- MapReduceLauncher.LaunchPig: its own contract leaves out the progress
  lines. These are stated by `LaunchPigLogsProgressFirst`.
