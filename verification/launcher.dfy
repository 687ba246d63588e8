/**
  The supervision part of `MapReduceLauncher.launchPig`, after the job
  control has been compiled and started.

  The background thread and the sleeping poll loop are replaced by the
  sequence of normalised progress values the loop observes, one per poll
  (`calculateProgress(jc, jobClient) / numMRJobs`), and by the value the
  final recomputation yields. `isComplete` is a parameter, and the job
  control's failed and successful job lists are given, each possibly `null`.
  What the launcher does that can be seen from outside is a list of
  actions: log lines, `getStats` calls and the final `jc.stop()`.
 */
module MapReduceLauncher {

  datatype Option<T> = None | Some(value: T)

  /** A job of the job control, known by its name. */
  datatype Job = Job(name: nat)

  datatype Action =
      /** "<progress * 100>% complete", at poll `poll`. */
    | LogProgress(poll: nat, progress: real)
      /** "Completed Successfully". */
    | LogCompleted
      /** "Unsuccessful attempt. Completed <progress * 100>% of the job". */
    | LogUnsuccessful(progress: real)
    | GetStats(job: Job)
    | StopJobControl

  datatype Outcome = Returned(completed: bool) | ThrowsExecException

  datatype Launch = Launch(actions: seq<Action>, outcome: Outcome)

  // ---------------------------------------------------------------------
  // Poll loop
  // ---------------------------------------------------------------------

  /** The value `lastProg` holds when poll `i` compares against it. */
  function Previous(samples: seq<real>, i: nat): real
    requires i < |samples|
  {
    if i == 0 then -1.0 else samples[i - 1]
  }

  /** Poll `i` logs its progress: it is strictly above the sample just before it. */
  predicate LoggedAt(samples: seq<real>, i: nat)
    requires i < |samples|
  {
    samples[i] > Previous(samples, i)
  }

  /**
    The polls from `from` on, with `lastProg` the value the previous poll
    left behind: log the sample when it exceeds `lastProg`, then overwrite
    `lastProg` with it whether or not it was logged.
   */
  function PollLog(samples: seq<real>, from: nat, lastProg: real): (log: seq<Action>)
    requires from <= |samples|
    decreases |samples| - from
    ensures |log| <= |samples| - from
    ensures forall j :: 0 <= j < |log| ==>
              && log[j].LogProgress?
              && from <= log[j].poll < |samples|
              && log[j].progress == samples[log[j].poll]
    ensures forall j, k :: 0 <= j < k < |log| ==> log[j].poll < log[k].poll
  {
    if from == |samples| then []
    else
      var prog := samples[from];
      var rest := PollLog(samples, from + 1, prog);
      if prog > lastProg then [LogProgress(from, prog)] + rest else rest
  }

  /** The progress lines of the whole loop; `lastProg` starts at -1. */
  function ProgressLog(samples: seq<real>): seq<Action> {
    PollLog(samples, 0, -1.0)
  }

  lemma {:induction false} PollLogLogsRises(samples: seq<real>, from: nat, lastProg: real)
    requires from <= |samples|
    requires from > 0 ==> lastProg == samples[from - 1]
    requires from == 0 ==> lastProg == -1.0
    ensures forall i :: from <= i < |samples| ==>
              (LogProgress(i, samples[i]) in PollLog(samples, from, lastProg) <==> LoggedAt(samples, i))
    decreases |samples| - from
  {
    if from < |samples| {
      PollLogLogsRises(samples, from + 1, samples[from]);
    }
  }

  /**
    Poll `i` logs iff its sample is strictly greater than sample `i - 1`,
    the previous sample being -1 before the first poll; the lines come out
    in poll order, each with the sample of its poll.
   */
  lemma ProgressLoggedIffStrictRise(samples: seq<real>)
    ensures forall i :: 0 <= i < |samples| ==>
              (LogProgress(i, samples[i]) in ProgressLog(samples) <==> LoggedAt(samples, i))
    ensures forall a :: a in ProgressLog(samples) ==>
              a.LogProgress? && a.poll < |samples| && a.progress == samples[a.poll]
  {
    PollLogLogsRises(samples, 0, -1.0);
  }

  /**
    The comparison is with the sample just before, not with the highest so
    far: equal samples log once, and a rise after a dip logs again although
    it stays below an earlier sample.
   */
  lemma ComparesWithPreviousSample()
    ensures ProgressLog([0.5, 0.5]) == [LogProgress(0, 0.5)]
    ensures ProgressLog([0.5, 0.25, 0.375]) == [LogProgress(0, 0.5), LogProgress(2, 0.375)]
  {
  }

  // ---------------------------------------------------------------------
  // Reconciliation after the loop
  // ---------------------------------------------------------------------

  /** A `getStats` call for each job, in list order. */
  function CollectStats(jobs: seq<Job>): (acts: seq<Action>)
    ensures StatsOf(acts) == jobs
    ensures Stops(acts) == 0
    ensures forall a :: a in acts ==> a.GetStats?
  {
    if |jobs| == 0 then [] else [GetStats(jobs[0])] + CollectStats(jobs[1..])
  }

  /** The jobs whose statistics `acts` collects, in order. */
  function StatsOf(acts: seq<Action>): seq<Job> {
    if |acts| == 0 then []
    else (if acts[0].GetStats? then [acts[0].job] else []) + StatsOf(acts[1..])
  }

  /** How many times `acts` stops the job control. */
  function Stops(acts: seq<Action>): nat {
    if |acts| == 0 then 0 else (if acts[0] == StopJobControl then 1 else 0) + Stops(acts[1..])
  }

  function JobsOrEmpty(jobs: Option<seq<Job>>): seq<Job> {
    match jobs
    case None => []
    case Some(js) => js
  }

  lemma StatsOfAppend(a: seq<Action>, b: seq<Action>)
    ensures StatsOf(a + b) == StatsOf(a) + StatsOf(b)
    ensures Stops(a + b) == Stops(a) + Stops(b)
  {
    StatsOfConcat(a, b);
    StopsConcat(a, b);
  }

  lemma {:induction false} StatsOfConcat(a: seq<Action>, b: seq<Action>)
    ensures StatsOf(a + b) == StatsOf(a) + StatsOf(b)
    decreases |a|
  {
    if |a| == 0 {
      assert a + b == b;
    } else {
      assert (a + b)[0] == a[0];
      assert (a + b)[1..] == a[1..] + b;
      StatsOfConcat(a[1..], b);
      var h := if a[0].GetStats? then [a[0].job] else [];
      assert StatsOf(a + b) == h + (StatsOf(a[1..]) + StatsOf(b));
      assert StatsOf(a) == h + StatsOf(a[1..]);
      assert h + (StatsOf(a[1..]) + StatsOf(b)) == (h + StatsOf(a[1..])) + StatsOf(b);
    }
  }

  lemma {:induction false} StopsConcat(a: seq<Action>, b: seq<Action>)
    ensures Stops(a + b) == Stops(a) + Stops(b)
    decreases |a|
  {
    if |a| == 0 {
      assert a + b == b;
    } else {
      assert (a + b)[0] == a[0];
      assert (a + b)[1..] == a[1..] + b;
      StopsConcat(a[1..], b);
    }
  }

  /**
    After the loop: recompute the progress; if it is complete, log so;
    otherwise log the failure and collect statistics for every failed job,
    throwing instead when the failed-job list is `null`. Then collect
    statistics for every successful job when that list is not `null`, stop
    the job control and return whether the run was complete.
   */
  function Reconcile(finalProgress: real, isComplete: real -> bool,
                     failedJobs: Option<seq<Job>>, succJobs: Option<seq<Job>>): (l: Launch)
    ensures forall a :: a in l.actions ==> !a.LogProgress?
    ensures l.outcome.ThrowsExecException? <==> !isComplete(finalProgress) && failedJobs.None?
    ensures l.outcome.Returned? ==> l.outcome.completed == isComplete(finalProgress)
    ensures l.outcome.ThrowsExecException? ==> StatsOf(l.actions) == [] && Stops(l.actions) == 0
    ensures l.outcome.Returned? && isComplete(finalProgress) ==>
              StatsOf(l.actions) == JobsOrEmpty(succJobs)
    ensures l.outcome.Returned? && !isComplete(finalProgress) ==>
              StatsOf(l.actions) == JobsOrEmpty(failedJobs) + JobsOrEmpty(succJobs)
    ensures l.outcome.Returned? ==>
              Stops(l.actions) == 1 && 0 < |l.actions| && l.actions[|l.actions| - 1] == StopJobControl
  {
    var complete := isComplete(finalProgress);
    if !complete && failedJobs.None? then
      Launch([LogUnsuccessful(finalProgress)], ThrowsExecException)
    else
      Conclude(finalProgress, complete, failedJobs, succJobs)
  }

  /**
    The part of the reconciliation that returns: the completion or failure
    line and the failed jobs' statistics, the successful jobs' statistics,
    then a single stop as the last action.
   */
  function Conclude(finalProgress: real, complete: bool,
                    failedJobs: Option<seq<Job>>, succJobs: Option<seq<Job>>): (l: Launch)
    requires complete || failedJobs.Some?
    ensures l.outcome == Returned(complete)
    ensures forall a :: a in l.actions ==> !a.LogProgress?
    ensures complete ==> StatsOf(l.actions) == JobsOrEmpty(succJobs)
    ensures !complete ==> StatsOf(l.actions) == JobsOrEmpty(failedJobs) + JobsOrEmpty(succJobs)
    ensures Stops(l.actions) == 1 && 0 < |l.actions| && l.actions[|l.actions| - 1] == StopJobControl
  {
    var head := Verdict(finalProgress, complete, failedJobs);
    var succ := CollectStats(JobsOrEmpty(succJobs));
    ReturnedActions(head, succ);
    Launch(head + succ + [StopJobControl], Returned(complete))
  }

  /**
    The verdict: "Completed Successfully" when complete; otherwise the
    failure line, then statistics for every failed job.
   */
  function Verdict(finalProgress: real, complete: bool, failedJobs: Option<seq<Job>>): (head: seq<Action>)
    ensures forall a :: a in head ==> !a.LogProgress?
    ensures Stops(head) == 0
    ensures complete ==> head == [LogCompleted]
    ensures !complete ==> 0 < |head| && head[0] == LogUnsuccessful(finalProgress)
    ensures StatsOf(head) == if complete then [] else JobsOrEmpty(failedJobs)
  {
    if complete then [LogCompleted]
    else
      var failed := CollectStats(JobsOrEmpty(failedJobs));
      StatsOfAppend([LogUnsuccessful(finalProgress)], failed);
      [LogUnsuccessful(finalProgress)] + failed
  }

  /** The actions of a returning reconciliation: its head, the successful jobs' statistics, one stop. */
  lemma ReturnedActions(head: seq<Action>, succ: seq<Action>)
    requires forall a :: a in head ==> !a.LogProgress?
    requires forall a :: a in succ ==> a.GetStats?
    ensures var acts := head + succ + [StopJobControl];
            && StatsOf(acts) == StatsOf(head) + StatsOf(succ)
            && Stops(acts) == Stops(head) + Stops(succ) + 1
            && acts[|acts| - 1] == StopJobControl
            && forall a :: a in acts ==> !a.LogProgress?
  {
    StatsOfAppend(head, succ);
    StatsOfAppend(head + succ, [StopJobControl]);
  }

  lemma {:induction false} ProgressLinesCollectNothing(acts: seq<Action>)
    requires forall j :: 0 <= j < |acts| ==> acts[j].LogProgress?
    ensures StatsOf(acts) == [] && Stops(acts) == 0
    decreases |acts|
  {
    if |acts| > 0 {
      assert forall j :: 0 <= j < |acts| - 1 ==> acts[1..][j] == acts[j + 1];
      ProgressLinesCollectNothing(acts[1..]);
    }
  }

  lemma ProgressFirst(polls: seq<Action>, rest: seq<Action>)
    requires forall a :: a in polls ==> a.LogProgress?
    requires forall a :: a in rest ==> !a.LogProgress?
    ensures forall j, k :: 0 <= j < k < |polls + rest| && (polls + rest)[k].LogProgress? ==>
              (polls + rest)[j].LogProgress?
    ensures forall a: Action :: a.LogProgress? ==> (a in polls + rest <==> a in polls)
  {
    var all := polls + rest;
    forall j | |polls| <= j < |all| ensures !all[j].LogProgress? {
      assert all[j] == rest[j - |polls|];
      assert all[j] in rest;
    }
    forall j | 0 <= j < |polls| ensures all[j].LogProgress? {
      assert all[j] == polls[j];
      assert polls[j] in polls;
    }
  }

  /**
    The whole supervision: the progress lines of the polls come first, then
    the reconciliation. The answer, the exception, the statistics collected
    and the single final stop are those of the reconciliation alone.
   */
  function LaunchPig(samples: seq<real>, finalProgress: real, isComplete: real -> bool,
                     failedJobs: Option<seq<Job>>, succJobs: Option<seq<Job>>): (l: Launch)
    ensures l.outcome.ThrowsExecException? <==> !isComplete(finalProgress) && failedJobs.None?
    ensures l.outcome.Returned? ==> l.outcome.completed == isComplete(finalProgress)
    ensures l.outcome.ThrowsExecException? ==> StatsOf(l.actions) == [] && Stops(l.actions) == 0
    ensures l.outcome.Returned? && isComplete(finalProgress) ==>
              StatsOf(l.actions) == JobsOrEmpty(succJobs)
    ensures l.outcome.Returned? && !isComplete(finalProgress) ==>
              StatsOf(l.actions) == JobsOrEmpty(failedJobs) + JobsOrEmpty(succJobs)
    ensures l.outcome.Returned? ==>
              Stops(l.actions) == 1 && 0 < |l.actions| && l.actions[|l.actions| - 1] == StopJobControl
  {
    var polls := ProgressLog(samples);
    var r := Reconcile(finalProgress, isComplete, failedJobs, succJobs);
    ProgressLinesCollectNothing(polls);
    StatsOfAppend(polls, r.actions);
    var all := polls + r.actions;
    assert r.outcome.Returned? ==> all[|all| - 1] == r.actions[|r.actions| - 1];
    Launch(all, r.outcome)
  }

  /**
    The progress lines of a whole launch: poll `i` logs iff its sample rose
    strictly above the previous one, and every progress line comes before
    every other action.
   */
  lemma LaunchPigLogsProgressFirst(samples: seq<real>, finalProgress: real, isComplete: real -> bool,
                                   failedJobs: Option<seq<Job>>, succJobs: Option<seq<Job>>)
    ensures var l := LaunchPig(samples, finalProgress, isComplete, failedJobs, succJobs);
            && (forall i :: 0 <= i < |samples| ==>
                  (LogProgress(i, samples[i]) in l.actions <==> LoggedAt(samples, i)))
            && (forall j, k :: 0 <= j < k < |l.actions| && l.actions[k].LogProgress? ==>
                  l.actions[j].LogProgress?)
  {
    var polls := ProgressLog(samples);
    var r := Reconcile(finalProgress, isComplete, failedJobs, succJobs);
    assert LaunchPig(samples, finalProgress, isComplete, failedJobs, succJobs).actions == polls + r.actions;
    ProgressLoggedIffStrictRise(samples);
    ProgressFirst(polls, r.actions);
  }

  /**
    When the job control has finished before the first poll, no progress
    line is logged and the answer is `isComplete` of the final value alone.
   */
  lemma FinishedBeforeFirstPoll(finalProgress: real, isComplete: real -> bool,
                                failedJobs: Option<seq<Job>>, succJobs: Option<seq<Job>>)
    ensures var l := LaunchPig([], finalProgress, isComplete, failedJobs, succJobs);
            && (forall a :: a in l.actions ==> !a.LogProgress?)
            && (l.outcome.Returned? ==> l.outcome.completed == isComplete(finalProgress))
  {
    var r := Reconcile(finalProgress, isComplete, failedJobs, succJobs);
    assert ProgressLog([]) == [];
    assert LaunchPig([], finalProgress, isComplete, failedJobs, succJobs).actions == [] + r.actions;
  }
}
