/** What follows for the runs of the worker pool: no deadlock, termination, and how every run ends. */
module WorkerPoolRuns {
  import opened WorkerPool

  // ----- The invariant along a run -----

  lemma {:induction false} RunFromInv(c: Config, s: State, steps: seq<Step>, t: State)
    requires Inv(c, s) && RunFrom(c, s, steps, t)
    ensures Inv(c, t)
  {
    if steps != [] {
      var n := |steps| - 1;
      var p :| RunFrom(c, s, steps[..n], p) && Enabled(c, p, steps[n]) && t == Perform(c, p, steps[n]);
      RunFromInv(c, s, steps[..n], p);
      StepKeepsInv(c, p, steps[n]);
    }
  }

  /** Whatever the interleaving, every reachable state satisfies the invariant. */
  lemma RunInv(c: Config, steps: seq<Step>, s: State)
    requires Run(c, steps, s)
    ensures Inv(c, s)
  {
    InitInv(c);
    RunFromInv(c, Init(c), steps, s);
  }

  // ----- No deadlock -----

  /** The step that a worker with a job in hand can take. */
  function OwnStep(w: nat, worker: Worker): Step
    requires Holding(worker)
  {
    match worker
    case Took(_) => Check(w)
    case Cleared(_) => Start(w)
    case Running(_) => Complete(w, 0)
    case Reporting(_) => Put(w)
  }

  /** Unless the main thread has finished, someone can move; the interrupt is not needed. Without workers that
      holds only if there are no jobs (see NoWorkersNoEnd). */
  lemma NeverStuck(c: Config, steps: seq<Step>, s: State) returns (step: Step)
    requires Run(c, steps, s) && s.main != Finished
    requires c.workers > 0 || c.skip == []
    ensures step != Interrupt && Enabled(c, s, step)
  {
    RunInv(c, steps, s);
    step := AWayOn(c, s);
  }

  lemma AWayOn(c: Config, s: State) returns (step: Step)
    requires Inv(c, s) && s.main != Finished
    requires c.workers > 0 || c.skip == []
    ensures step != Interrupt && Enabled(c, s, step)
  {
    WorkerTotals(s.workers);
    if Enabled(c, s, MainStep) {
      step := MainStep;
    } else if w :| 0 <= w < |s.workers| && Holding(s.workers[w]) {
      step := OwnStep(w, s.workers[w]);
    } else if s.main.Collecting? {
      assert s.taken < |c.skip| && Gone(s.workers) == 0;
      assert s.workers[0] == Idle;
      step := Get(0);
    } else {
      assert s.workers[s.main.k] == Idle;
      assert Gone(s.workers) < c.workers;
      step := Get(s.main.k);
    }
  }

  // ----- Termination -----

  function JobsLeft(q: seq<Job>): nat {
    if q == [] then 0 else JobsLeft(q[1..]) + if q[0].Work? then 5 else 1
  }

  function WorkLeft(w: Worker): nat {
    match w
    case Took(_) => 4
    case Cleared(_) => 3
    case Running(_) => 2
    case Reporting(_) => 1
    case _ => 0
  }

  function WorkersLeft(ws: seq<Worker>): nat {
    if ws == [] then 0 else WorkersLeft(ws[1..]) + WorkLeft(ws[0])
  }

  function MainLeft(c: Config, m: Main): int {
    match m
    case Dispatching(k) => 6 * (|c.skip| - k) + 2 * c.workers + |c.skip| + c.workers + 4
    case Poisoning(k) => 2 * (c.workers - k) + |c.skip| + c.workers + 3
    case Collecting(k) => (|c.skip| - k) + c.workers + 2
    case Joining(k) => (c.workers - k) + 1
    case Finished => 0
  }

  /** A bound on the number of steps still to come. */
  function Left(c: Config, s: State): int {
    MainLeft(c, s.main) + JobsLeft(s.input) + WorkersLeft(s.workers) + if s.threadExit then 0 else 1
  }

  lemma {:induction false} AppendJob(q: seq<Job>, j: Job)
    ensures JobsLeft(q + [j]) == JobsLeft(q) + if j.Work? then 5 else 1
  {
    if q == [] {
      assert q + [j] == [j] && [j][1..] == [];
    } else {
      assert (q + [j])[1..] == q[1..] + [j];
      AppendJob(q[1..], j);
    }
  }

  lemma {:induction false} UpdateLeft(ws: seq<Worker>, i: nat, w: Worker)
    requires i < |ws|
    ensures WorkersLeft(ws[i := w]) + WorkLeft(ws[i]) == WorkersLeft(ws) + WorkLeft(w)
  {
    if i > 0 {
      assert ws[i := w][1..] == ws[1..][i - 1 := w];
      UpdateLeft(ws[1..], i - 1, w);
    } else {
      assert ws[i := w][1..] == ws[1..];
    }
  }

  lemma MainDecreases(c: Config, s: State)
    requires MainOk(c, s) && Enabled(c, s, MainStep)
    ensures Left(c, MainNext(c, s)) < Left(c, s)
  {
    match s.main
    case Dispatching(k) => AppendJob(s.input, Work(k));
    case Poisoning(_) => AppendJob(s.input, Poison);
    case _ =>
  }

  lemma StepDecreases(c: Config, s: State, step: Step)
    requires MainOk(c, s) && Enabled(c, s, step)
    ensures Left(c, Perform(c, s, step)) < Left(c, s)
  {
    var t := Perform(c, s, step);
    match step
    case MainStep => MainDecreases(c, s);
    case Get(w) => UpdateLeft(s.workers, w, t.workers[w]);
    case Check(w) => UpdateLeft(s.workers, w, t.workers[w]);
    case Start(w) => UpdateLeft(s.workers, w, t.workers[w]);
    case Complete(w, _) => UpdateLeft(s.workers, w, t.workers[w]);
    case Put(w) => UpdateLeft(s.workers, w, Idle);
    case Interrupt =>
  }

  /** Every run is finite: its length is bounded by the jobs and workers alone. */
  lemma {:induction false} RunsEnd(c: Config, steps: seq<Step>, s: State)
    requires Run(c, steps, s)
    ensures |steps| + Left(c, s) <= 7 * |c.skip| + 3 * c.workers + 5 && Left(c, s) >= 0
  {
    LeftNatural(c, steps, s);
    if steps == [] {
      IdleLeft(c.workers);
    } else {
      var p := Previous(c, steps, s);
      RunsEnd(c, steps[..|steps| - 1], p);
    }
  }

  lemma LeftNatural(c: Config, steps: seq<Step>, s: State)
    requires Run(c, steps, s)
    ensures Left(c, s) >= 0
  {
    RunInv(c, steps, s);
    assert MainOk(c, s);
  }

  /** The state before the last step, which had more steps to come. */
  lemma Previous(c: Config, steps: seq<Step>, s: State) returns (p: State)
    requires Run(c, steps, s) && steps != []
    ensures Run(c, steps[..|steps| - 1], p) && Left(c, s) < Left(c, p)
  {
    var n := |steps| - 1;
    p :| Run(c, steps[..n], p) && Enabled(c, p, steps[n]) && s == Perform(c, p, steps[n]);
    RunInv(c, steps[..n], p);
    StepDecreases(c, p, steps[n]);
  }

  lemma {:induction false} IdleLeft(n: nat)
    ensures WorkersLeft(seq(n, _ => Idle)) == 0
  {
    if n > 0 {
      assert seq(n, _ => Idle)[1..] == seq(n - 1, _ => Idle);
      IdleLeft(n - 1);
    }
  }

  lemma OneStep(c: Config, s: State, steps: seq<Step>, p: State, step: Step)
    requires RunFrom(c, s, steps, p) && Enabled(c, p, step)
    ensures RunFrom(c, s, steps + [step], Perform(c, p, step))
  {
    hide Enabled, Perform;
    assert (steps + [step])[..|steps|] == steps;
  }

  /** Every run can be continued to the end, and by RunsEnd it cannot be put off for ever. */
  lemma {:induction false} RunsCanFinish(c: Config, steps: seq<Step>, s: State) returns (more: seq<Step>, t: State)
    requires Run(c, steps, s)
    requires c.workers > 0 || c.skip == []
    ensures Run(c, steps + more, t) && t.main == Finished
    decreases Left(c, s)
  {
    hide *;
    if s.main == Finished {
      more, t := [], s;
      assert steps + more == steps;
    } else {
      var step := NeverStuck(c, steps, s);
      var next := Perform(c, s, step);
      RunOn(c, steps, s, step);
      var rest;
      rest, t := RunsCanFinish(c, steps + [step], next);
      more := [step] + rest;
      assert steps + more == steps + [step] + rest;
    }
  }

  lemma RunOn(c: Config, steps: seq<Step>, s: State, step: Step)
    requires Run(c, steps, s) && Enabled(c, s, step)
    ensures Run(c, steps + [step], Perform(c, s, step)) && 0 <= Left(c, Perform(c, s, step)) < Left(c, s)
  {
    hide Enabled, Perform, Left;
    RunInv(c, steps, s);
    StepDecreases(c, s, step);
    OneStep(c, Init(c), steps, s, step);
    LeftNatural(c, steps + [step], Perform(c, s, step));
  }

  /** With jobs but no worker, no run ever finishes. The pool has no worker when the process limit is negative: it is
      then below the number of processors and becomes the number of threads. */
  lemma {:induction false} NoWorkersNoEnd(c: Config, steps: seq<Step>, s: State)
    requires c.workers == 0 && c.skip != [] && Run(c, steps, s)
    ensures s.taken == 0 && s.main != Finished
  {
    RunInv(c, steps, s);
    if steps != [] {
      var n := |steps| - 1;
      var p :| Run(c, steps[..n], p) && Enabled(c, p, steps[n]) && s == Perform(c, p, steps[n]);
      RunInv(c, steps[..n], p);
      NoWorkersNoEnd(c, steps[..n], p);
    }
  }

  // ----- How every finished run ends -----

  predicate Good(o: Outcome) {
    o == Skipped || o == Ran(0)
  }

  lemma {:induction false} TallyGood(rs: seq<Report>)
    ensures var t := TallyOf(rs);
            && t.passed + t.skipped <= |rs|
            && (t.passed + t.skipped == |rs| <==> forall i :: 0 <= i < |rs| ==> Good(rs[i].outcome))
  {
    if rs != [] {
      TallyGood(rs[..|rs| - 1]);
    }
  }

  /** All workers have exited, both queues are empty, every job has been collected exactly once with a truthful
      outcome, and the exit code is 0 exactly when every job was skipped or passed. */
  lemma FinishedRun(c: Config, steps: seq<Step>, s: State)
    requires Run(c, steps, s) && s.main == Finished
    ensures |s.workers| == c.workers && forall w :: 0 <= w < c.workers ==> s.workers[w] == Exited
    ensures s.input == [] && s.output == []
    ensures |s.collected| == |c.skip|
    ensures forall id: nat :: id < |c.skip| ==> ReportsOf(s.collected, id) == 1
    ensures forall i :: 0 <= i < |s.collected| ==> ReportOk(c, s, s.collected[i])
    ensures ExitCode(c, s) == 0 <==> forall i :: 0 <= i < |s.collected| ==> Good(s.collected[i].outcome)
  {
    RunInv(c, steps, s);
    WorkerTotals(s.workers);
    TallyGood(s.collected);
    assert s.taken == |c.skip| && s.output == [] && s.input == [];
    forall id: nat | id < |c.skip|
      ensures ReportsOf(s.collected, id) == 1
    {
      NoHolder(s.workers, id);
      assert HoldersOf(s.workers, id) + ReportsOf(s.output, id) + ReportsOf(s.collected, id) == 1;
    }
  }

  // ----- What holds on the way -----

  /** Once a worker has exited, every real job has been dispatched and taken: only pills are left. */
  lemma NoExitBeforeWork(c: Config, steps: seq<Step>, s: State, w: nat)
    requires Run(c, steps, s) && w < |s.workers| && s.workers[w] == Exited
    ensures Dispatched(c, s) == |c.skip| == s.taken
    ensures forall i :: 0 <= i < |s.input| ==> s.input[i] == Poison
  {
    RunInv(c, steps, s);
    WorkerTotals(s.workers);
  }

  /** A job about to be started has never been started before, so no job runs twice. */
  lemma StartedOnce(c: Config, steps: seq<Step>, s: State, w: nat)
    requires Run(c, steps, s) && Enabled(c, s, Start(w))
    ensures s.workers[w].job < |c.skip| && s.workers[w].job !in s.launched
  {
    RunInv(c, steps, s);
    assert WorkerOk(c, s, s.workers[w]);
  }

  // ----- The interrupt -----

  /** The report has been made: it is with the main thread, on its way, or about to be. */
  ghost predicate Reported(s: State, r: Report) {
    r in s.output || r in s.collected || Reporting(r) in s.workers
  }

  /** The job has come back as a break, or is about to. */
  ghost predicate ReportedBroken(s: State, id: nat) {
    Reported(s, Report(id, Broken))
  }

  /** A report is neither lost nor changed. */
  lemma ReportStays(c: Config, s: State, step: Step, r: Report)
    requires Enabled(c, s, step) && Reported(s, r)
    ensures Reported(Perform(c, s, step), r)
  {
    hide Count;
    var t := Perform(c, s, step);
    if r in s.collected {
      var i :| 0 <= i < |s.collected| && s.collected[i] == r;
      assert t.collected[i] == r;
    } else if r in s.output {
      var i :| 0 <= i < |s.output| && s.output[i] == r;
      if t.collected != s.collected {
        assert i == 0 ==> t.collected[|s.collected|] == r;
        assert i > 0 ==> t.output[i - 1] == r;
      } else {
        assert t.output[i] == r;
      }
    } else {
      var w :| 0 <= w < |s.workers| && s.workers[w] == Reporting(r);
      if step == Put(w) {
        assert t.output[|s.output|] == r;
      } else {
        assert t.workers[w] == Reporting(r);
      }
    }
  }

  /** A job whose worker saw the flag set is never started, before or after. */
  lemma {:induction false} BrokenNeverStarts(c: Config, s: State, steps: seq<Step>, t: State, id: nat)
    requires Inv(c, s) && RunFrom(c, s, steps, t) && ReportedBroken(s, id)
    ensures ReportedBroken(t, id) && id !in t.launched
  {
    if steps != [] {
      var n := |steps| - 1;
      var p :| RunFrom(c, s, steps[..n], p) && Enabled(c, p, steps[n]) && t == Perform(c, p, steps[n]);
      RunFromInv(c, s, steps[..n], p);
      BrokenNeverStarts(c, s, steps[..n], p, id);
      ReportStays(c, p, steps[n], Report(id, Broken));
    }
    RunFromInv(c, s, steps, t);
    BrokenNotStarted(c, t, id);
  }

  lemma BrokenNotStarted(c: Config, s: State, id: nat)
    requires OutcomesOk(c, s) && ReportedBroken(s, id)
    ensures id !in s.launched
  {
    var r := Report(id, Broken);
    if w :| 0 <= w < |s.workers| && s.workers[w] == Reporting(r) {
      assert WorkerOk(c, s, s.workers[w]);
    } else if i :| 0 <= i < |s.output| && s.output[i] == r {
      assert ReportOk(c, s, s.output[i]);
    } else {
      var i :| 0 <= i < |s.collected| && s.collected[i] == r;
      assert ReportOk(c, s, s.collected[i]);
    }
  }

  /** The jobs whose worker has passed the flag but not yet started them, at most one for each worker. */
  ghost function ClearedJobs(ws: seq<Worker>): (jobs: set<nat>)
    ensures |jobs| <= |ws|
  {
    if ws == [] then {}
    else ClearedJobs(ws[1..]) + if ws[0].Cleared? then {ws[0].job} else {}
  }

  lemma {:induction false} ClearedAt(ws: seq<Worker>, id: nat)
    ensures id in ClearedJobs(ws) <==> Cleared(id) in ws
  {
    if ws != [] {
      ClearedAt(ws[1..], id);
      assert ws == [ws[0]] + ws[1..];
    }
  }

  lemma LaterStep(c: Config, s: State, step: Step)
    requires Enabled(c, s, step) && s.threadExit
    ensures var t := Perform(c, s, step);
            && t.threadExit
            && (forall id: nat :: Cleared(id) in t.workers ==> Cleared(id) in s.workers)
            && (forall id: nat :: id in t.launched ==> id in s.launched || Cleared(id) in s.workers)
  {
    hide Count;
    var t := Perform(c, s, step);
    forall id: nat | Cleared(id) in t.workers
      ensures Cleared(id) in s.workers
    {
      var i :| 0 <= i < |t.workers| && t.workers[i] == Cleared(id);
      assert s.workers[i] == t.workers[i];
    }
  }

  lemma {:induction false} StartsAfter(c: Config, s: State, steps: seq<Step>, t: State)
    requires RunFrom(c, s, steps, t) && s.threadExit
    ensures t.threadExit
    ensures forall id: nat :: Cleared(id) in t.workers ==> Cleared(id) in s.workers
    ensures forall id: nat :: id in t.launched ==> id in s.launched || Cleared(id) in s.workers
  {
    if steps != [] {
      var n := |steps| - 1;
      var p :| RunFrom(c, s, steps[..n], p) && Enabled(c, p, steps[n]) && t == Perform(c, p, steps[n]);
      StartsAfter(c, s, steps[..n], p);
      LaterStep(c, p, steps[n]);
    }
  }

  lemma {:induction false} LaunchedGrows(c: Config, s: State, steps: seq<Step>, t: State)
    requires RunFrom(c, s, steps, t)
    ensures s.launched <= t.launched
  {
    if steps != [] {
      var n := |steps| - 1;
      var p :| RunFrom(c, s, steps[..n], p) && Enabled(c, p, steps[n]) && t == Perform(c, p, steps[n]);
      LaunchedGrows(c, s, steps[..n], p);
    }
  }

  /** Once the flag is set, the only jobs still started are those that a worker had already cleared at that moment:
      at most one for each worker. */
  lemma FewStartsAfterInterrupt(c: Config, before: seq<Step>, s: State, after: seq<Step>, t: State)
    requires Run(c, before, s) && s.threadExit && RunFrom(c, s, after, t)
    ensures s.launched <= t.launched <= s.launched + ClearedJobs(s.workers)
    ensures |t.launched - s.launched| <= c.workers
  {
    RunInv(c, before, s);
    StartsAfter(c, s, after, t);
    LaunchedGrows(c, s, after, t);
    forall id | id in t.launched
      ensures id in s.launched || id in ClearedJobs(s.workers)
    {
      ClearedAt(s.workers, id);
    }
    SmallerSet(t.launched - s.launched, ClearedJobs(s.workers));
  }

  lemma {:induction false} SmallerSet(a: set<nat>, b: set<nat>)
    requires a <= b
    ensures |a| <= |b|
  {
    if a != {} {
      var x :| x in a;
      SmallerSet(a - {x}, b - {x});
    }
  }

  lemma {:induction false} RunsConcat(c: Config, s: State, first: seq<Step>, p: State, second: seq<Step>, t: State)
    requires RunFrom(c, s, first, p) && RunFrom(c, p, second, t)
    ensures RunFrom(c, s, first + second, t)
  {
    hide Enabled, Perform;
    if second == [] {
      assert first + second == first;
    } else {
      var n := |second| - 1;
      var q :| RunFrom(c, p, second[..n], q) && Enabled(c, q, second[n]) && t == Perform(c, q, second[n]);
      RunsConcat(c, s, first, p, second[..n], q);
      OneStep(c, s, first + second[..n], q, second[n]);
      assert first + second[..n] + [second[n]] == first + second;
    }
  }

  lemma ClearedStep(c: Config, s: State, step: Step, id: nat)
    requires Enabled(c, s, step) && id < |c.skip| && !c.skip[id]
    requires Cleared(id) in s.workers || id in s.launched
    ensures var t := Perform(c, s, step); Cleared(id) in t.workers || id in t.launched
  {
    hide Count;
    var t := Perform(c, s, step);
    if id !in s.launched {
      var w :| 0 <= w < |s.workers| && s.workers[w] == Cleared(id);
      if step != Start(w) {
        assert t.workers[w] == Cleared(id);
      }
    }
  }

  /** A cleared job that is not to be skipped stays so until it is started. */
  lemma {:induction false} ClearedUntilStarted(c: Config, s: State, steps: seq<Step>, t: State, id: nat)
    requires RunFrom(c, s, steps, t) && id < |c.skip| && !c.skip[id]
    requires Cleared(id) in s.workers
    ensures Cleared(id) in t.workers || id in t.launched
  {
    if steps != [] {
      var n := |steps| - 1;
      var p :| RunFrom(c, s, steps[..n], p) && Enabled(c, p, steps[n]) && t == Perform(c, p, steps[n]);
      ClearedUntilStarted(c, s, steps[..n], p, id);
      ClearedStep(c, p, steps[n], id);
    }
  }

  /** In a finished run exactly the jobs with a return code have been started. */
  lemma FinishedStarts(c: Config, steps: seq<Step>, s: State, id: nat) returns (r: Report)
    requires Run(c, steps, s) && s.main == Finished && id < |c.skip|
    ensures r in s.collected && r.id == id && ReportOk(c, s, r)
    ensures id in s.launched <==> r.outcome.Ran?
  {
    FinishedRun(c, steps, s);
    NoReport(s.collected, id);
    var i :| 0 <= i < |s.collected| && s.collected[i].id == id;
    r := s.collected[i];
    assert ReportOk(c, s, r);
  }

  /** Which jobs start in spite of the interrupt: in every finished run, those that had already been started when the
      flag was set, and those that a worker had cleared by then and that are not to be skipped. */
  lemma StartsInSpiteExactly(c: Config, before: seq<Step>, s: State, after: seq<Step>, t: State, id: nat)
    requires Run(c, before, s) && s.threadExit && RunFrom(c, s, after, t) && t.main == Finished && id < |c.skip|
    ensures id in t.launched <==> id in s.launched || (Cleared(id) in s.workers && !c.skip[id])
  {
    hide Inv, ReportOk, Init, Perform, Enabled;
    RunsConcat(c, Init(c), before, s, after, t);
    var r := FinishedStarts(c, before + after, t, id);
    ReportSays(c, t, r);
    StartsAfter(c, s, after, t);
    LaunchedGrows(c, s, after, t);
    if Cleared(id) in s.workers && !c.skip[id] {
      ClearedUntilStarted(c, s, after, t, id);
      FinishedRun(c, before + after, t);
    }
  }

  lemma ReportSays(c: Config, s: State, r: Report)
    requires ReportOk(c, s, r)
    ensures r.id < |c.skip| && (r.outcome.Ran? ==> !c.skip[r.id])
  {
  }

  /** The interrupt stops every further start, in any run that finishes, if and only if each job cleared when it came
      is one to be skipped. */
  lemma NothingStartsExactly(c: Config, before: seq<Step>, s: State, after: seq<Step>, t: State)
    requires Run(c, before, s) && s.threadExit && RunFrom(c, s, after, t) && t.main == Finished
    ensures t.launched == s.launched <==>
            forall id: nat :: Cleared(id) in s.workers ==> id < |c.skip| && c.skip[id]
  {
    RunInv(c, before, s);
    LaunchedGrows(c, s, after, t);
    StartsAfter(c, s, after, t);
    forall id: nat | Cleared(id) in s.workers
      ensures id < |c.skip| && id !in s.launched
    {
      var w :| 0 <= w < |s.workers| && s.workers[w] == Cleared(id);
      assert WorkerOk(c, s, s.workers[w]);
    }
    hide *;
    forall id: nat | Cleared(id) in s.workers
      ensures id in t.launched <==> !c.skip[id]
    {
      StartsInSpiteExactly(c, before, s, after, t, id);
    }
  }

  const RACE := Config(1, [false])

  /** One worker, one job; the worker has read the flag as unset. */
  const JUST_CLEARED := State(Dispatching(1), [], [], [Cleared(0)], false, Tally(0, 0, 0, 0, 0), 1, [], {})

  const DISPATCHED := State(Dispatching(1), [Work(0)], [], [Idle], false, Tally(0, 0, 0, 0, 0), 0, [], {})

  const TAKEN := State(Dispatching(1), [], [], [Took(0)], false, Tally(0, 0, 0, 0, 0), 1, [], {})

  lemma RaceDispatch()
    ensures Enabled(RACE, Init(RACE), MainStep) && Perform(RACE, Init(RACE), MainStep) == DISPATCHED
  {
    assert Init(RACE).workers == [Idle];
    assert [] + [Work(0)] == [Work(0)];
  }

  lemma RaceGet()
    ensures Enabled(RACE, DISPATCHED, Get(0)) && Perform(RACE, DISPATCHED, Get(0)) == TAKEN
  {
    assert [Work(0)][1..] == [] && [Idle][0 := Took(0)] == [Took(0)];
  }

  lemma RaceCheck()
    ensures Enabled(RACE, TAKEN, Check(0)) && Perform(RACE, TAKEN, Check(0)) == JUST_CLEARED
  {
    assert [Took(0)][0 := Cleared(0)] == [Cleared(0)];
  }

  lemma ReachCleared()
    ensures Run(RACE, [MainStep, Get(0), Check(0)], JUST_CLEARED)
  {
    RaceDispatch();
    RaceGet();
    RaceCheck();
    NoStep(RACE, Init(RACE));
    hide Perform, Enabled, Init, RunFrom;
    OneStep(RACE, Init(RACE), [], Init(RACE), MainStep);
    assert [] + [MainStep] == [MainStep];
    OneStep(RACE, Init(RACE), [MainStep], DISPATCHED, Get(0));
    assert [MainStep] + [Get(0)] == [MainStep, Get(0)];
    OneStep(RACE, Init(RACE), [MainStep, Get(0)], TAKEN, Check(0));
    assert [MainStep, Get(0)] + [Check(0)] == [MainStep, Get(0), Check(0)];
  }

  lemma NoStep(c: Config, s: State)
    ensures RunFrom(c, s, [], s)
  {
  }

  /** It does happen: a worker that has read the flag as unset starts its job after the flag is set. */
  lemma StartAfterInterrupt()
    ensures var s := JUST_CLEARED.(threadExit := true);
            var t := s.(workers := [Running(0)], launched := {0});
            && Run(RACE, [MainStep, Get(0), Check(0), Interrupt], s) && s.threadExit && s.launched == {}
            && RunFrom(RACE, s, [Start(0)], t) && t.launched == {0}
  {
    var s := JUST_CLEARED.(threadExit := true);
    var t := s.(workers := [Running(0)], launched := {0});
    ReachCleared();
    assert Perform(RACE, JUST_CLEARED, Interrupt) == s && Perform(RACE, s, Start(0)) == t;
    assert Enabled(RACE, JUST_CLEARED, Interrupt) && Enabled(RACE, s, Start(0));
    NoStep(RACE, s);
    hide Perform, Enabled, Init, RunFrom;
    OneStep(RACE, Init(RACE), [MainStep, Get(0), Check(0)], JUST_CLEARED, Interrupt);
    assert [MainStep, Get(0), Check(0)] + [Interrupt] == [MainStep, Get(0), Check(0), Interrupt];
    OneStep(RACE, s, [], s, Start(0));
    assert [] + [Start(0)] == [Start(0)];
  }

  /** Without an interrupt a finished run has started exactly the jobs that are not to be skipped. */
  lemma UninterruptedRunsAll(c: Config, steps: seq<Step>, s: State, id: nat)
    requires Run(c, steps, s) && s.main == Finished && !s.threadExit && id < |c.skip|
    ensures id in s.launched <==> !c.skip[id]
  {
    var r := FinishedStarts(c, steps, s, id);
  }
}
