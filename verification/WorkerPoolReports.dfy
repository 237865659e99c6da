/** What the main thread learns in a finished run: the return codes the jobs ended with, and so the exit code. */
module WorkerPoolReports {
  import opened WorkerPool
  import opened WorkerPoolRuns

  // ----- From the end of a job to its collected report -----

  lemma {:induction false} ReportKept(c: Config, s: State, steps: seq<Step>, t: State, r: Report)
    requires RunFrom(c, s, steps, t) && Reported(s, r)
    ensures Reported(t, r)
  {
    if steps != [] {
      var n := |steps| - 1;
      var p :| RunFrom(c, s, steps[..n], p) && Enabled(c, p, steps[n]) && t == Perform(c, p, steps[n]);
      ReportKept(c, s, steps[..n], p, r);
      ReportStays(c, p, steps[n], r);
    }
  }

  lemma {:induction false} OnlyReport(rs: seq<Report>, r: Report, q: Report)
    requires r in rs && q in rs && r.id == q.id && ReportsOf(rs, r.id) <= 1
    ensures r == q
  {
    NoReport(rs[1..], r.id);
    assert rs == [rs[0]] + rs[1..];
    if r != rs[0] && q != rs[0] {
      OnlyReport(rs[1..], r, q);
    }
  }

  lemma CompleteReports(c: Config, p: State, w: nat, code: int, id: nat)
    requires w < |p.workers| && p.workers[w] == Running(id)
    ensures Enabled(c, p, Complete(w, code)) && Reported(Perform(c, p, Complete(w, code)), Report(id, Ran(code)))
  {
    assert Perform(c, p, Complete(w, code)).workers[w] == Reporting(Report(id, Ran(code)));
  }

  /** The return code with which a job ends is the one that the main thread collects for it, in every finished run
      that goes on from there. */
  lemma CollectedAsRun(c: Config, before: seq<Step>, p: State, w: nat, code: int, id: nat, after: seq<Step>, t: State)
    requires Run(c, before, p) && w < |p.workers| && p.workers[w] == Running(id)
    requires Run(c, before + [Complete(w, code)] + after, t) && t.main == Finished
    ensures Report(id, Ran(code)) in t.collected
    ensures forall r :: r in t.collected && r.id == id ==> r == Report(id, Ran(code))
  {
    var done := Report(id, Ran(code));
    CompleteReports(c, p, w, code, id);
    hide Perform, Enabled, Init;
    Continue(c, before, p, Complete(w, code), after, t);
    ReportKept(c, Perform(c, p, Complete(w, code)), after, t, done);
    FinishedRun(c, before + [Complete(w, code)] + after, t);
    InCollected(t, done);
    CollectedOnce(c, before + [Complete(w, code)] + after, t, done);
  }

  lemma InCollected(t: State, r: Report)
    requires Reported(t, r) && t.output == [] && forall w :: 0 <= w < |t.workers| ==> t.workers[w] == Exited
    ensures r in t.collected
  {
  }

  lemma CollectedOnce(c: Config, steps: seq<Step>, t: State, r: Report)
    requires Run(c, steps, t) && t.main == Finished && r in t.collected
    ensures forall q :: q in t.collected && q.id == r.id ==> q == r
  {
    FinishedRun(c, steps, t);
    var i :| 0 <= i < |t.collected| && t.collected[i] == r;
    assert ReportOk(c, t, t.collected[i]);
    forall q | q in t.collected && q.id == r.id
      ensures q == r
    {
      OnlyReport(t.collected, r, q);
    }
  }

  // ----- Runs are determined by their steps -----

  lemma {:induction false} SameSteps(c: Config, s: State, steps: seq<Step>, p: State, q: State)
    requires RunFrom(c, s, steps, p) && RunFrom(c, s, steps, q)
    ensures p == q
  {
    if steps != [] {
      var n := |steps| - 1;
      var p' :| RunFrom(c, s, steps[..n], p') && Enabled(c, p', steps[n]) && p == Perform(c, p', steps[n]);
      var q' :| RunFrom(c, s, steps[..n], q') && Enabled(c, q', steps[n]) && q == Perform(c, q', steps[n]);
      SameSteps(c, s, steps[..n], p', q');
    }
  }

  lemma {:induction false} SplitRun(c: Config, s: State, a: seq<Step>, b: seq<Step>, t: State) returns (p: State)
    requires RunFrom(c, s, a + b, t)
    ensures RunFrom(c, s, a, p) && RunFrom(c, p, b, t)
  {
    if b == [] {
      assert a + b == a;
      p := t;
    } else {
      var n := |b| - 1;
      assert (a + b)[..|a| + n] == a + b[..n] && (a + b)[|a| + n] == b[n];
      var q :| RunFrom(c, s, a + b[..n], q) && Enabled(c, q, b[n]) && t == Perform(c, q, b[n]);
      p := SplitRun(c, s, a, b[..n], q);
    }
  }

  lemma OneStepRun(c: Config, p: State, step: Step, q: State)
    requires RunFrom(c, p, [step], q)
    ensures Enabled(c, p, step) && q == Perform(c, p, step)
  {
    hide Enabled, Perform;
    assert [step][..0] == [];
    var o :| RunFrom(c, p, [], o) && Enabled(c, o, step) && q == Perform(c, o, step);
  }

  /** A run that continues a shorter one goes on from its last state. */
  lemma Continue(c: Config, before: seq<Step>, p: State, step: Step, after: seq<Step>, t: State)
    requires Run(c, before, p) && Run(c, before + [step] + after, t)
    ensures Enabled(c, p, step) && RunFrom(c, Perform(c, p, step), after, t)
  {
    hide Enabled, Perform, RunFrom;
    var q := SplitRun(c, Init(c), before + [step], after, t);
    var o := SplitRun(c, Init(c), before, [step], q);
    SameSteps(c, Init(c), before, o, p);
    OneStepRun(c, p, step, q);
  }

  // ----- The exit code -----

  /** A worker that ends a job has been running one. */
  lemma CompleteRuns(c: Config, p: State, w: nat, code: int) returns (id: nat)
    requires Enabled(c, p, Complete(w, code))
    ensures w < |p.workers| && p.workers[w] == Running(id)
  {
    id := p.workers[w].job;
  }

  lemma NewReport(c: Config, p: State, step: Step, r: Report)
    requires Enabled(c, p, step) && Reported(Perform(c, p, step), r) && r.outcome.Ran?
    ensures Reported(p, r) || (step.Complete? && step.returncode == r.outcome.returncode)
  {
    hide Count;
    var t := Perform(c, p, step);
    if Reporting(r) in t.workers {
      var w :| 0 <= w < |t.workers| && t.workers[w] == Reporting(r);
      assert t.workers[w] == p.workers[w] ==> Reporting(r) in p.workers;
    } else if r in t.output {
      var i :| 0 <= i < |t.output| && t.output[i] == r;
      if step.Put? && i == |p.output| {
        assert p.workers[step.w] == Reporting(r);
      } else if |t.output| < |p.output| {
        assert p.output[i + 1] == r;
      } else {
        assert p.output[i] == r;
      }
    } else {
      var i :| 0 <= i < |t.collected| && t.collected[i] == r;
      if i < |p.collected| {
        assert p.collected[i] == r;
      } else {
        assert p.output[0] == r;
      }
    }
  }

  lemma NoReportYet(c: Config, r: Report)
    ensures !Reported(Init(c), r)
  {
  }

  /** A return code in a report is that of a job that has ended. */
  lemma {:induction false} CodeFromStep(c: Config, steps: seq<Step>, s: State, r: Report) returns (i: nat)
    requires Run(c, steps, s) && Reported(s, r) && r.outcome.Ran?
    ensures i < |steps| && steps[i].Complete? && steps[i].returncode == r.outcome.returncode
  {
    NoReportYet(c, r);
    hide Reported, Init;
    var n := |steps| - 1;
    assert steps != [];
    var p :| RunFrom(c, Init(c), steps[..n], p) && Enabled(c, p, steps[n]) && s == Perform(c, p, steps[n]);
    NewReport(c, p, steps[n], r);
    if Reported(p, r) {
      i := CodeFromStep(c, steps[..n], p, r);
    } else {
      i := n;
    }
  }

  /** Every job that ended is among the collected reports with its return code. */
  lemma StepCollected(c: Config, steps: seq<Step>, s: State, i: nat) returns (r: Report)
    requires Run(c, steps, s) && s.main == Finished && i < |steps| && steps[i].Complete?
    ensures r in s.collected && r.outcome == Ran(steps[i].returncode)
  {
    var w, code := steps[i].w, steps[i].returncode;
    assert steps == steps[..i] + [Complete(w, code)] + steps[i + 1..];
    hide Enabled, Perform, RunFrom;
    var q := SplitRun(c, Init(c), steps[..i] + [Complete(w, code)], steps[i + 1..], s);
    var p := SplitRun(c, Init(c), steps[..i], [Complete(w, code)], q);
    OneStepRun(c, p, Complete(w, code), q);
    var id := CompleteRuns(c, p, w, code);
    CollectedAsRun(c, steps[..i], p, w, code, id, steps[i + 1..], s);
    r := Report(id, Ran(code));
  }

  lemma AllGood(c: Config, s: State)
    requires forall r :: r in s.collected ==> r.outcome != Broken && (r.outcome.Ran? ==> r.outcome.returncode == 0)
    ensures forall i :: 0 <= i < |s.collected| ==> Good(s.collected[i].outcome)
  {
  }

  /** The exit code of a finished run is 0 if and only if no job came back as a break and every job that was run ended
      with return code 0; otherwise it is 1. */
  lemma ExitCodeExactly(c: Config, steps: seq<Step>, s: State)
    requires Run(c, steps, s) && s.main == Finished
    ensures ExitCode(c, s) == 0 || ExitCode(c, s) == 1
    ensures ExitCode(c, s) == 0 <==>
            && (forall r :: r in s.collected ==> r.outcome != Broken)
            && (forall i :: 0 <= i < |steps| && steps[i].Complete? ==> steps[i].returncode == 0)
  {
    FinishedRun(c, steps, s);
    hide RunFrom, ReportOk, Init;
    if ExitCode(c, s) == 0 {
      forall i | 0 <= i < |steps| && steps[i].Complete?
        ensures steps[i].returncode == 0
      {
        var r := StepCollected(c, steps, s, i);
        assert Good(r.outcome);
      }
      assert forall r :: r in s.collected ==> Good(r.outcome);
    }
    if (forall r :: r in s.collected ==> r.outcome != Broken)
       && (forall i :: 0 <= i < |steps| && steps[i].Complete? ==> steps[i].returncode == 0) {
      forall r | r in s.collected && r.outcome.Ran?
        ensures r.outcome.returncode == 0
      {
        var i := CodeFromStep(c, steps, s, r);
      }
      AllGood(c, s);
    }
  }

  // ----- The summary -----

  /** How many of these reports have an outcome. */
  function Number(rs: seq<Report>, o: Outcome): nat {
    if rs == [] then 0 else Number(rs[..|rs| - 1], o) + if rs[|rs| - 1].outcome == o then 1 else 0
  }

  /** The five counters: return code 0 is a pass, 1 a failure, 2 a valgrind error, any other a crash; breaks are not
      counted at all. */
  lemma {:induction false} TallyExactly(rs: seq<Report>)
    ensures var t := TallyOf(rs);
            && t.passed == Number(rs, Ran(0)) && t.failed == Number(rs, Ran(1)) && t.valgrind == Number(rs, Ran(2))
            && t.skipped == Number(rs, Skipped)
            && t.passed + t.failed + t.valgrind + t.crashed + t.skipped + Number(rs, Broken) == |rs|
  {
    if rs != [] {
      TallyExactly(rs[..|rs| - 1]);
    }
  }

  /** The counters of a finished run are those of what was collected. */
  lemma SummaryExactly(c: Config, steps: seq<Step>, s: State)
    requires Run(c, steps, s)
    ensures var t, rs := s.tally, s.collected;
            && t.passed == Number(rs, Ran(0)) && t.failed == Number(rs, Ran(1)) && t.valgrind == Number(rs, Ran(2))
            && t.skipped == Number(rs, Skipped)
            && t.passed + t.failed + t.valgrind + t.crashed + t.skipped + Number(rs, Broken) == |rs|
  {
    RunInv(c, steps, s);
    TallyExactly(s.collected);
  }
}
