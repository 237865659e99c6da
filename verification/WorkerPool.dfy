/** The worker pool of test.py: the main thread dispatches jobs and one poison pill per worker, collects and joins;
    the workers take jobs from one queue and report on another; an interrupt may set the exit flag at any moment.
    A run is any interleaving of the steps below. */
module WorkerPool {

  /** What is fixed for a run: the number of worker threads, and for each job whether it is to be skipped. */
  datatype Config = Config(workers: nat, skip: seq<bool>)

  datatype Job = Work(id: nat) | Poison

  /** A job on its way back: marked as a break, skipped, or run with a return code. */
  datatype Outcome = Broken | Skipped | Ran(returncode: int)

  datatype Report = Report(id: nat, outcome: Outcome)

  datatype Worker =
    | Idle                        // at input_queue.get()
    | Took(job: nat)              // has a real job, has not yet looked at thread_exit
    | Cleared(job: nat)           // has seen thread_exit unset, has not yet started or skipped the job
    | Running(job: nat)           // inside run_job_synchronously
    | Reporting(report: Report)   // about to call output_queue.put(job)
    | Exited

  datatype Main = Dispatching(k: nat) | Poisoning(k: nat) | Collecting(k: nat) | Joining(k: nat) | Finished

  datatype Tally = Tally(passed: nat, failed: nat, valgrind: nat, crashed: nat, skipped: nat)

  datatype State = State(main: Main, input: seq<Job>, output: seq<Report>, workers: seq<Worker>,
                         threadExit: bool, tally: Tally,
                         // the rest only records what happened:
                         taken: nat, collected: seq<Report>, launched: set<nat>)

  datatype Step =
    | MainStep
    | Get(w: nat)
    | Check(w: nat)                       // look at thread_exit
    | Start(w: nat)                       // look at is_skip, and start the job if it is not to be skipped
    | Complete(w: nat, returncode: int)
    | Put(w: nat)
    | Interrupt

  function Init(c: Config): State {
    State(Dispatching(0), [], [], seq(c.workers, _ => Idle), false, Tally(0, 0, 0, 0, 0), 0, [], {})
  }

  // ----- The steps -----

  predicate Enabled(c: Config, s: State, step: Step) {
    match step
    case MainStep => (
      match s.main
      case Dispatching(_) => true
      case Poisoning(_) => true
      case Collecting(k) => k < |c.skip| ==> s.output != []
      case Joining(k) => k < |s.workers| ==> s.workers[k] == Exited
      case Finished => false)
    case Get(w) => w < |s.workers| && s.workers[w] == Idle && s.input != []
    case Check(w) => w < |s.workers| && s.workers[w].Took?
    case Start(w) => w < |s.workers| && s.workers[w].Cleared?
    case Complete(w, _) => w < |s.workers| && s.workers[w].Running?
    case Put(w) => w < |s.workers| && s.workers[w].Reporting?
    case Interrupt => !s.threadExit
  }

  function Count(t: Tally, o: Outcome): Tally {
    match o
    case Broken => t
    case Skipped => t.(skipped := t.skipped + 1)
    case Ran(r) =>
      if r == 0 then t.(passed := t.passed + 1)
      else if r == 1 then t.(failed := t.failed + 1)
      else if r == 2 then t.(valgrind := t.valgrind + 1)
      else t.(crashed := t.crashed + 1)
  }

  function MainNext(c: Config, s: State): State
    requires Enabled(c, s, MainStep)
  {
    match s.main
    case Dispatching(k) =>
      if k < |c.skip| then s.(main := Dispatching(k + 1), input := s.input + [Work(k)]) else s.(main := Poisoning(0))
    case Poisoning(k) =>
      if k < c.workers then s.(main := Poisoning(k + 1), input := s.input + [Poison]) else s.(main := Collecting(0))
    case Collecting(k) =>
      if k < |c.skip| then
        s.(main := Collecting(k + 1), output := s.output[1..], collected := s.collected + [s.output[0]],
           tally := Count(s.tally, s.output[0].outcome))
      else s.(main := Joining(0))
    case Joining(k) => if k < |s.workers| then s.(main := Joining(k + 1)) else s.(main := Finished)
  }

  /** A worker that has taken a job reports a break if the flag is set. */
  function Checked(s: State, job: nat): Worker {
    if s.threadExit then Reporting(Report(job, Broken)) else Cleared(job)
  }

  /** Otherwise it skips the job or starts it; the flag is not looked at again. */
  function Started(c: Config, job: nat): Worker {
    if job < |c.skip| && c.skip[job] then Reporting(Report(job, Skipped)) else Running(job)
  }

  function Perform(c: Config, s: State, step: Step): State
    requires Enabled(c, s, step)
  {
    match step
    case MainStep => MainNext(c, s)
    case Get(w) =>
      var taken := match s.input[0] case Poison => Exited case Work(id) => Took(id);
      s.(input := s.input[1..], workers := s.workers[w := taken],
         taken := if taken.Took? then s.taken + 1 else s.taken)
    case Check(w) => s.(workers := s.workers[w := Checked(s, s.workers[w].job)])
    case Start(w) =>
      var job := s.workers[w].job;
      var next := Started(c, job);
      s.(workers := s.workers[w := next], launched := if next.Running? then s.launched + {job} else s.launched)
    case Complete(w, r) => s.(workers := s.workers[w := Reporting(Report(s.workers[w].job, Ran(r)))])
    case Put(w) => s.(output := s.output + [s.workers[w].report], workers := s.workers[w := Idle])
    case Interrupt => s.(threadExit := true)
  }

  /** t is reached from s by these steps. */
  ghost predicate RunFrom(c: Config, s: State, steps: seq<Step>, t: State)
    decreases |steps|
  {
    if steps == [] then t == s
    else
      var n := |steps| - 1;
      exists p :: RunFrom(c, s, steps[..n], p) && Enabled(c, p, steps[n]) && t == Perform(c, p, steps[n])
  }

  ghost predicate Run(c: Config, steps: seq<Step>, s: State) {
    RunFrom(c, Init(c), steps, s)
  }

  /** The value of run_tests: 0 for success, 1 for anything else. */
  function ExitCode(c: Config, s: State): int {
    if s.tally.passed + s.tally.skipped == |c.skip| then 0 else 1
  }

  // ----- Counting -----

  predicate Holding(w: Worker) {
    w.Took? || w.Cleared? || w.Running? || w.Reporting?
  }

  function HeldJob(w: Worker): nat
    requires Holding(w)
  {
    if w.Reporting? then w.report.id else w.job
  }

  predicate Holds(w: Worker, id: nat) {
    Holding(w) && HeldJob(w) == id
  }

  function Held(ws: seq<Worker>): nat {
    if ws == [] then 0 else Held(ws[1..]) + if Holding(ws[0]) then 1 else 0
  }

  function Gone(ws: seq<Worker>): nat {
    if ws == [] then 0 else Gone(ws[1..]) + if ws[0].Exited? then 1 else 0
  }

  function HoldersOf(ws: seq<Worker>, id: nat): nat {
    if ws == [] then 0 else HoldersOf(ws[1..], id) + if Holds(ws[0], id) then 1 else 0
  }

  function ReportsOf(rs: seq<Report>, id: nat): nat {
    if rs == [] then 0 else ReportsOf(rs[1..], id) + if rs[0].id == id then 1 else 0
  }

  lemma {:induction false} AppendReport(rs: seq<Report>, r: Report, id: nat)
    ensures ReportsOf(rs + [r], id) == ReportsOf(rs, id) + if r.id == id then 1 else 0
  {
    if rs == [] {
      assert rs + [r] == [r] && [r][1..] == [];
    } else {
      assert (rs + [r])[1..] == rs[1..] + [r];
      AppendReport(rs[1..], r, id);
    }
  }

  lemma {:induction false} NoReport(rs: seq<Report>, id: nat)
    ensures ReportsOf(rs, id) == 0 <==> forall i :: 0 <= i < |rs| ==> rs[i].id != id
  {
    if rs != [] {
      NoReport(rs[1..], id);
      assert rs == [rs[0]] + rs[1..];
    }
  }

  lemma {:induction false} UpdateWorker(ws: seq<Worker>, i: nat, w: Worker)
    requires i < |ws|
    ensures Held(ws[i := w]) + (if Holding(ws[i]) then 1 else 0) == Held(ws) + if Holding(w) then 1 else 0
    ensures Gone(ws[i := w]) + (if ws[i].Exited? then 1 else 0) == Gone(ws) + if w.Exited? then 1 else 0
  {
    if i > 0 {
      assert ws[i := w][1..] == ws[1..][i - 1 := w];
      UpdateWorker(ws[1..], i - 1, w);
    } else {
      assert ws[i := w][1..] == ws[1..];
    }
  }

  lemma {:induction false} UpdateHolder(ws: seq<Worker>, i: nat, w: Worker, id: nat)
    requires i < |ws|
    ensures HoldersOf(ws[i := w], id) + (if Holds(ws[i], id) then 1 else 0)
         == HoldersOf(ws, id) + if Holds(w, id) then 1 else 0
  {
    if i > 0 {
      assert ws[i := w][1..] == ws[1..][i - 1 := w];
      UpdateHolder(ws[1..], i - 1, w, id);
    } else {
      assert ws[i := w][1..] == ws[1..];
    }
  }

  lemma {:induction false} NoHolder(ws: seq<Worker>, id: nat)
    ensures HoldersOf(ws, id) == 0 <==> forall i :: 0 <= i < |ws| ==> !Holds(ws[i], id)
  {
    if ws != [] {
      NoHolder(ws[1..], id);
      assert ws == [ws[0]] + ws[1..];
    }
  }

  lemma {:induction false} WorkerTotals(ws: seq<Worker>)
    ensures Held(ws) == 0 <==> forall i :: 0 <= i < |ws| ==> !Holding(ws[i])
    ensures Gone(ws) == |ws| <==> forall i :: 0 <= i < |ws| ==> ws[i] == Exited
    ensures Gone(ws) == 0 <==> forall i :: 0 <= i < |ws| ==> ws[i] != Exited
    ensures Gone(ws) <= |ws|
  {
    if ws != [] {
      WorkerTotals(ws[1..]);
      assert ws == [ws[0]] + ws[1..];
    }
  }

  function TallyOf(rs: seq<Report>): Tally {
    if rs == [] then Tally(0, 0, 0, 0, 0) else Count(TallyOf(rs[..|rs| - 1]), rs[|rs| - 1].outcome)
  }

  // ----- The invariant -----

  function Dispatched(c: Config, s: State): nat {
    if s.main.Dispatching? then s.main.k else |c.skip|
  }

  function Poisoned(c: Config, s: State): nat {
    match s.main
    case Dispatching(_) => 0
    case Poisoning(k) => k
    case _ => c.workers
  }

  /** The program counter is in range, and says how much has been collected and joined. */
  ghost predicate MainOk(c: Config, s: State) {
    && |s.workers| == c.workers
    && match s.main
       case Dispatching(k) => k <= |c.skip| && s.collected == []
       case Poisoning(k) => k <= c.workers && s.collected == []
       case Collecting(k) => k <= |c.skip| && |s.collected| == k
       case Joining(k) =>
         k <= c.workers && |s.collected| == |c.skip| && forall i :: 0 <= i < k ==> s.workers[i] == Exited
       case Finished => |s.collected| == |c.skip| && forall i :: 0 <= i < c.workers ==> s.workers[i] == Exited
  }

  /** The input queue: the dispatched jobs not yet taken, in order, and then the poison pills not yet taken. No
      worker has exited while a real job was left. */
  ghost predicate QueueOk(c: Config, s: State) {
    var d, p, gone := Dispatched(c, s), Poisoned(c, s), Gone(s.workers);
    && s.taken <= d && gone <= p && (gone > 0 ==> s.taken == d)
    && |s.input| == (d - s.taken) + (p - gone)
    && forall i :: 0 <= i < |s.input| ==> s.input[i] == if i < d - s.taken then Work(s.taken + i) else Poison
  }

  /** Every job taken is in exactly one place: with one worker, on the output queue, or collected. */
  ghost predicate PlacesOk(s: State) {
    && Held(s.workers) + |s.output| + |s.collected| == s.taken
    && forall id: nat {:trigger HoldersOf(s.workers, id)} ::
      HoldersOf(s.workers, id) + ReportsOf(s.output, id) + ReportsOf(s.collected, id) == if id < s.taken then 1 else 0
  }

  /** What a report says is what happened to the job. */
  ghost predicate ReportOk(c: Config, s: State, r: Report) {
    && r.id < |c.skip|
    && match r.outcome
       case Broken => s.threadExit && r.id !in s.launched
       case Skipped => c.skip[r.id] && r.id !in s.launched
       case Ran(_) => !c.skip[r.id] && r.id in s.launched
  }

  ghost predicate WorkerOk(c: Config, s: State, w: Worker) {
    match w
    case Took(id) => id < |c.skip| && id !in s.launched
    case Cleared(id) => id < |c.skip| && id !in s.launched
    case Running(id) => id < |c.skip| && !c.skip[id] && id in s.launched
    case Reporting(r) => ReportOk(c, s, r)
    case _ => true
  }

  ghost predicate OutcomesOk(c: Config, s: State) {
    && (forall i :: 0 <= i < |s.workers| ==> WorkerOk(c, s, s.workers[i]))
    && (forall i :: 0 <= i < |s.output| ==> ReportOk(c, s, s.output[i]))
    && (forall i :: 0 <= i < |s.collected| ==> ReportOk(c, s, s.collected[i]))
    && (forall id :: id in s.launched ==> id < s.taken)
    && s.tally == TallyOf(s.collected)
  }

  ghost predicate Inv(c: Config, s: State) {
    MainOk(c, s) && QueueOk(c, s) && PlacesOk(s) && OutcomesOk(c, s)
  }

  lemma InitInv(c: Config)
    ensures Inv(c, Init(c))
  {
    var s := Init(c);
    WorkerTotals(s.workers);
    forall id: nat
      ensures HoldersOf(s.workers, id) == 0
    {
      NoHolder(s.workers, id);
    }
  }

  lemma CollectKeepsPlaces(c: Config, s: State)
    requires PlacesOk(s) && s.main.Collecting? && s.main.k < |c.skip| && s.output != []
    ensures PlacesOk(MainNext(c, s))
  {
    hide HoldersOf, Held, Count;
    var t, r := MainNext(c, s), s.output[0];
    forall id: nat
      ensures ReportsOf(t.output, id) + ReportsOf(t.collected, id)
           == ReportsOf(s.output, id) + ReportsOf(s.collected, id)
    {
      AppendReport(s.collected, r, id);
    }
  }

  lemma CollectKeepsOutcomes(c: Config, s: State)
    requires OutcomesOk(c, s) && s.main.Collecting? && s.main.k < |c.skip| && s.output != []
    ensures OutcomesOk(c, MainNext(c, s))
  {
    hide Count;
    var t := MainNext(c, s);
    assert t.collected[..|t.collected| - 1] == s.collected;
    assert ReportOk(c, s, s.output[0]);
  }

  lemma CollectKeepsInv(c: Config, s: State)
    requires Inv(c, s) && s.main.Collecting? && s.main.k < |c.skip| && s.output != []
    ensures Inv(c, MainNext(c, s))
  {
    CollectKeepsPlaces(c, s);
    CollectKeepsOutcomes(c, s);
    hide PlacesOk, OutcomesOk, Gone;
  }

  /** Dispatching a job or a poison pill puts it at the end of the queue. */
  lemma DispatchKeepsQueue(c: Config, s: State)
    requires MainOk(c, s) && QueueOk(c, s) && (s.main.Dispatching? || s.main.Poisoning?)
    ensures MainOk(c, MainNext(c, s)) && QueueOk(c, MainNext(c, s))
  {
    WorkerTotals(s.workers);
    hide Held, Gone;
  }

  lemma MainKeepsQueue(c: Config, s: State)
    requires MainOk(c, s) && QueueOk(c, s) && Enabled(c, s, MainStep)
    requires !s.main.Dispatching? && !s.main.Poisoning? && !(s.main.Collecting? && s.main.k < |c.skip|)
    ensures MainOk(c, MainNext(c, s)) && QueueOk(c, MainNext(c, s))
  {
    hide Held, Gone;
  }

  lemma MainKeepsInv(c: Config, s: State)
    requires Inv(c, s) && Enabled(c, s, MainStep)
    ensures Inv(c, MainNext(c, s))
  {
    hide MainOk, QueueOk, PlacesOk, OutcomesOk;
    if s.main.Collecting? && s.main.k < |c.skip| {
      CollectKeepsInv(c, s);
    } else {
      if s.main.Dispatching? || s.main.Poisoning? {
        DispatchKeepsQueue(c, s);
      } else {
        MainKeepsQueue(c, s);
      }
      SameOutcomes(c, s, MainNext(c, s));
    }
  }

  lemma SameOutcomes(c: Config, s: State, t: State)
    requires PlacesOk(s) && OutcomesOk(c, s)
    requires t == s.(main := t.main, input := t.input)
    ensures PlacesOk(t) && OutcomesOk(c, t)
  {
    assert forall r :: ReportOk(c, s, r) ==> ReportOk(c, t, r);
    assert forall w :: WorkerOk(c, s, w) ==> WorkerOk(c, t, w);
  }

  lemma GetKeepsQueue(c: Config, s: State, w: nat)
    requires MainOk(c, s) && QueueOk(c, s) && Enabled(c, s, Get(w))
    ensures MainOk(c, Perform(c, s, Get(w))) && QueueOk(c, Perform(c, s, Get(w)))
  {
    hide Held, Gone, HoldersOf;
    var t := Perform(c, s, Get(w));
    UpdateWorker(s.workers, w, t.workers[w]);
    WorkerTotals(t.workers);
    assert Dispatched(c, t) == Dispatched(c, s) && Poisoned(c, t) == Poisoned(c, s);
    assert s.input[0] == if s.taken < Dispatched(c, s) then Work(s.taken) else Poison;
    forall i | 0 <= i < |t.input|
      ensures t.input[i] == s.input[i + 1]
    {
    }
  }

  lemma GetKeepsInv(c: Config, s: State, w: nat)
    requires Inv(c, s) && Enabled(c, s, Get(w))
    ensures Inv(c, Perform(c, s, Get(w)))
  {
    GetKeepsQueue(c, s, w);
    assert s.input[0] == if s.taken < Dispatched(c, s) then Work(s.taken) else Poison;
    assert Dispatched(c, s) <= |c.skip|;
    hide MainOk, QueueOk, HoldersOf, ReportsOf, Held, Gone, TallyOf;
    GetKeepsPlaces(c, s, w);
    GetKeepsOutcomes(c, s, w);
  }

  lemma GetKeepsPlaces(c: Config, s: State, w: nat)
    requires PlacesOk(s) && Enabled(c, s, Get(w)) && (s.input[0] == Work(s.taken) || s.input[0] == Poison)
    ensures PlacesOk(Perform(c, s, Get(w)))
  {
    hide HoldersOf, ReportsOf, Held, Gone;
    var t := Perform(c, s, Get(w));
    UpdateWorker(s.workers, w, t.workers[w]);
    forall id: nat
      ensures HoldersOf(t.workers, id) == HoldersOf(s.workers, id) + if t.workers[w] == Took(id) then 1 else 0
    {
      UpdateHolder(s.workers, w, t.workers[w], id);
    }
  }

  lemma GetKeepsOutcomes(c: Config, s: State, w: nat)
    requires OutcomesOk(c, s) && Enabled(c, s, Get(w))
    requires s.input[0] == Poison || (s.input[0] == Work(s.taken) && s.taken < |c.skip|)
    ensures OutcomesOk(c, Perform(c, s, Get(w)))
  {
    hide TallyOf;
    var t := Perform(c, s, Get(w));
    forall i | 0 <= i < |t.workers|
      ensures WorkerOk(c, t, t.workers[i])
    {
      assert i != w ==> t.workers[i] == s.workers[i] && WorkerOk(c, s, s.workers[i]);
    }
  }

  /** Holding a job excludes every other place for it. */
  lemma OnlyHolder(s: State, w: nat)
    requires PlacesOk(s) && w < |s.workers| && Holding(s.workers[w])
    ensures var id := HeldJob(s.workers[w]);
            && id < s.taken
            && (forall i :: 0 <= i < |s.workers| && i != w ==> !Holds(s.workers[i], id))
            && (forall i :: 0 <= i < |s.output| ==> s.output[i].id != id)
            && (forall i :: 0 <= i < |s.collected| ==> s.collected[i].id != id)
  {
    var id := HeldJob(s.workers[w]);
    var others := s.workers[w := Idle];
    UpdateHolder(s.workers, w, Idle, id);
    NoHolder(others, id);
    NoReport(s.output, id);
    NoReport(s.collected, id);
    forall i | 0 <= i < |s.workers| && i != w
      ensures !Holds(s.workers[i], id)
    {
      assert others[i] == s.workers[i];
    }
  }

  /** A worker that keeps its job changes nothing in the accounts. */
  lemma SameHolder(s: State, t: State, w: nat)
    requires PlacesOk(s) && w < |s.workers| && Holding(s.workers[w])
    requires |t.workers| == |s.workers| && t.workers == s.workers[w := t.workers[w]]
    requires Holds(t.workers[w], HeldJob(s.workers[w]))
    requires t.output == s.output && t.collected == s.collected && t.taken == s.taken
    ensures PlacesOk(t) && Gone(t.workers) == Gone(s.workers)
  {
    UpdateWorker(s.workers, w, t.workers[w]);
    forall id: nat
      ensures HoldersOf(t.workers, id) == HoldersOf(s.workers, id)
    {
      UpdateHolder(s.workers, w, t.workers[w], id);
    }
  }

  lemma CheckKeepsInv(c: Config, s: State, w: nat)
    requires Inv(c, s) && Enabled(c, s, Check(w))
    ensures Inv(c, Perform(c, s, Check(w)))
  {
    hide HoldersOf, ReportsOf, Held, Gone, TallyOf;
    var t := Perform(c, s, Check(w));
    SameHolder(s, t, w);
    assert WorkerOk(c, s, s.workers[w]);
    forall i | 0 <= i < |t.workers|
      ensures WorkerOk(c, t, t.workers[i])
    {
      assert i != w ==> t.workers[i] == s.workers[i] && WorkerOk(c, s, s.workers[i]);
    }
  }

  lemma StartKeepsInv(c: Config, s: State, w: nat)
    requires Inv(c, s) && Enabled(c, s, Start(w))
    ensures Inv(c, Perform(c, s, Start(w)))
  {
    hide HoldersOf, ReportsOf, Held, Gone, TallyOf;
    var t := Perform(c, s, Start(w));
    OnlyHolder(s, w);
    SameHolder(s, t, w);
    assert WorkerOk(c, s, s.workers[w]);
    assert WorkerOk(c, t, t.workers[w]);
    forall i | 0 <= i < |t.workers|
      ensures WorkerOk(c, t, t.workers[i])
    {
      assert i != w ==> t.workers[i] == s.workers[i] && WorkerOk(c, s, s.workers[i]);
    }
  }

  lemma CompleteKeepsInv(c: Config, s: State, w: nat, r: int)
    requires Inv(c, s) && Enabled(c, s, Complete(w, r))
    ensures Inv(c, Perform(c, s, Complete(w, r)))
  {
    hide HoldersOf, ReportsOf, Held, Gone, TallyOf;
    var t := Perform(c, s, Complete(w, r));
    SameHolder(s, t, w);
    assert WorkerOk(c, s, s.workers[w]);
    forall i | 0 <= i < |t.workers|
      ensures WorkerOk(c, t, t.workers[i])
    {
      assert i != w ==> t.workers[i] == s.workers[i] && WorkerOk(c, s, s.workers[i]);
    }
  }

  lemma PutKeepsInv(c: Config, s: State, w: nat)
    requires Inv(c, s) && Enabled(c, s, Put(w))
    ensures Inv(c, Perform(c, s, Put(w)))
  {
    hide HoldersOf, ReportsOf, Held, Gone, TallyOf;
    var t := Perform(c, s, Put(w));
    var r := s.workers[w].report;
    UpdateWorker(s.workers, w, Idle);
    assert WorkerOk(c, s, s.workers[w]);
    forall id: nat
      ensures HoldersOf(t.workers, id) + ReportsOf(t.output, id) == HoldersOf(s.workers, id) + ReportsOf(s.output, id)
    {
      UpdateHolder(s.workers, w, Idle, id);
      AppendReport(s.output, r, id);
    }
  }

  lemma StepKeepsInv(c: Config, s: State, step: Step)
    requires Inv(c, s) && Enabled(c, s, step)
    ensures Inv(c, Perform(c, s, step))
  {
    match step
    case MainStep => MainKeepsInv(c, s);
    case Get(w) => GetKeepsInv(c, s, w);
    case Check(w) => CheckKeepsInv(c, s, w);
    case Start(w) => StartKeepsInv(c, s, w);
    case Complete(w, r) => CompleteKeepsInv(c, s, w, r);
    case Put(w) => PutKeepsInv(c, s, w);
    case Interrupt =>
  }
}
