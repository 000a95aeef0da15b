// The worker supervisor: an errgroup over the workers, a goroutine per cleanup that waits for
// the group context, and a WaitGroup over the cleanups, as a transition system.
module Supervisor {
  import opened Wrappers

  /** A registered worker; its functions are run by the environment. */
  datatype Worker = Worker(name: string, hasCleanUp: bool)

  class Server {
    var workers: seq<Worker>

    constructor ()
      ensures workers == []
    {
      workers := [];
    }

    method Add(name: string, hasWork: bool, hasCleanUp: bool) returns (err: Option<Error>)
      modifies this
      ensures err == if hasWork && name != "" then None else Some(InvalidArg)
      ensures workers == if err.None? then old(workers) + [Worker(name, hasCleanUp)] else old(workers)
    {
      if !hasWork { return Some(InvalidArg); }
      if name == "" { return Some(InvalidArg); }
      workers := workers + [Worker(name, hasCleanUp)];
      return None;
    }

    /** Start refuses an empty server and otherwise begins the run below. */
    method Start() returns (run: Result<Group>)
      ensures run.Err? <==> workers == []
      ensures run.Err? ==> run.error == InvalidArg
      ensures run.Ok? ==> run.value == Begin(workers)
    {
      if |workers| == 0 { return Err(InvalidArg); }
      return Ok(Begin(workers));
    }
  }

  /** An error a worker returns. */
  type Fault = string

  /** The goroutine of a worker: its function runs, fails, has its error recorded, is done. */
  datatype WorkPC = Unlaunched | Working | Failed(fault: Fault) | Finishing | Finished
  {
    function Rank(): nat
    {
      match this case Unlaunched => 4 case Working => 3 case Failed(_) => 2 case Finishing => 1 case Finished => 0
    }
  }

  /** The goroutine of a cleanup: counted in the WaitGroup from Added to Returned. */
  datatype CleanPC = NoCleanUp | Unadded | Added | Waiting | Running | Returned | Cleaned
  {
    function Rank(): nat
    {
      match this
      case NoCleanUp => 0
      case Unadded => 5
      case Added => 4
      case Waiting => 3
      case Running => 2
      case Returned => 1
      case Cleaned => 0
    }

    function Live(): nat
    {
      if Added? || Waiting? || Running? || Returned? then 1 else 0
    }

    predicate Begun() { Running? || Returned? || Cleaned? }
  }

  /** Start itself: launching worker next, adding cleanup next, launching the cleanup just
      added, waiting for the group, waiting for the cleanups, returned. */
  datatype MainPC =
    | Launching(next: nat)
    | Adding(next: nat)
    | Spawning(next: nat)
    | GroupWait
    | CleanWait
    | Exited(result: Option<Fault>)

  /** cancelled is the group context, first the group's error, count the WaitGroup's counter.
      The rest is history: what each worker returned, in which order errors were recorded, and
      how often each cleanup began. */
  datatype Group = Group(
    workers: seq<Worker>,
    main: MainPC,
    work: seq<WorkPC>,
    clean: seq<CleanPC>,
    cancelled: bool,
    first: Option<Fault>,
    count: int,
    outcome: seq<Option<Option<Fault>>>,
    recorded: seq<nat>,
    begun: seq<nat>)

  function Begin(workers: seq<Worker>): Group
  {
    var n := |workers|;
    Group(workers, Launching(0),
          seq(n, i => Unlaunched),
          seq(n, i requires 0 <= i < n => if workers[i].hasCleanUp then Unadded else NoCleanUp),
          false, None, 0,
          seq(n, i => None), [], seq(n, i => 0))
  }

  datatype Step =
    | Advance              // Start takes its next step
    | WorkReturns(i: nat, fault: Option<Fault>)
    | Record(i: nat)       // errOnce: keep the first error, cancel the group
    | WorkDone(i: nat)
    | CleanBegins(i: nat)  // the group context is done
    | CleanReturns(i: nat)
    | CleanDone(i: nat)
    | ParentCancels

  /** Steps taken by the supervisor's own goroutines; the others are the environment's. */
  predicate Internal(step: Step)
  {
    step.Advance? || step.Record? || step.WorkDone? || step.CleanBegins? || step.CleanDone?
  }

  predicate Shaped(s: Group)
  {
    |s.work| == |s.clean| == |s.outcome| == |s.begun| == |s.workers|
  }

  predicate Enabled(s: Group, step: Step)
    requires Shaped(s)
  {
    match step
    case Advance =>
      (match s.main
       case Launching(_) => true
       case Adding(_) => true
       case Spawning(k) => k < |s.clean|
       case GroupWait => forall i :: 0 <= i < |s.work| ==> s.work[i].Finished?
       case CleanWait => s.count == 0
       case Exited(_) => false)
    case WorkReturns(i, _) => i < |s.work| && s.work[i].Working?
    case Record(i) => i < |s.work| && s.work[i].Failed?
    case WorkDone(i) => i < |s.work| && s.work[i].Finishing?
    case CleanBegins(i) => i < |s.clean| && s.clean[i].Waiting? && s.cancelled
    case CleanReturns(i) => i < |s.clean| && s.clean[i].Running?
    case CleanDone(i) => i < |s.clean| && s.clean[i].Returned?
    case ParentCancels => !s.cancelled
  }

  function AdvanceMain(s: Group): Group
    requires Shaped(s) && Enabled(s, Advance)
  {
    match s.main
    case Launching(k) =>
      if k < |s.workers| then s.(work := s.work[k := Working], main := Launching(k + 1)) else s.(main := Adding(0))
    case Adding(k) =>
      if k >= |s.workers| then s.(main := GroupWait)
      else if !s.workers[k].hasCleanUp then s.(main := Adding(k + 1))
      else s.(count := s.count + 1, clean := s.clean[k := Added], main := Spawning(k))
    case Spawning(k) => s.(clean := s.clean[k := Waiting], main := Adding(k + 1))
    case GroupWait => s.(cancelled := true, main := CleanWait)
    case CleanWait => s.(main := Exited(s.first))
    case Exited(_) => s
  }

  function Perform(s: Group, step: Step): Group
    requires Shaped(s) && Enabled(s, step)
  {
    match step
    case Advance => AdvanceMain(s)
    case WorkReturns(i, fault) =>
      s.(work := s.work[i := if fault.Some? then Failed(fault.value) else Finishing],
         outcome := s.outcome[i := Some(fault)])
    case Record(i) =>
      var s' := s.(work := s.work[i := Finishing], recorded := s.recorded + [i]);
      if s.first.None? then s'.(first := Some(s.work[i].fault), cancelled := true) else s'
    case WorkDone(i) => s.(work := s.work[i := Finished])
    case CleanBegins(i) => s.(clean := s.clean[i := Running], begun := s.begun[i := s.begun[i] + 1])
    case CleanReturns(i) => s.(clean := s.clean[i := Returned])
    case CleanDone(i) => s.(clean := s.clean[i := Cleaned], count := s.count - 1)
    case ParentCancels => s.(cancelled := true)
  }

  // The invariant

  /** How many cleanups were added to the WaitGroup and are not finished. */
  function Unfinished(clean: seq<CleanPC>): nat
  {
    if clean == [] then 0 else Unfinished(clean[..|clean| - 1]) + clean[|clean| - 1].Live()
  }

  /** How far Start has come with worker i. */
  ghost predicate Launched(s: Group, i: nat)
  {
    s.main.Launching? ==> i < s.main.next
  }

  ghost predicate AddedUpTo(s: Group, i: nat)
  {
    match s.main
    case Launching(_) => false
    case Adding(k) => i < k
    case Spawning(k) => i <= k
    case _ => true
  }

  ghost predicate WorkersMatch(s: Group)
    requires Shaped(s)
  {
    forall i :: 0 <= i < |s.work| ==>
      && (s.work[i].Unlaunched? <==> !Launched(s, i))
      && (s.outcome[i].None? <==> s.work[i].Unlaunched? || s.work[i].Working?)
      && (s.work[i].Failed? ==> s.outcome[i] == Some(Some(s.work[i].fault)) && i !in s.recorded)
      && (i in s.recorded ==> s.outcome[i].Some? && s.outcome[i].value.Some?)
      && ((s.work[i].Finishing? || s.work[i].Finished?) && s.outcome[i].value.Some? ==> i in s.recorded)
  }

  ghost predicate CleanUpsMatch(s: Group)
    requires Shaped(s)
  {
    forall i :: 0 <= i < |s.clean| ==>
      && (s.clean[i].NoCleanUp? <==> !s.workers[i].hasCleanUp)
      && (s.workers[i].hasCleanUp ==> (s.clean[i].Unadded? <==> !AddedUpTo(s, i)))
      && (s.clean[i].Added? <==> s.main == Spawning(i))
      && (s.clean[i].Begun() ==> s.cancelled)
      && s.begun[i] == (if s.clean[i].Begun() then 1 else 0)
  }

  ghost predicate ErrorsMatch(s: Group)
    requires Shaped(s)
  {
    && (forall k :: 0 <= k < |s.recorded| ==> s.recorded[k] < |s.work|)
    && (s.recorded == [] ==> s.first.None?)
    && (s.recorded != [] ==> s.outcome[s.recorded[0]] == Some(s.first) && s.first.Some? && s.cancelled)
  }

  ghost predicate MainMatches(s: Group)
    requires Shaped(s)
  {
    && (s.main.Launching? || s.main.Adding? ==> s.main.next <= |s.workers|)
    && (s.main.Spawning? ==> s.main.next < |s.workers| && s.workers[s.main.next].hasCleanUp)
    && (s.main.CleanWait? || s.main.Exited? ==> s.cancelled && forall i :: 0 <= i < |s.work| ==> s.work[i].Finished?)
    && (s.main.Exited? ==> s.count == 0 && s.main.result == s.first)
  }

  ghost predicate Inv(s: Group)
  {
    && Shaped(s)
    && WorkersMatch(s)
    && CleanUpsMatch(s)
    && ErrorsMatch(s)
    && MainMatches(s)
    && s.count == Unfinished(s.clean)
  }

  lemma BeginSatisfiesInv(workers: seq<Worker>)
    ensures Inv(Begin(workers))
  {
    NoneUnfinished(Begin(workers).clean);
  }

  lemma {:induction false} NoneUnfinished(clean: seq<CleanPC>)
    requires forall i :: 0 <= i < |clean| ==> clean[i].Live() == 0
    ensures Unfinished(clean) == 0
  {
    if clean != [] { NoneUnfinished(clean[..|clean| - 1]); }
  }

  lemma {:induction false} UnfinishedAfter(clean: seq<CleanPC>, i: nat, pc: CleanPC)
    requires i < |clean|
    ensures Unfinished(clean[i := pc]) == Unfinished(clean) - clean[i].Live() + pc.Live()
  {
    var front := clean[..|clean| - 1];
    if i < |front| {
      UnfinishedAfter(front, i, pc);
      assert clean[i := pc][..|clean| - 1] == front[i := pc];
    } else {
      assert clean[i := pc][..|clean| - 1] == front;
    }
  }

  lemma {:induction false} SomeUnfinished(clean: seq<CleanPC>) returns (i: nat)
    requires Unfinished(clean) > 0
    ensures i < |clean| && clean[i].Live() == 1
  {
    var front := clean[..|clean| - 1];
    if clean[|clean| - 1].Live() == 1 { i := |clean| - 1; } else { i := SomeUnfinished(front); }
  }

  lemma StepKeepsCount(s: Group, step: Step)
    requires Inv(s) && Enabled(s, step)
    ensures Perform(s, step).count == Unfinished(Perform(s, step).clean)
  {
    match step
    case Advance =>
      if s.main.Adding? && s.main.next < |s.workers| { UnfinishedAfter(s.clean, s.main.next, Added); }
      if s.main.Spawning? { UnfinishedAfter(s.clean, s.main.next, Waiting); }
    case CleanBegins(i) => UnfinishedAfter(s.clean, i, Running);
    case CleanReturns(i) => UnfinishedAfter(s.clean, i, Returned);
    case CleanDone(i) => UnfinishedAfter(s.clean, i, Cleaned);
    case _ =>
  }

  lemma StartKeepsWorkers(s: Group)
    requires Shaped(s) && WorkersMatch(s) && ErrorsMatch(s) && Enabled(s, Advance)
    ensures Shaped(AdvanceMain(s)) && WorkersMatch(AdvanceMain(s))
  {
  }

  lemma OtherStepsKeepWorkers(s: Group, step: Step)
    requires Shaped(s) && WorkersMatch(s) && ErrorsMatch(s) && Enabled(s, step) && !step.Advance?
    ensures Shaped(Perform(s, step)) && WorkersMatch(Perform(s, step))
  {
  }

  lemma StepKeepsErrors(s: Group, step: Step)
    requires Shaped(s) && WorkersMatch(s) && ErrorsMatch(s) && Enabled(s, step)
    ensures Shaped(Perform(s, step)) && ErrorsMatch(Perform(s, step))
  {
  }

  lemma StartKeepsCleanUps(s: Group)
    requires Shaped(s) && CleanUpsMatch(s) && MainMatches(s) && Enabled(s, Advance)
    ensures Shaped(AdvanceMain(s)) && CleanUpsMatch(AdvanceMain(s))
  {
  }

  lemma OtherStepsKeepCleanUps(s: Group, step: Step)
    requires Shaped(s) && CleanUpsMatch(s) && Enabled(s, step) && !step.Advance?
    ensures Shaped(Perform(s, step)) && CleanUpsMatch(Perform(s, step))
  {
  }

  lemma StepKeepsMain(s: Group, step: Step)
    requires Inv(s) && Enabled(s, step)
    ensures Shaped(Perform(s, step)) && MainMatches(Perform(s, step))
  {
    if s.main.CleanWait? || s.main.Exited? {
      assert forall i :: 0 <= i < |s.work| ==> s.work[i].Finished?;
      if s.main.Exited? { ExitedMeansCleaned(s); }
    }
  }

  lemma ExitedMeansCleaned(s: Group)
    requires Inv(s) && s.main.Exited?
    ensures forall i :: 0 <= i < |s.clean| ==> s.clean[i].Live() == 0
  {
    forall i | 0 <= i < |s.clean| ensures s.clean[i].Live() == 0 { UnfinishedAfter(s.clean, i, Cleaned); }
  }

  lemma StepKeepsInv(s: Group, step: Step)
    requires Inv(s) && Enabled(s, step)
    ensures Inv(Perform(s, step))
  {
    StepKeepsErrors(s, step);
    if step.Advance? {
      StartKeepsWorkers(s);
      StartKeepsCleanUps(s);
    } else {
      OtherStepsKeepWorkers(s, step);
      OtherStepsKeepCleanUps(s, step);
    }
    StepKeepsMain(s, step);
    StepKeepsCount(s, step);
  }

  // Runs

  ghost predicate Run(workers: seq<Worker>, sts: seq<Group>, steps: seq<Step>)
  {
    && |sts| == |steps| + 1 && sts[0] == Begin(workers)
    && forall i :: 0 <= i < |steps| ==>
      Shaped(sts[i]) && Enabled(sts[i], steps[i]) && sts[i + 1] == Perform(sts[i], steps[i])
  }

  lemma {:induction false} RunsKeepInv(workers: seq<Worker>, sts: seq<Group>, steps: seq<Step>, i: nat)
    requires Run(workers, sts, steps) && i < |sts|
    ensures Inv(sts[i]) && sts[i].workers == workers
  {
    if i == 0 {
      BeginSatisfiesInv(workers);
    } else {
      RunsKeepInv(workers, sts, steps, i - 1);
      StepKeepsInv(sts[i - 1], steps[i - 1]);
    }
  }

  /** Safety, at every moment of every run: the counter is the number of added and unfinished
      cleanups; no cleanup has begun before the group was cancelled, nor twice; and once Start
      has returned, every worker has returned, every cleanup has run exactly once, and the
      result is nil exactly when all workers returned nil and otherwise the error recorded first. */
  lemma SupervisorIsSafe(workers: seq<Worker>, sts: seq<Group>, steps: seq<Step>, n: nat)
    requires Run(workers, sts, steps) && n < |sts|
    ensures var s := sts[n];
      && Shaped(s) && s.workers == workers
      && s.count == Unfinished(s.clean)
      && (forall i :: 0 <= i < |workers| ==>
        s.begun[i] <= 1 && (s.begun[i] == 1 ==> s.cancelled && workers[i].hasCleanUp))
      && (s.main.Exited? ==>
        && (forall i :: 0 <= i < |workers| ==> s.work[i].Finished? && s.outcome[i].Some?)
        && (forall i :: 0 <= i < |workers| ==> s.begun[i] == (if workers[i].hasCleanUp then 1 else 0))
        && (forall i :: 0 <= i < |workers| && workers[i].hasCleanUp ==> s.clean[i].Cleaned?)
        && (s.main.result.None? <==> forall i :: 0 <= i < |workers| ==> s.outcome[i] == Some(None))
        && (s.main.result.Some? ==>
          s.recorded != [] && s.recorded[0] < |workers| && s.outcome[s.recorded[0]] == Some(s.main.result)))
  {
    var s := sts[n];
    RunsKeepInv(workers, sts, steps, n);
    if s.main.Exited? {
      ExitedMeansCleaned(s);
    }
  }

  // Termination

  function WorkRanks(work: seq<WorkPC>): nat
  {
    if work == [] then 0 else WorkRanks(work[..|work| - 1]) + work[|work| - 1].Rank()
  }

  function CleanRanks(clean: seq<CleanPC>): nat
  {
    if clean == [] then 0 else CleanRanks(clean[..|clean| - 1]) + clean[|clean| - 1].Rank()
  }

  function MainRank(s: Group): int
  {
    var n := |s.workers|;
    match s.main
    case Launching(k) => 2 * n + 4 - k
    case Adding(k) => n + 3 - k
    case Spawning(k) => n + 3 - k
    case GroupWait => 2
    case CleanWait => 1
    case Exited(_) => 0
  }

  function Measure(s: Group): int
  {
    MainRank(s) + WorkRanks(s.work) + CleanRanks(s.clean) + (if s.cancelled then 0 else 1)
  }

  lemma {:induction false} WorkRanksAfter(work: seq<WorkPC>, i: nat, pc: WorkPC)
    requires i < |work|
    ensures WorkRanks(work[i := pc]) == WorkRanks(work) - work[i].Rank() + pc.Rank()
  {
    var front := work[..|work| - 1];
    if i < |front| {
      WorkRanksAfter(front, i, pc);
      assert work[i := pc][..|work| - 1] == front[i := pc];
    } else {
      assert work[i := pc][..|work| - 1] == front;
    }
  }

  lemma {:induction false} CleanRanksAfter(clean: seq<CleanPC>, i: nat, pc: CleanPC)
    requires i < |clean|
    ensures CleanRanks(clean[i := pc]) == CleanRanks(clean) - clean[i].Rank() + pc.Rank()
  {
    var front := clean[..|clean| - 1];
    if i < |front| {
      CleanRanksAfter(front, i, pc);
      assert clean[i := pc][..|clean| - 1] == front[i := pc];
    } else {
      assert clean[i := pc][..|clean| - 1] == front;
    }
  }

  lemma LaunchingDecreasesTheMeasure(s: Group)
    requires Shaped(s) && WorkersMatch(s) && MainMatches(s) && s.main.Launching?
    ensures 0 <= Measure(AdvanceMain(s)) < Measure(s)
  {
    if s.main.next < |s.workers| { WorkRanksAfter(s.work, s.main.next, Working); }
  }

  lemma AddingDecreasesTheMeasure(s: Group)
    requires Shaped(s) && CleanUpsMatch(s) && MainMatches(s) && (s.main.Adding? || s.main.Spawning?)
    ensures 0 <= Measure(AdvanceMain(s)) < Measure(s)
  {
    if s.main.Spawning? {
      CleanRanksAfter(s.clean, s.main.next, Waiting);
    } else if s.main.next < |s.workers| && s.workers[s.main.next].hasCleanUp {
      CleanRanksAfter(s.clean, s.main.next, Added);
    }
  }

  lemma StartDecreasesTheMeasure(s: Group)
    requires Shaped(s) && WorkersMatch(s) && CleanUpsMatch(s) && MainMatches(s) && Enabled(s, Advance)
    ensures 0 <= Measure(AdvanceMain(s)) < Measure(s)
  {
    if s.main.Launching? {
      LaunchingDecreasesTheMeasure(s);
    } else if s.main.Adding? || s.main.Spawning? {
      AddingDecreasesTheMeasure(s);
    }
  }

  lemma WorkerStepsDecreaseTheMeasure(s: Group, step: Step)
    requires Shaped(s) && MainMatches(s) && Enabled(s, step)
    requires step.WorkReturns? || step.Record? || step.WorkDone?
    ensures 0 <= Measure(Perform(s, step)) < Measure(s)
  {
    var t := Perform(s, step);
    assert t.main == s.main && t.clean == s.clean && t.workers == s.workers && (s.cancelled ==> t.cancelled);
    WorkRanksAfter(s.work, step.i, t.work[step.i]);
    assert t.work == s.work[step.i := t.work[step.i]];
  }

  lemma CleanUpStepsDecreaseTheMeasure(s: Group, step: Step)
    requires Shaped(s) && MainMatches(s) && Enabled(s, step)
    requires step.CleanBegins? || step.CleanReturns? || step.CleanDone?
    ensures 0 <= Measure(Perform(s, step)) < Measure(s)
  {
    var t := Perform(s, step);
    assert t.main == s.main && t.work == s.work && t.workers == s.workers && t.cancelled == s.cancelled;
    CleanRanksAfter(s.clean, step.i, t.clean[step.i]);
    assert t.clean == s.clean[step.i := t.clean[step.i]];
  }

  /** Every step, the environment's included, decreases the measure, which stays a natural number. */
  lemma EveryStepDecreasesTheMeasure(s: Group, step: Step)
    requires Inv(s) && Enabled(s, step)
    ensures 0 <= Measure(Perform(s, step)) < Measure(s)
  {
    if step.Advance? {
      StartDecreasesTheMeasure(s);
    } else if step.WorkReturns? || step.Record? || step.WorkDone? {
      WorkerStepsDecreaseTheMeasure(s, step);
    } else if !step.ParentCancels? {
      CleanUpStepsDecreaseTheMeasure(s, step);
    }
  }

  /** Every run of n workers has at most 11n + 5 steps. */
  lemma RunsAreShort(workers: seq<Worker>, sts: seq<Group>, steps: seq<Step>)
    requires Run(workers, sts, steps)
    ensures |steps| <= 11 * |workers| + 5
  {
    MeasureFalls(workers, sts, steps, |steps|);
    WorkRanksAtMost(Begin(workers).work);
    CleanRanksAtMost(Begin(workers).clean);
  }

  lemma {:induction false} MeasureFalls(workers: seq<Worker>, sts: seq<Group>, steps: seq<Step>, n: nat)
    requires Run(workers, sts, steps) && n <= |steps|
    ensures n > 0 ==> 0 <= Measure(sts[n])
    ensures Measure(sts[n]) + n <= Measure(sts[0])
  {
    if n > 0 {
      MeasureFalls(workers, sts, steps, n - 1);
      RunsKeepInv(workers, sts, steps, n - 1);
      EveryStepDecreasesTheMeasure(sts[n - 1], steps[n - 1]);
    }
  }

  lemma {:induction false} WorkRanksAtMost(work: seq<WorkPC>)
    ensures WorkRanks(work) <= 4 * |work|
  {
    if work != [] { WorkRanksAtMost(work[..|work| - 1]); }
  }

  lemma {:induction false} CleanRanksAtMost(clean: seq<CleanPC>)
    ensures CleanRanks(clean) <= 5 * |clean|
  {
    if clean != [] { CleanRanksAtMost(clean[..|clean| - 1]); }
  }

  // Progress

  ghost predicate SomeWorkRunning(s: Group)
  {
    exists i :: 0 <= i < |s.work| && s.work[i].Working?
  }

  ghost predicate SomeCleanUpRunning(s: Group)
  {
    exists i :: 0 <= i < |s.clean| && s.clean[i].Running?
  }

  /** The supervisor itself never blocks but on a worker or cleanup function still running. */
  lemma OnlyFunctionsBlock(s: Group)
    requires Inv(s) && !s.main.Exited? && !SomeWorkRunning(s) && !SomeCleanUpRunning(s)
    ensures exists step :: Internal(step) && Enabled(s, step)
  {
    if Enabled(s, Advance) {
      assert Internal(Advance);
    } else if s.main.GroupWait? {
      var i :| 0 <= i < |s.work| && !s.work[i].Finished?;
      assert Enabled(s, Record(i)) || Enabled(s, WorkDone(i));
      assert Internal(Record(i)) && Internal(WorkDone(i));
    } else {
      var i := SomeUnfinished(s.clean);
      assert Enabled(s, CleanBegins(i)) || Enabled(s, CleanDone(i));
      assert Internal(CleanBegins(i)) && Internal(CleanDone(i));
    }
  }

  /** What well-behaved functions owe: a cleanup that runs returns, and a worker returns once
      the group is cancelled and its cleanup, if any, is over. */
  ghost predicate Due(s: Group, step: Step)
    requires Shaped(s)
  {
    match step
    case CleanReturns(i) => Enabled(s, step)
    case WorkReturns(i, _) => Enabled(s, step) && s.cancelled && (s.clean[i].NoCleanUp? || s.clean[i].Cleaned?)
    case _ => false
  }

  ghost predicate NothingLeftToDo(s: Group)
    requires Shaped(s)
  {
    forall step :: Internal(step) || Due(s, step) ==> !Enabled(s, step)
  }

  /** A run in which the group was cancelled, and in which the supervisor took all its steps
      and the functions did what they owe, has ended with Start returning. */
  lemma CancelledRunsEndWithAReturn(workers: seq<Worker>, sts: seq<Group>, steps: seq<Step>)
    requires Run(workers, sts, steps)
    requires sts[|steps|].cancelled && Shaped(sts[|steps|]) && NothingLeftToDo(sts[|steps|])
    ensures sts[|steps|].main.Exited?
  {
    var s := sts[|steps|];
    RunsKeepInv(workers, sts, steps, |steps|);
    if !s.main.Exited? {
      if i :| 0 <= i < |s.clean| && s.clean[i].Running? {
        assert Due(s, CleanReturns(i));
      } else if i :| 0 <= i < |s.work| && s.work[i].Working? {
        assert !Enabled(s, Advance) by { assert Internal(Advance); }
        assert Internal(CleanBegins(i)) && Internal(CleanDone(i));
        assert Due(s, WorkReturns(i, None));
      } else {
        OnlyFunctionsBlock(s);
      }
    }
  }

  lemma ExtendRun(workers: seq<Worker>, sts: seq<Group>, steps: seq<Step>, step: Step)
    requires Run(workers, sts, steps) && Shaped(sts[|steps|]) && Enabled(sts[|steps|], step)
    ensures Run(workers, sts + [Perform(sts[|steps|], step)], steps + [step])
    ensures sts[|steps|].cancelled ==> Perform(sts[|steps|], step).cancelled
  {
  }

  /** Every run can be carried on, by steps of the supervisor and steps the functions owe, until
      nothing is left to do; if it had been cancelled, Start has then returned. */
  lemma {:induction false} RunsCanBeCompleted(workers: seq<Worker>, sts: seq<Group>, steps: seq<Step>)
    returns (sts': seq<Group>, steps': seq<Step>)
    requires Run(workers, sts, steps)
    ensures Run(workers, sts', steps') && sts <= sts' && steps <= steps'
    ensures forall k :: |steps| <= k < |steps'| ==> Shaped(sts'[k]) && (Internal(steps'[k]) || Due(sts'[k], steps'[k]))
    ensures Shaped(sts'[|steps'|]) && NothingLeftToDo(sts'[|steps'|])
    ensures sts[|steps|].cancelled ==> sts'[|steps'|].main.Exited?
    decreases 11 * |workers| + 5 - |steps|
  {
    var s := sts[|steps|];
    RunsKeepInv(workers, sts, steps, |steps|);
    if NothingLeftToDo(s) {
      sts', steps' := sts, steps;
      if s.cancelled { CancelledRunsEndWithAReturn(workers, sts, steps); }
    } else {
      var step :| (Internal(step) || Due(s, step)) && Enabled(s, step);
      var next := sts + [Perform(s, step)];
      ExtendRun(workers, sts, steps, step);
      RunsAreShort(workers, next, steps + [step]);
      sts', steps' := RunsCanBeCompleted(workers, next, steps + [step]);
      assert sts'[|steps|] == next[|steps|] && steps'[|steps|] == (steps + [step])[|steps|];
    }
  }

  /** Cancellation is never undone, a recorded error causes it, and it is certain once Start
      has stopped waiting for the group. */
  lemma WhatCancels(workers: seq<Worker>, sts: seq<Group>, steps: seq<Step>, n: nat)
    requires Run(workers, sts, steps) && n < |steps|
    ensures sts[n].cancelled ==> sts[n + 1].cancelled
    ensures sts[n + 1].recorded != [] || sts[n + 1].main.CleanWait? || sts[n + 1].main.Exited? ==> sts[n + 1].cancelled
  {
    RunsKeepInv(workers, sts, steps, n + 1);
  }

  // What the steps taken so far say about the state

  /** The workers whose errors were recorded, in order. */
  function RecordsIn(steps: seq<Step>): seq<nat>
  {
    if steps == [] then []
    else
      var front, last := RecordsIn(steps[..|steps| - 1]), steps[|steps| - 1];
      if last.Record? then front + [last.i] else front
  }

  /** The step is among the first n. */
  ghost predicate Happened(steps: seq<Step>, n: nat, step: Step)
    requires n <= |steps|
  {
    n > 0 && (steps[n - 1] == step || Happened(steps, n - 1, step))
  }

  lemma {:induction false} HappenedMeansAmong(steps: seq<Step>, n: nat, step: Step)
    requires n <= |steps|
    ensures Happened(steps, n, step) <==> exists k :: 0 <= k < n && steps[k] == step
  {
    if n > 0 { HappenedMeansAmong(steps, n - 1, step); }
  }

  /** One step of a run, with what is known before it. */
  lemma StepOfARun(workers: seq<Worker>, sts: seq<Group>, steps: seq<Step>, n: nat)
    requires Run(workers, sts, steps) && n < |steps|
    ensures Inv(sts[n]) && sts[n].workers == workers
    ensures Enabled(sts[n], steps[n]) && sts[n + 1] == Perform(sts[n], steps[n])
  {
    RunsKeepInv(workers, sts, steps, n);
  }

  lemma WhenAStepReturns(s: Group, step: Step, i: nat, fault: Option<Fault>)
    requires Inv(s) && Enabled(s, step) && i < |s.workers|
    ensures Shaped(Perform(s, step)) && |Perform(s, step).workers| == |s.workers|
    ensures Perform(s, step).outcome[i] == Some(fault) <==>
            s.outcome[i] == Some(fault) || step == WorkReturns(i, fault)
  {
  }

  lemma {:induction false} OutcomesAreReturns(workers: seq<Worker>, sts: seq<Group>, steps: seq<Step>, n: nat, i: nat,
        fault: Option<Fault>)
    requires Run(workers, sts, steps) && n < |sts| && i < |workers|
    ensures Shaped(sts[n]) && sts[n].workers == workers
    ensures sts[n].outcome[i] == Some(fault) <==> Happened(steps, n, WorkReturns(i, fault))
  {
    RunsKeepInv(workers, sts, steps, n);
    if n > 0 {
      OutcomesAreReturns(workers, sts, steps, n - 1, i, fault);
      StepOfARun(workers, sts, steps, n - 1);
      WhenAStepReturns(sts[n - 1], steps[n - 1], i, fault);
    }
  }

  lemma WhenAStepRecords(s: Group, step: Step)
    requires Shaped(s) && Enabled(s, step)
    ensures Perform(s, step).recorded == if step.Record? then s.recorded + [step.i] else s.recorded
  {
  }

  lemma {:induction false} RecordedAreTheRecords(workers: seq<Worker>, sts: seq<Group>, steps: seq<Step>, n: nat)
    requires Run(workers, sts, steps) && n < |sts|
    ensures sts[n].recorded == RecordsIn(steps[..n])
  {
    if n > 0 {
      RecordedAreTheRecords(workers, sts, steps, n - 1);
      StepOfARun(workers, sts, steps, n - 1);
      WhenAStepRecords(sts[n - 1], steps[n - 1]);
      assert steps[..n][..n - 1] == steps[..n - 1];
    }
  }

  /** The three events that end the group context: the parent is cancelled, an error is
      recorded, or the wait for the group is over. */
  predicate EndsTheGroup(s: Group, step: Step)
  {
    step == ParentCancels || step.Record? || (step == Advance && s.main == GroupWait)
  }

  lemma WhenStepsCancel(s: Group, step: Step)
    requires Inv(s) && Enabled(s, step)
    ensures Perform(s, step).cancelled <==> s.cancelled || EndsTheGroup(s, step)
  {
  }

  /** The group is cancelled exactly if one of these events has happened; until then the parent
      may be cancelled. */
  lemma {:induction false} WhenTheGroupIsCancelled(workers: seq<Worker>, sts: seq<Group>, steps: seq<Step>, n: nat)
    requires Run(workers, sts, steps) && n < |sts|
    ensures sts[n].cancelled <==> exists k :: 0 <= k < n && EndsTheGroup(sts[k], steps[k])
    ensures Shaped(sts[n]) && (Enabled(sts[n], ParentCancels) <==> !sts[n].cancelled)
  {
    RunsKeepInv(workers, sts, steps, n);
    if n > 0 {
      WhenTheGroupIsCancelled(workers, sts, steps, n - 1);
      StepOfARun(workers, sts, steps, n - 1);
      WhenStepsCancel(sts[n - 1], steps[n - 1]);
    }
  }

  lemma WhenAStepEndsWork(s: Group, step: Step, i: nat)
    requires Inv(s) && Enabled(s, step) && i < |s.workers|
    ensures var s' := Perform(s, step);
      && |s'.work| == |s.workers|
      && (s'.work[i].Finished? <==> s.work[i].Finished? || step == WorkDone(i))
      && (i in s'.recorded <==> i in s.recorded || step == Record(i))
  {
    WhenAStepRecords(s, step);
  }

  lemma {:induction false} WorkFollowsTheSteps(workers: seq<Worker>, sts: seq<Group>, steps: seq<Step>, n: nat, i: nat)
    requires Run(workers, sts, steps) && n < |sts| && i < |workers|
    ensures i < |sts[n].work|
    ensures sts[n].work[i].Finished? <==> Happened(steps, n, WorkDone(i))
    ensures i in sts[n].recorded <==> Happened(steps, n, Record(i))
  {
    if n > 0 {
      WorkFollowsTheSteps(workers, sts, steps, n - 1, i);
      StepOfARun(workers, sts, steps, n - 1);
      WhenAStepEndsWork(sts[n - 1], steps[n - 1], i);
    }
  }

  lemma {:induction false} HappenedStays(steps: seq<Step>, k: nat, n: nat, step: Step)
    requires k <= n <= |steps| && Happened(steps, k, step)
    ensures Happened(steps, n, step)
    decreases n
  {
    if k < n { HappenedStays(steps, k, n - 1, step); }
  }

  lemma FinishedStays(workers: seq<Worker>, sts: seq<Group>, steps: seq<Step>, k: nat, n: nat, i: nat)
    requires Run(workers, sts, steps) && k <= n < |sts| && i < |workers|
    requires i < |sts[k].work| && sts[k].work[i].Finished?
    ensures i < |sts[n].work| && sts[n].work[i].Finished?
  {
    WorkFollowsTheSteps(workers, sts, steps, k, i);
    WorkFollowsTheSteps(workers, sts, steps, n, i);
    HappenedStays(steps, k, n, WorkDone(i));
  }

  /** What is recorded at step k some worker had returned before. */
  lemma RecordsFollowErrors(workers: seq<Worker>, sts: seq<Group>, steps: seq<Step>, k: nat)
    requires Run(workers, sts, steps) && k < |steps| && steps[k].Record?
    ensures exists m :: 0 <= m < k && steps[m].WorkReturns? && steps[m].fault.Some? && steps[m].i == steps[k].i
  {
    var i := steps[k].i;
    RunsKeepInv(workers, sts, steps, k);
    assert WorkersMatch(sts[k]) && sts[k].work[i].Failed?;
    OutcomesAreReturns(workers, sts, steps, k, i, Some(sts[k].work[i].fault));
    HappenedMeansAmong(steps, k, WorkReturns(i, Some(sts[k].work[i].fault)));
    var m :| 0 <= m < k && steps[m] == WorkReturns(i, Some(sts[k].work[i].fault));
    assert steps[m].WorkReturns?;
  }

  ghost predicate ErrorFree(steps: seq<Step>, n: nat)
    requires n <= |steps|
  {
    forall k :: 0 <= k < n && steps[k].WorkReturns? ==> steps[k].fault == None
  }

  lemma NothingToRecord(workers: seq<Worker>, sts: seq<Group>, steps: seq<Step>, n: nat, k: nat)
    requires Run(workers, sts, steps) && k < n <= |steps| && ErrorFree(steps, n)
    ensures !steps[k].Record?
  {
    if steps[k].Record? { RecordsFollowErrors(workers, sts, steps, k); }
  }

  lemma GroupWaitEndsWithAllFinished(workers: seq<Worker>, sts: seq<Group>, steps: seq<Step>, k: nat, i: nat)
    requires Run(workers, sts, steps) && k < |steps| && i < |workers|
    requires steps[k] == Advance && sts[k].main == GroupWait
    ensures i < |sts[k].work| && sts[k].work[i].Finished?
  {
    StepOfARun(workers, sts, steps, k);
  }

  lemma FinishedErrorFreeMeansNil(workers: seq<Worker>, sts: seq<Group>, steps: seq<Step>, n: nat, i: nat)
    requires Run(workers, sts, steps) && n <= |steps| && ErrorFree(steps, n) && i < |workers|
    requires i < |sts[n].work| && sts[n].work[i].Finished?
    ensures Happened(steps, n, WorkReturns(i, None))
  {
    RunsKeepInv(workers, sts, steps, n);
    assert WorkersMatch(sts[n]);
    var fault := sts[n].outcome[i].value;
    OutcomesAreReturns(workers, sts, steps, n, i, fault);
    HappenedMeansAmong(steps, n, WorkReturns(i, fault));
  }

  /** A cleanup begins only for a reason: unless the parent was cancelled or some worker had
      returned an error, every worker has returned nil by then. */
  lemma WhyCleanUpsBegin(workers: seq<Worker>, sts: seq<Group>, steps: seq<Step>, n: nat, i: nat)
    requires Run(workers, sts, steps) && n < |steps| && steps[n].CleanBegins?
    requires ErrorFree(steps, n) && forall k :: 0 <= k < n ==> steps[k] != ParentCancels
    requires i < |workers|
    ensures i < |sts[n].work| && sts[n].work[i].Finished? && Happened(steps, n, WorkReturns(i, None))
  {
    StepOfARun(workers, sts, steps, n);
    WhenTheGroupIsCancelled(workers, sts, steps, n);
    var k :| 0 <= k < n && EndsTheGroup(sts[k], steps[k]);
    NothingToRecord(workers, sts, steps, n, k);
    GroupWaitEndsWithAllFinished(workers, sts, steps, k, i);
    FinishedStays(workers, sts, steps, k, n, i);
    FinishedErrorFreeMeansNil(workers, sts, steps, n, i);
  }

  /** What Start returned is the error of the first record of the run, returned by that worker;
      or nil, if the run has no record. */
  lemma ResultIsTheFirstRecord(workers: seq<Worker>, sts: seq<Group>, steps: seq<Step>, n: nat)
    requires Run(workers, sts, steps) && n < |sts| && sts[n].main.Exited?
    ensures RecordsIn(steps[..n]) == [] ==> sts[n].main.result == None
    ensures RecordsIn(steps[..n]) != [] ==>
      sts[n].main.result.Some? && Happened(steps, n, WorkReturns(RecordsIn(steps[..n])[0], sts[n].main.result))
  {
    SupervisorIsSafe(workers, sts, steps, n);
    RunsKeepInv(workers, sts, steps, n);
    RecordedAreTheRecords(workers, sts, steps, n);
    if sts[n].recorded != [] {
      OutcomesAreReturns(workers, sts, steps, n, sts[n].recorded[0], sts[n].main.result);
    }
  }

  // What the functions are free to do

  /** Start has launched worker i. */
  ghost predicate HasLaunched(sts: seq<Group>, steps: seq<Step>, n: nat, i: nat)
    requires n <= |steps| < |sts|
  {
    n > 0 && ((steps[n - 1] == Advance && sts[n - 1].main == Launching(i)) || HasLaunched(sts, steps, n - 1, i))
  }

  lemma WhenAStepLaunches(s: Group, step: Step, i: nat)
    requires Inv(s) && Enabled(s, step) && i < |s.workers|
    ensures Launched(Perform(s, step), i) <==> Launched(s, i) || (step == Advance && s.main == Launching(i))
  {
  }

  lemma {:induction false} LaunchedMeansHasLaunched(workers: seq<Worker>, sts: seq<Group>, steps: seq<Step>, n: nat,
        i: nat)
    requires Run(workers, sts, steps) && n < |sts| && i < |workers|
    ensures Launched(sts[n], i) <==> HasLaunched(sts, steps, n, i)
  {
    if n > 0 {
      LaunchedMeansHasLaunched(workers, sts, steps, n - 1, i);
      StepOfARun(workers, sts, steps, n - 1);
      WhenAStepLaunches(sts[n - 1], steps[n - 1], i);
    }
  }

  /** A worker may return anything at any time: exactly once it was launched and until it has
      returned something. */
  lemma WhenWorkersMayReturn(workers: seq<Worker>, sts: seq<Group>, steps: seq<Step>, n: nat, i: nat,
        fault: Option<Fault>)
    requires Run(workers, sts, steps) && n < |sts| && i < |workers|
    ensures Shaped(sts[n])
    ensures Enabled(sts[n], WorkReturns(i, fault)) <==>
            HasLaunched(sts, steps, n, i) && forall f :: !Happened(steps, n, WorkReturns(i, f))
  {
    RunsKeepInv(workers, sts, steps, n);
    LaunchedMeansHasLaunched(workers, sts, steps, n, i);
    forall f ensures sts[n].outcome[i] == Some(f) <==> Happened(steps, n, WorkReturns(i, f)) {
      OutcomesAreReturns(workers, sts, steps, n, i, f);
    }
    assert sts[n].outcome[i].Some? ==> Happened(steps, n, WorkReturns(i, sts[n].outcome[i].value));
  }

  /** The goroutine of cleanup i was started. */
  ghost predicate HasSpawned(sts: seq<Group>, steps: seq<Step>, n: nat, i: nat)
    requires n <= |steps| < |sts|
  {
    n > 0 && ((steps[n - 1] == Advance && sts[n - 1].main == Spawning(i)) || HasSpawned(sts, steps, n - 1, i))
  }

  lemma WhenAStepSpawns(s: Group, step: Step, i: nat)
    requires Inv(s) && Enabled(s, step) && i < |s.workers|
    ensures var (c, s') := (s.clean[i], Perform(s, step));
      && |s'.clean| == |s.workers|
      && (s'.clean[i].Waiting? || s'.clean[i].Begun() <==>
        c.Waiting? || c.Begun() || (step == Advance && s.main == Spawning(i)))
  {
  }

  lemma WhenAStepBegins(s: Group, step: Step, i: nat)
    requires Inv(s) && Enabled(s, step) && i < |s.workers|
    ensures var s' := Perform(s, step);
      |s'.clean| == |s.workers| && (s'.clean[i].Begun() <==> s.clean[i].Begun() || step == CleanBegins(i))
  {
  }

  lemma {:induction false} SpawnedMeansHasSpawned(workers: seq<Worker>, sts: seq<Group>, steps: seq<Step>, n: nat,
        i: nat)
    requires Run(workers, sts, steps) && n < |sts| && i < |workers|
    ensures i < |sts[n].clean|
    ensures sts[n].clean[i].Waiting? || sts[n].clean[i].Begun() <==> HasSpawned(sts, steps, n, i)
  {
    if n > 0 {
      SpawnedMeansHasSpawned(workers, sts, steps, n - 1, i);
      StepOfARun(workers, sts, steps, n - 1);
      WhenAStepSpawns(sts[n - 1], steps[n - 1], i);
    }
  }

  lemma {:induction false} BegunMeansHasBegun(workers: seq<Worker>, sts: seq<Group>, steps: seq<Step>, n: nat, i: nat)
    requires Run(workers, sts, steps) && n < |sts| && i < |workers|
    ensures i < |sts[n].clean|
    ensures sts[n].clean[i].Begun() <==> Happened(steps, n, CleanBegins(i))
  {
    if n > 0 {
      BegunMeansHasBegun(workers, sts, steps, n - 1, i);
      StepOfARun(workers, sts, steps, n - 1);
      WhenAStepBegins(sts[n - 1], steps[n - 1], i);
    }
  }

  /** A cleanup may begin exactly once its goroutine was started and the group is cancelled,
      and not twice. */
  lemma WhenCleanUpsMayBegin(workers: seq<Worker>, sts: seq<Group>, steps: seq<Step>, n: nat, i: nat)
    requires Run(workers, sts, steps) && n < |sts| && i < |workers|
    ensures Shaped(sts[n])
    ensures Enabled(sts[n], CleanBegins(i)) <==>
            && HasSpawned(sts, steps, n, i) && !Happened(steps, n, CleanBegins(i))
            && exists k :: 0 <= k < n && EndsTheGroup(sts[k], steps[k])
  {
    RunsKeepInv(workers, sts, steps, n);
    SpawnedMeansHasSpawned(workers, sts, steps, n, i);
    BegunMeansHasBegun(workers, sts, steps, n, i);
    WhenTheGroupIsCancelled(workers, sts, steps, n);
  }

  // The goroutines never wait for anything else

  lemma WhenAStepEndsACleanUp(s: Group, step: Step, i: nat)
    requires Inv(s) && Enabled(s, step) && i < |s.workers|
    ensures var s' := Perform(s, step);
      && |s'.clean| == |s.workers|
      && (s'.clean[i].Returned? || s'.clean[i].Cleaned? <==>
        s.clean[i].Returned? || s.clean[i].Cleaned? || step == CleanReturns(i))
      && (s'.clean[i].Cleaned? <==> s.clean[i].Cleaned? || step == CleanDone(i))
  {
  }

  lemma {:induction false} CleanUpsFollowTheSteps(workers: seq<Worker>, sts: seq<Group>, steps: seq<Step>, n: nat,
        i: nat)
    requires Run(workers, sts, steps) && n < |sts| && i < |workers|
    ensures i < |sts[n].clean|
    ensures sts[n].clean[i].Returned? || sts[n].clean[i].Cleaned? <==> Happened(steps, n, CleanReturns(i))
    ensures sts[n].clean[i].Cleaned? <==> Happened(steps, n, CleanDone(i))
  {
    if n > 0 {
      CleanUpsFollowTheSteps(workers, sts, steps, n - 1, i);
      StepOfARun(workers, sts, steps, n - 1);
      WhenAStepEndsACleanUp(sts[n - 1], steps[n - 1], i);
    }
  }

  /** An error can be recorded at any time from its return on, once; a worker's goroutine can
      end at any time after its nil or the recording of its error, once. */
  lemma WhenWorkersCanEnd(workers: seq<Worker>, sts: seq<Group>, steps: seq<Step>, n: nat, i: nat)
    requires Run(workers, sts, steps) && n < |sts| && i < |workers|
    ensures Shaped(sts[n])
    ensures Enabled(sts[n], Record(i)) <==>
            (exists f :: Happened(steps, n, WorkReturns(i, Some(f)))) && !Happened(steps, n, Record(i))
    ensures Enabled(sts[n], WorkDone(i)) <==>
            && (Happened(steps, n, WorkReturns(i, None)) || Happened(steps, n, Record(i)))
            && !Happened(steps, n, WorkDone(i))
  {
    RunsKeepInv(workers, sts, steps, n);
    WorkFollowsTheSteps(workers, sts, steps, n, i);
    forall f ensures sts[n].outcome[i] == Some(f) <==> Happened(steps, n, WorkReturns(i, f)) {
      OutcomesAreReturns(workers, sts, steps, n, i, f);
    }
    var o := sts[n].outcome[i];
    assert o.Some? && o.value.Some? ==> Happened(steps, n, WorkReturns(i, Some(o.value.value)));
  }

  /** A cleanup that has begun may return at any time, once, and its goroutine can end at any
      time after that, once. */
  lemma WhenCleanUpsCanEnd(workers: seq<Worker>, sts: seq<Group>, steps: seq<Step>, n: nat, i: nat)
    requires Run(workers, sts, steps) && n < |sts| && i < |workers|
    ensures Shaped(sts[n])
    ensures Enabled(sts[n], CleanReturns(i)) <==>
            Happened(steps, n, CleanBegins(i)) && !Happened(steps, n, CleanReturns(i))
    ensures Enabled(sts[n], CleanDone(i)) <==>
            Happened(steps, n, CleanReturns(i)) && !Happened(steps, n, CleanDone(i))
  {
    RunsKeepInv(workers, sts, steps, n);
    CleanUpsFollowTheSteps(workers, sts, steps, n, i);
    BegunMeansHasBegun(workers, sts, steps, n, i);
  }

  /** Start waits twice and for nothing else: for the end of every worker's goroutine, and for
      the end of every cleanup's. */
  lemma WhenStartWaits(workers: seq<Worker>, sts: seq<Group>, steps: seq<Step>, n: nat)
    requires Run(workers, sts, steps) && n < |sts| && !sts[n].main.Exited?
    ensures Shaped(sts[n])
    ensures !Enabled(sts[n], Advance) <==>
            || (sts[n].main == GroupWait && exists i :: 0 <= i < |workers| && !Happened(steps, n, WorkDone(i)))
            || (sts[n].main == CleanWait &&
              exists i :: 0 <= i < |workers| && workers[i].hasCleanUp && !Happened(steps, n, CleanDone(i)))
  {
    var s := sts[n];
    RunsKeepInv(workers, sts, steps, n);
    forall i | 0 <= i < |workers|
      ensures s.work[i].Finished? <==> Happened(steps, n, WorkDone(i))
      ensures s.clean[i].Cleaned? <==> Happened(steps, n, CleanDone(i))
    {
      WorkFollowsTheSteps(workers, sts, steps, n, i);
      CleanUpsFollowTheSteps(workers, sts, steps, n, i);
    }
    if s.main.CleanWait? {
      if s.count == 0 {
        forall i | 0 <= i < |workers| ensures s.clean[i].Live() == 0 { UnfinishedAfter(s.clean, i, Cleaned); }
      } else {
        var i := SomeUnfinished(s.clean);
        assert workers[i].hasCleanUp && !s.clean[i].Cleaned?;
      }
    }
  }
}
