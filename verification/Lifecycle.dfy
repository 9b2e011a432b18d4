/** Init and Shutdown against the monitor thread: the main thread's assignments and the
    monitor's steps interleave at every access to shared state. */
module Lifecycle {
  import opened Options

  /** Where the main thread is in Init or Shutdown. */
  datatype MainPc =
    | Outside
    | MakingReporter(profile: bool)
    | Starting(profile: bool)
    | Spawning
    | FinishingInit
    | Stopping
    | Joining
    | Reporting
    | Destroying
    | Nulling
    | Resetting

  datatype MonitorPc =
    | NoThread
    | AtTest                                // the test of the loop
    | Sleeping
    | Checking                              // in the sweep over the threads
    | Capturing                             // a thread was busy; before GetReporter
    | Holding(reporter: Option<nat>)        // after GetReporter, before ReportHighCpu
    | Finished

  /** A report and whether its reporter existed when it was made. */
  datatype LogEntry = LogEntry(reporter: nat, alive: bool)

  datatype State = State(
    initialized: bool,
    reporter: Option<nat>,
    alive: set<nat>,
    made: nat,
    running: bool,
    main: MainPc,
    monitor: MonitorPc,
    log: seq<LogEntry>)

  const INITIAL := State(false, None, {}, 0, false, Outside, NoThread, [])

  datatype Step =
    | CallInit(profile: bool)
    | MakeReporter
    | StartMonitor
    | Spawn
    | FinishInit
    | CallShutdown
    | ClearRunning
    | Join
    | ReportLeaks
    | DestroyReporter
    | NullReporter
    | Reset
    | Test
    | Wake
    | FoundBusy
    | EndSweep
    | GetReporter
    | ReportHighCpu

  predicate IsMonitorStep(step: Step) {
    step.Test? || step.Wake? || step.FoundBusy? || step.EndSweep? || step.GetReporter? || step.ReportHighCpu?
  }

  predicate Enabled(s: State, step: Step) {
    match step
    case CallInit(_) => s.main.Outside?
    case MakeReporter => s.main.MakingReporter?
    case StartMonitor => s.main.Starting?
    case Spawn => s.main.Spawning?
    case FinishInit => s.main.FinishingInit?
    case CallShutdown => s.main.Outside?
    case ClearRunning => s.main.Stopping?
    case Join => s.main.Joining? && s.monitor.Finished?
    case ReportLeaks => s.main.Reporting?
    case DestroyReporter => s.main.Destroying?
    case NullReporter => s.main.Nulling?
    case Reset => s.main.Resetting?
    case Test => s.monitor.AtTest?
    case Wake => s.monitor.Sleeping?
    case FoundBusy => s.monitor.Checking?
    case EndSweep => s.monitor.Checking?
    case GetReporter => s.monitor.Capturing?
    case ReportHighCpu => s.monitor.Holding?
  }

  function Logged(s: State, reporter: Option<nat>): seq<LogEntry> {
    if reporter.None? then s.log else s.log + [LogEntry(reporter.value, reporter.value in s.alive)]
  }

  function Next(s: State, step: Step): State
    requires Enabled(s, step)
  {
    match step
    case CallInit(profile) => if s.initialized then s else s.(main := MakingReporter(profile))
    case MakeReporter =>
      s.(reporter := Some(s.made), alive := s.alive + {s.made}, made := s.made + 1, main := Starting(s.main.profile))
    case StartMonitor =>
      if !s.main.profile || s.running then s.(main := FinishingInit)
      else s.(running := true, main := Spawning)
    case Spawn => s.(monitor := AtTest, main := FinishingInit)
    case FinishInit => s.(initialized := true, main := Outside)
    case CallShutdown => if !s.initialized then s else s.(main := Stopping)
    case ClearRunning => if !s.running then s.(main := Reporting) else s.(running := false, main := Joining)
    case Join => s.(monitor := NoThread, main := Reporting)
    case ReportLeaks => s.(log := Logged(s, s.reporter), main := Destroying)
    case DestroyReporter =>
      if s.reporter.None? then s.(main := Resetting)
      else s.(alive := s.alive - {s.reporter.value}, main := Nulling)
    case NullReporter => s.(reporter := None, main := Resetting)
    case Reset => s.(initialized := false, main := Outside)
    case Test => s.(monitor := if s.running then Sleeping else Finished)
    case Wake => s.(monitor := Checking)
    case FoundBusy => s.(monitor := Capturing)
    case EndSweep => s.(monitor := AtTest)
    case GetReporter => s.(monitor := Holding(s.reporter))
    case ReportHighCpu => s.(log := Logged(s, s.monitor.reporter), monitor := Checking)
  }

  /** The main thread is where a monitor may be at work. */
  predicate MonitorMayRun(main: MainPc) {
    main.Outside? || main.FinishingInit? || main.Stopping? || main.Joining?
  }

  ghost predicate Inv(s: State) {
    && (s.main.Outside? ==> (s.initialized <==> s.reporter.Some?))
    && (s.main.MakingReporter? || s.main.Starting? || s.main.Spawning? || s.main.FinishingInit? ==> !s.initialized)
    && (s.main.Starting? || s.main.Spawning? || s.main.FinishingInit? || s.main.Stopping? || s.main.Joining? ==>
          s.reporter.Some?)
    && (s.main.Reporting? || s.main.Destroying? || s.main.Nulling? ==> s.reporter.Some?)
    && (s.main.MakingReporter? || s.main.Resetting? ==> s.reporter.None?)
    && s.alive == (if s.reporter.Some? && !s.main.Nulling? then {s.reporter.value} else {})
    && (s.reporter.Some? ==> s.reporter.value < s.made)
    && (!s.monitor.NoThread? ==> s.reporter.Some? && MonitorMayRun(s.main))
    && (s.monitor.Holding? ==> s.monitor.reporter == s.reporter)
    && (s.monitor.Finished? ==> s.main.Joining?)
    && (s.running <==> s.main.Spawning? || (!s.monitor.NoThread? && !s.main.Joining?))
    && (s.main.Joining? ==> !s.monitor.NoThread?)
    && forall i :: 0 <= i < |s.log| ==> s.log[i].alive
  }

  lemma StepKeepsInv(s: State, step: Step)
    requires Inv(s) && Enabled(s, step)
    ensures Inv(Next(s, step))
  {
  }

  // ----- runs -----

  predicate Runs(s: State, steps: seq<Step>)
    decreases |steps|
  {
    steps != [] ==> Enabled(s, steps[0]) && Runs(Next(s, steps[0]), steps[1..])
  }

  function Run(s: State, steps: seq<Step>): State
    requires Runs(s, steps)
    decreases |steps|
  {
    if steps == [] then s else Run(Next(s, steps[0]), steps[1..])
  }

  lemma {:induction false} RunKeepsInv(s: State, steps: seq<Step>)
    requires Inv(s) && Runs(s, steps)
    ensures Inv(Run(s, steps))
    decreases |steps|
  {
    if steps != [] {
      StepKeepsInv(s, steps[0]);
      RunKeepsInv(Next(s, steps[0]), steps[1..]);
    }
  }

  /** Over any number of Init and Shutdown calls interleaved with the monitor: every report
      went to a reporter that had been made and not yet destroyed; at most one exists at a
      time; and once Stop has returned no monitor step can happen. */
  lemma ReportersOutliveTheirReports(steps: seq<Step>)
    requires Runs(INITIAL, steps)
    ensures var s := Run(INITIAL, steps);
            && (forall i :: 0 <= i < |s.log| ==> s.log[i].alive)
            && |s.alive| <= 1
            && (s.main.Reporting? || s.main.Destroying? || s.main.Nulling? || s.main.Resetting? ==>
                  forall step :: IsMonitorStep(step) ==> !Enabled(s, step))
            && (s.main.Outside? && !s.initialized ==>
                  s.alive == {} && forall step :: IsMonitorStep(step) ==> !Enabled(s, step))
  {
    RunKeepsInv(INITIAL, steps);
  }

  // ----- what is reported -----

  predicate Reports(step: Step) {
    step.ReportHighCpu? || step.ReportLeaks?
  }

  /** A report of either thread, when it has a reporter, is received by that reporter, which is
      the current one and exists; no other step is. */
  lemma ReportsAreReceived(s: State, step: Step)
    requires Inv(s) && Enabled(s, step)
    ensures var q := Next(s, step);
            if Reports(step) then s.reporter.Some? && q.log == s.log + [LogEntry(s.reporter.value, true)]
            else q.log == s.log
  {
  }

  /** Init, alone, makes a new reporter and leaves a monitor thread at its loop exactly if the
      profiler is configured. */
  lemma InitMakesReporterAndMonitor(s: State, profile: bool) returns (steps: seq<Step>)
    requires Inv(s) && s.main.Outside? && !s.initialized
    ensures Runs(s, steps) && (forall i :: 0 <= i < |steps| ==> !IsMonitorStep(steps[i]))
    ensures var q := Run(s, steps);
            && q.main.Outside? && q.initialized && q.reporter == Some(s.made) && q.alive == {s.made}
            && q.running == profile && q.monitor == (if profile then AtTest else NoThread)
  {
    var s1 := Next(s, CallInit(profile));
    var s2 := Next(s1, MakeReporter);
    var s3 := Next(s2, StartMonitor);
    var last: seq<Step> := [FinishInit];
    if profile {
      Prepend(Next(s3, Spawn), FinishInit, []);
      Prepend(s3, Spawn, [FinishInit] + []);
      last := [Spawn] + ([FinishInit] + []);
    } else {
      Prepend(s3, FinishInit, []);
      last := [FinishInit] + [];
    }
    Prepend(s2, StartMonitor, last);
    Prepend(s1, MakeReporter, [StartMonitor] + last);
    Prepend(s, CallInit(profile), [MakeReporter] + ([StartMonitor] + last));
    steps := [CallInit(profile)] + ([MakeReporter] + ([StartMonitor] + last));
  }

  /** A thread found busy while the monitor runs is reported to the reporter of the session,
      by the monitor alone. */
  lemma BusyThreadIsReported(s: State) returns (steps: seq<Step>)
    requires Inv(s) && s.monitor.AtTest? && s.running
    ensures Runs(s, steps) && (forall i :: 0 <= i < |steps| ==> IsMonitorStep(steps[i]))
    ensures s.reporter.Some? && Run(s, steps).log == s.log + [LogEntry(s.reporter.value, true)]
  {
    var s1 := Next(s, Test);
    var s2 := Next(s1, Wake);
    var s3 := Next(s2, FoundBusy);
    var s4 := Next(s3, GetReporter);
    Prepend(s4, ReportHighCpu, []);
    Prepend(s3, GetReporter, [ReportHighCpu] + []);
    Prepend(s2, FoundBusy, [GetReporter] + ([ReportHighCpu] + []));
    Prepend(s1, Wake, [FoundBusy] + ([GetReporter] + ([ReportHighCpu] + [])));
    Prepend(s, Test, [Wake] + ([FoundBusy] + ([GetReporter] + ([ReportHighCpu] + []))));
    steps := [Test] + ([Wake] + ([FoundBusy] + ([GetReporter] + ([ReportHighCpu] + []))));
  }

  // ----- Stop terminates -----

  lemma Prepend(s: State, step: Step, rest: seq<Step>)
    requires Enabled(s, step) && Runs(Next(s, step), rest)
    ensures Runs(s, [step] + rest) && Run(s, [step] + rest) == Run(Next(s, step), rest)
  {
    assert ([step] + rest)[1..] == rest;
  }

  function Distance(monitor: MonitorPc): nat {
    match monitor
    case Sleeping => 5
    case Capturing => 4
    case Holding(_) => 3
    case Checking => 2
    case AtTest => 1
    case _ => 0
  }

  /** Once the flag is cleared the monitor can leave its loop from anywhere, and the join
      lets Shutdown go on to report and destroy. */
  lemma {:induction false} JoinSucceeds(s: State) returns (steps: seq<Step>)
    requires Inv(s) && s.main.Joining?
    ensures Runs(s, steps) && Run(s, steps).main.Reporting? && Run(s, steps).monitor.NoThread?
    decreases Distance(s.monitor)
  {
    if s.monitor.Finished? {
      Prepend(s, Join, []);
      steps := [Join] + [];
    } else {
      var step := match s.monitor
        case Sleeping => Wake
        case Capturing => GetReporter
        case Holding(_) => ReportHighCpu
        case Checking => EndSweep
        case _ => Test;
      StepKeepsInv(s, step);
      var rest := JoinSucceeds(Next(s, step));
      Prepend(s, step, rest);
      steps := [step] + rest;
    }
  }
}
