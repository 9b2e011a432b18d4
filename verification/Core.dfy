/** DomovoyCore: the order in which Init and Shutdown work on the hooks, the isolated
    allocator, the two monitors and the reporter, and the two reports Shutdown makes. */
module Core {
  import opened Options
  import opened LeakGroups
  import opened LeakReport
  import opened ReportLaws
  import opened AllocationHooks
  import opened BlockPool
  import CpuMonitor
  import IsolatedAllocator
  import IoMonitor

  datatype DomovoyConfig = DomovoyConfig(
    allocatorCapacityBytes: nat, enableLeakDetection: bool, enableCpuProfiler: bool, enableIoMonitoring: bool,
    enableSummary: bool, enableDetails: bool)

  const DEFAULT_CONFIG := DomovoyConfig(2 * 1024 * 1024, false, false, false, true, true)

  function ReportConfig(c: DomovoyConfig): Config {
    Config(c.enableSummary, c.enableDetails)
  }

  const MAX_ALIGN := 16  // alignof(std::max_align_t)

  /** The sizes the compiler gives to what Init puts in the isolated pool. */
  datatype Layout = Layout(mapSize: nat, mapAlignment: nat, reporterSize: nat)

  /** The kernel's answers: a first block, a block for the map, a block for the reporter. */
  datatype Answers = Answers(forHead: Option<nat>, forMap: Option<nat>, forReporter: Option<nat>)

  /** How Init ends. It spins when an earlier call was left in the middle of the binding. */
  datatype InitResult = Done | Threw | Spins

  /** The pool once the hooks have their map in it, and whether it was obtained. Bound hooks
      have it already. */
  function WithMap(p: Pool, bound: bool, layout: Layout, answers: Answers): (Pool, bool) {
    if bound then (p, true)
    else
      var (q, r) := Allocated(p, layout.mapSize, layout.mapAlignment, answers.forHead, answers.forMap);
      (q, r.Some?)
  }

  /** The pool after `Initialize` and with the reporter in it, too. */
  function WithReporter(p: Pool, capacity: nat, layout: Layout, answers: Answers): (Pool, bool) {
    var (q, r) := Allocated(Initialized(p, capacity, None), layout.reporterSize, MAX_ALIGN, None, answers.forReporter);
    (q, r.Some?)
  }

  /** The pool after the allocator's part of Init, whether the map and whether the reporter was
      obtained. */
  function Prepared(p: Pool, bound: bool, capacity: nat, layout: Layout, answers: Answers): (Pool, bool, bool) {
    var (q, mapped) := WithMap(p, bound, layout, answers);
    if !mapped then (q, false, false)
    else
      var (r, placed) := WithReporter(q, capacity, layout, answers);
      (r, true, placed)
  }

  /** A block asked of the kernel while others are mapped, and its answer. */
  datatype Request = Request(segments: seq<Segment>, total: nat, answer: Option<nat>)

  /** The requests Init may come to make. */
  predicate IsRequest(r: Request, p: Pool, bound: bool, layout: Layout, answers: Answers) {
    || (!bound && r == Request(p.segments, MapSize(MIN_BLOCK), answers.forHead))
    || (!bound && r == Request(Initialized(p, MIN_BLOCK, answers.forHead).segments,
                               MapSize(NewBlockSize(layout.mapSize)), answers.forMap))
    || r == Request(WithMap(p, bound, layout, answers).0.segments,
                    MapSize(NewBlockSize(layout.reporterSize)), answers.forReporter)
  }

  ghost predicate KernelMay(p: Pool, bound: bool, layout: Layout, answers: Answers) {
    forall r :: IsRequest(r, p, bound, layout, answers) ==> MayAnswer(r.segments, r.total, r.answer)
  }

  lemma KernelMayAnswerEach(p: Pool, bound: bool, layout: Layout, answers: Answers)
    requires KernelMay(p, bound, layout, answers)
    ensures !bound ==> AnswersOk(p, layout.mapSize, answers.forHead, answers.forMap)
    ensures MayAnswer(WithMap(p, bound, layout, answers).0.segments,
                      MapSize(NewBlockSize(layout.reporterSize)), answers.forReporter)
  {
    var head := Request(p.segments, MapSize(MIN_BLOCK), answers.forHead);
    var forMap := Request(Initialized(p, MIN_BLOCK, answers.forHead).segments,
                          MapSize(NewBlockSize(layout.mapSize)), answers.forMap);
    var forReporter := Request(WithMap(p, bound, layout, answers).0.segments,
                               MapSize(NewBlockSize(layout.reporterSize)), answers.forReporter);
    assert !bound ==> IsRequest(head, p, bound, layout, answers) && IsRequest(forMap, p, bound, layout, answers);
    assert IsRequest(forReporter, p, bound, layout, answers);
  }

  /** What Init and Shutdown change besides the pool. */
  datatype View = View(
    config: DomovoyConfig, initialized: bool, ioFunctionsBound: bool,
    functionsBound: bool, mapCreated: bool, detecting: bool,
    io: IoMonitor.Monitor, profiling: bool)
  {
    /** Once the hooks have their map the pool is not empty. */
    predicate Coherent(pool: Pool) {
      && detecting == config.enableLeakDetection
      && (mapCreated ==> functionsBound && pool.segments != [])
      && (initialized ==> ioFunctionsBound && mapCreated)
    }

    /** The binding of the allocation hooks was left by a throw: only the map is missing. */
    predicate Abandoned() {
      functionsBound && !mapCreated
    }
  }

  function Configured(s: View, newConfig: DomovoyConfig): View {
    s.(config := newConfig, detecting := newConfig.enableLeakDetection)
  }

  /** The rest of Init once the allocator has done its part. */
  function Finished(s: View, mapped: bool, placed: bool): View {
    if !mapped then s.(functionsBound := true)
    else
      var bound := s.(functionsBound := true, mapCreated := true, ioFunctionsBound := true);
      if !placed then bound
      else
        bound.(
          initialized := true,
          io := if s.config.enableIoMonitoring then IoMonitor.After(s.io, IoMonitor.Enable) else s.io,
          profiling := s.profiling || s.config.enableCpuProfiler)
  }

  /** Init. When the allocator throws, the call leaves with detection already switched as
      configured; a throw over the map leaves the binding abandoned, and a further call spins. */
  function InitAfter(s: View, p: Pool, newConfig: DomovoyConfig, layout: Layout, answers: Answers)
    : (View, Pool, InitResult)
  {
    if s.initialized then (s, p, Done) else StartAfter(Configured(s, newConfig), p, layout, answers)
  }

  function StartAfter(s: View, p: Pool, layout: Layout, answers: Answers): (View, Pool, InitResult) {
    if s.Abandoned() then (s, p, Spins)
    else
      var (q, mapped, placed) := Prepared(p, s.functionsBound, s.config.allocatorCapacityBytes, layout, answers);
      (Finished(s, mapped, placed), q, if placed then Done else Threw)
  }

  lemma AllocatingFillsThePool(p: Pool, size: nat, alignment: nat, forHead: Option<nat>, forNew: Option<nat>)
    ensures var (q, r) := Allocated(p, size, alignment, forHead, forNew);
            r.Some? || p.segments != [] ==> q.segments != []
  {
  }

  lemma PreparingFillsThePool(p: Pool, bound: bool, capacity: nat, layout: Layout, answers: Answers)
    requires bound ==> p.segments != []
    ensures var (q, mapped, placed) := Prepared(p, bound, capacity, layout, answers); mapped ==> q.segments != []
  {
    AllocatingFillsThePool(p, layout.mapSize, layout.mapAlignment, answers.forHead, answers.forMap);
    var (q, mapped) := WithMap(p, bound, layout, answers);
    AllocatingFillsThePool(Initialized(q, capacity, None), layout.reporterSize, MAX_ALIGN, None, answers.forReporter);
  }

  /** Init never empties the pool, and the hooks have their map only when it is in there. */
  lemma InitKeepsCoherent(s: View, p: Pool, newConfig: DomovoyConfig, layout: Layout, answers: Answers)
    requires s.Coherent(p)
    ensures var (t, q, _) := InitAfter(s, p, newConfig, layout, answers); t.Coherent(q)
  {
    if !s.initialized && !s.Abandoned() {
      PreparingFillsThePool(p, s.functionsBound, newConfig.allocatorCapacityBytes, layout, answers);
    }
  }

  /** The pointers Init has handed out: one for the map of hooks not bound before, and one for
      the reporter. */
  predicate GivenForInit(before: seq<Region>, after: seq<Region>, bound: bool, layout: Layout) {
    && |after| == |before| + (if bound then 1 else 2) && before == after[..|before|]
    && (!bound ==>
          after[|before|].size == layout.mapSize && after[|before|].alignment == layout.mapAlignment)
    && after[|after| - 1].size == layout.reporterSize && after[|after| - 1].alignment == 16
  }

  /** What had been handed out when Init threw: the map, if it was not the map that failed. */
  predicate GivenBeforeThrow(before: seq<Region>, after: seq<Region>, bound: bool, mapped: bool, layout: Layout) {
    if bound || !mapped then after == before
    else
      && |after| == |before| + 1 && before == after[..|before|]
      && after[|before|].size == layout.mapSize && after[|before|].alignment == layout.mapAlignment
  }

  lemma PreparingGives(p: Pool, bound: bool, capacity: nat, layout: Layout, answers: Answers)
    ensures var (q, mapped, placed) := Prepared(p, bound, capacity, layout, answers);
            && (placed ==> mapped && GivenForInit(p.given, q.given, bound, layout))
            && (bound ==> mapped)
            && (!placed ==> GivenBeforeThrow(p.given, q.given, bound, mapped, layout))
  {
    var (m, mapped) := WithMap(p, bound, layout, answers);
    AllocatingGives(p, layout.mapSize, layout.mapAlignment, answers.forHead, answers.forMap);
    AllocatingGives(Initialized(m, capacity, None), layout.reporterSize, MAX_ALIGN, None, answers.forReporter);
  }

  lemma AllocatingGives(p: Pool, size: nat, alignment: nat, forHead: Option<nat>, forNew: Option<nat>)
    ensures var (q, r) := Allocated(p, size, alignment, forHead, forNew);
            q.given == p.given + if r.None? then [] else [Region(r.value, size, alignment)]
  {
  }

  /** How a state, the configuration and the outcome of Init go together. */
  predicate InitPromise(s: View, t: View, result: InitResult, newConfig: DomovoyConfig) {
    && (result.Spins? <==> !s.initialized && s.functionsBound && !s.mapCreated)
    && (t.initialized <==> result.Done?)
    && (s.initialized ==> t == s)
    && (!s.initialized ==> t.config == newConfig && t.detecting == newConfig.enableLeakDetection)
    && t.io.fds == s.io.fds
    && (if !s.initialized && result.Done? then
          && t.ioFunctionsBound && t.functionsBound && t.mapCreated
          && t.io.enabled == (s.io.enabled || newConfig.enableIoMonitoring)
          && t.profiling == (s.profiling || newConfig.enableCpuProfiler)
        else
          t.io == s.io && t.profiling == s.profiling)
    && (result.Threw? ==> t.functionsBound && t.ioFunctionsBound == (s.ioFunctionsBound || t.mapCreated))
  }

  lemma InitKeepsItsPromise(s: View, p: Pool, newConfig: DomovoyConfig, layout: Layout, answers: Answers)
    requires s.mapCreated ==> s.functionsBound
    ensures var (t, q, result) := InitAfter(s, p, newConfig, layout, answers);
            && InitPromise(s, t, result, newConfig)
            && (s.initialized || result.Spins? ==> q == p)
            && (!s.initialized && result.Done? ==> GivenForInit(p.given, q.given, s.functionsBound, layout))
            && (result.Threw? ==> GivenBeforeThrow(p.given, q.given, s.functionsBound, t.mapCreated, layout))
  {
    PreparingGives(p, s.functionsBound, newConfig.allocatorCapacityBytes, layout, answers);
  }

  /** The capacity configured for the allocator has no part in what Init does: by the time it
      is looked at, the hooks' map has been placed and the list is not empty. */
  lemma ConfiguredCapacityHasNoEffect(
    s: View, p: Pool, newConfig: DomovoyConfig, capacity: nat, layout: Layout, answers: Answers)
    requires s.Coherent(p)
    ensures var (a, q, x) := InitAfter(s, p, newConfig, layout, answers);
            var (b, r, y) := InitAfter(s, p, newConfig.(allocatorCapacityBytes := capacity), layout, answers);
            q == r && x == y && a == b.(config := a.config)
  {
    if !s.initialized && !s.Abandoned() {
      PreparedIgnoresCapacity(p, s.functionsBound, newConfig.allocatorCapacityBytes, capacity, layout, answers);
    }
  }

  lemma PreparedIgnoresCapacity(p: Pool, bound: bool, one: nat, other: nat, layout: Layout, answers: Answers)
    requires bound ==> p.segments != []
    ensures Prepared(p, bound, one, layout, answers) == Prepared(p, bound, other, layout, answers)
  {
    AllocatingFillsThePool(p, layout.mapSize, layout.mapAlignment, answers.forHead, answers.forMap);
  }

  class DomovoyCore {
    const allocator: IsolatedAllocator.IsolatedAllocator
    const hooks: Hooks
    const io: IoMonitor.IoMonitor
    const cpu: CpuMonitor.CpuMonitor
    const layout: Layout
    var ioFunctionsBound: bool
    var config: DomovoyConfig
    var initialized: bool
    var hasReporter: bool

    ghost function Now(): View
      reads this, hooks, io, cpu
    {
      View(config, initialized, ioFunctionsBound,
           hooks.realFunctionsBound, hooks.mapCreated, hooks.enableLeakDetection,
           io.State(), cpu.running)
    }

    ghost predicate Valid()
      reads this, hooks, allocator, io, cpu
    {
      hooks.Valid() && hasReporter == initialized && Now().Coherent(allocator.pool)
    }

    constructor (
      allocator: IsolatedAllocator.IsolatedAllocator, hooks: Hooks,
      io: IoMonitor.IoMonitor, cpu: CpuMonitor.CpuMonitor, layout: Layout)
      requires hooks.Valid() && !hooks.enableLeakDetection
      requires hooks.mapCreated ==> allocator.pool.segments != []
      ensures Valid() && !initialized && this.layout == layout
      ensures this.allocator == allocator && this.hooks == hooks && this.io == io && this.cpu == cpu
    {
      this.allocator, this.hooks, this.io, this.cpu, this.layout := allocator, hooks, io, cpu, layout;
      ioFunctionsBound, config, initialized, hasReporter := false, DEFAULT_CONFIG, false, false;
    }

    /** The hooks' map is placed in the pool unless it is there already. */
    method PlaceMap(answers: Answers) returns (placed: bool)
      requires allocator.Valid() && (hooks.realFunctionsBound ==> allocator.pool.segments != [])
      requires !hooks.realFunctionsBound ==> AnswersOk(allocator.pool, layout.mapSize, answers.forHead, answers.forMap)
      modifies allocator, allocator.chain, allocator.kernel
      ensures allocator.Valid() && (placed ==> allocator.pool.segments != [])
      ensures (allocator.pool, placed) == WithMap(old(allocator.pool), hooks.realFunctionsBound, layout, answers)
      ensures allocator.AddsFresh()
    {
      if hooks.realFunctionsBound {
        return true;
      }
      var mapMemory := allocator.Allocate(layout.mapSize, layout.mapAlignment, answers.forHead, answers.forMap);
      placed := mapMemory.Some?;
    }

    /** `Initialize` and the reporter. By now the list is not empty, so the kernel is not asked
        for the configured capacity. */
    method PlaceReporter(answers: Answers) returns (placed: bool)
      requires allocator.Valid() && allocator.pool.segments != []
      requires MayAnswer(allocator.pool.segments, MapSize(NewBlockSize(layout.reporterSize)), answers.forReporter)
      modifies allocator, allocator.chain, allocator.kernel
      ensures allocator.Valid() && allocator.pool.segments != []
      ensures (allocator.pool, placed) ==
              WithReporter(old(allocator.pool), config.allocatorCapacityBytes, layout, answers)
      ensures allocator.AddsFresh()
    {
      var threw := allocator.Initialize(config.allocatorCapacityBytes, None);
      assert !threw;
      var reporter := allocator.Allocate(layout.reporterSize, MAX_ALIGN, None, answers.forReporter);
      placed := reporter.Some?;
    }

    /** The allocator's part of Init: what the binding of the hooks and Init itself put there. */
    method Prepare(answers: Answers) returns (mapped: bool, placed: bool)
      requires allocator.Valid() && (hooks.realFunctionsBound ==> allocator.pool.segments != [])
      requires KernelMay(allocator.pool, hooks.realFunctionsBound, layout, answers)
      modifies allocator, allocator.chain, allocator.kernel
      ensures allocator.Valid() && (hooks.realFunctionsBound || placed ==> mapped)
      ensures (allocator.pool, mapped, placed) ==
              Prepared(old(allocator.pool), hooks.realFunctionsBound, config.allocatorCapacityBytes, layout, answers)
      ensures allocator.AddsFresh()
    {
      KernelMayAnswerEach(allocator.pool, hooks.realFunctionsBound, layout, answers);
      placed := false;
      mapped := PlaceMap(answers);
      if mapped {
        placed := PlaceReporter(answers);
      }
    }

    method Configure(newConfig: DomovoyConfig)
      requires allocator.Valid()
      modifies this`config, hooks`enableLeakDetection
      ensures allocator.Valid() && Now() == Configured(old(Now()), newConfig)
    {
      config := newConfig;
      hooks.enableLeakDetection := newConfig.enableLeakDetection;
      allocator.StaysValid();
    }

    /** The bodies of the two layers, the reporter's construction and the monitors. */
    method Finish(mapped: bool, placed: bool)
      requires hooks.Valid() && !initialized && !hasReporter && hooks.Whole()
      requires (hooks.realFunctionsBound ==> mapped) && (placed ==> mapped) && allocator.Valid()
      modifies this`ioFunctionsBound, this`hasReporter, this`initialized
      modifies hooks`realFunctionsBound, hooks`mapCreated, io, cpu`running
      ensures hooks.Valid() && hasReporter == initialized && allocator.Valid()
      ensures Now() == Finished(old(Now()), mapped, placed)
    {
      BindAndEnter(mapped, placed);
      allocator.StaysValid();
    }

    method BindAndEnter(mapped: bool, placed: bool)
      requires hooks.Valid() && !initialized && !hasReporter && hooks.Whole()
      requires (hooks.realFunctionsBound ==> mapped) && (placed ==> mapped)
      modifies this`ioFunctionsBound, this`hasReporter, this`initialized
      modifies hooks`realFunctionsBound, hooks`mapCreated, io, cpu`running
      ensures hooks.Valid() && hasReporter == initialized
      ensures Now() == Finished(old(Now()), mapped, placed)
    {
      if !mapped {
        hooks.realFunctionsBound := true;
        return;
      }
      hooks.EnsureInit();
      ioFunctionsBound := true;
      if !placed {
        return;
      }
      hasReporter := true;
      if config.enableIoMonitoring {
        io.EnableMonitor();
      }
      if config.enableCpuProfiler {
        cpu.Start();
      }
      initialized := true;
    }

    method Build(answers: Answers) returns (mapped: bool, placed: bool)
      requires hooks.Valid() && !initialized && !hasReporter && hooks.Whole()
      requires allocator.Valid() && (hooks.realFunctionsBound ==> allocator.pool.segments != [])
      requires KernelMay(allocator.pool, hooks.realFunctionsBound, layout, answers)
      modifies this`ioFunctionsBound, this`hasReporter, this`initialized
      modifies hooks`realFunctionsBound, hooks`mapCreated, io, cpu`running
      modifies allocator, allocator.chain, allocator.kernel
      ensures hooks.Valid() && hasReporter == initialized
      ensures allocator.Valid() && allocator.AddsFresh()
      ensures (allocator.pool, mapped, placed) ==
              Prepared(old(allocator.pool), old(hooks.realFunctionsBound), config.allocatorCapacityBytes,
                       layout, answers)
      ensures Now() == Finished(old(Now()), mapped, placed)
    {
      mapped, placed := Prepare(answers);
      Finish(mapped, placed);
    }

    /** Init once the configuration is taken. */
    method Start(answers: Answers) returns (result: InitResult)
      requires hooks.Valid() && !initialized && !hasReporter
      requires allocator.Valid() && (hooks.mapCreated ==> allocator.pool.segments != [])
      requires hooks.Whole() ==> KernelMay(allocator.pool, hooks.realFunctionsBound, layout, answers)
      modifies this`ioFunctionsBound, this`hasReporter, this`initialized
      modifies hooks`realFunctionsBound, hooks`mapCreated, io, cpu`running
      modifies allocator, allocator.chain, allocator.kernel
      ensures hooks.Valid() && hasReporter == initialized
      ensures allocator.Valid() && allocator.AddsFresh()
      ensures (Now(), allocator.pool, result) == StartAfter(old(Now()), old(allocator.pool), layout, answers)
    {
      if !hooks.Whole() {
        return Spins;
      }
      var mapped, placed := Build(answers);
      result := if placed then Done else Threw;
    }

    method ConfigureAndStart(newConfig: DomovoyConfig, answers: Answers) returns (result: InitResult)
      requires Valid() && allocator.Valid()
      requires !initialized && hooks.Whole() ==>
                 KernelMay(allocator.pool, hooks.realFunctionsBound, layout, answers)
      modifies this, hooks`enableLeakDetection, hooks`realFunctionsBound, hooks`mapCreated, io, cpu`running
      modifies allocator, allocator.chain, allocator.kernel
      ensures Valid() && allocator.Valid() && allocator.AddsFresh()
      ensures (Now(), allocator.pool, result) ==
              InitAfter(old(Now()), old(allocator.pool), newConfig, layout, answers)
    {
      InitKeepsCoherent(Now(), allocator.pool, newConfig, layout, answers);
      if initialized {
        return Done;
      }
      Configure(newConfig);
      result := Start(answers);
    }

    /** Takes the configuration, binds both hook layers, prepares the allocator, places the
        reporter in it, then starts the monitors. The map of allocations is not touched: what
        an earlier session left in it stays. */
    method Init(newConfig: DomovoyConfig, answers: Answers) returns (result: InitResult)
      requires Valid() && allocator.Valid()
      requires !initialized && hooks.Whole() ==>
                 KernelMay(allocator.pool, hooks.realFunctionsBound, layout, answers)
      modifies this, hooks`enableLeakDetection, hooks`realFunctionsBound, hooks`mapCreated, io, cpu`running
      modifies allocator, allocator.chain, allocator.kernel
      ensures Valid() && allocator.Valid() && allocator.AddsFresh()
      ensures (Now(), allocator.pool, result) ==
              InitAfter(old(Now()), old(allocator.pool), newConfig, layout, answers)
      ensures result.Done? <==> initialized
      ensures initialized == hasReporter && io.openFds == old(io.openFds)
      ensures !old(initialized) ==> config == newConfig && hooks.enableLeakDetection == newConfig.enableLeakDetection
      ensures if !old(initialized) && result.Done? then
                && ioFunctionsBound && hooks.realFunctionsBound && hooks.mapCreated
                && io.enabled == (old(io.enabled) || newConfig.enableIoMonitoring)
                && cpu.running == (old(cpu.running) || newConfig.enableCpuProfiler)
                && GivenForInit(old(allocator.pool.given), allocator.pool.given, old(hooks.realFunctionsBound), layout)
              else
                io.enabled == old(io.enabled) && cpu.running == old(cpu.running)
      ensures old(initialized) ==> Now() == old(Now()) && allocator.pool == old(allocator.pool)
      ensures result.Spins? <==> !old(initialized) && old(hooks.realFunctionsBound && !hooks.mapCreated)
      ensures result.Threw? ==>
                && hooks.realFunctionsBound
                && GivenBeforeThrow(old(allocator.pool.given), allocator.pool.given,
                                    old(hooks.realFunctionsBound), hooks.mapCreated, layout)
    {
      InitKeepsItsPromise(Now(), allocator.pool, newConfig, layout, answers);
      result := ConfigureAndStart(newConfig, answers);
    }

    /** Whatever order the map is enumerated in, the leak report is the same. */
    method ReportLeaks(typeOf: TypeOracle) returns (leaks: Option<Report>)
      requires hooks.Valid()
      ensures leaks.Some? <==> hasReporter && hooks.allocations != map[]
      ensures leaks.Some? ==>
                forall list :: Enumerates(list, hooks.allocations) ==>
                                 leaks.value == ReportOn(list, ReportConfig(config), typeOf)
      ensures leaks.Some? ==>
                && (leaks.value.summary.Some? <==> config.enableSummary)
                && (leaks.value.leaksBySize.Some? <==> config.enableDetails)
    {
      var list := hooks.GetLinuxTrackedAllocations();
      leaks := RunLeakDetection(list, ReportConfig(config), typeOf, hasReporter);
      EnumerationIsAllLeaks(list, hooks.allocations);
      forall other | Enumerates(other, hooks.allocations)
        ensures ReportOn(other, ReportConfig(config), typeOf) == ReportOn(list, ReportConfig(config), typeOf)
      {
        AnyEnumerationGivesTheReport(other, list, hooks.allocations, ReportConfig(config), typeOf);
      }
    }

    /** The CPU monitor is stopped first. The leak report is made before the descriptor report,
        both before the reporter is destroyed, and the hooks are switched off last. */
    method Shutdown(typeOf: TypeOracle)
      returns (leaks: Option<Report>, fds: Option<seq<IoMonitor.FdRecord>>)
      requires Valid()
      modifies this, hooks`enableLeakDetection, io, cpu
      ensures Valid() && !initialized
      ensures old(initialized) ==> config == DEFAULT_CONFIG && !cpu.running
      ensures cpu.threadStates ==
              if old(initialized) && old(cpu.running) then map[] else old(cpu.threadStates)
      ensures leaks.Some? <==> old(initialized) && hooks.allocations != map[]
      ensures leaks.Some? ==>
                forall list :: Enumerates(list, hooks.allocations) ==>
                                 leaks.value == ReportOn(list, ReportConfig(old(config)), typeOf)
      ensures leaks.Some? ==>
                && (leaks.value.summary.Some? <==> old(config).enableSummary)
                && (leaks.value.leaksBySize.Some? <==> old(config).enableDetails)
      ensures old(initialized) ==>
                && !config.enableLeakDetection && !config.enableCpuProfiler && !config.enableIoMonitoring
                && config.enableSummary && config.enableDetails && config.allocatorCapacityBytes == 0x20_0000
                && !hooks.enableLeakDetection && !hasReporter && !io.enabled && !cpu.running
                && (old(io.enabled) ==> io.openFds == map[])
      ensures fds.Some? <==> old(initialized) && old(io.enabled) && old(io.openFds) != map[]
      ensures fds.Some? ==> IoMonitor.Lists(fds.value, old(io.openFds))
      ensures io.State() ==
              if old(initialized) then IoMonitor.After(old(io.State()), IoMonitor.Disable) else old(io.State())
    {
      if !initialized {
        return None, None;
      }
      cpu.Stop();
      leaks := ReportLeaks(typeOf);
      fds := io.ReportLeakedFds(hasReporter);
      io.DisableMonitor();
      hasReporter := false;
      config := DEFAULT_CONFIG;
      hooks.enableLeakDetection := false;
      initialized := false;
    }
  }

  // ----- enumerations -----

  lemma {:induction false} UnmarkedAreLeaks(list: seq<AllocationRecord>)
    requires Unmarked(list)
    ensures Leaks(list) == list
  {
    if list != [] {
      UnmarkedAreLeaks(list[..|list| - 1]);
    }
  }

  lemma EnumerationIsAllLeaks(list: seq<AllocationRecord>, m: map<nat, nat>)
    requires Enumerates(list, m)
    ensures Leaks(list) == list && Unmarked(list)
    ensures list == [] <==> m == map[]
  {
    UnmarkedAreLeaks(list);
    if list == [] {
      assert forall a :: a !in m;
    }
  }

  lemma {:induction false} DistinctOccursOnce(list: seq<AllocationRecord>, x: AllocationRecord)
    requires DistinctAddresses(list)
    ensures multiset(list)[x] == if x in list then 1 else 0
  {
    if list != [] {
      var init := list[..|list| - 1];
      DistinctOccursOnce(init, x);
      assert list == init + [list[|list| - 1]];
    }
  }

  /** All enumerations of a map have the same records, and so the same report. */
  lemma AnyEnumerationGivesTheReport(
    a: seq<AllocationRecord>, b: seq<AllocationRecord>, m: map<nat, nat>, config: Config, typeOf: TypeOracle)
    requires Enumerates(a, m) && Enumerates(b, m)
    ensures ReportOn(a, config, typeOf) == ReportOn(b, config, typeOf)
  {
    forall x: AllocationRecord
      ensures multiset(a)[x] == multiset(b)[x]
    {
      DistinctOccursOnce(a, x);
      DistinctOccursOnce(b, x);
    }
    assert multiset(a) == multiset(b);
    EnumerationIsAllLeaks(a, m);
    EnumerationIsAllLeaks(b, m);
    ReportIgnoresEnumerationOrder(a, b, config, typeOf);
  }
}
