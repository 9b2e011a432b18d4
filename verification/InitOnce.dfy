/** One-time initialisation of the two hook layers: an atomic flag, an atomic exchange and a
    spin, for any number of threads, with the real functions bound one by one in between. */
module InitOnce {

  /** The allocation hooks and the I/O hooks run the same protocol around their own body. */
  datatype Layer = Allocation | Io

  datatype Hook =
    | Malloc | Free | Calloc | Realloc | Memalign | PosixMemalign
    | Open | Open64 | Openat | Openat64 | Close | Socket

  function LayerOf(hook: Hook): Layer {
    if hook.Open? || hook.Open64? || hook.Openat? || hook.Openat64? || hook.Close? || hook.Socket? then Io
    else Allocation
  }

  /** The order in which InitHooks and InitIoHooks look the real functions up. */
  function Rank(hook: Hook): nat {
    match hook
    case Malloc => 0
    case Free => 1
    case Calloc => 2
    case Realloc => 3
    case Memalign => 4
    case PosixMemalign => 5
    case Open => 0
    case Open64 => 1
    case Openat => 2
    case Openat64 => 3
    case Close => 4
    case Socket => 5
  }

  const FUNCTIONS := 6

  datatype Pc =
    | Outside      // not in EnsureInit
    | Loading      // before the first load of `initialized`
    | Exchanging   // before the exchange on `initializing`
    | Spinning     // in the spin loop
    | Binding      // in the body, looking functions up
    | Mapping      // in the body, after the last lookup, before the map exists
    | Storing      // after the body, before the release store
    | Returned     // back from EnsureInit

  datatype State = State(
    layer: Layer, initialized: bool, initializing: bool, inLookup: bool,
    bound: nat, mapReady: bool, bodies: nat, pcs: seq<Pc>)

  datatype Step =
    | Enter(t: nat)
    | Load(t: nat)
    | Exchange(t: nat)
    | Spin(t: nat)
    | Bind(t: nat)
    | Reenter(t: nat, hook: Hook, ownPointer: bool)  // a hook called from inside a lookup enters EnsureInit again
    | MakeMap(t: nat)
    | Store(t: nat)
    | Leave(t: nat)

  datatype Path = Bootstrap | Ignored | Ensure | Real

  /** What a hook does first. An allocation hook uses its bound function, serves the request
      from the bootstrap buffer (malloc and calloc, while functions are being looked up),
      ignores a pointer into that buffer (free), or calls EnsureInit; an I/O hook always calls
      EnsureIoInit. */
  function PathOf(hook: Hook, ownPointer: bool, bound: nat, inLookup: bool): Path {
    if LayerOf(hook).Io? then Ensure
    else if Rank(hook) < bound then Real
    else if inLookup && (hook.Malloc? || hook.Calloc?) then Bootstrap
    else if hook.Free? && ownPointer then Ignored
    else Ensure
  }

  /** The hook's real function is assigned. */
  predicate Bound(s: State, hook: Hook) {
    LayerOf(hook) == s.layer && Rank(hook) < s.bound
  }

  predicate Enabled(s: State, step: Step) {
    step.t < |s.pcs| && var pc := s.pcs[step.t];
    match step
    case Enter(_) => pc.Outside?
    case Load(_) => pc.Loading?
    case Exchange(_) => pc.Exchanging?
    case Spin(_) => pc.Spinning?
    case Bind(_) => pc.Binding? && s.bound < FUNCTIONS
    case Reenter(_, hook, ownPointer) =>
      pc.Binding? && LayerOf(hook) == s.layer && PathOf(hook, ownPointer, s.bound, s.inLookup) == Ensure
    case MakeMap(_) => pc.Mapping?
    case Store(_) => pc.Storing?
    case Leave(_) => pc.Returned?
  }

  function Next(s: State, step: Step): State
    requires Enabled(s, step)
  {
    var t := step.t;
    match step
    case Enter(_) => s.(pcs := s.pcs[t := Loading])
    case Load(_) => s.(pcs := s.pcs[t := if s.initialized then Returned else Exchanging])
    case Exchange(_) =>
      if s.initializing then s.(pcs := s.pcs[t := Spinning])
      else s.(initializing := true, inLookup := s.layer.Allocation?, bodies := s.bodies + 1, pcs := s.pcs[t := Binding])
    case Spin(_) => if s.initialized then s.(pcs := s.pcs[t := Returned]) else s
    case Bind(_) =>
      if s.bound + 1 < FUNCTIONS then s.(bound := s.bound + 1)
      else s.(bound := s.bound + 1, inLookup := false,
              pcs := s.pcs[t := if s.layer.Allocation? then Mapping else Storing])
    case Reenter(_, _, _) => s.(pcs := s.pcs[t := Loading])
    case MakeMap(_) => s.(mapReady := true, pcs := s.pcs[t := Storing])
    case Store(_) => s.(initialized := true, pcs := s.pcs[t := Returned])
    case Leave(_) => s.(pcs := s.pcs[t := Outside])
  }

  function Initial(layer: Layer, threads: nat): State {
    State(layer, false, false, false, 0, false, 0, seq(threads, _ => Outside))
  }

  predicate InBody(pc: Pc) {
    pc.Binding? || pc.Mapping? || pc.Storing?
  }

  predicate Complete(s: State) {
    s.bound == FUNCTIONS && (s.layer.Allocation? ==> s.mapReady)
  }

  ghost predicate Inv(s: State) {
    && s.bodies == (if s.initializing then 1 else 0)
    && s.bound <= FUNCTIONS
    && (s.initialized ==> s.initializing && Complete(s))
    && (!s.initializing ==> s.bound == 0 && !s.mapReady && !s.inLookup)
    && OneInBody(s)
    && forall t :: 0 <= t < |s.pcs| ==> PcOk(s, s.pcs[t])
  }

  ghost predicate OneInBody(s: State) {
    forall t, u :: 0 <= t < |s.pcs| && 0 <= u < |s.pcs| && InBody(s.pcs[t]) && InBody(s.pcs[u]) ==> t == u
  }

  predicate PcOk(s: State, pc: Pc) {
    match pc
    case Binding => s.initializing && !s.initialized && s.bound < FUNCTIONS && s.inLookup == s.layer.Allocation?
    case Mapping => s.initializing && !s.initialized && s.bound == FUNCTIONS
    case Storing => s.initializing && !s.initialized && Complete(s)
    case Returned => s.initialized
    case Spinning => s.initializing
    case _ => true
  }

  lemma StepKeepsInv(s: State, step: Step)
    requires Inv(s) && Enabled(s, step)
    ensures Inv(Next(s, step))
  {
    StepKeepsOneInBody(s, step);
    var q := Next(s, step);
    forall u | 0 <= u < |q.pcs|
      ensures PcOk(q, q.pcs[u])
    {
      StepKeepsPcOk(s, step, u);
    }
  }

  lemma StepKeepsOneInBody(s: State, step: Step)
    requires Inv(s) && Enabled(s, step)
    ensures OneInBody(Next(s, step))
  {
    var q := Next(s, step);
    forall u | 0 <= u < |q.pcs| && u != step.t && InBody(q.pcs[u])
      ensures !InBody(q.pcs[step.t])
    {
      assert q.pcs[u] == s.pcs[u] && PcOk(s, s.pcs[u]);
    }
  }

  lemma StepKeepsPcOk(s: State, step: Step, u: nat)
    requires Inv(s) && Enabled(s, step) && u < |s.pcs|
    ensures PcOk(Next(s, step), Next(s, step).pcs[u])
  {
    assert PcOk(s, s.pcs[step.t]) && PcOk(s, s.pcs[u]);
  }

  // ----- runs -----

  predicate Runs(s: State, steps: seq<Step>)
    decreases |steps|
  {
    steps != [] ==> Enabled(s, steps[0]) && Runs(Next(s, steps[0]), steps[1..])
  }

  function Run(s: State, steps: seq<Step>): State
    requires Runs(s, steps)
    decreases |steps|
  {
    if steps == [] then s else Run(Next(s, steps[0]), steps[1..])
  }

  lemma {:induction false} RunKeepsInv(s: State, steps: seq<Step>)
    requires Inv(s) && Runs(s, steps)
    ensures Inv(Run(s, steps))
    decreases |steps|
  {
    if steps != [] {
      StepKeepsInv(s, steps[0]);
      RunKeepsInv(Next(s, steps[0]), steps[1..]);
    }
  }

  /** In either layer, for any number of threads and any interleaving, re-entries included:
      the body runs at most once, and nobody returns before every function is bound and, for
      the allocation hooks, the map exists. */
  lemma InitializedOnceBeforeAnyReturn(layer: Layer, threads: nat, steps: seq<Step>)
    requires Runs(Initial(layer, threads), steps)
    ensures var s := Run(Initial(layer, threads), steps);
            && s.bodies <= 1
            && (forall t :: 0 <= t < |s.pcs| && s.pcs[t].Returned? ==>
                  && s.bodies == 1 && (s.layer.Allocation? ==> s.mapReady)
                  && forall hook :: LayerOf(hook) == s.layer ==> Bound(s, hook))
            && forall t, u :: (&& 0 <= t < |s.pcs| && InBody(s.pcs[t])
                               && 0 <= u < |s.pcs| && InBody(s.pcs[u])) ==> t == u
  {
    RunKeepsInv(Initial(layer, threads), steps);
  }

  // ----- who can finish -----

  /** The body was entered, is not finished, and nobody is running it any more: the thread
      that was has entered EnsureInit a second time. */
  predicate Stalled(s: State) {
    s.initializing && !s.initialized && forall t :: 0 <= t < |s.pcs| ==> !InBody(s.pcs[t])
  }

  lemma StepKeepsStalled(s: State, step: Step)
    requires Inv(s) && Stalled(s) && Enabled(s, step)
    ensures Stalled(Next(s, step))
  {
  }

  lemma {:induction false} StalledForever(s: State, steps: seq<Step>)
    requires Inv(s) && Stalled(s) && Runs(s, steps)
    ensures !Run(s, steps).initialized
    decreases |steps|
  {
    if steps != [] {
      StepKeepsStalled(s, steps[0]);
      StepKeepsInv(s, steps[0]);
      StalledForever(Next(s, steps[0]), steps[1..]);
    }
  }

  /** Entering EnsureInit or EnsureIoInit from inside a lookup stalls the protocol; malloc,
      calloc and free of what they gave are served without it and never do so. */
  lemma ReentryStalls(s: State, t: nat, hook: Hook, ownPointer: bool)
    requires Inv(s) && Enabled(s, Reenter(t, hook, ownPointer))
    ensures Stalled(Next(s, Reenter(t, hook, ownPointer)))
    ensures s.layer.Allocation? ==> !Bound(s, hook) && !ServesItself(hook, ownPointer)
  {
  }

  predicate ServesItself(hook: Hook, ownPointer: bool) {
    hook.Malloc? || hook.Calloc? || (hook.Free? && ownPointer)
  }

  /** A lookup that frees a pointer from elsewhere never comes back. */
  lemma FreeingInALookupStalls()
    ensures exists steps :: Runs(Initial(Allocation, 1), steps) && Stalled(Run(Initial(Allocation, 1), steps))
  {
    var s0 := Initial(Allocation, 1);
    var s1 := Next(s0, Enter(0));
    var s2 := Next(s1, Load(0));
    var s3 := Next(s2, Exchange(0));
    ReentryStalls(s3, 0, Free, false);
    var s4 := Next(s3, Reenter(0, Free, false));
    assert Run(s4, []) == s4;
    Prepend(s3, Reenter(0, Free, false), []);
    Prepend(s2, Exchange(0), [Reenter(0, Free, false)] + []);
    Prepend(s1, Load(0), [Exchange(0)] + ([Reenter(0, Free, false)] + []));
    Prepend(s0, Enter(0), [Load(0)] + ([Exchange(0)] + ([Reenter(0, Free, false)] + [])));
  }

  lemma Prepend(s: State, step: Step, rest: seq<Step>)
    requires Enabled(s, step) && Runs(Next(s, step), rest)
    ensures Runs(s, [step] + rest) && Run(s, [step] + rest) == Run(Next(s, step), rest)
  {
    assert ([step] + rest)[1..] == rest;
  }

  /** The thread in the body can always finish it on its own. */
  lemma {:induction false} BodyFinishes(s: State, t: nat) returns (steps: seq<Step>)
    requires Inv(s) && t < |s.pcs| && InBody(s.pcs[t])
    ensures Runs(s, steps) && Run(s, steps).initialized
    decreases FUNCTIONS - s.bound, s.pcs[t].Mapping?
  {
    var step := match s.pcs[t] case Binding => Bind(t) case Mapping => MakeMap(t) case _ => Store(t);
    StepKeepsInv(s, step);
    var q := Next(s, step);
    var rest: seq<Step> := [];
    if !s.pcs[t].Storing? {
      rest := BodyFinishes(q, t);
    }
    Prepend(s, step, rest);
    steps := [step] + rest;
  }

  /** A thread that has not yet exchanged can start the body when nobody has. */
  lemma BodyStarts(s: State, t: nat) returns (steps: seq<Step>)
    requires Inv(s) && t < |s.pcs| && !s.initializing
    ensures Runs(s, steps) && Run(s, steps).initialized
    decreases if s.pcs[t].Outside? then 2 else if s.pcs[t].Loading? then 1 else 0
  {
    assert PcOk(s, s.pcs[t]);
    var step := match s.pcs[t] case Outside => Enter(t) case Loading => Load(t) case _ => Exchange(t);
    StepKeepsInv(s, step);
    var q := Next(s, step);
    var rest;
    if s.pcs[t].Exchanging? {
      rest := BodyFinishes(q, t);
    } else {
      rest := BodyStarts(q, t);
    }
    Prepend(s, step, rest);
    steps := [step] + rest;
  }

  /** Initialisation can still complete if and only if the protocol has not stalled. */
  lemma CompletesUnlessStalled(s: State)
    requires Inv(s) && s.pcs != []
    ensures (exists steps :: Runs(s, steps) && Run(s, steps).initialized) <==> !Stalled(s)
  {
    if Stalled(s) {
      forall steps | Runs(s, steps)
        ensures !Run(s, steps).initialized
      {
        StalledForever(s, steps);
      }
    } else {
      var steps: seq<Step> := [];
      if s.initialized {
        assert Run(s, steps) == s;
      } else if s.initializing {
        var t :| 0 <= t < |s.pcs| && InBody(s.pcs[t]);
        steps := BodyFinishes(s, t);
      } else {
        steps := BodyStarts(s, 0);
      }
      assert Runs(s, steps) && Run(s, steps).initialized;
    }
  }

  function Back(pc: Pc): Pc {
    if pc.Spinning? then Returned else pc
  }

  /** After the release store every spinning thread can return, without a step of any thread
      that does not spin. */
  lemma {:induction false} SpinnersReturn(s: State, n: nat) returns (steps: seq<Step>)
    requires Inv(s) && s.initialized && n <= |s.pcs|
    requires forall t :: n <= t < |s.pcs| ==> !s.pcs[t].Spinning?
    ensures Runs(s, steps) && Run(s, steps).initialized
    ensures Run(s, steps).pcs == seq(|s.pcs|, t requires 0 <= t < |s.pcs| => Back(s.pcs[t]))
    ensures forall i :: 0 <= i < |steps| ==> steps[i].Spin?
    decreases n
  {
    if n == 0 {
      steps := [];
    } else if s.pcs[n - 1].Spinning? {
      var step := Spin(n - 1);
      StepKeepsInv(s, step);
      var rest := SpinnersReturn(Next(s, step), n - 1);
      Prepend(s, step, rest);
      steps := [step] + rest;
    } else {
      steps := SpinnersReturn(s, n - 1);
    }
  }

  predicate NobodySpins(s: State) {
    forall t :: 0 <= t < |s.pcs| ==> !s.pcs[t].Spinning?
  }

  lemma {:induction false} StalledSpinnerStays(s: State, steps: seq<Step>, t: nat)
    requires Inv(s) && Stalled(s) && Runs(s, steps) && t < |s.pcs| && s.pcs[t].Spinning?
    ensures !NobodySpins(Run(s, steps))
    decreases |steps|
  {
    if steps != [] {
      StepKeepsStalled(s, steps[0]);
      StepKeepsInv(s, steps[0]);
      StalledSpinnerStays(Next(s, steps[0]), steps[1..], t);
    }
  }

  lemma SpinnersGetOut(s: State) returns (steps: seq<Step>)
    requires Inv(s) && s.pcs != [] && !Stalled(s)
    ensures Runs(s, steps) && NobodySpins(Run(s, steps))
  {
    CompletesUnlessStalled(s);
    var first :| Runs(s, first) && Run(s, first).initialized;
    RunKeepsInv(s, first);
    var rest := SpinnersReturn(Run(s, first), |Run(s, first).pcs|);
    RunConcatenates(s, first, rest);
    steps := first + rest;
  }

  ghost predicate SpinnersCanGetOut(s: State) {
    exists steps :: Runs(s, steps) && NobodySpins(Run(s, steps))
  }

  lemma RunShowsTheWayOut(s: State, steps: seq<Step>)
    requires Runs(s, steps) && NobodySpins(Run(s, steps))
    ensures SpinnersCanGetOut(s)
  {
  }

  /** All spinning threads can get out if and only if the protocol has not stalled, or none
      was spinning to begin with. */
  lemma SpinnersGetOutUnlessStalled(s: State)
    requires Inv(s) && s.pcs != []
    ensures SpinnersCanGetOut(s) <==> !Stalled(s) || NobodySpins(s)
  {
    if NobodySpins(s) {
      RunShowsTheWayOut(s, []);
    } else if !Stalled(s) {
      var steps := SpinnersGetOut(s);
      RunShowsTheWayOut(s, steps);
    } else if SpinnersCanGetOut(s) {
      var t :| 0 <= t < |s.pcs| && s.pcs[t].Spinning?;
      var steps :| Runs(s, steps) && NobodySpins(Run(s, steps));
      StalledSpinnerStays(s, steps, t);
    }
  }

  lemma {:induction false} RunConcatenates(s: State, a: seq<Step>, b: seq<Step>)
    requires Runs(s, a) && Runs(Run(s, a), b)
    ensures Runs(s, a + b) && Run(s, a + b) == Run(Run(s, a), b)
    decreases |a|
  {
    if a == [] {
      assert a + b == b;
    } else {
      assert (a + b)[0] == a[0] && (a + b)[1..] == a[1..] + b;
      RunConcatenates(Next(s, a[0]), a[1..], b);
    }
  }

  /** The only hooks called from inside a lookup are malloc, calloc, and free of what they
      gave, none of which belongs to the I/O layer. */
  predicate OnlyAllocates(layer: Layer, steps: seq<Step>) {
    forall i :: 0 <= i < |steps| && steps[i].Reenter? ==>
      layer.Allocation? && ServesItself(steps[i].hook, steps[i].ownPointer)
  }

  /** If lookups only allocate and free what they allocated, as dlsym does, neither layer ever
      stalls. */
  lemma {:induction false} LookupsThatOnlyAllocateNeverStall(s: State, steps: seq<Step>)
    requires Inv(s) && !Stalled(s) && Runs(s, steps) && OnlyAllocates(s.layer, steps)
    ensures !Stalled(Run(s, steps))
    decreases |steps|
  {
    if steps != [] {
      var q, step := Next(s, steps[0]), steps[0];
      StepKeepsInv(s, step);
      if s.initializing && !s.initialized {
        var t :| 0 <= t < |s.pcs| && InBody(s.pcs[t]);
        assert t != step.t ==> InBody(q.pcs[t]);
      }
      assert InBody(q.pcs[step.t]) || q.initialized || !Stalled(q);
      assert forall i :: 0 <= i < |steps[1..]| ==> steps[1..][i] == steps[i + 1];
      LookupsThatOnlyAllocateNeverStall(q, steps[1..]);
    }
  }
}
