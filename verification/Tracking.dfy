/** The interposed hooks as a step machine: any number of threads acquire, release and resize
    operating-system resources (addresses or descriptors) that the system may reuse at once,
    while a shared map records them. One step is one real call or one map operation. */
module Tracking {

  /** What real_realloc did: obtained a block, here or elsewhere, released the old one for
      size 0, or failed and left it. */
  datatype Outcome = Obtained(id: nat) | Gone | Kept

  /** Where a thread is inside a hook. */
  datatype Phase<V> =
    | Idle
    | Acquiring(info: V)                                  // before the real acquisition
    | Acquired(id: nat, info: V)                          // before the insertion
    | Releasing(id: nat)                                  // before the erasure
    | Erased(id: nat)                                     // before the real release
    | Resizing(source: nat, info: V)                         // before real_realloc
    | Resized(source: nat, info: V, outcome: Outcome)     // before the erasure of source
  {
    /** The phase owns a live resource which the application cannot name. */
    predicate Holds(r: nat) {
      match this
      case Acquired(id, _) => r == id
      case Releasing(id) => r == id
      case Erased(id) => r == id
      case Resizing(source, _) => r == source
      case Resized(_, _, Obtained(id)) => r == id
      case Resized(source, _, Kept) => r == source
      case _ => false
    }

    /** It owns one whose map entry is still in place. */
    predicate HoldsRecorded(r: nat) {
      match this
      case Releasing(id) => r == id
      case Resizing(source, _) => r == source
      case Resized(source, _, Kept) => r == source
      case _ => false
    }

    predicate WillErase(r: nat) {
      Resized? && source == r
    }

    /** The information the system has for what the phase acquired. */
    ghost predicate Agrees(live: map<nat, V>) {
      match this
      case Acquired(id, info) => id in live && live[id] == info
      case Resized(_, info, Obtained(id)) => id in live && live[id] == info
      case _ => true
    }
  }

  /** `live`: what the system has handed out, with the latest request; `tracked`: the map;
      `client`: what the application may release or resize. */
  datatype State<V> = State(live: map<nat, V>, tracked: map<nat, V>, client: set<nat>, phases: seq<Phase<V>>)

  datatype Step<V> =
    | CallAcquire(t: nat, info: V)
    | RealAcquire(t: nat, id: nat)
    | AcquireFails(t: nat)
    | Insert(t: nat)
    | CallRelease(t: nat, id: nat)
    | Erase(t: nat)
    | RealRelease(t: nat)
    | CallResize(t: nat, id: nat, info: V)
    | ResizeMoves(t: nat, id: nat)
    | ResizeInPlace(t: nat)
    | ResizeFrees(t: nat)
    | ResizeFails(t: nat)
    | EraseSource(t: nat)

  /** The system hands out only free identifiers; the application releases or resizes only
      what a finished call gave it, and once. */
  predicate Enabled<V>(s: State<V>, step: Step<V>) {
    step.t < |s.phases| && var phase := s.phases[step.t];
    match step
    case CallAcquire(_, _) => phase.Idle?
    case RealAcquire(_, id) => phase.Acquiring? && id !in s.live
    case AcquireFails(_) => phase.Acquiring?
    case Insert(_) => phase.Acquired?
    case CallRelease(_, id) => phase.Idle? && id in s.client
    case Erase(_) => phase.Releasing?
    case RealRelease(_) => phase.Erased?
    case CallResize(_, id, _) => phase.Idle? && id in s.client
    case ResizeMoves(_, id) => phase.Resizing? && id !in s.live
    case ResizeInPlace(_) => phase.Resizing?
    case ResizeFrees(_) => phase.Resizing?
    case ResizeFails(_) => phase.Resizing?
    case EraseSource(_) => phase.Resized?
  }

  function Next<V>(s: State<V>, step: Step<V>): State<V>
    requires Enabled(s, step)
  {
    var t, phase := step.t, s.phases[step.t];
    match step
    case CallAcquire(_, info) => s.(phases := s.phases[t := Acquiring(info)])
    case RealAcquire(_, id) => s.(live := s.live[id := phase.info], phases := s.phases[t := Acquired(id, phase.info)])
    case AcquireFails(_) => s.(phases := s.phases[t := Idle])
    case Insert(_) =>
      s.(tracked := s.tracked[phase.id := phase.info], client := s.client + {phase.id}, phases := s.phases[t := Idle])
    case CallRelease(_, id) => s.(client := s.client - {id}, phases := s.phases[t := Releasing(id)])
    case Erase(_) => s.(tracked := s.tracked - {phase.id}, phases := s.phases[t := Erased(phase.id)])
    case RealRelease(_) => s.(live := s.live - {phase.id}, phases := s.phases[t := Idle])
    case CallResize(_, id, info) => s.(client := s.client - {id}, phases := s.phases[t := Resizing(id, info)])
    case ResizeMoves(_, id) =>
      s.(live := (s.live - {phase.source})[id := phase.info],
         phases := s.phases[t := Resized(phase.source, phase.info, Obtained(id))])
    case ResizeInPlace(_) =>
      s.(live := s.live[phase.source := phase.info],
         phases := s.phases[t := Resized(phase.source, phase.info, Obtained(phase.source))])
    case ResizeFrees(_) =>
      s.(live := s.live - {phase.source}, phases := s.phases[t := Resized(phase.source, phase.info, Gone)])
    case ResizeFails(_) => s.(phases := s.phases[t := Resized(phase.source, phase.info, Kept)])
    case EraseSource(_) =>
      s.(tracked := s.tracked - {phase.source},
         client := if phase.outcome.Kept? then s.client + {phase.source} else s.client,
         phases := s.phases[t := if phase.outcome.Obtained? then Acquired(phase.outcome.id, phase.info) else Idle])
  }

  ghost function Initial<V(!new)>(threads: nat): State<V> {
    State(map[], map[], {}, seq(threads, _ => Idle))
  }

  // ----- the invariant -----

  /** Resources whose map entry must be present and current. */
  ghost predicate Settled<V>(s: State<V>, r: nat) {
    r in s.client || exists t :: 0 <= t < |s.phases| && s.phases[t].HoldsRecorded(r)
  }

  /** What the application or a phase owns is live, and not both own it. */
  ghost predicate OwnersLive<V>(s: State<V>) {
    && (forall r :: r in s.client ==> r in s.live)
    && (forall t, r :: 0 <= t < |s.phases| && s.phases[t].Holds(r) ==> r in s.live && r !in s.client)
    && (forall t :: 0 <= t < |s.phases| ==> s.phases[t].Agrees(s.live))
  }

  ghost predicate OneOwner<V>(s: State<V>) {
    forall t, u, r ::
      0 <= t < |s.phases| && 0 <= u < |s.phases| && s.phases[t].Holds(r) && s.phases[u].Holds(r) ==> t == u
  }

  ghost predicate NoOrphan<V>(s: State<V>) {
    forall r :: r in s.live ==> r in s.client || exists t :: 0 <= t < |s.phases| && s.phases[t].Holds(r)
  }

  /** Every live resource has exactly one owner. */
  ghost predicate Owned<V>(s: State<V>) {
    OwnersLive(s) && OneOwner(s) && NoOrphan(s)
  }

  /** The map is current on settled resources and otherwise holds only entries that a
      reallocation in flight is about to erase. */
  ghost predicate Recorded<V(!new)>(s: State<V>) {
    && (forall r :: Settled(s, r) ==> r in s.live && r in s.tracked && s.tracked[r] == s.live[r])
    && (forall r :: r in s.tracked ==> Settled(s, r) || exists t :: 0 <= t < |s.phases| && s.phases[t].WillErase(r))
  }

  ghost predicate Inv<V(!new)>(s: State<V>) {
    Owned(s) && Recorded(s)
  }

  /** The one step that can do harm: erasing an address that has an owner again. */
  ghost predicate Harmless<V>(s: State<V>, step: Step<V>)
    requires Enabled(s, step)
  {
    step.EraseSource? ==> !Settled(s, s.phases[step.t].source)
  }

  lemma StepKeepsAnOwner<V(!new)>(s: State<V>, step: Step<V>, r: nat)
    requires Owned(s) && Enabled(s, step)
    requires r in Next(s, step).live && r !in Next(s, step).client
    ensures exists t :: 0 <= t < |s.phases| && Next(s, step).phases[t].Holds(r)
  {
    var q := Next(s, step);
    if !q.phases[step.t].Holds(r) {
      var u :| 0 <= u < |s.phases| && s.phases[u].Holds(r);
      assert q.phases[u].Holds(r);
    }
  }

  lemma StepKeepsOneOwner<V(!new)>(s: State<V>, step: Step<V>)
    requires Owned(s) && Enabled(s, step)
    ensures OneOwner(Next(s, step))
  {
    var q, t := Next(s, step), step.t;
    forall u, r | 0 <= u < |q.phases| && u != t && q.phases[t].Holds(r)
      ensures !q.phases[u].Holds(r)
    {
      assert q.phases[u] == s.phases[u];
    }
  }

  lemma OtherPhaseStaysLive<V(!new)>(s: State<V>, step: Step<V>, u: nat)
    requires Owned(s) && Enabled(s, step) && u < |s.phases| && u != step.t
    ensures var q := Next(s, step);
            && (forall r :: q.phases[u].Holds(r) ==> r in q.live && r !in q.client)
            && q.phases[u].Agrees(q.live)
  {
    assert Next(s, step).phases[u] == s.phases[u];
  }

  lemma OwnPhaseStaysLive<V(!new)>(s: State<V>, step: Step<V>)
    requires Owned(s) && Enabled(s, step)
    ensures var q := Next(s, step);
            && (forall r :: q.phases[step.t].Holds(r) ==> r in q.live && r !in q.client)
            && q.phases[step.t].Agrees(q.live)
            && (forall r :: r in q.client ==> r in q.live)
  {
  }

  lemma StepKeepsOwnersLive<V(!new)>(s: State<V>, step: Step<V>)
    requires Owned(s) && Enabled(s, step)
    ensures OwnersLive(Next(s, step))
  {
    OwnPhaseStaysLive(s, step);
    forall u | 0 <= u < |s.phases| && u != step.t
      ensures var q := Next(s, step);
              && (forall r :: q.phases[u].Holds(r) ==> r in q.live && r !in q.client)
              && q.phases[u].Agrees(q.live)
    {
      OtherPhaseStaysLive(s, step, u);
    }
  }

  lemma StepKeepsOwned<V(!new)>(s: State<V>, step: Step<V>)
    requires Owned(s) && Enabled(s, step)
    ensures Owned(Next(s, step))
  {
    var q := Next(s, step);
    StepKeepsOneOwner(s, step);
    StepKeepsOwnersLive(s, step);
    forall r | r in q.live && r !in q.client
      ensures exists t :: 0 <= t < |q.phases| && q.phases[t].Holds(r)
    {
      StepKeepsAnOwner(s, step, r);
    }
  }

  /** The map is current for r. */
  predicate Current<V(==)>(s: State<V>, r: nat) {
    r in s.live && r in s.tracked && s.tracked[r] == s.live[r]
  }

  /** A step leaves what its thread does not hold as it was, unless it erases it. */
  lemma StepKeepsCurrent<V>(s: State<V>, step: Step<V>, r: nat)
    requires Enabled(s, step) && Current(s, r) && !s.phases[step.t].Holds(r)
    requires step.EraseSource? ==> s.phases[step.t].source != r
    ensures Current(Next(s, step), r)
  {
  }

  lemma OwnSettledIsCurrent<V(!new)>(s: State<V>, step: Step<V>, r: nat)
    requires Inv(s) && Enabled(s, step) && Harmless(s, step)
    requires var q := Next(s, step); r in q.client || q.phases[step.t].HoldsRecorded(r)
    ensures Current(Next(s, step), r)
  {
    if r in s.client {
      assert Settled(s, r);
      StepKeepsCurrent(s, step, r);
    } else if s.phases[step.t].HoldsRecorded(r) {
      assert Settled(s, r);
    }
  }

  lemma OthersSettledIsCurrent<V(!new)>(s: State<V>, step: Step<V>, r: nat, u: nat)
    requires Inv(s) && Enabled(s, step) && Harmless(s, step)
    requires u < |s.phases| && u != step.t && Next(s, step).phases[u].HoldsRecorded(r)
    ensures Current(Next(s, step), r)
  {
    assert s.phases[u].HoldsRecorded(r);
    assert Settled(s, r) && s.phases[u].Holds(r);
    StepKeepsCurrent(s, step, r);
  }

  lemma StepKeepsSettled<V(!new)>(s: State<V>, step: Step<V>, r: nat)
    requires Inv(s) && Enabled(s, step) && Harmless(s, step)
    requires Settled(Next(s, step), r)
    ensures Current(Next(s, step), r)
  {
    var q := Next(s, step);
    if r in q.client || q.phases[step.t].HoldsRecorded(r) {
      OwnSettledIsCurrent(s, step, r);
    } else {
      var u :| 0 <= u < |q.phases| && q.phases[u].HoldsRecorded(r);
      OthersSettledIsCurrent(s, step, r, u);
    }
  }

  lemma StepKeepsRecorded<V(!new)>(s: State<V>, step: Step<V>)
    requires Inv(s) && Enabled(s, step) && Harmless(s, step)
    ensures Recorded(Next(s, step))
  {
    var q := Next(s, step);
    forall r | Settled(q, r)
      ensures r in q.live && r in q.tracked && q.tracked[r] == q.live[r]
    {
      StepKeepsSettled(s, step, r);
    }
    forall r | r in q.tracked
      ensures Settled(q, r) || exists t :: 0 <= t < |q.phases| && q.phases[t].WillErase(r)
    {
      StepKeepsEntry(s, step, r);
    }
  }

  lemma StepKeepsEntry<V(!new)>(s: State<V>, step: Step<V>, r: nat)
    requires Inv(s) && Enabled(s, step) && Harmless(s, step)
    requires r in Next(s, step).tracked
    ensures var q := Next(s, step);
            Settled(q, r) || exists t :: 0 <= t < |q.phases| && q.phases[t].WillErase(r)
  {
    var q := Next(s, step);
    if Settled(s, r) {
      SettledEntryStays(s, step, r);
    } else if r in s.tracked {
      var u :| 0 <= u < |s.phases| && s.phases[u].WillErase(r);
      AwaitedEntryStays(s, step, r, u);
    }
  }

  lemma AwaitedEntryStays<V(!new)>(s: State<V>, step: Step<V>, r: nat, u: nat)
    requires Enabled(s, step) && u < |s.phases| && s.phases[u].WillErase(r)
    requires r in Next(s, step).tracked
    ensures Next(s, step).phases[u].WillErase(r)
  {
  }

  lemma SettledEntryStays<V(!new)>(s: State<V>, step: Step<V>, r: nat)
    requires Enabled(s, step) && Settled(s, r) && r in Next(s, step).tracked
    ensures var q := Next(s, step);
            Settled(q, r) || exists t :: 0 <= t < |q.phases| && q.phases[t].WillErase(r)
  {
    var q := Next(s, step);
    if r in s.client {
      assert r in q.client || q.phases[step.t].HoldsRecorded(r);
    } else {
      var u :| 0 <= u < |s.phases| && s.phases[u].HoldsRecorded(r);
      if u != step.t {
        assert q.phases[u] == s.phases[u];
      } else {
        assert q.phases[u].HoldsRecorded(r) || q.phases[u].WillErase(r);
      }
    }
  }

  /** Every step other than a harmful erasure keeps the invariant, whatever the other threads
      are doing and however soon identifiers are reused. */
  lemma StepKeepsInv<V(!new)>(s: State<V>, step: Step<V>)
    requires Inv(s) && Enabled(s, step) && Harmless(s, step)
    ensures Inv(Next(s, step))
  {
    StepKeepsOwned(s, step);
    StepKeepsRecorded(s, step);
  }

  /** The guard is exact: the erasure of a reallocation keeps the invariant if and only if
      nobody owns the erased address by then. */
  lemma ErasureIsHarmlessExactlyWhenUnowned<V(!new)>(s: State<V>, t: nat)
    requires Inv(s) && Enabled(s, EraseSource(t))
    ensures Inv(Next(s, EraseSource(t))) <==> !Settled(s, s.phases[t].source)
  {
    var q, r := Next(s, EraseSource(t)), s.phases[t].source;
    if Settled(s, r) {
      if r !in s.client {
        var u :| 0 <= u < |s.phases| && s.phases[u].HoldsRecorded(r);
        assert u == t || q.phases[u].HoldsRecorded(r);
      }
      assert Settled(q, r) && r !in q.tracked;
    } else {
      StepKeepsInv(s, EraseSource(t));
    }
  }

  // ----- runs -----

  function Run<V>(s: State<V>, steps: seq<Step<V>>): State<V>
    requires Runs(s, steps)
    decreases |steps|
  {
    if steps == [] then s else Run(Next(s, steps[0]), steps[1..])
  }

  predicate Runs<V>(s: State<V>, steps: seq<Step<V>>)
    decreases |steps|
  {
    steps != [] ==> Enabled(s, steps[0]) && Runs(Next(s, steps[0]), steps[1..])
  }

  ghost predicate AllHarmless<V>(s: State<V>, steps: seq<Step<V>>)
    requires Runs(s, steps)
    decreases |steps|
  {
    steps != [] ==> Harmless(s, steps[0]) && AllHarmless(Next(s, steps[0]), steps[1..])
  }

  lemma {:induction false} RunKeepsInv<V(!new)>(s: State<V>, steps: seq<Step<V>>)
    requires Inv(s) && Runs(s, steps) && AllHarmless(s, steps)
    ensures Inv(Run(s, steps))
    decreases |steps|
  {
    if steps != [] {
      StepKeepsInv(s, steps[0]);
      RunKeepsInv(Next(s, steps[0]), steps[1..]);
    }
  }

  predicate Quiescent<V>(s: State<V>) {
    forall t :: 0 <= t < |s.phases| ==> s.phases[t].Idle?
  }

  predicate NoResize<V>(steps: seq<Step<V>>) {
    forall i :: 0 <= i < |steps| ==> !steps[i].CallResize?
  }

  predicate NobodyResizes<V>(s: State<V>) {
    forall t :: 0 <= t < |s.phases| ==> !s.phases[t].Resizing? && !s.phases[t].Resized?
  }

  lemma {:induction false} WithoutResizeAllHarmless<V>(s: State<V>, steps: seq<Step<V>>)
    requires Runs(s, steps) && NoResize(steps) && NobodyResizes(s)
    ensures AllHarmless(s, steps) && NobodyResizes(Run(s, steps))
    decreases |steps|
  {
    if steps != [] {
      var q := Next(s, steps[0]);
      assert NobodyResizes(q);
      assert forall i :: 0 <= i < |steps[1..]| ==> steps[1..][i] == steps[i + 1];
      WithoutResizeAllHarmless(q, steps[1..]);
    }
  }

  /** Between calls the map is the system's own table: no leak is missed, none is invented,
      and each carries its latest request. */
  lemma QuiescentMapIsLive<V(!new)>(s: State<V>)
    requires Inv(s) && Quiescent(s)
    ensures s.tracked == s.live
  {
    assert forall r :: Settled(s, r) <==> r in s.client;
  }

  /** A call has the resource in hand, and its entry is not made yet or already erased. */
  predicate HeldUnrecorded<V>(phase: Phase<V>, r: nat) {
    match phase
    case Acquired(id, _) => id == r
    case Erased(id) => id == r
    case Resized(_, _, Obtained(id)) => id == r
    case _ => false
  }

  ghost predicate MidCall<V>(s: State<V>, r: nat) {
    exists t :: 0 <= t < |s.phases| && HeldUnrecorded(s.phases[t], r)
  }

  /** A reallocation in flight has released r, or obtained it in place, and its entry is next
      to go. */
  ghost predicate AwaitsErasure<V>(s: State<V>, r: nat) {
    exists t :: 0 <= t < |s.phases| && s.phases[t].WillErase(r)
  }

  /** What the map misses is in some thread's hand, and what it has too much or out of date
      is about to be erased. */
  ghost predicate Exact<V(!new)>(s: State<V>) {
    && (forall r :: r in s.live ==> Current(s, r) || MidCall(s, r))
    && (forall r :: r in s.tracked ==> Current(s, r) || AwaitsErasure(s, r))
    && forall r :: r in s.live && !AwaitsErasure(s, r) ==> (r !in s.tracked <==> MidCall(s, r))
  }

  lemma MidCallIsUnsettled<V(!new)>(s: State<V>, r: nat)
    requires Owned(s) && MidCall(s, r)
    ensures !Settled(s, r)
  {
    var t :| 0 <= t < |s.phases| && HeldUnrecorded(s.phases[t], r);
    assert s.phases[t].Holds(r);
    forall u | 0 <= u < |s.phases|
      ensures !s.phases[u].HoldsRecorded(r)
    {
      if u != t {
        assert !s.phases[u].Holds(r);
      }
    }
  }

  lemma LiveIsSettledOrMidCall<V(!new)>(s: State<V>, r: nat)
    requires Inv(s) && r in s.live
    ensures Settled(s, r) || MidCall(s, r)
  {
    if r !in s.client {
      var t :| 0 <= t < |s.phases| && s.phases[t].Holds(r);
      assert s.phases[t].HoldsRecorded(r) || HeldUnrecorded(s.phases[t], r);
    }
  }

  lemma MissedIsMidCall<V(!new)>(s: State<V>)
    requires Inv(s)
    ensures Exact(s)
  {
    forall r | r in s.live
      ensures Current(s, r) || MidCall(s, r)
      ensures !AwaitsErasure(s, r) ==> (r !in s.tracked <==> MidCall(s, r))
    {
      LiveIsSettledOrMidCall(s, r);
      if MidCall(s, r) {
        MidCallIsUnsettled(s, r);
      }
    }
  }

  /** For any number of threads acquiring, releasing and resizing in any interleaving whose
      erasures are harmless: the map is exact, and between calls it is the system's table. */
  lemma HarmlessTrackingIsExact<V(!new)>(threads: nat, steps: seq<Step<V>>)
    requires Runs(Initial<V>(threads), steps) && AllHarmless(Initial<V>(threads), steps)
    ensures var s := Run(Initial<V>(threads), steps); Exact(s) && (Quiescent(s) ==> s.tracked == s.live)
  {
    RunKeepsInv(Initial<V>(threads), steps);
    var s := Run(Initial<V>(threads), steps);
    MissedIsMidCall(s);
    if Quiescent(s) {
      QuiescentMapIsLive(s);
    }
  }

  /** Without reallocation every run is harmless: the map is within the live resources and
      current, and what it misses is exactly what some thread holds in the middle of a call. */
  lemma TrackingIsExact<V(!new)>(threads: nat, steps: seq<Step<V>>)
    requires Runs(Initial<V>(threads), steps) && NoResize(steps)
    ensures var s := Run(Initial<V>(threads), steps);
            && (forall r :: r in s.tracked ==> Current(s, r))
            && (forall r :: r in s.live ==> (r !in s.tracked <==> MidCall(s, r)))
            && (Quiescent(s) ==> s.tracked == s.live)
  {
    WithoutResizeAllHarmless(Initial<V>(threads), steps);
    HarmlessTrackingIsExact(threads, steps);
    var s := Run(Initial<V>(threads), steps);
    assert forall r :: !AwaitsErasure(s, r);
  }

  // ----- reallocation -----

  ghost predicate ExactThroughout<V(!new)>(s: State<V>, steps: seq<Step<V>>)
    requires Runs(s, steps)
    decreases |steps|
  {
    Exact(s) && (steps != [] ==> ExactThroughout(Next(s, steps[0]), steps[1..]))
  }

  /** Erasing an address that has an owner leaves a live resource that the map misses although
      no thread is in the middle of a call with it. */
  lemma HarmfulErasureIsNotExact<V(!new)>(s: State<V>, t: nat)
    requires Inv(s) && Enabled(s, EraseSource(t)) && !Harmless(s, EraseSource(t))
    ensures !Exact(Next(s, EraseSource(t)))
  {
    var q, r := Next(s, EraseSource(t)), s.phases[t].source;
    StepKeepsOwned(s, EraseSource(t));
    if r !in s.client {
      var u :| 0 <= u < |s.phases| && s.phases[u].HoldsRecorded(r);
      assert u == t || q.phases[u].HoldsRecorded(r);
    }
    assert Settled(q, r) && r in q.live && !Current(q, r);
    if MidCall(q, r) {
      MidCallIsUnsettled(q, r);
    }
  }

  /** In every state of a run the map is exact if and only if no reallocation erases an owned
      address. */
  lemma {:induction false} CorrectExactlyWhenHarmless<V(!new)>(s: State<V>, steps: seq<Step<V>>)
    requires Inv(s) && Runs(s, steps)
    ensures ExactThroughout(s, steps) <==> AllHarmless(s, steps)
    decreases |steps|
  {
    MissedIsMidCall(s);
    if steps != [] {
      var q := Next(s, steps[0]);
      if Harmless(s, steps[0]) {
        StepKeepsInv(s, steps[0]);
        CorrectExactlyWhenHarmless(q, steps[1..]);
      } else {
        HarmfulErasureIsNotExact(s, steps[0].t);
        assert !ExactThroughout(q, steps[1..]);
      }
    }
  }

  /** When nothing comes between real_realloc and the erasure, the hook is harmless exactly
      if real_realloc did not fail. */
  lemma UndisturbedReallocation<V(!new)>(s: State<V>, step: Step<V>)
    requires Inv(s) && Enabled(s, step)
    requires IsResize(step)
    ensures Enabled(Next(s, step), EraseSource(step.t))
    ensures Harmless(Next(s, step), EraseSource(step.t)) <==> !step.ResizeFails?
  {
    var q, r := Next(s, step), s.phases[step.t].source;
    assert s.phases[step.t].Holds(r);
    if step.ResizeFails? {
      assert q.phases[step.t].HoldsRecorded(r);
    } else {
      forall u | 0 <= u < |s.phases|
        ensures !q.phases[u].HoldsRecorded(r)
      {
        if u != step.t {
          assert q.phases[u] == s.phases[u] && !s.phases[u].Holds(r);
        }
      }
    }
  }

  lemma {:induction false} RunConcatenates<V>(s: State<V>, a: seq<Step<V>>, b: seq<Step<V>>)
    requires Runs(s, a) && Runs(Run(s, a), b)
    ensures Runs(s, a + b) && Run(s, a + b) == Run(Run(s, a), b)
    decreases |a|
  {
    if a == [] {
      assert a + b == b;
    } else {
      assert (a + b)[0] == a[0] && (a + b)[1..] == a[1..] + b;
      RunConcatenates(Next(s, a[0]), a[1..], b);
    }
  }

  lemma RunTwo<V>(s: State<V>, x: Step<V>, y: Step<V>)
    requires Enabled(s, x) && Enabled(Next(s, x), y)
    ensures Runs(s, [x, y]) && Run(s, [x, y]) == Next(Next(s, x), y)
  {
    assert [x, y][1..] == [y] && [y][1..] == [];
    assert Run(Next(s, x), [y]) == Next(Next(s, x), y);
  }

  lemma RunThree<V>(s: State<V>, x: Step<V>, y: Step<V>, z: Step<V>)
    requires Enabled(s, x) && Enabled(Next(s, x), y) && Enabled(Next(Next(s, x), y), z)
    ensures Runs(s, [x, y, z]) && Run(s, [x, y, z]) == Next(Next(Next(s, x), y), z)
  {
    assert [x, y, z][1..] == [y, z];
    RunTwo(Next(s, x), y, z);
  }

  /** An undisturbed acquisition: call, real acquisition, insertion. */
  lemma WholeAcquisition<V>(s: State<V>, t: nat, id: nat, info: V)
    requires t < |s.phases| && s.phases[t].Idle? && id !in s.live
    ensures var steps := [CallAcquire(t, info), RealAcquire(t, id), Insert(t)];
            && Runs(s, steps)
            && Run(s, steps) ==
               s.(live := s.live[id := info], tracked := s.tracked[id := info], client := s.client + {id})
  {
    RunThree(s, CallAcquire(t, info), RealAcquire(t, id), Insert(t));
    assert Next(Next(Next(s, CallAcquire(t, info)), RealAcquire(t, id)), Insert(t)).phases == s.phases;
  }

  /** An undisturbed release: call, erasure, real release. */
  lemma WholeRelease<V>(s: State<V>, t: nat, id: nat)
    requires t < |s.phases| && s.phases[t].Idle? && id in s.client
    ensures var steps := [CallRelease(t, id), Erase(t), RealRelease(t)];
            && Runs(s, steps)
            && Run(s, steps) == s.(live := s.live - {id}, tracked := s.tracked - {id}, client := s.client - {id})
  {
    RunThree(s, CallRelease(t, id), Erase(t), RealRelease(t));
    assert Next(Next(Next(s, CallRelease(t, id)), Erase(t)), RealRelease(t)).phases == s.phases;
  }

  predicate IsResize<V>(step: Step<V>) {
    step.ResizeMoves? || step.ResizeInPlace? || step.ResizeFrees? || step.ResizeFails?
  }

  /** The steps of the realloc hook around what real_realloc does. */
  function ReallocationSteps<V>(id: nat, info: V, resize: Step<V>): seq<Step<V>> {
    [CallResize(resize.t, id, info), resize, EraseSource(resize.t)]
    + if Obtains(resize) then [Insert(resize.t)] else []
  }

  predicate Obtains<V>(resize: Step<V>) {
    resize.ResizeMoves? || resize.ResizeInPlace?
  }

  function NewId<V>(id: nat, resize: Step<V>): nat {
    if resize.ResizeMoves? then resize.id else id
  }

  /** The state after an undisturbed reallocation: the old entry goes in any case, and the new
      one comes if a block was obtained. */
  function Reallocated<V>(s: State<V>, id: nat, info: V, resize: Step<V>): State<V> {
    if Obtains(resize) then
      var r := NewId(id, resize);
      s.(live := (s.live - {id})[r := info], tracked := (s.tracked - {id})[r := info], client := s.client - {id} + {r})
    else if resize.ResizeFrees? then
      s.(live := s.live - {id}, tracked := s.tracked - {id}, client := s.client - {id})
    else
      s.(tracked := s.tracked - {id})
  }

  function OutcomeOf<V>(id: nat, resize: Step<V>): Outcome {
    if Obtains(resize) then Obtained(NewId(id, resize)) else if resize.ResizeFrees? then Gone else Kept
  }

  /** The state between real_realloc and the erasure. */
  function UpToErasure<V>(s: State<V>, id: nat, info: V, resize: Step<V>): State<V>
    requires resize.t < |s.phases|
  {
    s.(live := Reallocated(s, id, info, resize).live, client := s.client - {id},
       phases := s.phases[resize.t := Resized(id, info, OutcomeOf(id, resize))])
  }

  lemma ReallocationUpToErasure<V>(s: State<V>, id: nat, info: V, resize: Step<V>)
    requires resize.t < |s.phases| && s.phases[resize.t].Idle? && id in s.client && id in s.live
    requires IsResize(resize) && (resize.ResizeMoves? ==> resize.id !in s.live)
    ensures Enabled(s, CallResize(resize.t, id, info)) && Enabled(Next(s, CallResize(resize.t, id, info)), resize)
    ensures Next(Next(s, CallResize(resize.t, id, info)), resize) == UpToErasure(s, id, info, resize)
  {
    var called := Next(s, CallResize(resize.t, id, info));
    assert called.phases[resize.t] == Resizing(id, info);
    assert resize.ResizeInPlace? ==> (s.live - {id})[id := info] == s.live[id := info];
  }

  lemma WholeReallocation<V>(s: State<V>, id: nat, info: V, resize: Step<V>)
    requires resize.t < |s.phases| && s.phases[resize.t].Idle? && id in s.client && id in s.live
    requires IsResize(resize) && (resize.ResizeMoves? ==> resize.id !in s.live)
    ensures Runs(s, ReallocationSteps(id, info, resize))
    ensures Run(s, ReallocationSteps(id, info, resize)) == Reallocated(s, id, info, resize)
  {
    ReallocationUpToErasure(s, id, info, resize);
    var first := [CallResize(resize.t, id, info), resize, EraseSource(resize.t)];
    var last := if Obtains(resize) then [Insert(resize.t)] else [];
    RunThree(s, first[0], first[1], first[2]);
    ReallocationFromErasure(s, id, info, resize);
    RunConcatenates(s, first, last);
  }

  lemma ReallocationFromErasure<V>(s: State<V>, id: nat, info: V, resize: Step<V>)
    requires resize.t < |s.phases| && s.phases[resize.t].Idle? && id in s.client && IsResize(resize)
    ensures Enabled(UpToErasure(s, id, info, resize), EraseSource(resize.t))
    ensures var q := Next(UpToErasure(s, id, info, resize), EraseSource(resize.t));
            var last := if Obtains(resize) then [Insert(resize.t)] else [];
            Runs(q, last) && Run(q, last) == Reallocated(s, id, info, resize)
  {
    var q := Next(UpToErasure(s, id, info, resize), EraseSource(resize.t));
    if Obtains(resize) {
      RunOne(q, Insert(resize.t));
      assert Next(q, Insert(resize.t)).phases == s.phases;
    } else {
      assert q.phases == s.phases;
      assert resize.ResizeFails? ==> s.client - {id} + {id} == s.client;
    }
  }

  lemma RunOne<V>(s: State<V>, x: Step<V>)
    requires Enabled(s, x)
    ensures Runs(s, [x]) && Run(s, [x]) == Next(s, x)
  {
    assert [x][1..] == [];
  }

  const IN_THE_WINDOW: State<nat> := State(map[2 := 20], map[1 := 10], {}, [Resized(1, 20, Obtained(2)), Idle])

  lemma RaceBegins() returns (steps: seq<Step<nat>>)
    ensures Runs(Initial<nat>(2), steps) && Run(Initial<nat>(2), steps) == IN_THE_WINDOW
  {
    var a: seq<Step<nat>> := [CallAcquire(0, 10), RealAcquire(0, 1), Insert(0)];
    var b: seq<Step<nat>> := [CallResize(0, 1, 20), ResizeMoves(0, 2)];
    WholeAcquisition(Initial<nat>(2), 0, 1, 10);
    var s: State<nat> := State(map[1 := 10], map[1 := 10], {1}, [Idle, Idle]);
    assert Run(Initial<nat>(2), a) == s;
    RunTwo(s, b[0], b[1]);
    assert Run(s, b) == IN_THE_WINDOW;
    RunConcatenates(Initial<nat>(2), a, b);
    steps := a + b;
  }

  lemma RaceEnds() returns (steps: seq<Step<nat>>)
    ensures Runs(IN_THE_WINDOW, steps)
    ensures Run(IN_THE_WINDOW, steps) == State(map[1 := 30, 2 := 20], map[2 := 20], {1, 2}, [Idle, Idle])
  {
    var c: seq<Step<nat>> := [CallAcquire(1, 30), RealAcquire(1, 1), Insert(1)];
    var d: seq<Step<nat>> := [EraseSource(0), Insert(0)];
    WholeAcquisition(IN_THE_WINDOW, 1, 1, 30);
    var s: State<nat> := State(map[1 := 30, 2 := 20], map[1 := 30], {1}, [Resized(1, 20, Obtained(2)), Idle]);
    assert Run(IN_THE_WINDOW, c) == s;
    RunTwo(s, d[0], d[1]);
    RunConcatenates(IN_THE_WINDOW, c, d);
    steps := c + d;
  }

  /** The window is real: one thread's moving reallocation erases the entry another thread
      has just inserted for the reused address, and the leak goes unreported. */
  lemma MovingReallocationCanLoseAnEntry()
    ensures exists steps: seq<Step<nat>> ::
              && Runs(Initial<nat>(2), steps)
              && Quiescent(Run(Initial<nat>(2), steps))
              && Run(Initial<nat>(2), steps).live == map[1 := 30, 2 := 20]
              && Run(Initial<nat>(2), steps).tracked == map[2 := 20]
  {
    var a := RaceBegins();
    var b := RaceEnds();
    RunConcatenates(Initial<nat>(2), a, b);
    assert Runs(Initial<nat>(2), a + b);
  }
}
