/** A second session: Shutdown leaves the map of allocations as it is, so a session can start
    with entries of an earlier one. */
module Leftovers {
  import opened AllocationHooks

  /** The addresses a call passes to or gets from the library. */
  function Touched(call: Call): set<nat> {
    (match call
     case Malloc(_, answer) => {answer}
     case Free(ptr) => {ptr}
     case Calloc(_, _, answer) => {answer}
     case Realloc(ptr, _, answer) => {ptr, answer}
     case Memalign(_, _, answer) => {answer}
     case PosixMemalign(_, _, status, memory) => if status == 0 && memory.Some? then {memory.value} else {}) - {0}
  }

  function TouchedRun(calls: seq<Call>): set<nat> {
    if calls == [] then {} else Touched(calls[0]) + TouchedRun(calls[1..])
  }

  /** Two maps hold the same for an address. */
  predicate AgreeOn(a: map<nat, nat>, b: map<nat, nat>, k: nat) {
    (k in a <==> k in b) && (k in a && k in b ==> a[k] == b[k])
  }

  lemma {:induction false} UntouchedStays(m: map<nat, nat>, calls: seq<Call>, k: nat)
    requires k !in TouchedRun(calls)
    ensures AgreeOn(TrackedRun(m, calls), m, k)
    decreases |calls|
  {
    if calls != [] {
      assert AgreeOn(TrackedAfter(m, calls[0]), m, k);
      UntouchedStays(TrackedAfter(m, calls[0]), calls[1..], k);
    }
  }

  lemma {:induction false} TouchedForgetsTheStart(m: map<nat, nat>, n: map<nat, nat>, calls: seq<Call>, k: nat)
    requires k in TouchedRun(calls)
    ensures AgreeOn(TrackedRun(m, calls), TrackedRun(n, calls), k)
    decreases |calls|
  {
    var m1, n1 := TrackedAfter(m, calls[0]), TrackedAfter(n, calls[0]);
    if k in TouchedRun(calls[1..]) {
      TouchedForgetsTheStart(m1, n1, calls[1..], k);
    } else {
      assert AgreeOn(m1, n1, k);
      UntouchedStays(m1, calls[1..], k);
      UntouchedStays(n1, calls[1..], k);
    }
  }

  /** A session that finds old entries reports as if it had found none if and only if every
      old address has been passed to or returned by one of its own calls. */
  lemma LeftoversShowUnlessTouched(leftovers: map<nat, nat>, calls: seq<Call>)
    ensures TrackedRun(leftovers, calls) == TrackedRun(map[], calls) <==> leftovers.Keys <= TouchedRun(calls)
  {
    var none: map<nat, nat> := map[];
    var a, b := TrackedRun(leftovers, calls), TrackedRun(none, calls);
    forall k
      ensures k in TouchedRun(calls) ==> AgreeOn(a, b, k)
      ensures k !in TouchedRun(calls) ==> AgreeOn(a, leftovers, k) && k !in b
    {
      if k in TouchedRun(calls) {
        TouchedForgetsTheStart(leftovers, none, calls, k);
      } else {
        UntouchedStays(leftovers, calls, k);
        UntouchedStays(none, calls, k);
      }
    }
    if leftovers.Keys <= TouchedRun(calls) {
      assert a.Keys == b.Keys;
    }
  }

  // ----- several sessions -----

  /** Calls made while detection is on, or while it is off. */
  datatype Stretch = Stretch(detecting: bool, calls: seq<Call>)

  predicate LibraryMayAcross(live: map<nat, nat>, stretches: seq<Stretch>)
    decreases |stretches|
  {
    stretches != [] ==>
      && LibraryMayRun(live, stretches[0].calls)
      && LibraryMayAcross(LibraryRun(live, stretches[0].calls), stretches[1..])
  }

  function LibraryAcross(live: map<nat, nat>, stretches: seq<Stretch>): map<nat, nat>
    decreases |stretches|
  {
    if stretches == [] then live
    else LibraryAcross(LibraryRun(live, stretches[0].calls), stretches[1..])
  }

  function TrackedAcross(tracked: map<nat, nat>, stretches: seq<Stretch>): map<nat, nat>
    decreases |stretches|
  {
    if stretches == [] then tracked
    else
      var first := stretches[0];
      TrackedAcross(if first.detecting then TrackedRun(tracked, first.calls) else tracked, stretches[1..])
  }

  /** A block obtained while detection is on and freed while it is off. */
  function UnseenFree(ptr: nat, size: nat): seq<Stretch> {
    [Stretch(true, [Malloc(size, ptr)]), Stretch(false, [Free(ptr)])]
  }

  lemma OneCall(m: map<nat, nat>, call: Call)
    ensures LibraryMayRun(m, [call]) <==> LibraryMay(m, call)
    ensures LibraryRun(m, [call]) == LibraryAfter(m, call) && TrackedRun(m, [call]) == TrackedAfter(m, call)
  {
    assert [call][1..] == [];
  }

  /** Its entry stays for every session to come. */
  lemma UnseenFreeStays(tracked: map<nat, nat>, ptr: nat, size: nat, rest: seq<Stretch>)
    requires ptr != 0 && LibraryMayAcross(map[], rest)
    ensures LibraryMayAcross(map[], UnseenFree(ptr, size) + rest)
    ensures LibraryAcross(map[], UnseenFree(ptr, size) + rest) == LibraryAcross(map[], rest)
    ensures TrackedAcross(tracked, UnseenFree(ptr, size) + rest) == TrackedAcross(tracked[ptr := size], rest)
  {
    var all := UnseenFree(ptr, size) + rest;
    var none: map<nat, nat> := map[];
    OneCall(none, Malloc(size, ptr));
    OneCall(tracked, Malloc(size, ptr));
    OneCall(none[ptr := size], Free(ptr));
    assert none[ptr := size] - {ptr} == none;
    assert all[1..] == [Stretch(false, [Free(ptr)])] + rest && all[1..][1..] == rest;
  }

  /** A second session that does nothing still reports a block freed between the sessions. */
  lemma FreedBlockIsReported()
    ensures exists stretches :: && LibraryMayAcross(map[], stretches)
                                && LibraryAcross(map[], stretches) == map[]
                                && TrackedAcross(map[], stretches) == map[16 := 8]
  {
    var none: map<nat, nat> := map[];
    UnseenFreeStays(none, 16, 8, []);
    assert LibraryMayAcross(none, UnseenFree(16, 8) + []);
  }
}
