/** The allocation hooks in one thread: what the C library does on each call, what the hook
    records of it, and how far the record is the truth. */
module AllocationHooks {
  import opened Options
  import opened Words
  import opened LeakGroups

  /** One hooked call with the C library's answer. Pointer 0 is the null pointer. */
  datatype Call =
    | Malloc(size: nat, answer: nat)
    | Free(ptr: nat)
    | Calloc(count: nat, size: nat, answer: nat)
    | Realloc(ptr: nat, size: nat, answer: nat)
    | Memalign(alignment: nat, size: nat, answer: nat)
    | PosixMemalign(alignment: nat, size: nat, status: int, memory: Option<nat>)

  // ----- the C library -----

  function Obtained(live: map<nat, nat>, ptr: nat, size: nat): map<nat, nat> {
    if ptr == 0 then live else live[ptr := size]
  }

  /** The live blocks with their sizes after the call. */
  function LibraryAfter(live: map<nat, nat>, call: Call): map<nat, nat> {
    match call
    case Malloc(size, answer) => Obtained(live, answer, size)
    case Free(ptr) => live - {ptr}
    case Calloc(count, size, answer) => Obtained(live, answer, count * size)
    case Realloc(ptr, size, answer) =>
      if ptr != 0 && size != 0 && answer == 0 then live
      else Obtained(live - {ptr}, answer, size)
    case Memalign(_, size, answer) => Obtained(live, answer, size)
    case PosixMemalign(_, size, status, memory) =>
      if status == 0 && memory.Some? then Obtained(live, memory.value, size) else live
  }

  predicate Unused(live: map<nat, nat>, ptr: nat) {
    ptr == 0 || ptr !in live
  }

  predicate Owned(live: map<nat, nat>, ptr: nat) {
    ptr == 0 || ptr in live
  }

  /** The library hands out unused blocks and refuses a product beyond 64 bits; the program
      passes back only live blocks. */
  predicate LibraryMay(live: map<nat, nat>, call: Call) {
    0 !in live &&
    match call
    case Malloc(_, answer) => Unused(live, answer)
    case Free(ptr) => Owned(live, ptr)
    case Calloc(count, size, answer) => Unused(live, answer) && (count * size >= WORD ==> answer == 0)
    case Realloc(ptr, size, answer) =>
      && Owned(live, ptr) && Unused(live - {ptr}, answer)
      && (ptr != 0 && size == 0 ==> answer == 0)
    case Memalign(_, _, answer) => Unused(live, answer)
    case PosixMemalign(_, _, status, memory) => status == 0 && memory.Some? ==> Unused(live, memory.value)
  }

  class CLibrary {
    ghost var live: map<nat, nat>

    constructor ()
      ensures live == map[]
    {
      live := map[];
    }

    ghost method Perform(call: Call)
      requires LibraryMay(live, call)
      modifies this
      ensures live == LibraryAfter(old(live), call)
    {
      live := LibraryAfter(live, call);
    }
  }

  // ----- the hooks -----

  function Added(tracked: map<nat, nat>, ptr: nat, size: nat): map<nat, nat> {
    if ptr == 0 then tracked else tracked[ptr := size]
  }

  function Removed(tracked: map<nat, nat>, ptr: nat): map<nat, nat> {
    if ptr == 0 then tracked else tracked - {ptr}
  }

  /** The map after the call, while detection is on. */
  function TrackedAfter(tracked: map<nat, nat>, call: Call): map<nat, nat> {
    match call
    case Malloc(size, answer) => Added(tracked, answer, size)
    case Free(ptr) => Removed(tracked, ptr)
    case Calloc(count, size, answer) => Added(tracked, answer, Wrap(count * size))
    case Realloc(ptr, size, answer) => Added(Removed(tracked, ptr), answer, size)
    case Memalign(_, size, answer) => Added(tracked, answer, size)
    case PosixMemalign(_, size, status, memory) =>
      if status == 0 && memory.Some? && memory.value != 0 then Added(tracked, memory.value, size) else tracked
  }

  class Hooks {
    const library: CLibrary
    var realFunctionsBound: bool
    var mapCreated: bool
    var allocations: map<nat, nat>
    var enableLeakDetection: bool

    ghost predicate Valid()
      reads this
    {
      && (mapCreated ==> realFunctionsBound)
      && (!mapCreated ==> allocations == map[])
    }

    /** The functions have not been bound without the map. They are when the allocator refuses
        the map: the initialisation is then abandoned, and nothing is ever tracked. */
    predicate Whole()
      reads this
    {
      realFunctionsBound ==> mapCreated
    }

    constructor (library: CLibrary)
      ensures Valid() && this.library == library && allocations == map[]
      ensures !realFunctionsBound && !mapCreated && !enableLeakDetection
    {
      this.library := library;
      realFunctionsBound, mapCreated, enableLeakDetection := false, false, false;
      allocations := map[];
    }

    method EnsureInit()
      requires Valid()
      modifies this`realFunctionsBound, this`mapCreated
      ensures Valid() && realFunctionsBound && mapCreated == (old(mapCreated) || !old(realFunctionsBound))
    {
      if !realFunctionsBound {
        realFunctionsBound := true;
        mapCreated := true;
      }
    }

    method AddAllocation(ptr: nat, size: nat)
      requires Valid()
      modifies this`allocations
      ensures Valid()
      ensures allocations ==
              if enableLeakDetection && mapCreated then Added(old(allocations), ptr, size) else old(allocations)
    {
      if ptr == 0 || !enableLeakDetection {
        return;
      }
      if !mapCreated {
        return;
      }
      allocations := allocations[ptr := size];
    }

    method RemoveAllocation(ptr: nat)
      requires Valid()
      modifies this`allocations
      ensures Valid()
      ensures allocations ==
              if enableLeakDetection && mapCreated then Removed(old(allocations), ptr) else old(allocations)
    {
      if ptr == 0 || !enableLeakDetection {
        return;
      }
      if !mapCreated {
        return;
      }
      allocations := allocations - {ptr};
    }

    twostate predicate Tracks(call: Call)
      reads this, library
    {
      && Valid() && library.live == LibraryAfter(old(library.live), call)
      && enableLeakDetection == old(enableLeakDetection)
      && realFunctionsBound && mapCreated == (old(mapCreated) || !old(realFunctionsBound))
      && allocations ==
         if enableLeakDetection && mapCreated then TrackedAfter(old(allocations), call) else old(allocations)
    }

    method MallocHook(size: nat, answer: nat) returns (ptr: nat)
      requires Valid() && LibraryMay(library.live, Malloc(size, answer))
      modifies this, library
      ensures Tracks(Malloc(size, answer)) && ptr == answer
    {
      EnsureInit();
      library.Perform(Malloc(size, answer));
      AddAllocation(answer, size);
      ptr := answer;
    }

    method FreeHook(ptr: nat)
      requires Valid() && LibraryMay(library.live, Free(ptr))
      modifies this, library
      ensures Tracks(Free(ptr))
    {
      EnsureInit();
      RemoveAllocation(ptr);
      library.Perform(Free(ptr));
    }

    method CallocHook(count: nat, size: nat, answer: nat) returns (ptr: nat)
      requires Valid() && LibraryMay(library.live, Calloc(count, size, answer))
      modifies this, library
      ensures Tracks(Calloc(count, size, answer)) && ptr == answer
    {
      EnsureInit();
      library.Perform(Calloc(count, size, answer));
      AddAllocation(answer, Wrap(count * size));
      ptr := answer;
    }

    method ReallocHook(ptr: nat, size: nat, answer: nat) returns (newPtr: nat)
      requires Valid() && LibraryMay(library.live, Realloc(ptr, size, answer))
      modifies this, library
      ensures Tracks(Realloc(ptr, size, answer)) && newPtr == answer
    {
      EnsureInit();
      library.Perform(Realloc(ptr, size, answer));
      if ptr != 0 {
        RemoveAllocation(ptr);
      }
      AddAllocation(answer, size);
      newPtr := answer;
    }

    method MemalignHook(alignment: nat, size: nat, answer: nat) returns (ptr: nat)
      requires Valid() && LibraryMay(library.live, Memalign(alignment, size, answer))
      modifies this, library
      ensures Tracks(Memalign(alignment, size, answer)) && ptr == answer
    {
      EnsureInit();
      library.Perform(Memalign(alignment, size, answer));
      AddAllocation(answer, size);
      ptr := answer;
    }

    method PosixMemalignHook(alignment: nat, size: nat, status: int, memory: Option<nat>) returns (res: int)
      requires Valid() && LibraryMay(library.live, PosixMemalign(alignment, size, status, memory))
      modifies this, library
      ensures Tracks(PosixMemalign(alignment, size, status, memory)) && res == status
    {
      EnsureInit();
      library.Perform(PosixMemalign(alignment, size, status, memory));
      if status == 0 && memory.Some? && memory.value != 0 {
        AddAllocation(memory.value, size);
      }
      res := status;
    }

    /** The walk over the map, in whatever order it iterates. */
    method GetLinuxTrackedAllocations() returns (list: seq<AllocationRecord>)
      requires Valid()
      ensures Enumerates(list, allocations)
    {
      list := [];
      if !mapCreated {
        return;
      }
      var rest := allocations;
      while rest != map[]
        invariant forall a :: a in rest ==> a in allocations && rest[a] == allocations[a]
        invariant Enumerates(list, allocations - rest.Keys)
        decreases |rest|
      {
        var a :| a in rest;
        EnumerateOneMore(list, allocations - rest.Keys, a, rest[a]);
        assert allocations - (rest - {a}).Keys == (allocations - rest.Keys)[a := rest[a]];
        list := list + [AllocationRecord(a, rest[a], false)];
        rest := rest - {a};
      }
      assert allocations - rest.Keys == allocations;
    }
  }

  // ----- enumerations of a map -----

  /** The list holds every entry of the map exactly once, unmarked. */
  ghost predicate Enumerates(list: seq<AllocationRecord>, m: map<nat, nat>) {
    && DistinctAddresses(list)
    && (forall i :: 0 <= i < |list| ==>
          list[i].address in m && list[i].size == m[list[i].address] && !list[i].marked)
    && forall a :: a in m ==> AllocationRecord(a, m[a], false) in list
  }

  lemma EnumerateOneMore(list: seq<AllocationRecord>, m: map<nat, nat>, a: nat, size: nat)
    requires Enumerates(list, m) && a !in m
    ensures Enumerates(list + [AllocationRecord(a, size, false)], m[a := size])
  {
  }

  // ----- whole sessions -----

  predicate FailsToResize(call: Call) {
    call.Realloc? && call.ptr != 0 && call.size != 0 && call.answer == 0
  }

  predicate LibraryMayRun(live: map<nat, nat>, calls: seq<Call>)
    decreases |calls|
  {
    calls != [] ==> LibraryMay(live, calls[0]) && LibraryMayRun(LibraryAfter(live, calls[0]), calls[1..])
  }

  function LibraryRun(live: map<nat, nat>, calls: seq<Call>): map<nat, nat>
    decreases |calls|
  {
    if calls == [] then live else LibraryRun(LibraryAfter(live, calls[0]), calls[1..])
  }

  function TrackedRun(tracked: map<nat, nat>, calls: seq<Call>): map<nat, nat>
    decreases |calls|
  {
    if calls == [] then tracked else TrackedRun(TrackedAfter(tracked, calls[0]), calls[1..])
  }

  /** The blocks the hooks have lost sight of: those a failed reallocation left in place. */
  function ForgottenAfter(forgotten: set<nat>, call: Call): set<nat> {
    match call
    case Malloc(_, answer) => forgotten - {answer}
    case Free(ptr) => forgotten - {ptr}
    case Calloc(_, _, answer) => forgotten - {answer}
    case Realloc(ptr, _, answer) => if FailsToResize(call) then forgotten + {ptr} else forgotten - {ptr, answer}
    case Memalign(_, _, answer) => forgotten - {answer}
    case PosixMemalign(_, _, status, memory) =>
      if status == 0 && memory.Some? then forgotten - {memory.value} else forgotten
  }

  function ForgottenRun(forgotten: set<nat>, calls: seq<Call>): set<nat>
    decreases |calls|
  {
    if calls == [] then forgotten else ForgottenRun(ForgottenAfter(forgotten, calls[0]), calls[1..])
  }

  lemma CallTracksAllButForgotten(heap: map<nat, nat>, own: map<nat, nat>, forgotten: set<nat>, call: Call)
    requires LibraryMay(heap, call) && own.Keys <= heap.Keys
    ensures TrackedAfter(own - forgotten, call) == LibraryAfter(own, call) - ForgottenAfter(forgotten, call)
    ensures LibraryAfter(own, call).Keys <= LibraryAfter(heap, call).Keys
  {
  }

  /** In a session that starts with an empty map on any heap, the map holds the session's own
      live blocks with their latest sizes, except those a failed reallocation left behind. */
  lemma {:induction false} SessionTracksAllButForgotten(
    heap: map<nat, nat>, own: map<nat, nat>, forgotten: set<nat>, calls: seq<Call>)
    requires LibraryMayRun(heap, calls) && own.Keys <= heap.Keys
    ensures TrackedRun(own - forgotten, calls) == LibraryRun(own, calls) - ForgottenRun(forgotten, calls)
    decreases |calls|
  {
    if calls != [] {
      CallTracksAllButForgotten(heap, own, forgotten, calls[0]);
      SessionTracksAllButForgotten(LibraryAfter(heap, calls[0]), LibraryAfter(own, calls[0]),
                                   ForgottenAfter(forgotten, calls[0]), calls[1..]);
    }
  }

  /** The map is exactly the session's own live blocks if and only if none of them is forgotten. */
  lemma TrackedExactlyWhenNoneForgotten(heap: map<nat, nat>, calls: seq<Call>)
    requires LibraryMayRun(heap, calls)
    ensures TrackedRun(map[], calls) == LibraryRun(map[], calls)
            <==> LibraryRun(map[], calls).Keys !! ForgottenRun({}, calls)
  {
    SessionTracksAllButForgotten(heap, map[], {}, calls);
    var none: map<nat, nat> := map[];
    assert none - {} == none;
    var own, forgotten := LibraryRun(map[], calls), ForgottenRun({}, calls);
    assert own - forgotten == own ==> (own - forgotten).Keys == own.Keys;
    assert own.Keys !! forgotten ==> own - forgotten == own;
  }

  lemma {:induction false} NothingForgottenWithoutFailure(calls: seq<Call>)
    requires forall i :: 0 <= i < |calls| ==> !FailsToResize(calls[i])
    ensures ForgottenRun({}, calls) == {}
    decreases |calls|
  {
    if calls != [] {
      assert ForgottenAfter({}, calls[0]) == {};
      NothingForgottenWithoutFailure(calls[1..]);
    }
  }

  /** The session's own live blocks are live blocks of the process with the same sizes. */
  lemma {:induction false} OwnBlocksAreLive(heap: map<nat, nat>, own: map<nat, nat>, calls: seq<Call>)
    requires LibraryMayRun(heap, calls)
    requires forall a :: a in own ==> a in heap && heap[a] == own[a]
    ensures forall a :: a in LibraryRun(own, calls) ==>
                          a in LibraryRun(heap, calls) && LibraryRun(heap, calls)[a] == LibraryRun(own, calls)[a]
    decreases |calls|
  {
    if calls != [] {
      OwnBlocksAreLive(LibraryAfter(heap, calls[0]), LibraryAfter(own, calls[0]), calls[1..]);
    }
  }

  /** A failed reallocation hides a block that is still live. */
  lemma FailedReallocationHidesALeak()
    ensures exists calls :: && LibraryMayRun(map[], calls)
                            && LibraryRun(map[], calls) == map[16 := 10] && TrackedRun(map[], calls) == map[]
  {
    var calls := [Malloc(10, 16), Realloc(16, 20, 0)];
    var rest := calls[1..];
    assert rest == [Realloc(16, 20, 0)] && rest[1..] == [];
    assert LibraryAfter(map[], calls[0]) == map[16 := 10];
    assert LibraryMayRun(map[16 := 10], rest);
    assert LibraryRun(map[16 := 10], rest) == map[16 := 10];
    assert TrackedRun(map[16 := 10], rest) == map[];
    assert LibraryMayRun(map[], calls);
  }
}
