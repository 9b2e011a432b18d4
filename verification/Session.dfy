/** From hooked calls to the report: what the details of a session's report list, and how the
    hooks of one thread run on the machine of many. */
module Session {
  import opened Options
  import opened HexText
  import opened LeakGroups
  import opened LeakReport
  import opened AllocationHooks
  import Leftovers
  import Words
  import ReportLaws
  import Core
  import IoMonitor
  import Tracking

  // ----- a sorted enumeration is an enumeration -----

  lemma {:induction false} RepeatedOccursTwice(s: seq<AllocationRecord>, i: nat, j: nat)
    requires i < j < |s| && s[i] == s[j]
    ensures multiset(s)[s[i]] >= 2
  {
    assert s == s[..j] + s[j..];
    assert s[i] in s[..j] && s[j] in s[j..];
  }

  lemma SameAddressSameRecord(list: seq<AllocationRecord>, x: AllocationRecord, y: AllocationRecord)
    requires DistinctAddresses(list) && x in list && y in list && x.address == y.address
    ensures x == y
  {
  }

  lemma PermutationEnumerates(list: seq<AllocationRecord>, s: seq<AllocationRecord>, m: map<nat, nat>)
    requires Enumerates(list, m) && multiset(s) == multiset(list)
    ensures Enumerates(s, m)
  {
    forall i | 0 <= i < |s|
      ensures s[i] in list
    {
      assert s[i] in multiset(s);
    }
    forall i, j | 0 <= i < j < |s|
      ensures s[i].address != s[j].address
    {
      if s[i].address == s[j].address {
        SameAddressSameRecord(list, s[i], s[j]);
        RepeatedOccursTwice(s, i, j);
        Core.DistinctOccursOnce(list, s[i]);
        assert false;
      }
    }
    forall a | a in m
      ensures AllocationRecord(a, m[a], false) in s
    {
      assert AllocationRecord(a, m[a], false) in multiset(list);
    }
  }

  // ----- places in the groups -----

  lemma {:induction false} OffsetsGrow(g: seq<seq<AllocationRecord>>, i: nat, j: nat)
    requires i < j <= |g|
    ensures Offset(g, i) + |g[i]| <= Offset(g, j)
  {
    if i < j - 1 {
      OffsetsGrow(g, i, j - 1);
    }
  }

  /** Every element of the list stands somewhere in the groups. */
  lemma {:induction false} Locate(g: seq<seq<AllocationRecord>>, p: nat) returns (i: nat, k: nat)
    requires p < |Concat(g)|
    ensures i < |g| && k < |g[i]| && g[i][k] == Concat(g)[p]
  {
    var n := |g| - 1;
    if p < |Concat(g[..n])| {
      i, k := Locate(g[..n], p);
    } else {
      i, k := n, p - |Concat(g[..n])|;
    }
  }

  lemma OnePlaceEach(s: seq<AllocationRecord>, i: nat, k: nat, j: nat, l: nat)
    requires DistinctAddresses(s)
    requires i < |Groups(s)| && k < |Groups(s)[i]| && j < |Groups(s)| && l < |Groups(s)[j]|
    requires Groups(s)[i][k].address == Groups(s)[j][l].address
    ensures i == j && k == l
  {
    var g := Groups(s);
    GroupsAreMaximalRuns(s);
    ElementOfConcat(g, i, k);
    ElementOfConcat(g, j, l);
    assert Offset(g, i) + k == Offset(g, j) + l;
    if i < j {
      OffsetsGrow(g, i, j);
    } else if j < i {
      OffsetsGrow(g, j, i);
    }
  }

  // ----- what the details list -----

  predicate IsPlace(groups: seq<DetailGroup>, i: nat, k: nat) {
    i < |groups| && k < |groups[i].addresses|
  }

  predicate SameText(groups: seq<DetailGroup>, i: nat, k: nat, j: nat, l: nat)
    requires IsPlace(groups, i, k) && IsPlace(groups, j, l)
  {
    groups[i].addresses[k].address == groups[j].addresses[l].address
  }

  predicate Names(groups: seq<DetailGroup>, i: nat, k: nat, address: nat, size: nat) {
    && IsPlace(groups, i, k)
    && Denotes(groups[i].addresses[k].address, address) && ReportLaws.Shows(groups[i].size, size)
  }

  ghost predicate NothingElse(groups: seq<DetailGroup>, m: map<nat, nat>) {
    forall i: nat, k: nat :: IsPlace(groups, i, k) ==> exists a :: a in m && Names(groups, i, k, a, m[a])
  }

  ghost predicate Everything(groups: seq<DetailGroup>, m: map<nat, nat>) {
    forall a :: a in m ==> exists i: nat, k: nat :: Names(groups, i, k, a, m[a])
  }

  ghost predicate NothingTwice(groups: seq<DetailGroup>) {
    forall i: nat, k: nat, j: nat, l: nat ::
      IsPlace(groups, i, k) && IsPlace(groups, j, l) && SameText(groups, i, k, j, l) ==> (i, k) == (j, l)
  }

  /** The details name every block of the map once, under its size, and nothing else. */
  ghost predicate ListsExactly(groups: seq<DetailGroup>, m: map<nat, nat>) {
    NothingElse(groups, m) && Everything(groups, m) && NothingTwice(groups)
  }

  lemma DetailNames(s: seq<AllocationRecord>, typeOf: TypeOracle, i: nat, k: nat)
    requires i < |Groups(s)| && k < |Groups(s)[i]|
    ensures var x := Groups(s)[i][k]; x in s && Names(Details(Groups(s), typeOf), i, k, x.address, x.size)
  {
    GroupsAreMaximalRuns(s);
    assert Uniform(Groups(s)[i]);
    ElementOfConcat(Groups(s), i, k);
    var x := Groups(s)[i][k];
    HexAddressIsTheNumeral(HexAddress(x.address), x.address);
  }

  lemma EnumeratedIsInMap(s: seq<AllocationRecord>, m: map<nat, nat>, x: AllocationRecord)
    requires Enumerates(s, m) && x in s
    ensures x.address in m && x.size == m[x.address]
  {
  }

  lemma PlaceNamesABlock(s: seq<AllocationRecord>, m: map<nat, nat>, typeOf: TypeOracle, i: nat, k: nat)
    requires Enumerates(s, m) && IsPlace(Details(Groups(s), typeOf), i, k)
    ensures exists a :: a in m && Names(Details(Groups(s), typeOf), i, k, a, m[a])
  {
    var x := Groups(s)[i][k];
    DetailNames(s, typeOf, i, k);
    EnumeratedIsInMap(s, m, x);
    assert x.address in m;
  }

  lemma DetailsListNothingElse(s: seq<AllocationRecord>, m: map<nat, nat>, typeOf: TypeOracle)
    requires Enumerates(s, m)
    ensures NothingElse(Details(Groups(s), typeOf), m)
  {
    forall i: nat, k: nat | IsPlace(Details(Groups(s), typeOf), i, k)
      ensures exists a :: a in m && Names(Details(Groups(s), typeOf), i, k, a, m[a])
    {
      PlaceNamesABlock(s, m, typeOf, i, k);
    }
  }

  lemma DetailsListEverything(s: seq<AllocationRecord>, m: map<nat, nat>, typeOf: TypeOracle)
    requires Enumerates(s, m)
    ensures Everything(Details(Groups(s), typeOf), m)
  {
    var groups := Details(Groups(s), typeOf);
    GroupsAreMaximalRuns(s);
    forall a | a in m
      ensures exists i: nat, k: nat :: Names(groups, i, k, a, m[a])
    {
      var p :| 0 <= p < |s| && s[p] == AllocationRecord(a, m[a], false);
      var i, k := Locate(Groups(s), p);
      DetailNames(s, typeOf, i, k);
    }
  }

  lemma DetailsListNothingTwice(s: seq<AllocationRecord>, typeOf: TypeOracle)
    requires DistinctAddresses(s)
    ensures NothingTwice(Details(Groups(s), typeOf))
  {
    var groups := Details(Groups(s), typeOf);
    forall i: nat, k: nat, j: nat, l: nat
      | IsPlace(groups, i, k) && IsPlace(groups, j, l) && SameText(groups, i, k, j, l)
      ensures (i, k) == (j, l)
    {
      HexAddressIsInjective(Groups(s)[i][k].address, Groups(s)[j][l].address);
      OnePlaceEach(s, i, k, j, l);
    }
  }

  lemma DetailsListExactly(s: seq<AllocationRecord>, m: map<nat, nat>, typeOf: TypeOracle)
    requires Enumerates(s, m)
    ensures ListsExactly(Details(Groups(s), typeOf), m)
  {
    DetailsListNothingElse(s, m, typeOf);
    DetailsListEverything(s, m, typeOf);
    DetailsListNothingTwice(s, typeOf);
  }

  /** The report on any enumeration of a map details exactly the map. */
  lemma EnumerationIsListedExactly(
    list: seq<AllocationRecord>, m: map<nat, nat>, config: Config, typeOf: TypeOracle)
    requires Enumerates(list, m) && config.details
    ensures ListsExactly(ReportOn(Leaks(list), config, typeOf).leaksBySize.value, m)
    ensures Leaks(list) == [] <==> m == map[]
  {
    Core.EnumerationIsAllLeaks(list, m);
    SortIsSortedPermutation(list);
    PermutationEnumerates(list, Sort(list), m);
    DetailsListExactly(Sort(list), m, typeOf);
  }

  /** A single-threaded session that starts with an empty map, on any heap, with detection on
      and no failed reallocation: the details list exactly the blocks obtained through the
      hooks and not yet given back, each once under its last size, and there is something to
      report exactly if there is such a block. */
  lemma SessionReportIsExact(
    heap: map<nat, nat>, calls: seq<Call>, list: seq<AllocationRecord>, config: Config, typeOf: TypeOracle)
    requires LibraryMayRun(heap, calls) && config.details
    requires forall i :: 0 <= i < |calls| ==> !FailsToResize(calls[i])
    requires Enumerates(list, TrackedRun(map[], calls))
    ensures var own := LibraryRun(map[], calls);
            && ListsExactly(ReportOn(Leaks(list), config, typeOf).leaksBySize.value, own)
            && (Leaks(list) == [] <==> own == map[])
  {
    NothingForgottenWithoutFailure(calls);
    TrackedExactlyWhenNoneForgotten(heap, calls);
    EnumerationIsListedExactly(list, LibraryRun(map[], calls), config, typeOf);
  }

  lemma MapIsReportable(heap: map<nat, nat>, calls: seq<Call>)
    requires LibraryMayRun(heap, calls)
    ensures TrackedRun(map[], calls) == LibraryRun(map[], calls) - ForgottenRun({}, calls)
  {
    var none: map<nat, nat> := map[];
    assert none - {} == none;
    SessionTracksAllButForgotten(heap, none, {}, calls);
  }

  /** With failed reallocations the details list exactly the rest. */
  lemma SessionReportMissesOnlyForgotten(
    heap: map<nat, nat>, calls: seq<Call>, list: seq<AllocationRecord>, config: Config, typeOf: TypeOracle)
    requires LibraryMayRun(heap, calls) && config.details
    requires Enumerates(list, TrackedRun(map[], calls))
    ensures ListsExactly(ReportOn(Leaks(list), config, typeOf).leaksBySize.value,
                         LibraryRun(map[], calls) - ForgottenRun({}, calls))
  {
    MapIsReportable(heap, calls);
    EnumerationIsListedExactly(list, LibraryRun(map[], calls) - ForgottenRun({}, calls), config, typeOf);
  }

  // ----- any number of threads -----

  /** After any run of any number of threads whose erasures are harmless, between calls, the
      details list exactly the live blocks. */
  lemma HarmlessRunReportIsExact(
    threads: nat, steps: seq<Tracking.Step<nat>>, list: seq<AllocationRecord>, config: Config, typeOf: TypeOracle)
    requires Tracking.Runs(Tracking.Initial<nat>(threads), steps)
    requires Tracking.AllHarmless(Tracking.Initial<nat>(threads), steps)
    requires Tracking.Quiescent(Tracking.Run(Tracking.Initial<nat>(threads), steps))
    requires Enumerates(list, Tracking.Run(Tracking.Initial<nat>(threads), steps).tracked) && config.details
    ensures var live := Tracking.Run(Tracking.Initial<nat>(threads), steps).live;
            && ListsExactly(ReportOn(Leaks(list), config, typeOf).leaksBySize.value, live)
            && (Leaks(list) == [] <==> live == map[])
  {
    Tracking.HarmlessTrackingIsExact(threads, steps);
    EnumerationIsListedExactly(list, Tracking.Run(Tracking.Initial<nat>(threads), steps).live, config, typeOf);
  }

  // ----- a total that wraps -----

  const PAGE := 4096

  /** In each of n sessions one block is obtained, and freed after the session. */
  function FreedBetweenSessions(n: nat, size: nat): seq<Leftovers.Stretch> {
    if n == 0 then [] else Leftovers.UnseenFree(PAGE * n, size) + FreedBetweenSessions(n - 1, size)
  }

  function Entries(n: nat, size: nat): map<nat, nat> {
    if n == 0 then map[] else Entries(n - 1, size)[PAGE * n := size]
  }

  lemma {:induction false} EntriesAre(n: nat, size: nat)
    ensures forall a :: a in Entries(n, size) ==> 0 < a <= PAGE * n && Entries(n, size)[a] == size
  {
    if n > 0 {
      EntriesAre(n - 1, size);
    }
  }

  /** Nothing stays live, and all n entries stay in the map. */
  lemma {:induction false} FreedBlocksStay(tracked: map<nat, nat>, n: nat, size: nat)
    ensures Leftovers.LibraryMayAcross(map[], FreedBetweenSessions(n, size))
    ensures Leftovers.LibraryAcross(map[], FreedBetweenSessions(n, size)) == map[]
    ensures Leftovers.TrackedAcross(tracked, FreedBetweenSessions(n, size)) == tracked + Entries(n, size)
    decreases n
  {
    if n > 0 {
      var rest := tracked[PAGE * n := size];
      FreedBlocksStay(rest, n - 1, size);
      Leftovers.UnseenFreeStays(tracked, PAGE * n, size, FreedBetweenSessions(n - 1, size));
      OneMoreEntry(tracked, n, size);
    }
  }

  lemma OneMoreEntry(tracked: map<nat, nat>, n: nat, size: nat)
    requires n > 0
    ensures tracked[PAGE * n := size] + Entries(n - 1, size) == tracked + Entries(n, size)
  {
    EntriesAre(n - 1, size);
  }

  lemma {:induction false} EntriesEnumerated(n: nat, size: nat) returns (list: seq<AllocationRecord>)
    ensures Enumerates(list, Entries(n, size)) && TotalBytes(list) == size * n
  {
    if n == 0 {
      list := [];
    } else {
      var front := EntriesEnumerated(n - 1, size);
      EntriesAre(n - 1, size);
      EnumerateOneMore(front, Entries(n - 1, size), PAGE * n, size);
      list := front + [AllocationRecord(PAGE * n, size, false)];
      assert list[..|list| - 1] == front;
      assert size * n == size * (n - 1) + size;
    }
  }

  /** Blocks of 2^46 bytes, one in each of 2^18 sessions, all within 2^47. */
  lemma UserSpaceSuffices() returns (n: nat, size: nat)
    ensures size * n == Words.WORD && size == 0x4000_0000_0000 && PAGE * n + size <= 0x8000_0000_0000
  {
    n, size := 0x4_0000, 0x4000_0000_0000;
  }

  /** Sessions whose blocks lie in the user half of a 48-bit address space, one live at a time,
      can leave entries whose bytes exceed 64 bits; the total reported is then not their sum. */
  lemma LeftoversCanWrapTheTotal(config: Config, typeOf: TypeOracle)
    requires config.summary
    ensures exists n: nat, size: nat, list ::
              && PAGE * n + size <= 0x8000_0000_0000
              && Leftovers.LibraryMayAcross(map[], FreedBetweenSessions(n, size))
              && Enumerates(list, Leftovers.TrackedAcross(map[], FreedBetweenSessions(n, size)))
              && ReportOn(Leaks(list), config, typeOf).summary.value.totalBytes != TotalBytes(list)
  {
    var n, size := UserSpaceSuffices();
    var none: map<nat, nat> := map[];
    FreedBlocksStay(none, n, size);
    assert none + Entries(n, size) == Entries(n, size);
    var list := EntriesEnumerated(n, size);
    Core.EnumerationIsAllLeaks(list, Entries(n, size));
    assert ReportOn(Leaks(list), config, typeOf).summary.value.totalBytes == Words.Wrap(TotalBytes(list));
  }

  // ----- the hooks on the machine -----

  /** Undisturbed, the steps change what is live and the map as the sequential model says, and
      leave every thread idle or where it was. */
  ghost predicate RunsAs(s: Tracking.State<nat>, steps: seq<Tracking.Step<nat>>, call: Call) {
    && Tracking.Runs(s, steps)
    && Tracking.Run(s, steps).live == LibraryAfter(s.live, call)
    && Tracking.Run(s, steps).tracked == TrackedAfter(s.tracked, call)
    && Tracking.Run(s, steps).phases == s.phases
  }

  lemma AllocationIsARun(s: Tracking.State<nat>, t: nat, ptr: nat, size: nat)
    requires t < |s.phases| && s.phases[t].Idle? && ptr != 0 && ptr !in s.live
    ensures RunsAs(s, [Tracking.CallAcquire(t, size), Tracking.RealAcquire(t, ptr), Tracking.Insert(t)],
                   Malloc(size, ptr))
  {
    Tracking.WholeAcquisition(s, t, ptr, size);
  }

  lemma FreeIsARun(s: Tracking.State<nat>, t: nat, ptr: nat)
    requires t < |s.phases| && s.phases[t].Idle? && ptr != 0 && ptr in s.client
    ensures RunsAs(s, [Tracking.CallRelease(t, ptr), Tracking.Erase(t), Tracking.RealRelease(t)], Free(ptr))
  {
    Tracking.WholeRelease(s, t, ptr);
  }

  /** What real_realloc does, read off its arguments and its answer. */
  function ResizeOf(t: nat, ptr: nat, size: nat, answer: nat): Tracking.Step<nat> {
    if size == 0 then Tracking.ResizeFrees(t)
    else if answer == 0 then Tracking.ResizeFails(t)
    else if answer == ptr then Tracking.ResizeInPlace(t)
    else Tracking.ResizeMoves(t, answer)
  }

  lemma ReallocationIsARun(s: Tracking.State<nat>, t: nat, ptr: nat, size: nat, answer: nat)
    requires t < |s.phases| && s.phases[t].Idle? && ptr != 0 && ptr in s.client && ptr in s.live
    requires LibraryMay(s.live, Realloc(ptr, size, answer))
    ensures RunsAs(s, Tracking.ReallocationSteps(ptr, size, ResizeOf(t, ptr, size, answer)), Realloc(ptr, size, answer))
  {
    Tracking.WholeReallocation(s, ptr, size, ResizeOf(t, ptr, size, answer));
  }

  // ----- any sequence of calls on the machine -----

  /** The application owns every live block: no other thread is inside a hook with one. */
  predicate AllOwned(s: Tracking.State<nat>) {
    s.client == s.live.Keys
  }

  lemma ObtainingIsARun(s: Tracking.State<nat>, t: nat, ptr: nat, size: nat) returns (steps: seq<Tracking.Step<nat>>)
    requires t < |s.phases| && s.phases[t].Idle? && AllOwned(s) && Unused(s.live, ptr)
    ensures Tracking.Runs(s, steps)
    ensures var q := Tracking.Run(s, steps);
            && q.live == Obtained(s.live, ptr, size) && q.tracked == Added(s.tracked, ptr, size)
            && q.phases == s.phases && AllOwned(q)
  {
    if ptr != 0 {
      AllocationIsARun(s, t, ptr, size);
      Tracking.WholeAcquisition(s, t, ptr, size);
      steps := [Tracking.CallAcquire(t, size), Tracking.RealAcquire(t, ptr), Tracking.Insert(t)];
    } else {
      Tracking.RunTwo(s, Tracking.CallAcquire(t, size), Tracking.AcquireFails(t));
      steps := [Tracking.CallAcquire(t, size), Tracking.AcquireFails(t)];
      assert Tracking.Run(s, steps).phases == s.phases;
    }
  }

  lemma CallIsARun(s: Tracking.State<nat>, t: nat, call: Call) returns (steps: seq<Tracking.Step<nat>>)
    requires t < |s.phases| && s.phases[t].Idle? && AllOwned(s) && LibraryMay(s.live, call)
    ensures RunsAs(s, steps, call) && AllOwned(Tracking.Run(s, steps))
  {
    match call
    case Malloc(size, answer) => steps := ObtainingIsARun(s, t, answer, size);
    case Calloc(count, size, answer) => steps := ObtainingIsARun(s, t, answer, count * size);
    case Memalign(_, size, answer) => steps := ObtainingIsARun(s, t, answer, size);
    case PosixMemalign(_, size, status, memory) =>
      steps := ObtainingIsARun(s, t, if status == 0 && memory.Some? then memory.value else 0, size);
    case Free(ptr) =>
      if ptr == 0 {
        steps := [];
        assert s.live - {0} == s.live;
      } else {
        FreeIsARun(s, t, ptr);
        Tracking.WholeRelease(s, t, ptr);
        steps := [Tracking.CallRelease(t, ptr), Tracking.Erase(t), Tracking.RealRelease(t)];
      }
    case Realloc(ptr, size, answer) =>
      if ptr == 0 {
        assert s.live - {0} == s.live;
        steps := ObtainingIsARun(s, t, answer, size);
      } else {
        var resize := ResizeOf(t, ptr, size, answer);
        ReallocationIsARun(s, t, ptr, size, answer);
        Tracking.WholeReallocation(s, ptr, size, resize);
        steps := Tracking.ReallocationSteps(ptr, size, resize);
      }
  }

  /** Any sequence of calls the program and the library may make is one run of one thread,
      with the live blocks and the map of the sequential model, from any state in which the
      application owns every live block. */
  lemma {:induction false} CallsAreARun(s: Tracking.State<nat>, t: nat, calls: seq<Call>)
    returns (steps: seq<Tracking.Step<nat>>)
    requires t < |s.phases| && s.phases[t].Idle? && AllOwned(s) && LibraryMayRun(s.live, calls)
    ensures Tracking.Runs(s, steps)
    ensures var q := Tracking.Run(s, steps);
            && q.live == LibraryRun(s.live, calls) && q.tracked == TrackedRun(s.tracked, calls)
            && q.phases == s.phases && AllOwned(q)
    decreases |calls|
  {
    if calls == [] {
      steps := [];
    } else {
      var first := CallIsARun(s, t, calls[0]);
      var rest := CallsAreARun(Tracking.Run(s, first), t, calls[1..]);
      Tracking.RunConcatenates(s, first, rest);
      steps := first + rest;
    }
  }

  // ----- the same machine for descriptors -----

  /** Any number of threads opening and closing descriptors, which the kernel reuses at once:
      between calls the monitor's map is exactly the open descriptors. */
  lemma DescriptorTrackingIsExact(threads: nat, steps: seq<Tracking.Step<IoMonitor.FdInfo>>)
    requires Tracking.Runs(Tracking.Initial<IoMonitor.FdInfo>(threads), steps) && Tracking.NoResize(steps)
    requires Tracking.Quiescent(Tracking.Run(Tracking.Initial<IoMonitor.FdInfo>(threads), steps))
    ensures var s := Tracking.Run(Tracking.Initial<IoMonitor.FdInfo>(threads), steps); s.tracked == s.live
  {
    Tracking.TrackingIsExact(threads, steps);
  }

  /** The map of descriptors as the monitor keeps it. */
  function AsFds(m: map<nat, IoMonitor.FdInfo>): map<int, IoMonitor.FdInfo> {
    map fd: int | fd in m :: m[fd]
  }

  /** The monitor, enabled, after the event has the map that the steps leave on the machine. */
  ghost predicate MonitorRunsAs(
    s: Tracking.State<IoMonitor.FdInfo>, steps: seq<Tracking.Step<IoMonitor.FdInfo>>, event: IoMonitor.Event)
  {
    && Tracking.Runs(s, steps)
    && IoMonitor.After(IoMonitor.Monitor(true, AsFds(s.tracked)), event)
       == IoMonitor.Monitor(true, AsFds(Tracking.Run(s, steps).tracked))
  }

  lemma OpenIsARun(s: Tracking.State<IoMonitor.FdInfo>, t: nat, fd: nat, path: Option<string>)
    requires t < |s.phases| && s.phases[t].Idle? && fd !in s.live
    ensures var info := IoMonitor.OpenInfo(path);
            MonitorRunsAs(s, [Tracking.CallAcquire(t, info), Tracking.RealAcquire(t, fd), Tracking.Insert(t)],
                          IoMonitor.Open(fd, path))
  {
    var info := IoMonitor.OpenInfo(path);
    Tracking.WholeAcquisition(s, t, fd, info);
    assert AsFds(s.tracked[fd := info]) == AsFds(s.tracked)[fd := info];
  }

  lemma CloseIsARun(s: Tracking.State<IoMonitor.FdInfo>, t: nat, fd: nat)
    requires t < |s.phases| && s.phases[t].Idle? && fd in s.client
    ensures MonitorRunsAs(s, [Tracking.CallRelease(t, fd), Tracking.Erase(t), Tracking.RealRelease(t)],
                          IoMonitor.Close(fd))
  {
    Tracking.WholeRelease(s, t, fd);
    assert AsFds(s.tracked - {fd}) == AsFds(s.tracked) - {fd};
  }

  // ----- a whole session, driven -----

  method Perform(hooks: Hooks, call: Call)
    requires hooks.Valid() && LibraryMay(hooks.library.live, call)
    modifies hooks, hooks.library
    ensures hooks.Tracks(call)
  {
    match call
    case Malloc(size, answer) => var _ := hooks.MallocHook(size, answer);
    case Free(ptr) => hooks.FreeHook(ptr);
    case Calloc(count, size, answer) => var _ := hooks.CallocHook(count, size, answer);
    case Realloc(ptr, size, answer) => var _ := hooks.ReallocHook(ptr, size, answer);
    case Memalign(alignment, size, answer) => var _ := hooks.MemalignHook(alignment, size, answer);
    case PosixMemalign(alignment, size, status, memory) =>
      var _ := hooks.PosixMemalignHook(alignment, size, status, memory);
  }

  /** The calls of a program while detection is on. */
  method PerformAll(hooks: Hooks, calls: seq<Call>)
    requires hooks.Valid() && hooks.Whole() && hooks.enableLeakDetection
    requires LibraryMayRun(hooks.library.live, calls)
    modifies hooks, hooks.library
    ensures hooks.Valid() && hooks.Whole() && hooks.enableLeakDetection
    ensures old(hooks.realFunctionsBound) ==> hooks.realFunctionsBound && hooks.mapCreated
    ensures hooks.library.live == LibraryRun(old(hooks.library.live), calls)
    ensures hooks.allocations == TrackedRun(old(hooks.allocations), calls)
    decreases |calls|
  {
    if calls != [] {
      Perform(hooks, calls[0]);
      PerformAll(hooks, calls[1..]);
    }
  }

  lemma {:induction false} SomeEnumeration(m: map<nat, nat>) returns (list: seq<AllocationRecord>)
    ensures Enumerates(list, m)
    decreases |m|
  {
    if m == map[] {
      list := [];
    } else {
      var a :| a in m;
      list := SomeEnumeration(m - {a});
      EnumerateOneMore(list, m - {a}, a, m[a]);
      assert m == (m - {a})[a := m[a]];
      list := list + [AllocationRecord(a, m[a], false)];
    }
  }

  /** From the first hooked call to the report, for one thread and a map that starts empty:
      Shutdown emits a leak report exactly if some block of the session's own is live and not
      left behind by a failed reallocation, and its details list exactly those blocks, each
      once under its last size. */
  method RunSession(core: Core.DomovoyCore, calls: seq<Call>, typeOf: TypeOracle) returns (leaks: Option<Report>)
    requires core.Valid() && core.initialized && core.config.enableLeakDetection && core.config.enableDetails
    requires core.hooks.allocations == map[] && LibraryMayRun(core.hooks.library.live, calls)
    modifies core, core.hooks, core.hooks.library, core.io, core.cpu
    ensures core.Valid() && !core.initialized
    ensures var reportable := LibraryRun(map[], calls) - ForgottenRun({}, calls);
            && (leaks.Some? <==> reportable != map[])
            && (leaks.Some? ==>
                  leaks.value.leaksBySize.Some? && ListsExactly(leaks.value.leaksBySize.value, reportable))
  {
    ghost var heap, config := core.hooks.library.live, Core.ReportConfig(core.config);
    PerformAll(core.hooks, calls);
    ghost var list := SomeEnumeration(core.hooks.allocations);
    SessionReportMissesOnlyForgotten(heap, calls, list, config, typeOf);
    Core.EnumerationIsAllLeaks(list, core.hooks.allocations);
    MapIsReportable(heap, calls);
    var fds;
    leaks, fds := core.Shutdown(typeOf);
  }
}
