/** What the isolated allocator computes, as a function on the list of blocks: first fit
    over bump blocks, with every addition wrapping at 64 bits as in the C++ code. */
module BlockPool {
  import opened Options
  import opened Words

  const HEADER := 32                    // sizeof(Block): four 8-byte fields
  const MIN_BLOCK := 2 * 1024 * 1024
  const PAGE := 4096
  const ADDRESS_TOP: int := 0x8000_0000_0000_0000  // user addresses lie in the lower half

  /** One mapped block: the page it starts at, its payload size and the bytes bumped so far. */
  datatype Segment = Segment(page: nat, size: nat, used: nat) {
    function Memory(): nat { page + HEADER }
    function Cursor(): nat { Wrap(Memory() + used) }
  }

  /** One pointer handed out, with the request it answers. */
  datatype Region = Region(start: nat, size: nat, alignment: nat)

  datatype Pool = Pool(segments: seq<Segment>, given: seq<Region>)

  const EMPTY := Pool([], [])

  // ----- the computation -----

  function Padding(s: Segment, alignment: nat): nat {
    Wrap(AlignUp(s.Cursor(), alignment) - s.Cursor())
  }

  /** The bytes in use once the request is bumped into the block. */
  function Bumped(s: Segment, size: nat, alignment: nat): nat {
    Wrap(s.used + Padding(s, alignment) + size)
  }

  predicate Fits(s: Segment, size: nat, alignment: nat) {
    Bumped(s, size, alignment) <= s.size
  }

  function FirstFit(segments: seq<Segment>, size: nat, alignment: nat): (i: nat)
    ensures i <= |segments|
    ensures i < |segments| ==> Fits(segments[i], size, alignment)
    ensures forall j :: 0 <= j < i ==> !Fits(segments[j], size, alignment)
  {
    if segments == [] || Fits(segments[0], size, alignment) then 0
    else 1 + FirstFit(segments[1..], size, alignment)
  }

  /** Bump segment i and hand out the aligned address. */
  function Give(p: Pool, i: nat, size: nat, alignment: nat): Pool
    requires i < |p.segments|
  {
    var s := p.segments[i];
    Pool(p.segments[i := s.(used := Bumped(s, size, alignment))],
         p.given + [Region(AlignUp(s.Cursor(), alignment), size, alignment)])
  }

  function NewBlockSize(size: nat): nat {
    if Wrap(size * 2) > MIN_BLOCK then Wrap(size * 2) else MIN_BLOCK
  }

  function MapSize(blockSize: nat): nat {
    Wrap(blockSize + HEADER)
  }

  function Append(p: Pool, page: nat, size: nat): Pool {
    p.(segments := p.segments + [Segment(page, size, 0)])
  }

  function Initialized(p: Pool, capacity: nat, answer: Option<nat>): Pool {
    if p.segments != [] || answer.None? then p
    else Append(p, answer.value, if capacity > MIN_BLOCK then capacity else MIN_BLOCK)
  }

  /** Bump segment i for a request and return the pointer with it. */
  function Bump(p: Pool, i: nat, size: nat, alignment: nat): (Pool, Option<nat>)
    requires i < |p.segments|
  {
    (Give(p, i, size, alignment), Some(AlignUp(p.segments[i].Cursor(), alignment)))
  }

  /** The end of `Allocate`, with no test that the request fits the new block. */
  function AllocatedInNewBlock(p: Pool, size: nat, alignment: nat, forNew: Option<nat>): (Pool, Option<nat>) {
    if forNew.None? then (p, None)
    else Bump(Append(p, forNew.value, NewBlockSize(size)), |p.segments|, size, alignment)
  }

  /** The walk over the list and what follows it. */
  function AllocatedFromList(p: Pool, size: nat, alignment: nat, forNew: Option<nat>): (Pool, Option<nat>) {
    var i := FirstFit(p.segments, size, alignment);
    if i < |p.segments| then Bump(p, i, size, alignment)
    else AllocatedInNewBlock(p, size, alignment, forNew)
  }

  /** `Allocate`, given what `mmap` answers should the head block or a new block be needed.
      The second component is the pointer, None when `std::bad_alloc` is thrown. */
  function Allocated(p: Pool, size: nat, alignment: nat, forHead: Option<nat>, forNew: Option<nat>)
    : (Pool, Option<nat>)
  {
    var q := Initialized(p, MIN_BLOCK, forHead);
    if q.segments == [] then (q, None) else AllocatedFromList(q, size, alignment, forNew)
  }

  // ----- the kernel's side -----

  predicate Apart(a: nat, aLen: nat, b: nat, bLen: nat) {
    a + aLen <= b || b + bLen <= a
  }

  /** `mmap` either fails or returns an unused, page-aligned user range of the asked length. */
  ghost predicate MayAnswer(segments: seq<Segment>, total: nat, answer: Option<nat>) {
    answer.Some? ==>
      && total > 0
      && answer.value > 0 && answer.value % PAGE == 0
      && answer.value + total <= ADDRESS_TOP
      && forall s :: s in segments ==>
           s.page != answer.value && Apart(s.page, MapSize(s.size), answer.value, total)
  }

  ghost predicate AnswersOk(p: Pool, size: nat, forHead: Option<nat>, forNew: Option<nat>) {
    && MayAnswer(p.segments, MapSize(MIN_BLOCK), forHead)
    && MayAnswer(Initialized(p, MIN_BLOCK, forHead).segments, MapSize(NewBlockSize(size)), forNew)
  }

  // ----- what the allocator promises -----

  predicate SegmentOk(s: Segment) {
    && s.page > 0 && s.page % PAGE == 0
    && s.used <= s.size
    && s.page + HEADER + s.size <= ADDRESS_TOP
  }

  predicate Inside(r: Region, s: Segment) {
    s.Memory() <= r.start && r.start + r.size <= s.Memory() + s.used
  }

  ghost predicate SegmentsOk(segments: seq<Segment>) {
    && (forall i :: 0 <= i < |segments| ==> SegmentOk(segments[i]))
    && forall i, j :: 0 <= i < j < |segments| ==>
         Apart(segments[i].page, HEADER + segments[i].size, segments[j].page, HEADER + segments[j].size)
  }

  ghost predicate RegionOk(r: Region, segments: seq<Segment>) {
    && r.alignment > 0 && r.start % r.alignment == 0
    && exists i :: 0 <= i < |segments| && Inside(r, segments[i])
  }

  ghost predicate PoolOk(p: Pool) {
    && SegmentsOk(p.segments)
    && (forall k :: 0 <= k < |p.given| ==> RegionOk(p.given[k], p.segments))
    && forall k, l :: 0 <= k < l < |p.given| ==>
         Apart(p.given[k].start, p.given[k].size, p.given[l].start, p.given[l].size)
  }

  /** The requests every fresh block holds: doubling the size stays within 64 bits, and the
      worst padding below a page-aligned header leaves room. */
  predicate Holds(size: nat, alignment: nat) {
    && size * 2 + HEADER < WORD
    && (alignment <= HEADER || alignment - HEADER + size <= NewBlockSize(size))
  }

  // ----- lemmas about one block -----

  /** Whether the next aligned address of the block leaves room for the request. */
  predicate HasRoom(s: Segment, size: nat, alignment: nat) {
    AlignUp(s.Memory() + s.used, alignment) + size <= s.Memory() + s.size
  }

  lemma TopIsPow2()
    ensures Pow2(63) == ADDRESS_TOP
  {
    WordIsPow2();
  }

  /** Under the invariant only the last addition of a bump can wrap: cursor and padding are
      exact for any power of two, and so are the bytes in use unless the request itself
      carries them past 64 bits. */
  lemma BumpIsExact(s: Segment, size: nat, alignment: nat)
    requires SegmentOk(s) && IsAlignment(alignment)
    ensures alignment > 0 && s.Cursor() == s.Memory() + s.used
    ensures var start := AlignUp(s.Cursor(), alignment);
            && start % alignment == 0
            && s.Cursor() <= start < s.Cursor() + alignment && start <= ADDRESS_TOP
            && Padding(s, alignment) == start - s.Cursor()
            && Bumped(s, size, alignment) == Wrap(start - s.Memory() + size)
  {
    TopIsPow2();
    AlignUpInLowerHalf(s.Cursor(), alignment);
  }

  // ----- a fresh block is bumped without a test -----

  lemma AlignmentVersusHeader(a: nat)
    requires IsAlignment(a)
    ensures a > 0 && if a <= HEADER then HEADER % a == 0 else a % HEADER == 0
  {
    var k: nat :| k < 64 && Pow2(k) == a;
    assert Pow2(5) == HEADER;
    if k <= 5 {
      Pow2Monotone(k, 5);
      Divides(k, 5);
    } else {
      Pow2Monotone(6, k);
      Divides(5, k);
    }
  }

  lemma PagePlusHeader(page: nat)
    requires page % PAGE == 0
    ensures (page + HEADER) % HEADER == 0
  {
    DivModUnique(page + HEADER, HEADER, 128 * (page / PAGE) + 1, 0);
  }

  lemma SumOfMultiples(x: nat, y: nat, d: nat)
    requires d > 0 && x % d == 0 && y % d == 0
    ensures (x + y) % d == 0
  {
    assert x == (x / d) * d && y == (y / d) * d;
    DivModUnique(x + y, d, x / d + y / d, 0);
  }

  /** The payload starts one header past a page, so no padding is needed up to the header's
      size, and at most `alignment - HEADER` beyond it. */
  lemma FreshPadding(page: nat, alignment: nat)
    requires IsAlignment(alignment) && page % PAGE == 0 && page + HEADER <= ADDRESS_TOP
    ensures alignment > 0
    ensures AlignUp(page + HEADER, alignment) - (page + HEADER) <=
            if alignment <= HEADER then 0 else alignment - HEADER
  {
    TopIsPow2();
    var base := page + HEADER;
    AlignUpInLowerHalf(base, alignment);
    AlignmentVersusHeader(alignment);
    PagePlusHeader(page);
    if alignment <= HEADER {
      MultipleOfMultiple(base, HEADER, alignment);
      MultiplesApart(base, AlignUp(base, alignment), alignment);
    } else {
      MultipleOfMultiple(AlignUp(base, alignment), alignment, HEADER);
      SumOfMultiples(base, alignment, HEADER);
      MultiplesApart(AlignUp(base, alignment), base + alignment, HEADER);
    }
  }

  /** A block mapped for a request that Holds accepts has room for padding and request, so
      the bump without a test keeps `used <= size`. */
  lemma FreshBlockHolds(page: nat, size: nat, alignment: nat)
    requires IsAlignment(alignment) && Holds(size, alignment)
    requires MayAnswer([], MapSize(NewBlockSize(size)), Some(page))
    ensures SegmentOk(Segment(page, NewBlockSize(size), 0))
    ensures Fits(Segment(page, NewBlockSize(size), 0), size, alignment)
    ensures Contains(Segment(page, NewBlockSize(size), 0), size, alignment)
  {
    BumpIsExact(Segment(page, NewBlockSize(size), 0), size, alignment);
    FreshPadding(page, alignment);
  }

  /** The payload lies inside the mapping and the aligned request inside the payload,
      in exact arithmetic. */
  predicate Contains(s: Segment, size: nat, alignment: nat) {
    && s.size + HEADER <= MapSize(s.size)
    && AlignUp(s.Memory(), alignment) + size <= s.Memory() + s.size
  }

  /** Up to an alignment of a mebibyte only the doubled size matters. */
  lemma HoldsUpToAMebibyte(size: nat, alignment: nat)
    requires IsAlignment(alignment) && alignment <= 0x10_0000
    ensures Holds(size, alignment) <==> size * 2 + HEADER < WORD
  {
  }

  /** Holds is exact: if the kernel can map the block the code asks for at all, then the
      block contains the request on every page the kernel may pick if and only if Holds
      accepts the request. */
  lemma HoldsIsExact(size: nat, alignment: nat)
    requires IsAlignment(alignment) && alignment <= Pow2(60) && size < WORD
    requires MayAnswer([], MapSize(NewBlockSize(size)), Some(PAGE))
    ensures Holds(size, alignment) <==>
            forall page: nat :: MayAnswer([], MapSize(NewBlockSize(size)), Some(page)) ==>
                                  Contains(Segment(page, NewBlockSize(size), 0), size, alignment)
  {
    if Holds(size, alignment) {
      forall page: nat | MayAnswer([], MapSize(NewBlockSize(size)), Some(page))
        ensures Contains(Segment(page, NewBlockSize(size), 0), size, alignment)
      {
        FreshBlockHolds(page, size, alignment);
      }
    } else {
      var page := if size * 2 + HEADER < WORD then alignment else PAGE;
      OverrunWitness(page, size, alignment);
      assert MayAnswer([], MapSize(NewBlockSize(size)), Some(page));
    }
  }

  lemma OverrunWitness(page: nat, size: nat, alignment: nat)
    requires IsAlignment(alignment) && alignment <= Pow2(60) && size < WORD
    requires MayAnswer([], MapSize(NewBlockSize(size)), Some(PAGE))
    requires !Holds(size, alignment)
    requires page == if size * 2 + HEADER < WORD then alignment else PAGE
    ensures MayAnswer([], MapSize(NewBlockSize(size)), Some(page))
    ensures !Contains(Segment(page, NewBlockSize(size), 0), size, alignment)
  {
    TopIsPow2();
    if size * 2 + HEADER < WORD {
      Divides(60, 63);
      assert Pow2(63) == 8 * Pow2(60);
      LargeAlignmentIsPaged(alignment);
      AlignUpInLowerHalf(alignment + HEADER, alignment);
      assert alignment % alignment == 0;
      MultiplesApart(alignment, AlignUp(alignment + HEADER, alignment), alignment);
    } else {
      AlignUpInLowerHalf(PAGE + HEADER, alignment);
    }
  }

  lemma LargeAlignmentIsPaged(a: nat)
    requires IsAlignment(a) && a > PAGE
    ensures a % PAGE == 0
  {
    var k: nat :| k < 64 && Pow2(k) == a;
    assert Pow2(6) == 64;
    Pow2Split(6, 12);
    if k < 12 {
      Pow2Monotone(k, 12);
    } else {
      Divides(12, k);
    }
  }

  // ----- one operation keeps the promise -----

  lemma GiveKeepsSegments(p: Pool, i: nat, size: nat, alignment: nat)
    requires PoolOk(p) && i < |p.segments|
    requires IsAlignment(alignment) && HasRoom(p.segments[i], size, alignment)
    ensures SegmentsOk(Give(p, i, size, alignment).segments)
    ensures p.segments[i].used <= Give(p, i, size, alignment).segments[i].used
  {
    BumpIsExact(p.segments[i], size, alignment);
    var q := Give(p, i, size, alignment);
    forall j, k | 0 <= j < k < |q.segments|
      ensures Apart(q.segments[j].page, HEADER + q.segments[j].size, q.segments[k].page, HEADER + q.segments[k].size)
    {
      assert Apart(p.segments[j].page, HEADER + p.segments[j].size, p.segments[k].page, HEADER + p.segments[k].size);
    }
  }

  /** A region handed out before stays inside its block and apart from the new region. */
  lemma OldRegionSurvives(p: Pool, i: nat, size: nat, alignment: nat, r: Region)
    requires PoolOk(p) && i < |p.segments| && RegionOk(r, p.segments)
    requires IsAlignment(alignment) && HasRoom(p.segments[i], size, alignment)
    ensures RegionOk(r, Give(p, i, size, alignment).segments)
    ensures Apart(r.start, r.size, AlignUp(p.segments[i].Cursor(), alignment), size)
  {
    BumpIsExact(p.segments[i], size, alignment);
    var j :| 0 <= j < |p.segments| && Inside(r, p.segments[j]);
    var q := Give(p, i, size, alignment);
    assert Inside(r, q.segments[j]);
    assert SegmentOk(p.segments[j]) && SegmentOk(p.segments[i]);
    if j < i {
      assert Apart(p.segments[j].page, HEADER + p.segments[j].size, p.segments[i].page, HEADER + p.segments[i].size);
    } else if i < j {
      assert Apart(p.segments[i].page, HEADER + p.segments[i].size, p.segments[j].page, HEADER + p.segments[j].size);
    }
  }

  lemma GiveKeepsPool(p: Pool, i: nat, size: nat, alignment: nat)
    requires PoolOk(p) && i < |p.segments|
    requires IsAlignment(alignment) && HasRoom(p.segments[i], size, alignment)
    ensures PoolOk(Give(p, i, size, alignment))
  {
    var q := Give(p, i, size, alignment);
    GiveKeepsSegments(p, i, size, alignment);
    BumpIsExact(p.segments[i], size, alignment);
    assert Inside(q.given[|p.given|], q.segments[i]);
    forall k | 0 <= k < |p.given|
      ensures RegionOk(q.given[k], q.segments)
      ensures Apart(q.given[k].start, q.given[k].size, q.given[|p.given|].start, q.given[|p.given|].size)
    {
      OldRegionSurvives(p, i, size, alignment, p.given[k]);
    }
  }

  lemma NothingInsideBeyondTop(r: Region, segments: seq<Segment>)
    requires SegmentsOk(segments) && r.start + r.size > ADDRESS_TOP
    ensures !RegionOk(r, segments)
  {
    forall j | 0 <= j < |segments|
      ensures !Inside(r, segments[j])
    {
      assert SegmentOk(segments[j]);
    }
  }

  /** Without room the bump breaks the invariant: the block overflows, or the bytes in use
      wrap and the region leaves the address space. */
  lemma OverrunBreaksPool(p: Pool, i: nat, size: nat, alignment: nat)
    requires PoolOk(p) && i < |p.segments| && size < WORD
    requires IsAlignment(alignment) && !HasRoom(p.segments[i], size, alignment)
    ensures !PoolOk(Give(p, i, size, alignment))
  {
    BumpIsExact(p.segments[i], size, alignment);
    var q := Give(p, i, size, alignment);
    if size < ADDRESS_TOP {
      assert !SegmentOk(q.segments[i]);
    } else if SegmentsOk(q.segments) {
      NothingInsideBeyondTop(q.given[|p.given|], q.segments);
    }
  }

  /** Handing out the next aligned address of a block keeps the invariant if and only if the
      block has room for the request, whatever the wrapped test says. */
  lemma BumpIsSoundExactlyWithRoom(p: Pool, i: nat, size: nat, alignment: nat)
    requires PoolOk(p) && i < |p.segments| && IsAlignment(alignment) && size < WORD
    ensures PoolOk(Give(p, i, size, alignment)) <==> HasRoom(p.segments[i], size, alignment)
  {
    if HasRoom(p.segments[i], size, alignment) {
      GiveKeepsPool(p, i, size, alignment);
    } else {
      OverrunBreaksPool(p, i, size, alignment);
    }
  }

  lemma AppendKeepsPool(p: Pool, page: nat, size: nat)
    requires PoolOk(p) && size + HEADER < WORD
    requires MayAnswer(p.segments, MapSize(size), Some(page))
    ensures PoolOk(Append(p, page, size))
  {
    var q := Append(p, page, size);
    forall j | 0 <= j < |p.segments|
      ensures Apart(p.segments[j].page, HEADER + p.segments[j].size, page, HEADER + size)
    {
      assert p.segments[j] in p.segments && SegmentOk(p.segments[j]);
    }
    forall k | 0 <= k < |p.given|
      ensures RegionOk(p.given[k], q.segments)
    {
      var i :| 0 <= i < |p.segments| && Inside(p.given[k], p.segments[i]);
      assert Inside(p.given[k], q.segments[i]);
    }
  }

  /** Linking a freshly mapped block keeps the invariant if and only if the header does not
      carry its size past 64 bits: beyond that the mapping is a few bytes long and the block
      records almost the whole address space. */
  lemma AppendIsSoundExactlyWithoutWrap(p: Pool, page: nat, size: nat)
    requires PoolOk(p) && MayAnswer(p.segments, MapSize(size), Some(page))
    ensures PoolOk(Append(p, page, size)) <==> size + HEADER < WORD
  {
    if size + HEADER < WORD {
      AppendKeepsPool(p, page, size);
    } else {
      assert !SegmentOk(Append(p, page, size).segments[|p.segments|]);
    }
  }

  // ----- one call -----

  datatype Operation =
    | DoInitialize(capacity: nat, answer: Option<nat>)
    | DoAllocate(size: nat, alignment: nat, forHead: Option<nat>, forNew: Option<nat>)
    | DoShutdown

  function Apply(p: Pool, op: Operation): Pool {
    match op
    case DoInitialize(capacity, answer) => Initialized(p, capacity, answer)
    case DoAllocate(size, alignment, forHead, forNew) => Allocated(p, size, alignment, forHead, forNew).0
    case DoShutdown => EMPTY
  }

  /** Any call with 64-bit arguments, a power of two up to a given bound for alignment, and
      answers the kernel may give. */
  ghost predicate Admissible(p: Pool, op: Operation, maxAlignment: nat) {
    match op
    case DoInitialize(capacity, answer) =>
      && capacity < WORD
      && MayAnswer(p.segments, MapSize(if capacity > MIN_BLOCK then capacity else MIN_BLOCK), answer)
    case DoAllocate(size, alignment, forHead, forNew) =>
      && size < WORD && IsAlignment(alignment) && alignment <= maxAlignment
      && AnswersOk(p, size, forHead, forNew)
    case DoShutdown => true
  }

  /** The new block for a request, if there is one, has room for it. */
  predicate ServedByNewBlock(size: nat, alignment: nat, forNew: Option<nat>) {
    forNew.Some? ==> Contains(Segment(forNew.value, NewBlockSize(size), 0), size, alignment)
  }

  /** The block that the call bumps or links, if it does, has room. */
  predicate Served(p: Pool, op: Operation) {
    match op
    case DoInitialize(capacity, answer) =>
      p.segments != [] || answer.None? || capacity + HEADER < WORD
    case DoAllocate(size, alignment, forHead, forNew) =>
      var segments := Initialized(p, MIN_BLOCK, forHead).segments;
      var i := FirstFit(segments, size, alignment);
      || segments == []
      || (if i < |segments| then HasRoom(segments[i], size, alignment)
          else ServedByNewBlock(size, alignment, forNew))
    case DoShutdown => true
  }

  lemma NewBlockIsSoundExactlyWhenServed(p: Pool, size: nat, alignment: nat, forNew: Option<nat>)
    requires PoolOk(p) && IsAlignment(alignment) && size < WORD
    requires MayAnswer(p.segments, MapSize(NewBlockSize(size)), forNew)
    ensures PoolOk(AllocatedInNewBlock(p, size, alignment, forNew).0) <==> ServedByNewBlock(size, alignment, forNew)
  {
    if forNew.Some? {
      var q := Append(p, forNew.value, NewBlockSize(size));
      AppendIsSoundExactlyWithoutWrap(p, forNew.value, NewBlockSize(size));
      if NewBlockSize(size) + HEADER < WORD {
        BumpIsSoundExactlyWithRoom(q, |p.segments|, size, alignment);
      } else {
        assert !SegmentOk(Give(q, |p.segments|, size, alignment).segments[|p.segments|]);
      }
    }
  }

  lemma InitializedKeepsPool(p: Pool, answer: Option<nat>)
    requires PoolOk(p) && MayAnswer(p.segments, MapSize(MIN_BLOCK), answer)
    ensures PoolOk(Initialized(p, MIN_BLOCK, answer))
  {
    if p.segments == [] && answer.Some? {
      AppendKeepsPool(p, answer.value, MIN_BLOCK);
    }
  }

  /** A call keeps all regions ever handed out aligned, inside a block and pairwise apart if
      and only if the block it turns to has room; the pointer it returns starts the newest. */
  lemma CallIsSoundExactlyWhenServed(p: Pool, op: Operation, maxAlignment: nat)
    requires PoolOk(p) && Admissible(p, op, maxAlignment)
    ensures PoolOk(Apply(p, op)) <==> Served(p, op)
    ensures op.DoAllocate? ==>
              var (q, r) := Allocated(p, op.size, op.alignment, op.forHead, op.forNew);
              q == Apply(p, op) && q.given == match r
              case None => p.given
              case Some(start) => p.given + [Region(start, op.size, op.alignment)]
  {
    match op
    case DoInitialize(capacity, answer) =>
      if p.segments == [] && answer.Some? {
        AppendIsSoundExactlyWithoutWrap(p, answer.value, if capacity > MIN_BLOCK then capacity else MIN_BLOCK);
      }
    case DoAllocate(size, alignment, forHead, forNew) =>
      var q := Initialized(p, MIN_BLOCK, forHead);
      InitializedKeepsPool(p, forHead);
      var i := FirstFit(q.segments, size, alignment);
      if i < |q.segments| {
        BumpIsSoundExactlyWithRoom(q, i, size, alignment);
      } else if q.segments != [] {
        NewBlockIsSoundExactlyWhenServed(q, size, alignment, forNew);
      }
    case DoShutdown =>
  }

  /** Below half the address space a request that Holds accepts is served, whatever the kernel
      answers; and any request is that is refused by the kernel after the walk. */
  lemma OrdinaryRequestsAreServed(
    p: Pool, size: nat, alignment: nat, forHead: Option<nat>, forNew: Option<nat>, maxAlignment: nat)
    requires PoolOk(p) && Admissible(p, DoAllocate(size, alignment, forHead, forNew), maxAlignment)
    requires size < ADDRESS_TOP && (Holds(size, alignment) || forNew.None?)
    ensures Served(p, DoAllocate(size, alignment, forHead, forNew))
  {
    var segments := Initialized(p, MIN_BLOCK, forHead).segments;
    InitializedKeepsPool(p, forHead);
    var i := FirstFit(segments, size, alignment);
    if i < |segments| {
      FitIsRoom(segments[i], size, alignment);
    } else {
      NewBlockServes(size, alignment, forNew);
    }
  }

  lemma FitIsRoom(s: Segment, size: nat, alignment: nat)
    requires SegmentOk(s) && IsAlignment(alignment) && size < ADDRESS_TOP
    ensures Fits(s, size, alignment) <==> HasRoom(s, size, alignment)
  {
    BumpIsExact(s, size, alignment);
  }

  lemma NewBlockServes(size: nat, alignment: nat, forNew: Option<nat>)
    requires IsAlignment(alignment) && MayAnswer([], MapSize(NewBlockSize(size)), forNew)
    requires Holds(size, alignment) || forNew.None?
    ensures ServedByNewBlock(size, alignment, forNew)
  {
    if forNew.Some? {
      FreshBlockHolds(forNew.value, size, alignment);
    }
  }

  // ----- every history -----

  function Run(p: Pool, ops: seq<Operation>): Pool
    decreases |ops|
  {
    if ops == [] then p else Run(Apply(p, ops[0]), ops[1..])
  }

  ghost predicate AllAdmissible(p: Pool, ops: seq<Operation>, maxAlignment: nat)
    decreases |ops|
  {
    ops != [] ==> Admissible(p, ops[0], maxAlignment) && AllAdmissible(Apply(p, ops[0]), ops[1..], maxAlignment)
  }

  predicate AllServed(p: Pool, ops: seq<Operation>)
    decreases |ops|
  {
    ops != [] ==> Served(p, ops[0]) && AllServed(Apply(p, ops[0]), ops[1..])
  }

  ghost predicate PoolOkThroughout(p: Pool, ops: seq<Operation>)
    decreases |ops|
  {
    PoolOk(p) && (ops != [] ==> PoolOkThroughout(Apply(p, ops[0]), ops[1..]))
  }

  /** Throughout any history of calls the regions handed out since the last shutdown are
      aligned, each inside a mapped block, and pairwise apart, if and only if every block a
      call turned to had room. */
  lemma {:induction false} HistoryIsSoundExactlyWhenServed(p: Pool, ops: seq<Operation>, maxAlignment: nat)
    requires PoolOk(p) && AllAdmissible(p, ops, maxAlignment)
    ensures PoolOkThroughout(p, ops) <==> AllServed(p, ops)
    decreases |ops|
  {
    if ops != [] {
      CallIsSoundExactlyWhenServed(p, ops[0], maxAlignment);
      if Served(p, ops[0]) {
        HistoryIsSoundExactlyWhenServed(Apply(p, ops[0]), ops[1..], maxAlignment);
      }
    }
  }

  lemma {:induction false} EndOfHistory(p: Pool, ops: seq<Operation>)
    requires PoolOkThroughout(p, ops)
    ensures PoolOk(Run(p, ops))
    decreases |ops|
  {
    if ops != [] {
      EndOfHistory(Apply(p, ops[0]), ops[1..]);
    }
  }

  /** Requests the code is meant for: room for any of them in a fresh block. */
  predicate Ordinary(op: Operation) {
    match op
    case DoInitialize(capacity, _) => capacity + HEADER < WORD
    case DoAllocate(size, alignment, _, _) => size < ADDRESS_TOP && Holds(size, alignment)
    case DoShutdown => true
  }

  /** After any history of ordinary requests the regions are as promised. */
  lemma {:induction false} EveryHistoryKeepsPool(p: Pool, ops: seq<Operation>, maxAlignment: nat)
    requires PoolOk(p) && AllAdmissible(p, ops, maxAlignment)
    requires forall i :: 0 <= i < |ops| ==> Ordinary(ops[i])
    ensures AllServed(p, ops) && PoolOk(Run(p, ops))
    decreases |ops|
  {
    if ops != [] {
      var op := ops[0];
      assert Ordinary(op);
      if op.DoAllocate? {
        OrdinaryRequestsAreServed(p, op.size, op.alignment, op.forHead, op.forNew, maxAlignment);
      }
      CallIsSoundExactlyWhenServed(p, op, maxAlignment);
      EveryHistoryKeepsPool(Apply(p, op), ops[1..], maxAlignment);
    }
  }

  lemma BlocksApart(p: Pool, i: nat, j: nat)
    requires PoolOk(p) && i < |p.segments| && j < |p.segments|
    ensures i != j ==> Apart(p.segments[i].page, HEADER + p.segments[i].size,
                             p.segments[j].page, HEADER + p.segments[j].size)
  {
    if i < j {
      assert Apart(p.segments[i].page, HEADER + p.segments[i].size, p.segments[j].page, HEADER + p.segments[j].size);
    } else if j < i {
      assert Apart(p.segments[j].page, HEADER + p.segments[j].size, p.segments[i].page, HEADER + p.segments[i].size);
    }
  }

  /** A region lies inside the payload of exactly one block. */
  lemma RegionInOneBlock(p: Pool, k: nat)
    requires PoolOk(p) && k < |p.given|
    ensures exists i :: 0 <= i < |p.segments| && Inside(p.given[k], p.segments[i])
    ensures forall i, j :: (&& 0 <= i < |p.segments| && Inside(p.given[k], p.segments[i])
                            && 0 <= j < |p.segments| && Inside(p.given[k], p.segments[j])) ==> i == j
  {
    assert RegionOk(p.given[k], p.segments);
    forall i, j | 0 <= i < |p.segments| && 0 <= j < |p.segments|
                  && Inside(p.given[k], p.segments[i]) && Inside(p.given[k], p.segments[j])
      ensures i == j
    {
      assert SegmentOk(p.segments[i]) && SegmentOk(p.segments[j]);
      BlocksApart(p, i, j);
    }
  }

  // ----- first fit, in exact arithmetic -----

  lemma RoomIsFit(segments: seq<Segment>, size: nat, alignment: nat)
    requires SegmentsOk(segments) && IsAlignment(alignment) && size < ADDRESS_TOP
    ensures forall i :: 0 <= i < |segments| ==>
                          (Fits(segments[i], size, alignment) <==> HasRoom(segments[i], size, alignment))
  {
    forall i | 0 <= i < |segments|
      ensures Fits(segments[i], size, alignment) <==> HasRoom(segments[i], size, alignment)
    {
      FitIsRoom(segments[i], size, alignment);
    }
  }

  lemma BumpLanding(s: Segment, size: nat, alignment: nat)
    requires SegmentOk(s) && IsAlignment(alignment) && size < ADDRESS_TOP
    ensures s.Cursor() == s.Memory() + s.used
    ensures Bumped(s, size, alignment) == AlignUp(s.Cursor(), alignment) + size - s.Memory()
  {
    BumpIsExact(s, size, alignment);
  }

  lemma FirstFitIs(segments: seq<Segment>, size: nat, alignment: nat, i: nat)
    requires i <= |segments|
    requires i < |segments| ==> Fits(segments[i], size, alignment)
    requires forall j :: 0 <= j < i ==> !Fits(segments[j], size, alignment)
    ensures FirstFit(segments, size, alignment) == i
  {
  }

  /** The test of the walk is wrong exactly for requests so large that the sum wraps to a
      value the block could hold: those are let through without room. */
  lemma WalkTestIsExactWithoutWrap(s: Segment, size: nat, alignment: nat)
    requires SegmentOk(s) && IsAlignment(alignment) && size < WORD
    ensures AlignUp(s.Cursor(), alignment) >= s.Memory()
    ensures var sum := AlignUp(s.Cursor(), alignment) - s.Memory() + size;
            (Fits(s, size, alignment) <==> HasRoom(s, size, alignment)) <==> !(WORD <= sum <= WORD + s.size)
  {
    BumpIsExact(s, size, alignment);
    WrapOnce(AlignUp(s.Cursor(), alignment) - s.Memory() + size);
  }

  lemma WrapOnce(x: nat)
    requires x < 2 * WORD
    ensures Wrap(x) == if x < WORD then x else x - WORD
  {
    if x >= WORD {
      DivModUnique(x, WORD, 1, x - WORD);
    }
  }

  /** The pointer comes from the first block in list order that has room, which is bumped to
      its end; every other block stays as it was and nothing is mapped. */
  lemma FirstBlockWithRoom(p: Pool, size: nat, alignment: nat, forHead: Option<nat>, forNew: Option<nat>, i: nat)
    requires SegmentsOk(p.segments) && IsAlignment(alignment)
    requires i < |p.segments| && HasRoom(p.segments[i], size, alignment)
    requires forall j :: 0 <= j < i ==> !HasRoom(p.segments[j], size, alignment)
    ensures var (q, r) := Allocated(p, size, alignment, forHead, forNew);
            && r == Some(AlignUp(p.segments[i].Memory() + p.segments[i].used, alignment))
            && q.segments == p.segments[i := q.segments[i]]
            && q.segments[i] == p.segments[i].(used := q.segments[i].used)
            && q.segments[i].Memory() + q.segments[i].used == r.value + size
  {
    assert SegmentOk(p.segments[i]);
    BumpIsExact(p.segments[i], size, alignment);
    RoomIsFit(p.segments, size, alignment);
    FirstFitIs(p.segments, size, alignment, i);
    BumpLanding(p.segments[i], size, alignment);
  }

  /** A block is mapped only when no block of the list has room; it goes to the end of the
      list, is twice as large as the request and two mebibytes at least, and the pointer is the
      first aligned address of its payload. */
  lemma NewBlockOnlyWhenFull(p: Pool, size: nat, alignment: nat, forHead: Option<nat>, forNew: Option<nat>)
    requires SegmentsOk(p.segments) && p.segments != [] && IsAlignment(alignment) && Holds(size, alignment)
    requires AnswersOk(p, size, forHead, forNew)
    requires forall j :: 0 <= j < |p.segments| ==> !HasRoom(p.segments[j], size, alignment)
    ensures var (q, r) := Allocated(p, size, alignment, forHead, forNew);
            match forNew
            case None => q == p && r == None
            case Some(page) =>
              && r == Some(AlignUp(page + HEADER, alignment))
              && |q.segments| == |p.segments| + 1 && q.segments[..|p.segments|] == p.segments
              && var s := q.segments[|p.segments|];
              && s == Segment(page, NewBlockSize(size), s.used) && s.Memory() + s.used == r.value + size
              && s.size >= size * 2 && s.size >= 0x20_0000 && (s.size == size * 2 || s.size == 0x20_0000)
  {
    RoomIsFit(p.segments, size, alignment);
    FirstFitIs(p.segments, size, alignment, |p.segments|);
    if forNew.Some? {
      NewBlockHoldsThePointer(p, forNew.value, size, alignment);
    }
  }

  lemma NewBlockHoldsThePointer(p: Pool, page: nat, size: nat, alignment: nat)
    requires IsAlignment(alignment) && Holds(size, alignment)
    requires MayAnswer(p.segments, MapSize(NewBlockSize(size)), Some(page))
    ensures var (q, r) := AllocatedInNewBlock(p, size, alignment, Some(page));
            && r == Some(AlignUp(page + HEADER, alignment))
            && |q.segments| == |p.segments| + 1 && q.segments[..|p.segments|] == p.segments
            && q.segments[|p.segments|] == Segment(page, NewBlockSize(size), q.segments[|p.segments|].used)
            && q.segments[|p.segments|].Memory() + q.segments[|p.segments|].used == r.value + size
  {
    FreshSegmentOk(p, page, size, alignment);
    BumpLanding(Segment(page, NewBlockSize(size), 0), size, alignment);
  }

  lemma FreshSegmentOk(p: Pool, page: nat, size: nat, alignment: nat)
    requires IsAlignment(alignment) && Holds(size, alignment)
    requires MayAnswer(p.segments, MapSize(NewBlockSize(size)), Some(page))
    ensures SegmentOk(Segment(page, NewBlockSize(size), 0))
  {
    assert MayAnswer([], MapSize(NewBlockSize(size)), Some(page));
    FreshBlockHolds(page, size, alignment);
  }

  // ----- how large blocks are -----

  /** A first block is as large as configured but never below two mebibytes; with a list, or
      without an answer, nothing happens. */
  lemma FirstBlockSize(p: Pool, capacity: nat, answer: Option<nat>)
    ensures var q := Initialized(p, capacity, answer);
            if p.segments != [] || answer.None? then q == p
            else
              && |q.segments| == 1 && q.given == p.given
              && q.segments[0].page == answer.value && q.segments[0].used == 0
              && q.segments[0].size >= capacity && q.segments[0].size >= 0x20_0000
              && (q.segments[0].size == capacity || q.segments[0].size == 0x20_0000)
  {
  }

  /** `Allocate` on an empty list first maps two mebibytes and then goes on as on a list of
      that block; without it nothing is handed out. */
  lemma AllocatingOnAnEmptyList(p: Pool, size: nat, alignment: nat, forHead: Option<nat>, forNew: Option<nat>)
    requires p.segments == []
    ensures var result := Allocated(p, size, alignment, forHead, forNew);
            match forHead
            case None => result == (p, None)
            case Some(page) =>
              result == Allocated(Pool([Segment(page, 0x20_0000, 0)], p.given), size, alignment, None, forNew)
  {
    if forHead.Some? {
      assert p.segments + [Segment(forHead.value, 0x20_0000, 0)] == [Segment(forHead.value, 0x20_0000, 0)];
    }
  }

  /** A mapping is the payload and a header of 32 bytes, in 64 bits. */
  lemma MappingSize(size: nat)
    requires size < WORD
    ensures MapSize(size) == if size + 32 < WORD then size + 32 else size + 32 - WORD
  {
    WrapOnce(size + 32);
  }

  /** A block mapped for a request has twice its size in 64 bits, and two mebibytes at least. */
  lemma NewBlockIsTwiceTheRequest(p: Pool, size: nat, alignment: nat, forNew: Option<nat>)
    requires size < WORD && forNew.Some?
    ensures var q := AllocatedInNewBlock(p, size, alignment, forNew).0;
            var doubled := if size * 2 < WORD then size * 2 else size * 2 - WORD;
            && |q.segments| == |p.segments| + 1
            && var s := q.segments[|p.segments|];
            && s.page == forNew.value
            && s.size >= doubled && s.size >= 0x20_0000 && (s.size == doubled || s.size == 0x20_0000)
  {
    WrapOnce(size * 2);
  }

  lemma MultipleAtCeiling(x: nat, k: nat, a: nat)
    requires a > 0 && x % a == 0
    ensures (x + k) % a == 0 <==> k % a == 0
  {
    if k % a == 0 {
      SumOfMultiples(x, k, a);
    }
    assert x == (x / a) * a && k == (k / a) * a + k % a;
    assert x + k == (x / a + k / a) * a + k % a by {
      assert (x / a + k / a) * a == (x / a) * a + (k / a) * a;
    }
    DivModUnique(x + k, a, x / a + k / a, k % a);
  }

  lemma FreshMemoryIsAligned(page: nat, alignment: nat)
    requires IsAlignment(alignment) && alignment <= HEADER && page % PAGE == 0
    ensures alignment > 0 && (page + HEADER) % alignment == 0
  {
    AlignmentVersusHeader(alignment);
    PagePlusHeader(page);
    MultipleOfMultiple(page + HEADER, HEADER, alignment);
  }

  lemma MebibyteIsAligned(alignment: nat)
    requires IsAlignment(alignment) && alignment <= HEADER
    ensures alignment > 0 && 0x10_0000 % alignment == 0
  {
    AlignmentVersusHeader(alignment);
    assert 0x10_0000 % HEADER == 0;
    MultipleOfMultiple(0x10_0000, HEADER, alignment);
  }

  lemma NextAligned(s: Segment, size: nat, alignment: nat)
    requires SegmentOk(s) && IsAlignment(alignment) && alignment <= HEADER
    requires s.used == size <= s.size
    ensures var start := AlignUp(s.Memory() + s.used, alignment);
            && s.Memory() + size <= start
            && (start == s.Memory() + size <==> size % alignment == 0)
            && (size <= 0x10_0000 ==> start <= s.Memory() + 0x10_0000)
  {
    var base := s.Memory();
    BumpIsExact(s, size, alignment);
    FreshMemoryIsAligned(s.page, alignment);
    MebibyteIsAligned(alignment);
    MultipleAtCeiling(base, size, alignment);
    MultipleAtCeiling(base, 0x10_0000, alignment);
    MultiplesApart(base + 0x10_0000, AlignUp(base + size, alignment), alignment);
    if size % alignment == 0 {
      MultiplesApart(base + size, AlignUp(base + size, alignment), alignment);
    }
  }

  /** A block mapped for one request has room for a second of the same size if and only if the
      size is a multiple of the alignment or the block is of minimal size. */
  lemma RoomForASecond(s: Segment, size: nat, alignment: nat)
    requires SegmentOk(s) && IsAlignment(alignment) && alignment <= HEADER && size * 2 < WORD
    requires s.used == size && s.size == NewBlockSize(size)
    ensures HasRoom(s, size, alignment) <==> size % alignment == 0 || size * 2 <= 0x20_0000
  {
    NextAligned(s, size, alignment);
  }

  /** None of the first n blocks has room for the request. */
  predicate FullBefore(segments: seq<Segment>, n: nat, size: nat, alignment: nat)
    requires n <= |segments|
  {
    forall j {:trigger HasRoom(segments[j], size, alignment)} ::
      0 <= j < n ==> !HasRoom(segments[j], size, alignment)
  }

  /** The first of two equal requests that no block had room for starts its new block, and the
      second, if its size is a multiple of the alignment, gets the address right behind it, in
      the same block and without a mapping; in a minimal block it gets the next aligned one. */
  lemma SecondRequestSharesTheBlock(
    p: Pool, size: nat, alignment: nat, page: nat, forHead: Option<nat>, forNew: Option<nat>)
    requires SegmentsOk(p.segments) && p.segments != [] && IsAlignment(alignment) && alignment <= HEADER
    requires size * 2 + HEADER < WORD && MayAnswer(p.segments, MapSize(NewBlockSize(size)), Some(page))
    requires FullBefore(p.segments, |p.segments|, size, alignment)
    ensures var (q, r) := Allocated(p, size, alignment, None, Some(page));
            var (q2, r2) := Allocated(q, size, alignment, forHead, forNew);
            && r == Some(page + 32)
            && (size % alignment == 0 ==> r2 == Some(page + 32 + size))
            && (size % alignment == 0 || size * 2 <= 0x20_0000 ==> |q2.segments| == |q.segments| && r2.Some?)
  {
    FirstInItsBlock(p, size, alignment, page);
    NewBlockKeepsSegments(p, size, alignment, page);
    var q := Allocated(p, size, alignment, None, Some(page)).0;
    SecondOfTwo(q, p.segments, Segment(page, NewBlockSize(size), size), size, alignment, forHead, forNew);
  }

  lemma SecondOfTwo(
    q: Pool, front: seq<Segment>, s: Segment, size: nat, alignment: nat, forHead: Option<nat>, forNew: Option<nat>)
    requires q.segments == front + [s] && SegmentsOk(q.segments) && SegmentOk(s)
    requires IsAlignment(alignment) && alignment <= HEADER && size * 2 < WORD
    requires s.used == size && s.size == NewBlockSize(size)
    requires FullBefore(front, |front|, size, alignment)
    ensures var (q2, r2) := Allocated(q, size, alignment, forHead, forNew);
            && (size % alignment == 0 ==> r2 == Some(s.Memory() + size))
            && (size % alignment == 0 || size * 2 <= 0x20_0000 ==> |q2.segments| == |q.segments| && r2.Some?)
  {
    if size % alignment == 0 || size * 2 <= 0x20_0000 {
      SecondPlace(s, size, alignment);
      ServedByTheLast(q, front, s, size, alignment, forHead, forNew);
    }
  }

  lemma ServedByTheLast(
    q: Pool, front: seq<Segment>, s: Segment, size: nat, alignment: nat, forHead: Option<nat>, forNew: Option<nat>)
    requires q.segments == front + [s] && SegmentsOk(q.segments) && IsAlignment(alignment)
    requires FullBefore(front, |front|, size, alignment) && HasRoom(s, size, alignment)
    ensures var (q2, r2) := Allocated(q, size, alignment, forHead, forNew);
            |q2.segments| == |q.segments| && r2 == Some(AlignUp(s.Memory() + s.used, alignment))
  {
    StaysFullBefore(front, s, size, alignment);
    FirstBlockWithRoom(q, size, alignment, forHead, forNew, |front|);
  }

  lemma StaysFullBefore(front: seq<Segment>, s: Segment, size: nat, alignment: nat)
    requires FullBefore(front, |front|, size, alignment)
    ensures FullBefore(front + [s], |front|, size, alignment)
  {
    forall j | 0 <= j < |front|
      ensures !HasRoom((front + [s])[j], size, alignment)
    {
      assert (front + [s])[j] == front[j];
      assert !HasRoom(front[j], size, alignment);
    }
  }

  lemma SecondPlace(s: Segment, size: nat, alignment: nat)
    requires SegmentOk(s) && IsAlignment(alignment) && alignment <= HEADER && size * 2 < WORD
    requires s.used == size && s.size == NewBlockSize(size)
    requires size % alignment == 0 || size * 2 <= 0x20_0000
    ensures HasRoom(s, size, alignment)
    ensures size % alignment == 0 ==> AlignUp(s.Memory() + s.used, alignment) == s.Memory() + size
  {
    RoomForASecond(s, size, alignment);
    NextAligned(s, size, alignment);
  }

  lemma FirstInItsBlock(p: Pool, size: nat, alignment: nat, page: nat)
    requires SegmentsOk(p.segments) && p.segments != [] && IsAlignment(alignment) && alignment <= HEADER
    requires size * 2 + HEADER < WORD && MayAnswer(p.segments, MapSize(NewBlockSize(size)), Some(page))
    requires FullBefore(p.segments, |p.segments|, size, alignment)
    ensures var (q, r) := Allocated(p, size, alignment, None, Some(page));
            r == Some(page + HEADER) && q.segments == p.segments + [Segment(page, NewBlockSize(size), size)]
  {
    NewBlockOnlyWhenFull(p, size, alignment, None, Some(page));
    FreshStart(page, alignment);
    var (q, r) := Allocated(p, size, alignment, None, Some(page));
    assert q.segments == q.segments[..|p.segments|] + [q.segments[|p.segments|]];
  }

  lemma FreshStart(page: nat, alignment: nat)
    requires IsAlignment(alignment) && alignment <= HEADER && page % PAGE == 0 && page + HEADER <= ADDRESS_TOP
    ensures AlignUp(page + HEADER, alignment) == page + HEADER
  {
    TopIsPow2();
    AlignUpInLowerHalf(page + HEADER, alignment);
    FreshPadding(page, alignment);
  }

  lemma NewBlockKeepsSegments(p: Pool, size: nat, alignment: nat, page: nat)
    requires SegmentsOk(p.segments) && IsAlignment(alignment) && alignment <= HEADER
    requires size * 2 + HEADER < WORD && MayAnswer(p.segments, MapSize(NewBlockSize(size)), Some(page))
    ensures SegmentsOk(p.segments + [Segment(page, NewBlockSize(size), size)])
    ensures SegmentOk(Segment(page, NewBlockSize(size), size))
  {
    var q := p.segments + [Segment(page, NewBlockSize(size), size)];
    forall j | 0 <= j < |p.segments|
      ensures Apart(q[j].page, HEADER + q[j].size, page, HEADER + NewBlockSize(size))
    {
      assert p.segments[j] in p.segments;
    }
  }

  // ----- inputs for which the code falls short -----

  /** One byte aligned to four mebibytes overruns its fresh block on some page. */
  lemma FreshBlockCanOverrun()
    ensures IsAlignment(0x40_0000) && !Holds(1, 0x40_0000)
    ensures exists page: nat :: && MayAnswer([], MapSize(NewBlockSize(1)), Some(page))
                                && !Contains(Segment(page, NewBlockSize(1), 0), 1, 0x40_0000)
  {
    assert Pow2(11) == 0x800;
    Pow2Split(11, 22);
    Pow2Monotone(22, 60);
    OverrunWitness(0x40_0000, 1, 0x40_0000);
  }

  /** Every block in use lets through a request of the whole word less what is in use. */
  lemma WalkTestCanWrap(s: Segment)
    requires SegmentOk(s) && s.used > 0
    ensures IsAlignment(1) && Fits(s, WORD - s.used, 1) && !HasRoom(s, WORD - s.used, 1)
  {
    assert Pow2(0) == 1;
    BumpIsExact(s, WORD - s.used, 1);
    WrapOnce(WORD);
  }

  /** A configured capacity of nearly the whole word maps twelve bytes and records a payload
      of the capacity. */
  lemma ConfiguredCapacityCanWrap()
    ensures MapSize(WORD - 20) == 12 && MayAnswer([], 12, Some(PAGE))
    ensures Initialized(EMPTY, WORD - 20, Some(PAGE)).segments == [Segment(PAGE, WORD - 20, 0)]
    ensures !PoolOk(Initialized(EMPTY, WORD - 20, Some(PAGE)))
  {
    AppendIsSoundExactlyWithoutWrap(EMPTY, PAGE, WORD - 20);
  }
}
