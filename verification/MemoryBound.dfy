/** How much memory the allocator maps: in every history the payload of all blocks beyond
    the first stays within twice what they have bumped, one spare block, and alignment slack. */
module MemoryBound {
  import opened Options
  import opened Words
  import opened BlockPool

  function TotalSize(segments: seq<Segment>): nat {
    if segments == [] then 0 else TotalSize(segments[..|segments| - 1]) + segments[|segments| - 1].size
  }

  function TotalUsed(segments: seq<Segment>): nat {
    if segments == [] then 0 else TotalUsed(segments[..|segments| - 1]) + segments[|segments| - 1].used
  }

  /** At least half bumped, up to the slack one alignment may cost. */
  predicate HalfFull(s: Segment, slack: nat) {
    s.size <= 2 * (s.used + slack)
  }

  /** Behind the head, all blocks but at most one are half full, and the exception is a
      block of minimal size. */
  ghost predicate Economical(segments: seq<Segment>, slack: nat) {
    && (forall i :: 1 <= i < |segments| ==> HalfFull(segments[i], slack) || segments[i].size == MIN_BLOCK)
    && forall i, j :: 1 <= i < j < |segments| ==> HalfFull(segments[i], slack) || HalfFull(segments[j], slack)
  }

  /** A request that overflows a minimal block leaves that block half full: requests of a
      mebibyte or more get a block of twice their size instead. */
  lemma RefusalMeansHalfFull(s: Segment, size: nat, alignment: nat, slack: nat)
    requires SegmentOk(s) && IsAlignment(alignment) && alignment <= slack
    requires size * 2 < MIN_BLOCK && s.size == MIN_BLOCK && !Fits(s, size, alignment)
    ensures HalfFull(s, slack)
  {
    BumpIsExact(s, size, alignment);
  }

  lemma GiveKeepsEconomical(p: Pool, i: nat, size: nat, alignment: nat, slack: nat)
    requires PoolOk(p) && Economical(p.segments, slack) && i < |p.segments|
    requires IsAlignment(alignment) && HasRoom(p.segments[i], size, alignment)
    ensures Economical(Give(p, i, size, alignment).segments, slack)
  {
    GiveKeepsSegments(p, i, size, alignment);
    var q := Give(p, i, size, alignment).segments;
    forall j | 1 <= j < |q| && HalfFull(p.segments[j], slack)
      ensures HalfFull(q[j], slack)
    {
    }
  }

  lemma FreshKeepsEconomical(p: Pool, page: nat, size: nat, alignment: nat, slack: nat)
    requires PoolOk(p) && Economical(p.segments, slack) && p.segments != []
    requires IsAlignment(alignment) && alignment <= slack && size < WORD
    requires forall i :: 0 <= i < |p.segments| ==> !Fits(p.segments[i], size, alignment)
    requires MayAnswer(p.segments, MapSize(NewBlockSize(size)), Some(page))
    requires Contains(Segment(page, NewBlockSize(size), 0), size, alignment)
    ensures Economical(Give(Append(p, page, NewBlockSize(size)), |p.segments|, size, alignment).segments, slack)
  {
    var s := Segment(page, NewBlockSize(size), 0);
    BumpIsExact(s, size, alignment);
    var q := Give(Append(p, page, NewBlockSize(size)), |p.segments|, size, alignment).segments;
    if size * 2 >= MIN_BLOCK {
      assert HalfFull(q[|p.segments|], slack);
    } else {
      forall i | 1 <= i < |p.segments|
        ensures HalfFull(p.segments[i], slack)
      {
        if p.segments[i].size == MIN_BLOCK {
          RefusalMeansHalfFull(p.segments[i], size, alignment, slack);
        }
      }
    }
  }

  lemma StepKeepsEconomical(p: Pool, op: Operation, slack: nat)
    requires PoolOk(p) && Economical(p.segments, slack) && Admissible(p, op, slack) && Served(p, op)
    ensures Economical(Apply(p, op).segments, slack)
  {
    match op
    case DoInitialize(_, _) =>
    case DoShutdown =>
    case DoAllocate(size, alignment, forHead, forNew) =>
      var q := Initialized(p, MIN_BLOCK, forHead);
      InitializedKeepsPool(p, forHead);
      var i := FirstFit(q.segments, size, alignment);
      if i < |q.segments| {
        GiveKeepsEconomical(q, i, size, alignment, slack);
      } else if q.segments != [] && forNew.Some? {
        FreshKeepsEconomical(q, forNew.value, size, alignment, slack);
      }
  }

  /** Whether one of the blocks 1..n is not half full. */
  predicate HasSpare(segments: seq<Segment>, slack: nat) {
    exists i :: 1 <= i < |segments| && !HalfFull(segments[i], slack)
  }

  lemma {:induction false} EconomicalBound(segments: seq<Segment>, slack: nat)
    requires segments != [] && Economical(segments, slack)
    ensures TotalSize(segments) - segments[0].size
            <= 2 * (TotalUsed(segments) - segments[0].used) + 2 * slack * (|segments| - 1)
               + (if HasSpare(segments, slack) then MIN_BLOCK else 0)
  {
    var n := |segments| - 1;
    var front := segments[..n];
    if n == 0 {
      assert front == [] && TotalSize(front) == 0 && TotalUsed(front) == 0;
    } else {
      assert Economical(front, slack);
      EconomicalBound(front, slack);
      assert forall i :: 0 <= i < n ==> front[i] == segments[i];
      assert HasSpare(front, slack) ==> HasSpare(segments, slack) && HalfFull(segments[n], slack);
      assert 2 * slack * n == 2 * slack * (n - 1) + 2 * slack;
    }
  }

  /** In every history whose alignments stay within `slack` and whose blocks had room, the mapped payload is bounded
      by the head block, one minimal block, and twice the bytes in use plus the slack of
      each further block. */
  lemma {:induction false} MappedMemoryBound(p: Pool, ops: seq<Operation>, slack: nat)
    requires PoolOk(p) && Economical(p.segments, slack) && AllAdmissible(p, ops, slack) && AllServed(p, ops)
    ensures var s := Run(p, ops).segments;
            s != [] ==> TotalSize(s) <= s[0].size + MIN_BLOCK
                        + 2 * (TotalUsed(s) - s[0].used) + 2 * slack * (|s| - 1)
    decreases |ops|
  {
    if ops == [] {
      if p.segments != [] {
        EconomicalBound(p.segments, slack);
      }
    } else {
      CallIsSoundExactlyWhenServed(p, ops[0], slack);
      StepKeepsEconomical(p, ops[0], slack);
      MappedMemoryBound(Apply(p, ops[0]), ops[1..], slack);
    }
  }
}
