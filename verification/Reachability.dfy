/** Marking of reachable blocks: each pointer value marks the first listed block it points into. */
module Reachability {
  import opened Words
  import opened LeakGroups
  import opened ReportLaws

  /** The test of the code, with the end of the block computed in 64 bits. */
  predicate PointsInto(address: nat, a: AllocationRecord) {
    a.address <= address && address < Wrap(a.address + a.size)
  }

  function FirstHit(s: seq<AllocationRecord>, address: nat): (i: nat)
    ensures i <= |s|
    ensures i < |s| ==> PointsInto(address, s[i])
    ensures forall j :: 0 <= j < i ==> !PointsInto(address, s[j])
  {
    if s == [] || PointsInto(address, s[0]) then 0 else 1 + FirstHit(s[1..], address)
  }

  /** One call: the first hit is marked. */
  function Marked(s: seq<AllocationRecord>, address: nat): (r: seq<AllocationRecord>)
    ensures |r| == |s|
  {
    var i := FirstHit(s, address);
    if i < |s| then s[i := s[i].(marked := true)] else s
  }

  method MarkReachability(allocations: array<AllocationRecord>, address: nat)
    modifies allocations
    ensures allocations[..] == Marked(old(allocations[..]), address)
  {
    for i := 0 to allocations.Length
      invariant allocations[..] == old(allocations[..])
      invariant forall j :: 0 <= j < i ==> !PointsInto(address, allocations[j])
    {
      var base := allocations[i].address;
      if address >= base && address < Wrap(base + allocations[i].size) {
        FirstHitIs(allocations[..], address, i);
        allocations[i] := allocations[i].(marked := true);
        return;
      }
    }
    FirstHitIs(allocations[..], address, allocations.Length);
  }

  lemma FirstHitIs(s: seq<AllocationRecord>, address: nat, i: nat)
    requires i <= |s|
    requires i < |s| ==> PointsInto(address, s[i])
    requires forall j :: 0 <= j < i ==> !PointsInto(address, s[j])
    ensures FirstHit(s, address) == i
  {
  }

  /** The calls for a whole sequence of pointer values. */
  function MarkAll(s: seq<AllocationRecord>, values: seq<nat>): (r: seq<AllocationRecord>)
    ensures |r| == |s|
  {
    if values == [] then s else Marked(MarkAll(s, values[..|values| - 1]), values[|values| - 1])
  }

  /** No address points into two blocks of the list. */
  ghost predicate NoOverlap(s: seq<AllocationRecord>) {
    forall i, j, address ::
      0 <= i < |s| && 0 <= j < |s| && PointsInto(address, s[i]) && PointsInto(address, s[j]) ==> i == j
  }

  ghost predicate SameBlocks(s: seq<AllocationRecord>, t: seq<AllocationRecord>) {
    |s| == |t| && forall i :: 0 <= i < |s| ==> s[i].address == t[i].address && s[i].size == t[i].size
  }

  ghost predicate Hit(a: AllocationRecord, values: seq<nat>) {
    exists k :: 0 <= k < |values| && PointsInto(values[k], a)
  }

  lemma {:induction false} MarkingKeepsBlocks(s: seq<AllocationRecord>, values: seq<nat>)
    ensures SameBlocks(s, MarkAll(s, values))
    decreases |values|
  {
    if values != [] {
      MarkingKeepsBlocks(s, values[..|values| - 1]);
    }
  }

  lemma SameBlocksSameHits(s: seq<AllocationRecord>, t: seq<AllocationRecord>)
    requires SameBlocks(s, t) && NoOverlap(s)
    ensures NoOverlap(t)
  {
    forall i, j, address | 0 <= i < |t| && 0 <= j < |t| && PointsInto(address, t[i]) && PointsInto(address, t[j])
      ensures i == j
    {
      assert PointsInto(address, s[i]) && PointsInto(address, s[j]);
    }
  }

  lemma OneCallMarksTheHit(s: seq<AllocationRecord>, address: nat, i: nat)
    requires NoOverlap(s) && i < |s|
    ensures Marked(s, address)[i].marked <==> s[i].marked || PointsInto(address, s[i])
  {
    var first := FirstHit(s, address);
    assert first < |s| && PointsInto(address, s[i]) ==> first == i;
  }

  lemma HitOneMore(a: AllocationRecord, values: seq<nat>)
    requires values != []
    ensures Hit(a, values) <==> Hit(a, values[..|values| - 1]) || PointsInto(values[|values| - 1], a)
  {
    var n := |values| - 1;
    if Hit(a, values[..n]) {
      var k :| 0 <= k < n && PointsInto(values[..n][k], a);
      assert PointsInto(values[k], a);
    }
    if Hit(a, values) {
      var k :| 0 <= k < |values| && PointsInto(values[k], a);
      assert k < n ==> PointsInto(values[..n][k], a);
    }
  }

  /** On blocks that do not overlap, a block ends up marked exactly if it was marked before or
      some value points into it. */
  lemma {:induction false} MarksExactlyTheHit(s: seq<AllocationRecord>, values: seq<nat>, i: nat)
    requires NoOverlap(s) && i < |s|
    ensures SameBlocks(s, MarkAll(s, values))
    ensures MarkAll(s, values)[i].marked <==> s[i].marked || Hit(s[i], values)
    decreases |values|
  {
    MarkingKeepsBlocks(s, values);
    if values != [] {
      var n := |values| - 1;
      var t := MarkAll(s, values[..n]);
      MarksExactlyTheHit(s, values[..n], i);
      SameBlocksSameHits(s, t);
      OneCallMarksTheHit(t, values[n], i);
      HitOneMore(s[i], values);
    }
  }

  /** The order of the values does not matter, nor how often one occurs. */
  lemma MarkingIgnoresValueOrder(s: seq<AllocationRecord>, v: seq<nat>, w: seq<nat>)
    requires NoOverlap(s) && forall x :: x in v <==> x in w
    ensures MarkAll(s, v) == MarkAll(s, w)
  {
    forall i | 0 <= i < |s|
      ensures MarkAll(s, v)[i] == MarkAll(s, w)[i]
    {
      MarksExactlyTheHit(s, v, i);
      MarksExactlyTheHit(s, w, i);
      HitSame(s[i], v, w);
      HitSame(s[i], w, v);
    }
  }

  lemma HitSame(a: AllocationRecord, v: seq<nat>, w: seq<nat>)
    requires forall x :: x in v ==> x in w
    ensures Hit(a, v) ==> Hit(a, w)
  {
    if Hit(a, v) {
      var k :| 0 <= k < |v| && PointsInto(v[k], a);
      assert v[k] in w;
    }
  }

  /** The order of the list does not matter: a block gets the same mark wherever it stands. */
  lemma MarkingIgnoresListOrder(s: seq<AllocationRecord>, t: seq<AllocationRecord>, values: seq<nat>, i: nat, j: nat)
    requires NoOverlap(s) && NoOverlap(t) && i < |s| && j < |t| && s[i] == t[j]
    ensures MarkAll(s, values)[i] == MarkAll(t, values)[j]
  {
    MarksExactlyTheHit(s, values, i);
    MarksExactlyTheHit(t, values, j);
  }

  /** Disjointness is what it takes: every value marks every block it points into, on this
      list with the marks cleared, if and only if no two blocks overlap. */
  lemma AllHitsMarkedExactlyWithoutOverlap(s: seq<AllocationRecord>)
    requires forall i :: 0 <= i < |s| ==> !s[i].marked
    ensures NoOverlap(s) <==>
            forall address, i :: 0 <= i < |s| && PointsInto(address, s[i]) ==> Marked(s, address)[i].marked
  {
    if forall address, i :: 0 <= i < |s| && PointsInto(address, s[i]) ==> Marked(s, address)[i].marked {
      forall i, j, address | 0 <= i < |s| && 0 <= j < |s| && PointsInto(address, s[i]) && PointsInto(address, s[j])
        ensures i == j
      {
        assert Marked(s, address)[i].marked && Marked(s, address)[j].marked;
        assert FirstHit(s, address) == i;
      }
    }
  }

  /** Of two blocks that share an address only the first listed is marked by it. */
  lemma OverlapHidesAHit()
    ensures var s := [AllocationRecord(16, 32, false), AllocationRecord(32, 32, false)];
            PointsInto(40, s[1]) && !Marked(s, 40)[1].marked
  {
    var s := [AllocationRecord(16, 32, false), AllocationRecord(32, 32, false)];
    FirstHitIs(s, 40, 0);
  }

  /** The test is membership in the block exactly for blocks that end within 64 bits; a block
      that does not is pointed into by nothing. */
  lemma PointsIntoIsMembership(a: AllocationRecord)
    requires a.address < WORD && a.size < WORD
    ensures (forall v :: PointsInto(v, a) <==> v in Footprint(a)) <==> a.address + a.size < WORD
    ensures a.address + a.size >= WORD ==> forall v :: !PointsInto(v, a)
  {
    if a.address + a.size >= WORD {
      DivModUnique(a.address + a.size, WORD, 1, a.address + a.size - WORD);
      assert a.address in Footprint(a) && !PointsInto(a.address, a);
    }
  }

  predicate EndsInSpace(s: seq<AllocationRecord>) {
    forall i :: 0 <= i < |s| ==> s[i].address + s[i].size < WORD
  }

  lemma DisjointBlocksDoNotOverlap(s: seq<AllocationRecord>)
    requires EndsInSpace(s) && Apart(s)
    ensures NoOverlap(s)
  {
    forall i, j, address | 0 <= i < |s| && 0 <= j < |s| && PointsInto(address, s[i]) && PointsInto(address, s[j])
      ensures i == j
    {
      assert address in Footprint(s[i]) && address in Footprint(s[j]);
    }
  }

  /** On blocks that share no address and end within 64 bits, after any values a block is
      marked if and only if it was before or one of the values is one of its addresses. */
  lemma MarksExactlyTheReached(s: seq<AllocationRecord>, values: seq<nat>, i: nat)
    requires EndsInSpace(s) && Apart(s) && i < |s|
    ensures MarkAll(s, values)[i].marked <==>
            s[i].marked || exists k :: 0 <= k < |values| && values[k] in Footprint(s[i])
  {
    DisjointBlocksDoNotOverlap(s);
    MarksExactlyTheHit(s, values, i);
    forall k | 0 <= k < |values|
      ensures PointsInto(values[k], s[i]) <==> values[k] in Footprint(s[i])
    {
    }
  }
}
