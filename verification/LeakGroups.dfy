/** Sorting and grouping of leaked allocations: the order the report lists them in, and the
    maximal runs of equal size it breaks them into. */
module LeakGroups {

  datatype AllocationRecord = AllocationRecord(address: nat, size: nat, marked: bool)

  /** The comparator: larger sizes first, then smaller addresses. */
  predicate Before(a: AllocationRecord, b: AllocationRecord) {
    if a.size != b.size then a.size > b.size else a.address < b.address
  }

  ghost predicate IsSorted(s: seq<AllocationRecord>) {
    forall i, j :: 0 <= i < j < |s| ==> !Before(s[j], s[i])
  }

  predicate Unmarked(s: seq<AllocationRecord>) {
    forall i :: 0 <= i < |s| ==> !s[i].marked
  }

  function Insert(x: AllocationRecord, s: seq<AllocationRecord>): seq<AllocationRecord> {
    if s == [] || !Before(s[0], x) then [x] + s else [s[0]] + Insert(x, s[1..])
  }

  /** A reference sort. SortedIsUnique shows that every sort by this comparator agrees with it. */
  function Sort(s: seq<AllocationRecord>): seq<AllocationRecord> {
    if s == [] then [] else Insert(s[0], Sort(s[1..]))
  }

  lemma {:induction false} InsertKeepsElements(x: AllocationRecord, s: seq<AllocationRecord>)
    ensures multiset(Insert(x, s)) == multiset(s) + multiset{x}
  {
    if s != [] && Before(s[0], x) {
      InsertKeepsElements(x, s[1..]);
      assert s == [s[0]] + s[1..];
    }
  }

  lemma {:induction false} InsertKeepsSorted(x: AllocationRecord, s: seq<AllocationRecord>)
    requires IsSorted(s)
    ensures IsSorted(Insert(x, s))
  {
    if s != [] && Before(s[0], x) {
      InsertKeepsSorted(x, s[1..]);
      InsertKeepsElements(x, s[1..]);
      var r := Insert(x, s[1..]);
      forall j | 0 <= j < |r|
        ensures !Before(r[j], s[0])
      {
        assert r[j] in multiset(r);
        assert r[j] in s[1..] || r[j] == x;
      }
    }
  }

  lemma {:induction false} SortIsSortedPermutation(s: seq<AllocationRecord>)
    ensures multiset(Sort(s)) == multiset(s) && IsSorted(Sort(s))
  {
    if s != [] {
      SortIsSortedPermutation(s[1..]);
      InsertKeepsElements(s[0], Sort(s[1..]));
      InsertKeepsSorted(s[0], Sort(s[1..]));
      assert s == [s[0]] + s[1..];
    }
  }

  /** On unmarked records the comparator is a total order, so a sorted arrangement is unique:
      neither the sorting algorithm nor the order of enumeration shows in the result. */
  lemma {:induction false} SortedIsUnique(s: seq<AllocationRecord>, t: seq<AllocationRecord>)
    requires IsSorted(s) && IsSorted(t) && multiset(s) == multiset(t) && Unmarked(s) && Unmarked(t)
    ensures s == t
    decreases |s|
  {
    if s == [] {
      assert |multiset(t)| == 0;
    } else {
      assert |multiset(s)| == |multiset(t)|;
      HeadIsFirst(s, t);
      HeadIsFirst(t, s);
      assert s == [s[0]] + s[1..] && t == [t[0]] + t[1..];
      assert multiset(s[1..]) == multiset(s) - multiset{s[0]};
      assert multiset(t[1..]) == multiset(t) - multiset{t[0]};
      SortedIsUnique(s[1..], t[1..]);
    }
  }

  lemma HeadIsFirst(s: seq<AllocationRecord>, t: seq<AllocationRecord>)
    requires s != [] && t != [] && IsSorted(s) && multiset(s) == multiset(t)
    ensures !Before(t[0], s[0])
  {
    assert t[0] in multiset(t);
    assert t[0] in s;
  }

  // ----- runs of equal size -----

  /** Put one more record at the end: into the last run if its size agrees, else in a new run. */
  function Extend(g: seq<seq<AllocationRecord>>, x: AllocationRecord): seq<seq<AllocationRecord>> {
    if g != [] && g[|g| - 1] != [] && g[|g| - 1][0].size == x.size
    then g[..|g| - 1] + [g[|g| - 1] + [x]]
    else g + [[x]]
  }

  /** The runs of equal size, built left to right as the report loop does. */
  function Groups(s: seq<AllocationRecord>): (g: seq<seq<AllocationRecord>>) {
    if s == [] then [] else Extend(Groups(s[..|s| - 1]), s[|s| - 1])
  }

  function Concat(g: seq<seq<AllocationRecord>>): seq<AllocationRecord> {
    if g == [] then [] else Concat(g[..|g| - 1]) + g[|g| - 1]
  }

  predicate Uniform(run: seq<AllocationRecord>) {
    run != [] && forall i :: 0 <= i < |run| ==> run[i].size == run[0].size
  }

  /** Non-empty runs of one size each, neighbours of different sizes: none can be longer. */
  predicate MaximalRuns(g: seq<seq<AllocationRecord>>) {
    && (forall i :: 0 <= i < |g| ==> Uniform(g[i]))
    && forall i, j :: 0 <= i < |g| && j == i + 1 < |g| ==> g[i][0].size != g[j][0].size
  }

  lemma ConcatAppends(g: seq<seq<AllocationRecord>>, run: seq<AllocationRecord>)
    ensures Concat(g + [run]) == Concat(g) + run
  {
    assert (g + [run])[..|g|] == g;
  }

  lemma ExtendKeepsRuns(g: seq<seq<AllocationRecord>>, x: AllocationRecord)
    requires MaximalRuns(g)
    ensures MaximalRuns(Extend(g, x)) && Concat(Extend(g, x)) == Concat(g) + [x]
  {
    if g != [] && g[|g| - 1][0].size == x.size {
      var init, run := g[..|g| - 1], g[|g| - 1];
      assert g == init + [run];
      ConcatAppends(init, run);
      ConcatAppends(init, run + [x]);
    } else {
      ConcatAppends(g, [x]);
    }
  }

  /** The groups are the maximal runs of the list, and together they are the list. */
  lemma {:induction false} GroupsAreMaximalRuns(s: seq<AllocationRecord>)
    ensures MaximalRuns(Groups(s)) && Concat(Groups(s)) == s
    ensures Groups(s) == [] <==> s == []
  {
    if s != [] {
      GroupsAreMaximalRuns(s[..|s| - 1]);
      ExtendKeepsRuns(Groups(s[..|s| - 1]), s[|s| - 1]);
      assert s == s[..|s| - 1] + [s[|s| - 1]];
    }
  }

  /** Take the last record off again. */
  function Peel(g: seq<seq<AllocationRecord>>): seq<seq<AllocationRecord>>
    requires g != [] && g[|g| - 1] != []
  {
    var init, run := g[..|g| - 1], g[|g| - 1];
    if |run| == 1 then init else init + [run[..|run| - 1]]
  }

  lemma PeelUndoesExtend(g: seq<seq<AllocationRecord>>)
    requires MaximalRuns(g) && g != []
    ensures var run := g[|g| - 1];
            && MaximalRuns(Peel(g)) && Extend(Peel(g), run[|run| - 1]) == g
            && Concat(g) == Concat(Peel(g)) + [run[|run| - 1]]
  {
    var init, run := g[..|g| - 1], g[|g| - 1];
    assert g == init + [run];
    ConcatAppends(init, run);
    if |run| == 1 {
      assert run == [run[0]];
    } else {
      var front := run[..|run| - 1];
      assert run == front + [run[|run| - 1]];
      ConcatAppends(init, front);
    }
  }

  /** There is only one way to cut a list into maximal runs. */
  lemma {:induction false} MaximalRunsAreUnique(g: seq<seq<AllocationRecord>>)
    requires MaximalRuns(g)
    ensures Groups(Concat(g)) == g
    decreases |Concat(g)|
  {
    if g != [] {
      PeelUndoesExtend(g);
      MaximalRunsAreUnique(Peel(g));
      var s := Concat(g);
      assert s[..|s| - 1] == Concat(Peel(g));
    }
  }

  /** In a sorted list the group sizes strictly decrease. */
  lemma GroupSizesDecrease(s: seq<AllocationRecord>, i: nat, j: nat)
    requires IsSorted(s) && i < j < |Groups(s)|
    ensures Groups(s)[i] != [] && Groups(s)[j] != [] && Groups(s)[i][0].size > Groups(s)[j][0].size
    decreases j
  {
    GroupsAreMaximalRuns(s);
    var g := Groups(s);
    HeadsInOrder(g, j - 1);
    if i < j - 1 {
      GroupSizesDecrease(s, i, j - 1);
    }
  }

  /** Where the k-th element of group i stands in the list. */
  function Offset(g: seq<seq<AllocationRecord>>, i: nat): nat
    requires i <= |g|
  {
    if i == 0 then 0 else Offset(g, i - 1) + |g[i - 1]|
  }

  lemma {:induction false} ElementOfConcat(g: seq<seq<AllocationRecord>>, i: nat, k: nat)
    requires i < |g| && k < |g[i]|
    ensures Offset(g, |g|) == |Concat(g)|
    ensures Offset(g, i) + |g[i]| <= |Concat(g)|
    ensures Concat(g)[Offset(g, i) + k] == g[i][k]
    decreases |g|
  {
    var n := |g| - 1;
    var init := g[..n];
    OffsetOfPrefix(g, n, n);
    if i < n {
      ElementOfConcat(init, i, k);
      OffsetOfPrefix(g, n, i);
    } else {
      ConcatLength(init);
    }
    ConcatLength(g);
  }

  lemma {:induction false} ConcatLength(g: seq<seq<AllocationRecord>>)
    ensures |Concat(g)| == Offset(g, |g|)
  {
    if g != [] {
      ConcatLength(g[..|g| - 1]);
      OffsetOfPrefix(g, |g| - 1, |g| - 1);
    }
  }

  lemma {:induction false} OffsetOfPrefix(g: seq<seq<AllocationRecord>>, n: nat, i: nat)
    requires i <= n <= |g|
    ensures Offset(g[..n], i) == Offset(g, i)
  {
    if i > 0 {
      OffsetOfPrefix(g, n, i - 1);
    }
  }

  lemma NeighbouringHeads(g: seq<seq<AllocationRecord>>, i: nat) returns (p: nat, q: nat)
    requires i + 1 < |g| && g[i] != [] && g[i + 1] != []
    ensures p < q < |Concat(g)| && Concat(g)[p] == g[i][0] && Concat(g)[q] == g[i + 1][0]
  {
    ElementOfConcat(g, i, 0);
    ElementOfConcat(g, i + 1, 0);
    p, q := Offset(g, i), Offset(g, i + 1);
  }

  lemma HeadsInOrder(g: seq<seq<AllocationRecord>>, i: nat)
    requires MaximalRuns(g) && IsSorted(Concat(g)) && i + 1 < |g|
    ensures g[i][0].size > g[i + 1][0].size
  {
    assert Uniform(g[i]) && Uniform(g[i + 1]);
    var p, q := NeighbouringHeads(g, i);
    LargerFirst(Concat(g), p, q);
  }

  lemma LargerFirst(s: seq<AllocationRecord>, p: nat, q: nat)
    requires IsSorted(s) && p < q < |s|
    ensures s[p].size >= s[q].size
  {
  }

  ghost predicate DistinctAddresses(s: seq<AllocationRecord>) {
    forall i, j :: 0 <= i < j < |s| ==> s[i].address != s[j].address
  }

  /** Within a group the addresses strictly increase. */
  lemma AddressesIncrease(s: seq<AllocationRecord>, i: nat, k: nat, l: nat)
    requires IsSorted(s) && DistinctAddresses(s)
    requires i < |Groups(s)| && k < l < |Groups(s)[i]|
    ensures Groups(s)[i][k].address < Groups(s)[i][l].address
  {
    GroupsAreMaximalRuns(s);
    var g := Groups(s);
    ElementOfConcat(g, i, k);
    ElementOfConcat(g, i, l);
    assert s[Offset(g, i) + k].address != s[Offset(g, i) + l].address;
    assert Uniform(g[i]);
  }
}
