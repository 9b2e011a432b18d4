/** What the leak report promises: independence of enumeration order, conservation of counts
    and bytes, and every leak listed once under its size. */
module ReportLaws {
  import opened Options
  import opened Words
  import opened HexText
  import opened LeakGroups
  import opened LeakReport

  // ----- independence of the enumeration order -----

  lemma {:induction false} LeaksAreTheUnmarked(s: seq<AllocationRecord>, x: AllocationRecord)
    ensures multiset(Leaks(s))[x] == if x.marked then 0 else multiset(s)[x]
  {
    if s != [] {
      LeaksAreTheUnmarked(s[..|s| - 1], x);
      assert s == s[..|s| - 1] + [s[|s| - 1]];
    }
  }

  lemma {:induction false} TotalBytesAdds(a: seq<AllocationRecord>, b: seq<AllocationRecord>)
    ensures TotalBytes(a + b) == TotalBytes(a) + TotalBytes(b)
  {
    if b == [] {
      assert a + b == a;
    } else {
      assert (a + b)[..|a + b| - 1] == a + b[..|b| - 1];
      TotalBytesAdds(a, b[..|b| - 1]);
    }
  }

  lemma {:induction false} InsertAddsBytes(x: AllocationRecord, s: seq<AllocationRecord>)
    ensures TotalBytes(Insert(x, s)) == x.size + TotalBytes(s)
  {
    assert TotalBytes([x]) == x.size by {
      assert [x][..0] == [];
    }
    if s == [] || !Before(s[0], x) {
      TotalBytesAdds([x], s);
    } else {
      InsertAddsBytes(x, s[1..]);
      TotalBytesAdds([s[0]], Insert(x, s[1..]));
      TotalBytesAdds([s[0]], s[1..]);
      assert s == [s[0]] + s[1..];
    }
  }

  lemma {:induction false} SortKeepsBytes(s: seq<AllocationRecord>)
    ensures TotalBytes(Sort(s)) == TotalBytes(s)
  {
    if s != [] {
      SortKeepsBytes(s[1..]);
      InsertAddsBytes(s[0], Sort(s[1..]));
      TotalBytesAdds([s[0]], s[1..]);
      assert s == [s[0]] + s[1..];
      assert TotalBytes([s[0]]) == s[0].size by {
        assert [s[0]][..0] == [];
      }
    }
  }

  lemma SortedUnmarked(s: seq<AllocationRecord>, t: seq<AllocationRecord>)
    requires multiset(s) == multiset(t) && Unmarked(s)
    ensures Unmarked(t)
  {
    forall i | 0 <= i < |t|
      ensures !t[i].marked
    {
      assert t[i] in multiset(t);
      assert t[i] in s;
    }
  }

  /** Any arrangement of the leaks that is sorted by the comparator is the one reported on. */
  lemma AnySortGivesTheReport(leaks: seq<AllocationRecord>, sorted: seq<AllocationRecord>)
    requires Unmarked(leaks) && IsSorted(sorted) && multiset(sorted) == multiset(leaks)
    ensures sorted == Sort(leaks)
  {
    SortIsSortedPermutation(leaks);
    SortedUnmarked(leaks, sorted);
    SortedUnmarked(leaks, Sort(leaks));
    SortedIsUnique(sorted, Sort(leaks));
  }

  /** Two enumerations of the same allocations, in any orders, give the same report. */
  lemma ReportIgnoresEnumerationOrder(
    a: seq<AllocationRecord>, b: seq<AllocationRecord>, config: Config, typeOf: TypeOracle)
    requires multiset(a) == multiset(b)
    ensures ReportOn(Leaks(a), config, typeOf) == ReportOn(Leaks(b), config, typeOf)
    ensures Leaks(a) == [] <==> Leaks(b) == []
  {
    forall x
      ensures multiset(Leaks(a))[x] == multiset(Leaks(b))[x]
    {
      LeaksAreTheUnmarked(a, x);
      LeaksAreTheUnmarked(b, x);
    }
    assert multiset(Leaks(a)) == multiset(Leaks(b));
    assert |multiset(Leaks(a))| == |multiset(Leaks(b))|;
    SortIsSortedPermutation(Leaks(b));
    AnySortGivesTheReport(Leaks(a), Sort(Leaks(b)));
    SortKeepsBytes(Leaks(a));
    SortKeepsBytes(Leaks(b));
  }

  // ----- conservation -----

  function Sum(s: seq<nat>): nat {
    if s == [] then 0 else Sum(s[..|s| - 1]) + s[|s| - 1]
  }

  function Counts(items: seq<SummaryItem>): seq<nat> {
    seq(|items|, i requires 0 <= i < |items| => items[i].count)
  }

  function Bytes(items: seq<SummaryItem>): seq<nat> {
    seq(|items|, i requires 0 <= i < |items| => items[i].size * items[i].count)
  }

  lemma {:induction false} UniformBytes(run: seq<AllocationRecord>, size: nat)
    requires forall i :: 0 <= i < |run| ==> run[i].size == size
    ensures TotalBytes(run) == size * |run|
  {
    if run != [] {
      UniformBytes(run[..|run| - 1], size);
      assert size * |run| == size * (|run| - 1) + size;
    }
  }

  lemma {:induction false} RunsAddUp(g: seq<seq<AllocationRecord>>, bytes: seq<nat>, counts: seq<nat>)
    requires |bytes| == |counts| == |g|
    requires forall i :: 0 <= i < |g| ==> bytes[i] == TotalBytes(g[i]) && counts[i] == |g[i]|
    ensures Sum(bytes) == TotalBytes(Concat(g)) && Sum(counts) == |Concat(g)|
  {
    if g != [] {
      var n := |g| - 1;
      RunsAddUp(g[..n], bytes[..n], counts[..n]);
      TotalBytesAdds(Concat(g[..n]), g[n]);
    }
  }

  lemma ItemsAddUp(g: seq<seq<AllocationRecord>>)
    requires MaximalRuns(g)
    ensures Sum(Bytes(Items(g))) == TotalBytes(Concat(g)) && Sum(Counts(Items(g))) == |Concat(g)|
  {
    forall i | 0 <= i < |g|
      ensures Bytes(Items(g))[i] == TotalBytes(g[i])
    {
      assert Uniform(g[i]);
      UniformBytes(g[i], g[i][0].size);
    }
    RunsAddUp(g, Bytes(Items(g)), Counts(Items(g)));
  }

  /** The counts of the summary add up to the number of leaks, and sizes times counts to
      their bytes; the 64-bit total is exact as long as the bytes stay within 64 bits. */
  lemma SummaryConserves(leaks: seq<AllocationRecord>, config: Config, typeOf: TypeOracle)
    requires config.summary && Unmarked(leaks)
    ensures var summary := ReportOn(leaks, config, typeOf).summary.value;
            && summary.totalLeaks == |leaks| == Sum(Counts(summary.bySize))
            && Sum(Bytes(summary.bySize)) == TotalBytes(leaks)
            && (summary.totalBytes == Sum(Bytes(summary.bySize)) <==> TotalBytes(leaks) < WORD)
            && summary.totalBytes == Sum(Bytes(summary.bySize)) % WORD
  {
    var s := Sort(leaks);
    SortIsSortedPermutation(leaks);
    assert |multiset(s)| == |multiset(leaks)|;
    GroupsAreMaximalRuns(s);
    ItemsAddUp(Groups(s));
    SortKeepsBytes(leaks);
  }

  function Interval(start: nat, length: nat): (r: set<nat>)
    ensures |r| == length
    ensures forall x :: x in r <==> start <= x < start + length
  {
    if length == 0 then {} else Interval(start, length - 1) + {start + length - 1}
  }

  /** The addresses of a block. */
  function Footprint(a: AllocationRecord): set<nat> {
    Interval(a.address, a.size)
  }

  /** No two blocks share an address. */
  predicate Apart(s: seq<AllocationRecord>) {
    forall i, j :: 0 <= i < j < |s| ==> Footprint(s[i]) !! Footprint(s[j])
  }

  function FootprintOf(s: seq<AllocationRecord>): set<nat> {
    if s == [] then {} else FootprintOf(s[..|s| - 1]) + Footprint(s[|s| - 1])
  }

  lemma {:induction false} FootprintWithin(s: seq<AllocationRecord>, bound: set<nat>)
    requires forall i :: 0 <= i < |s| ==> Footprint(s[i]) <= bound
    ensures FootprintOf(s) <= bound
  {
    if s != [] {
      FootprintWithin(s[..|s| - 1], bound);
    }
  }

  lemma {:induction false} FootprintApart(s: seq<AllocationRecord>, f: set<nat>)
    requires forall i :: 0 <= i < |s| ==> Footprint(s[i]) !! f
    ensures FootprintOf(s) !! f
  {
    if s != [] {
      FootprintApart(s[..|s| - 1], f);
    }
  }

  lemma {:induction false} FootprintHasTotalBytes(s: seq<AllocationRecord>)
    requires Apart(s)
    ensures |FootprintOf(s)| == TotalBytes(s)
  {
    if s != [] {
      var init, last := s[..|s| - 1], s[|s| - 1];
      FootprintHasTotalBytes(init);
      FootprintApart(init, Footprint(last));
    }
  }

  /** Blocks that share no address and end within the address space cannot overflow the
      64-bit total. */
  lemma DisjointBlocksDoNotOverflow(s: seq<AllocationRecord>)
    requires Apart(s)
    requires forall i :: 0 <= i < |s| ==> s[i].address > 0 && s[i].address + s[i].size <= WORD
    ensures TotalBytes(s) < WORD
  {
    FootprintHasTotalBytes(s);
    var all := Interval(1, WORD - 1);
    FootprintWithin(s, all);
    SubsetIsSmaller(FootprintOf(s), all);
  }

  lemma {:induction false} SubsetIsSmaller(a: set<nat>, b: set<nat>)
    requires a <= b
    ensures |a| <= |b|
  {
    if x :| x in a {
      SubsetIsSmaller(a - {x}, b - {x});
    }
  }

  // ----- what is listed -----

  /** Counts that start like the lengths of the runs say where a run begins in the list. */
  lemma {:induction false} CountsGiveOffset(g: seq<seq<AllocationRecord>>, i: nat)
    requires i <= |g|
    ensures Sum(Counts(Items(g)[..i])) == Offset(g, i)
  {
    if i > 0 {
      CountsGiveOffset(g, i - 1);
      CountsOneMore(Items(g), i);
    }
  }

  lemma CountsOneMore(items: seq<SummaryItem>, i: nat)
    requires 0 < i <= |items|
    ensures Sum(Counts(items[..i])) == Sum(Counts(items[..i - 1])) + items[i - 1].count
  {
    assert Counts(items[..i])[..i - 1] == Counts(items[..i - 1]);
  }

  /** The item counts the stretch, all of which has its size, and samples its first hundred
      addresses, or all. */
  predicate Describes(item: SummaryItem, stretch: seq<AllocationRecord>) {
    && item.count == |stretch| > 0
    && (forall k :: 0 <= k < |stretch| ==> stretch[k].size == item.size)
    && |item.samples| == (if |stretch| < 100 then |stretch| else 100)
    && forall k :: 0 <= k < |item.samples| ==> Denotes(item.samples[k], stretch[k].address)
  }

  lemma ItemDescribesRun(run: seq<AllocationRecord>)
    requires Uniform(run)
    ensures Describes(Item(run), run)
  {
    forall k | 0 <= k < |Samples(run)|
      ensures Denotes(Samples(run)[k], run[k].address)
    {
      HexAddressIsTheNumeral(Samples(run)[k], run[k].address);
    }
  }

  predicate StandsAt(s: seq<AllocationRecord>, first: nat, run: seq<AllocationRecord>) {
    first + |run| <= |s| && s[first..first + |run|] == run
  }

  lemma StandsAtEnd(s: seq<AllocationRecord>, run: seq<AllocationRecord>)
    ensures StandsAt(s + run, |s|, run)
  {
  }

  lemma StandsStill(s: seq<AllocationRecord>, first: nat, run: seq<AllocationRecord>, more: seq<AllocationRecord>)
    requires StandsAt(s, first, run)
    ensures StandsAt(s + more, first, run)
  {
    assert (s + more)[first..first + |run|] == s[first..first + |run|];
  }

  lemma {:induction false} RunStandsAtOffset(g: seq<seq<AllocationRecord>>, i: nat)
    requires i < |g|
    ensures StandsAt(Concat(g), Offset(g, i), g[i])
    decreases |g|
  {
    var n := |g| - 1;
    OffsetOfPrefix(g, n, i);
    if i < n {
      RunStandsAtOffset(g[..n], i);
      StandsStill(Concat(g[..n]), Offset(g, i), g[i], g[n]);
    } else {
      ConcatLength(g[..n]);
      StandsAtEnd(Concat(g[..n]), g[n]);
    }
  }

  /** Item i of the summary describes the stretch of the sorted leaks that begins after the
      counts of the items before it. */
  lemma ItemDescribesItsStretch(leaks: seq<AllocationRecord>, config: Config, typeOf: TypeOracle, i: nat)
    requires config.summary && i < |ReportOn(leaks, config, typeOf).summary.value.bySize|
    ensures var items := ReportOn(leaks, config, typeOf).summary.value.bySize;
            exists stretch :: StandsAt(Sort(leaks), Sum(Counts(items[..i])), stretch) && Describes(items[i], stretch)
  {
    var g := Groups(Sort(leaks));
    GroupsAreMaximalRuns(Sort(leaks));
    CountsGiveOffset(g, i);
    RunStandsAtOffset(g, i);
    assert Uniform(g[i]);
    ItemDescribesRun(g[i]);
  }

  /** A group shows the size of its blocks, or nothing for blocks of size zero. */
  predicate Shows(field: Option<nat>, size: nat) {
    field == Some(size) || (field == None && size == 0)
  }

  /** The entry names the block, with the answer for its type if there is one. */
  predicate Names(entry: LeakDetail, block: AllocationRecord, typeOf: TypeOracle) {
    && Denotes(entry.address, block.address)
    && (entry.typeName.Some? <==> typeOf(block.address, block.size) != "")
    && (entry.typeName.Some? ==> entry.typeName.value == typeOf(block.address, block.size))
  }

  /** The group names the blocks of the stretch in order and shows their one size. */
  predicate Explains(group: DetailGroup, stretch: seq<AllocationRecord>, typeOf: TypeOracle) {
    && |group.addresses| == |stretch| > 0
    && forall k :: 0 <= k < |stretch| ==>
         Shows(group.size, stretch[k].size) && Names(group.addresses[k], stretch[k], typeOf)
  }

  lemma DetailExplainsRun(run: seq<AllocationRecord>, first: bool, typeOf: TypeOracle)
    requires Uniform(run)
    ensures Explains(Detail(run, first, typeOf), run, typeOf)
  {
    forall k | 0 <= k < |run|
      ensures Names(DetailsOf(run, typeOf)[k], run[k], typeOf)
    {
      HexAddressIsTheNumeral(HexAddress(run[k].address), run[k].address);
    }
  }

  function Lengths(groups: seq<DetailGroup>): seq<nat> {
    seq(|groups|, i requires 0 <= i < |groups| => |groups[i].addresses|)
  }

  lemma {:induction false} LengthsGiveOffset(g: seq<seq<AllocationRecord>>, typeOf: TypeOracle, i: nat)
    requires i <= |g|
    ensures Sum(Lengths(Details(g, typeOf)[..i])) == Offset(g, i)
  {
    if i > 0 {
      LengthsGiveOffset(g, typeOf, i - 1);
      LengthsOneMore(Details(g, typeOf), i);
    }
  }

  lemma LengthsOneMore(groups: seq<DetailGroup>, i: nat)
    requires 0 < i <= |groups|
    ensures Sum(Lengths(groups[..i])) == Sum(Lengths(groups[..i - 1])) + |groups[i - 1].addresses|
  {
    assert Lengths(groups[..i])[..i - 1] == Lengths(groups[..i - 1]);
  }

  /** Group i of the details explains the stretch of the sorted leaks that begins after the
      addresses of the groups before it, and together the groups are as long as the list. */
  lemma GroupExplainsItsStretch(leaks: seq<AllocationRecord>, config: Config, typeOf: TypeOracle, i: nat)
    requires config.details && i < |ReportOn(leaks, config, typeOf).leaksBySize.value|
    ensures var groups := ReportOn(leaks, config, typeOf).leaksBySize.value;
            && Sum(Lengths(groups)) == |leaks|
            && exists stretch ::
                 StandsAt(Sort(leaks), Sum(Lengths(groups[..i])), stretch) && Explains(groups[i], stretch, typeOf)
  {
    var g := Groups(Sort(leaks));
    GroupsAreMaximalRuns(Sort(leaks));
    SortKeepsLength(leaks);
    LengthsGiveOffset(g, typeOf, i);
    LengthsGiveOffset(g, typeOf, |g|);
    ConcatLength(g);
    assert Details(g, typeOf)[..|g|] == Details(g, typeOf);
    RunStandsAtOffset(g, i);
    assert Uniform(g[i]);
    DetailExplainsRun(g[i], i == 0, typeOf);
  }

  lemma SortKeepsLength(leaks: seq<AllocationRecord>)
    ensures |Sort(leaks)| == |leaks|
  {
    SortIsSortedPermutation(leaks);
    assert |multiset(Sort(leaks))| == |multiset(leaks)|;
  }

  /** Both parts of the report go from larger to smaller sizes, each size once. */
  lemma SizesDecrease(leaks: seq<AllocationRecord>, config: Config, typeOf: TypeOracle, i: nat, j: nat)
    requires i < j
    ensures var summary := ReportOn(leaks, config, typeOf).summary;
            summary.Some? && j < |summary.value.bySize| ==>
              summary.value.bySize[i].size > summary.value.bySize[j].size
    ensures var details := ReportOn(leaks, config, typeOf).leaksBySize;
            details.Some? && j < |details.value| ==>
              details.value[i].size.Some? && details.value[j].size.Some?
              && details.value[i].size.value > details.value[j].size.value
  {
    var g := Groups(Sort(leaks));
    if j < |g| {
      SortIsSortedPermutation(leaks);
      GroupSizesDecrease(Sort(leaks), i, j);
    }
  }

  /** The first of the sorted leaks is a largest one. */
  lemma FirstIsLargest(leaks: seq<AllocationRecord>)
    requires leaks != []
    ensures Sort(leaks) != [] && Sort(leaks)[0] in leaks
    ensures forall a :: a in leaks ==> a.size <= Sort(leaks)[0].size
  {
    var s := Sort(leaks);
    SortIsSortedPermutation(leaks);
    assert |multiset(s)| == |multiset(leaks)|;
    assert s[0] in multiset(s);
    forall a | a in leaks
      ensures a.size <= s[0].size
    {
      assert a in multiset(s);
      var j :| 0 <= j < |s| && s[j] == a;
      if j > 0 {
        LargerFirst(s, 0, j);
      }
    }
  }

  lemma FirstGroupStartsTheList(s: seq<AllocationRecord>)
    requires s != []
    ensures Groups(s) != [] && SizeOf(Groups(s)[0]) == s[0].size
  {
    GroupsAreMaximalRuns(s);
    assert Uniform(Groups(s)[0]);
    ElementOfConcat(Groups(s), 0, 0);
  }

  /** Every group of the details states its size if and only if some leak is not empty. */
  lemma SizesStatedUnlessAllEmpty(leaks: seq<AllocationRecord>, config: Config, typeOf: TypeOracle)
    requires config.details && leaks != []
    ensures var groups := ReportOn(leaks, config, typeOf).leaksBySize.value;
            (forall i :: 0 <= i < |groups| ==> groups[i].size.Some?) <==> exists a :: a in leaks && a.size > 0
  {
    FirstIsLargest(leaks);
    FirstGroupStartsTheList(Sort(leaks));
    var groups := ReportOn(leaks, config, typeOf).leaksBySize.value;
    assert groups[0].size.Some? <==> Sort(leaks)[0].size > 0;
  }

  /** A single empty leak gives a group without a size. */
  lemma EmptyLeakHasNoSize(config: Config, typeOf: TypeOracle)
    requires config.details
    ensures ReportOn([AllocationRecord(16, 0, false)], config, typeOf).leaksBySize.value != []
    ensures ReportOn([AllocationRecord(16, 0, false)], config, typeOf).leaksBySize.value[0].size.None?
  {
    var leaks := [AllocationRecord(16, 0, false)];
    FirstIsLargest(leaks);
    FirstGroupStartsTheList(Sort(leaks));
  }
}
