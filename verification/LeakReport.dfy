/** Construction of the leak report: filter, sort, one pass that accumulates a group and
    flushes it when the size changes, and the decision to emit. */
module LeakReport {
  import opened Options
  import opened Words
  import opened HexText
  import opened LeakGroups

  const SAMPLES := 100

  datatype Config = Config(summary: bool, details: bool)

  datatype SummaryItem = SummaryItem(size: nat, count: nat, samples: seq<string>)
  datatype Summary = Summary(totalLeaks: nat, totalBytes: nat, bySize: seq<SummaryItem>)
  datatype LeakDetail = LeakDetail(address: string, typeName: Option<string>)

  /** A group of the details; the size is absent when the loop never wrote it. */
  datatype DetailGroup = DetailGroup(size: Option<nat>, addresses: seq<LeakDetail>)
  datatype Report = Report(summary: Option<Summary>, leaksBySize: Option<seq<DetailGroup>>)

  /** How the type of the object at an address is resolved; the empty string for no answer. */
  type TypeOracle = (nat, nat) -> string

  function Leaks(s: seq<AllocationRecord>): (r: seq<AllocationRecord>)
    ensures Unmarked(r)
  {
    if s == [] then []
    else if s[|s| - 1].marked then Leaks(s[..|s| - 1])
    else Leaks(s[..|s| - 1]) + [s[|s| - 1]]
  }

  function TotalBytes(s: seq<AllocationRecord>): nat {
    if s == [] then 0 else TotalBytes(s[..|s| - 1]) + s[|s| - 1].size
  }

  // ----- what is reported about one group -----

  function Texts(run: seq<AllocationRecord>): (r: seq<string>)
    ensures |r| == |run|
    ensures forall i :: 0 <= i < |r| ==> r[i] == HexAddress(run[i].address)
  {
    seq(|run|, i requires 0 <= i < |run| => HexAddress(run[i].address))
  }

  function Samples(run: seq<AllocationRecord>): seq<string> {
    Texts(if |run| <= SAMPLES then run else run[..SAMPLES])
  }

  /** The common size of a run. */
  function SizeOf(run: seq<AllocationRecord>): nat {
    if run == [] then 0 else run[0].size
  }

  function Item(run: seq<AllocationRecord>): SummaryItem {
    SummaryItem(SizeOf(run), |run|, Samples(run))
  }

  function DetailOf(a: AllocationRecord, typeOf: TypeOracle): LeakDetail {
    var name := typeOf(a.address, a.size);
    LeakDetail(HexAddress(a.address), if name == "" then None else Some(name))
  }

  function DetailsOf(run: seq<AllocationRecord>, typeOf: TypeOracle): (r: seq<LeakDetail>)
    ensures |r| == |run|
    ensures forall i :: 0 <= i < |r| ==> r[i] == DetailOf(run[i], typeOf)
  {
    seq(|run|, i requires 0 <= i < |run| => DetailOf(run[i], typeOf))
  }

  /** The first group starts without a size, which stays so if its size is the initial zero. */
  function SizeField(first: bool, size: nat): Option<nat> {
    if first && size == 0 then None else Some(size)
  }

  function Detail(run: seq<AllocationRecord>, first: bool, typeOf: TypeOracle): DetailGroup {
    DetailGroup(SizeField(first, SizeOf(run)), DetailsOf(run, typeOf))
  }

  function Items(g: seq<seq<AllocationRecord>>): (r: seq<SummaryItem>)
    ensures |r| == |g|
    ensures forall i :: 0 <= i < |r| ==> r[i] == Item(g[i])
  {
    seq(|g|, i requires 0 <= i < |g| => Item(g[i]))
  }

  function Details(g: seq<seq<AllocationRecord>>, typeOf: TypeOracle): (r: seq<DetailGroup>)
    ensures |r| == |g|
    ensures forall i :: 0 <= i < |r| ==> r[i] == Detail(g[i], i == 0, typeOf)
  {
    seq(|g|, i requires 0 <= i < |g| => Detail(g[i], i == 0, typeOf))
  }

  /** The report on a list of leaks, in whatever order they were enumerated. */
  function ReportOn(leaks: seq<AllocationRecord>, config: Config, typeOf: TypeOracle): Report {
    var g := Groups(Sort(leaks));
    Report(
      if config.summary then Some(Summary(|leaks|, Wrap(TotalBytes(leaks)), Items(g))) else None,
      if config.details then Some(Details(g, typeOf)) else None)
  }

  lemma ItemsAppend(g: seq<seq<AllocationRecord>>, run: seq<AllocationRecord>, typeOf: TypeOracle)
    ensures Items(g + [run]) == Items(g) + [Item(run)]
    ensures Details(g + [run], typeOf) == Details(g, typeOf) + [Detail(run, g == [], typeOf)]
  {
  }

  lemma SamplesAppend(run: seq<AllocationRecord>, x: AllocationRecord, typeOf: TypeOracle)
    ensures Samples(run + [x]) ==
            if |Samples(run)| < SAMPLES then Samples(run) + [HexAddress(x.address)] else Samples(run)
    ensures DetailsOf(run + [x], typeOf) == DetailsOf(run, typeOf) + [DetailOf(x, typeOf)]
  {
  }

  lemma ExtendOpen(closed: seq<seq<AllocationRecord>>, open: seq<AllocationRecord>, x: AllocationRecord)
    ensures open != [] ==>
              Extend(closed + [open], x) ==
              if x.size == SizeOf(open) then closed + [open + [x]] else closed + [open] + [[x]]
  {
    assert (closed + [open])[..|closed|] == closed;
  }

  // ----- the loop -----

  /** The variables captured by `flush_group`, and the two arrays of the report it fills. */
  class GroupAccumulator {
    const config: Config
    const typeOf: TypeOracle
    var currentSize: nat
    var currentCount: nat
    var currentSamples: seq<string>
    var currentGroup: DetailGroup
    var bySize: seq<SummaryItem>
    var leaksBySize: seq<DetailGroup>
    ghost var closed: seq<seq<AllocationRecord>>  // the groups in the report
    ghost var open: seq<AllocationRecord>         // the group being accumulated

    constructor (config: Config, typeOf: TypeOracle)
      ensures Valid() && AllGroups() == [] && this.config == config && this.typeOf == typeOf
    {
      this.config, this.typeOf := config, typeOf;
      currentSize, currentCount := 0, 0;
      currentSamples := [];
      currentGroup := DetailGroup(None, []);
      bySize, leaksBySize := [], [];
      closed, open := [], [];
    }

    ghost predicate Filled()
      reads this
    {
      && bySize == (if config.summary then Items(closed) else [])
      && leaksBySize == (if config.details then Details(closed, typeOf) else [])
    }

    /** The captured variables describe the open group. */
    ghost predicate Current()
      reads this
    {
      && currentCount == |open| && currentSamples == Samples(open)
      && (open != [] ==> currentSize == SizeOf(open))
      && (config.details ==>
            currentGroup == DetailGroup(SizeField(closed == [], currentSize), DetailsOf(open, typeOf)))
    }

    ghost predicate Valid()
      reads this
    {
      Filled() && Current() && (open == [] ==> closed == [] && currentSize == 0)
    }

    ghost function AllGroups(): seq<seq<AllocationRecord>>
      reads this
    {
      if open == [] then closed else closed + [open]
    }

    method FlushGroup()
      requires Valid()
      modifies this`bySize, this`leaksBySize, this`closed, this`open
      ensures Filled() && closed == old(AllGroups()) && open == []
    {
      ItemsAppend(closed, open, typeOf);
      if currentCount > 0 {
        if config.summary {
          bySize := bySize + [SummaryItem(currentSize, currentCount, currentSamples)];
        }
        if config.details {
          leaksBySize := leaksBySize + [currentGroup];
        }
      }
      closed, open := AllGroups(), [];
    }

    /** The part of an iteration after the size has been compared. */
    method Append(alloc: AllocationRecord)
      requires Current() && alloc.size == currentSize
      modifies this`currentCount, this`currentSamples, this`currentGroup, this`open
      ensures Current() && open == old(open) + [alloc]
    {
      SamplesAppend(open, alloc, typeOf);
      currentCount := currentCount + 1;
      var text := HexAddress(alloc.address);
      if |currentSamples| < SAMPLES {
        currentSamples := currentSamples + [text];
      }
      if config.details {
        var name := typeOf(alloc.address, alloc.size);
        currentGroup := currentGroup.(addresses :=
          currentGroup.addresses + [LeakDetail(text, if name == "" then None else Some(name))]);
      }
      open := open + [alloc];
    }

    /** Flush, and reset the captured variables for a group of another size. */
    method StartGroup(size: nat)
      requires Valid() && size != currentSize
      modifies this
      ensures Filled() && Current() && closed == old(AllGroups()) && open == [] && currentSize == size
    {
      FlushGroup();
      currentSize := size;
      currentCount := 0;
      currentSamples := [];
      if config.details {
        currentGroup := DetailGroup(Some(currentSize), []);
      }
    }

    /** One iteration of the loop. */
    method Add(alloc: AllocationRecord)
      requires Valid()
      modifies this
      ensures Valid() && AllGroups() == Extend(old(AllGroups()), alloc)
    {
      ExtendOpen(closed, open, alloc);
      if alloc.size != currentSize {
        StartGroup(alloc.size);
      }
      Append(alloc);
      assert [] + [alloc] == [alloc];
    }
  }

  /** The first loop: the unmarked allocations, their number and their bytes in a 64-bit sum. */
  method CollectLeaks(allocations: seq<AllocationRecord>)
    returns (leaked: seq<AllocationRecord>, totalLeaks: nat, totalLeakedBytes: nat)
    ensures leaked == Leaks(allocations)
    ensures totalLeaks == |leaked| && totalLeakedBytes == Wrap(TotalBytes(leaked))
  {
    leaked := [];
    totalLeaks, totalLeakedBytes := 0, 0;
    for i := 0 to |allocations|
      invariant leaked == Leaks(allocations[..i])
      invariant totalLeaks == |leaked| && totalLeakedBytes == Wrap(TotalBytes(leaked))
    {
      assert allocations[..i + 1][..i] == allocations[..i];
      if !allocations[i].marked {
        assert (leaked + [allocations[i]])[..|leaked|] == leaked;
        leaked := leaked + [allocations[i]];
        totalLeaks := totalLeaks + 1;
        totalLeakedBytes := Wrap(totalLeakedBytes + allocations[i].size);
      }
    }
    assert allocations[..|allocations|] == allocations;
  }

  /** The second loop and the flush after it. */
  method GroupLeaks(sorted: seq<AllocationRecord>, config: Config, typeOf: TypeOracle)
    returns (bySize: seq<SummaryItem>, leaksBySize: seq<DetailGroup>)
    ensures bySize == if config.summary then Items(Groups(sorted)) else []
    ensures leaksBySize == if config.details then Details(Groups(sorted), typeOf) else []
  {
    var acc := new GroupAccumulator(config, typeOf);
    for i := 0 to |sorted|
      invariant acc.Valid() && acc.AllGroups() == Groups(sorted[..i])
    {
      assert sorted[..i + 1][..i] == sorted[..i];
      acc.Add(sorted[i]);
    }
    assert sorted[..|sorted|] == sorted;
    acc.FlushGroup();
    bySize, leaksBySize := acc.bySize, acc.leaksBySize;
  }

  method RunLeakDetection(allocations: seq<AllocationRecord>, config: Config, typeOf: TypeOracle, hasReporter: bool)
    returns (emitted: Option<Report>)
    ensures emitted == if Leaks(allocations) != [] && hasReporter
                       then Some(ReportOn(Leaks(allocations), config, typeOf)) else None
    ensures emitted.Some? ==>
              && (emitted.value.summary.Some? <==> config.summary)
              && (emitted.value.leaksBySize.Some? <==> config.details)
  {
    var leaked, totalLeaks, totalLeakedBytes := CollectLeaks(allocations);
    var bySize, leaksBySize := GroupLeaks(Sort(leaked), config, typeOf);
    if totalLeaks > 0 && hasReporter {
      return Some(Report(
        if config.summary then Some(Summary(totalLeaks, totalLeakedBytes, bySize)) else None,
        if config.details then Some(leaksBySize) else None));
    }
    return None;
  }
}
