/** The CPU monitor: one sweep over the threads of the process, and what the captures of many
    sweeps say about average usage. */
module CpuMonitor {
  import opened Options
  import opened Words
  import opened StatLine

  const NANOSECONDS := 1_000_000_000
  const FALLBACK_TICKS := 100

  datatype ThreadState = ThreadState(lastCpuTime: nat, lastCheckTime: nat)

  /** A directory entry with the first line of its stat file, if it could be read, and the
      clock when the line was evaluated. */
  datatype Entry = Entry(name: string, line: Option<string>, now: nat)

  datatype Sample = Sample(thread: nat, cpuTime: nat, now: nat)

  type States = map<nat, ThreadState>

  function Ticks(configured: int): (t: nat)
    ensures t > 0
  {
    if configured <= 0 then FALLBACK_TICKS else configured
  }

  /** CPU time in nanoseconds, in 64-bit arithmetic. */
  function CpuTime(times: Times, ticks: nat): nat
    requires ticks > 0
  {
    Wrap(Wrap(times.utime + times.stime) * NANOSECONDS) / ticks
  }

  function TimesOf(e: Entry): Option<Times> {
    if e.line.None? then None else ParseStat(e.line.value)
  }

  /** The sample an entry gives; none for dot entries, non-numeric names and unreadable or
      malformed lines. */
  function SampleOf(e: Entry, ticks: nat): Option<Sample>
    requires ticks > 0
  {
    if e.name != "" && e.name[0] == '.' then None
    else
      var thread, times := ReadUnsigned(e.name), TimesOf(e);
      if thread.None? || times.None? then None
      else Some(Sample(thread.value.value, CpuTime(times.value, ticks), e.now))
  }

  function Samples(entries: seq<Entry>, ticks: nat): seq<Sample>
    requires ticks > 0
  {
    if entries == [] then []
    else
      var front := Samples(entries[..|entries| - 1], ticks);
      match SampleOf(entries[|entries| - 1], ticks)
      case None => front
      case Some(sample) => front + [sample]
  }

  function Record(m: States, s: Sample): States {
    m[s.thread := ThreadState(s.cpuTime, s.now)]
  }

  /** Usage above nine tenths since the thread was last seen, the ratio taken exactly. */
  predicate IsHigh(m: States, s: Sample) {
    s.thread in m &&
    var cpuDelta := Wrap(s.cpuTime - m[s.thread].lastCpuTime);
    var timeDelta := Wrap(s.now - m[s.thread].lastCheckTime);
    timeDelta > 0 && 10 * cpuDelta > 9 * timeDelta
  }

  function RecordAll(m: States, samples: seq<Sample>): States {
    if samples == [] then m else Record(RecordAll(m, samples[..|samples| - 1]), samples[|samples| - 1])
  }

  /** The threads captured, in order. */
  function Captures(m: States, samples: seq<Sample>): seq<nat> {
    if samples == [] then []
    else
      var n := |samples| - 1;
      Captures(m, samples[..n]) + if CapturedAt(m, samples, n) then [samples[n].thread] else []
  }

  predicate CapturedAt(m: States, samples: seq<Sample>, i: nat)
    requires i < |samples|
  {
    IsHigh(RecordAll(m, samples[..i]), samples[i])
  }

  class CpuMonitor {
    var running: bool
    var threadStates: States

    constructor ()
      ensures !running && threadStates == map[]
    {
      running := false;
      threadStates := map[];
    }

    method Start()
      modifies this`running
      ensures running
    {
      if running {
        return;
      }
      running := true;
    }

    /** The join lies between the two assignments. */
    method Stop()
      modifies this
      ensures !running && threadStates == if old(running) then map[] else old(threadStates)
    {
      if !running {
        return;
      }
      running := false;
      threadStates := map[];
    }

    /** Compare a thread with its last record, capture it if it was busy, and record it. */
    method Check(thread: nat, cpuTime: nat, now: nat) returns (captured: bool)
      modifies this`threadStates
      ensures threadStates == Record(old(threadStates), Sample(thread, cpuTime, now))
      ensures captured <==> IsHigh(old(threadStates), Sample(thread, cpuTime, now))
    {
      captured := false;
      if thread in threadStates {
        var cpuDelta := Wrap(cpuTime as int - threadStates[thread].lastCpuTime as int);
        var timeDelta := Wrap(now as int - threadStates[thread].lastCheckTime as int);
        if timeDelta > 0 {
          if 10 * cpuDelta > 9 * timeDelta {
            captured := true;
          }
        }
      }
      threadStates := threadStates[thread := ThreadState(cpuTime, now)];
    }

    /** The body of the sweep for one entry. */
    method CheckEntry(e: Entry, ticks: nat) returns (captured: Option<nat>)
      requires ticks > 0
      modifies this`threadStates
      ensures match SampleOf(e, ticks)
              case None => threadStates == old(threadStates) && captured == None
              case Some(s) => && threadStates == Record(old(threadStates), s)
                              && captured == if IsHigh(old(threadStates), s) then Some(s.thread) else None
    {
      captured := None;
      var sample := SampleOf(e, ticks);
      if sample.Some? {
        var high := Check(sample.value.thread, sample.value.cpuTime, sample.value.now);
        if high {
          captured := Some(sample.value.thread);
        }
      }
    }

    /** One sweep over /proc/self/task. */
    method CheckThreadsForHighCpu(entries: seq<Entry>, configuredTicks: int) returns (captures: seq<nat>)
      modifies this`threadStates
      ensures var samples := Samples(entries, if configuredTicks > 0 then configuredTicks else 100);
              && threadStates == RecordAll(old(threadStates), samples)
              && captures == Captures(old(threadStates), samples)
    {
      var ticks := Ticks(configuredTicks);
      captures := [];
      for i := 0 to |entries|
        invariant threadStates == RecordAll(old(threadStates), Samples(entries[..i], ticks))
        invariant captures == Captures(old(threadStates), Samples(entries[..i], ticks))
      {
        SweepOneMore(old(threadStates), entries, i, ticks);
        var captured := CheckEntry(entries[i], ticks);
        if captured.Some? {
          captures := captures + [captured.value];
        }
      }
      assert entries[..|entries|] == entries;
    }

    /** The loop of the monitor thread: one sweep a round, until the flag is found cleared. */
    method MonitorLoop(rounds: seq<seq<Entry>>, configuredTicks: int) returns (captures: seq<seq<nat>>)
      modifies this`threadStates
      ensures var sweeps := Sweeps(rounds, if configuredTicks > 0 then configuredTicks else 100);
              && threadStates == RecordAll(old(threadStates), Flat(sweeps))
              && captures == CapturesUpTo(old(threadStates), sweeps, |sweeps|)
    {
      captures := [];
      ghost var m, sweeps := threadStates, Sweeps(rounds, Ticks(configuredTicks));
      for i := 0 to |rounds|
        invariant threadStates == RecordAll(m, Flat(sweeps[..i]))
        invariant captures == CapturesUpTo(m, sweeps, i)
      {
        SweepsJoin(m, sweeps, i);
        var captured := CheckThreadsForHighCpu(rounds[i], configuredTicks);
        captures := captures + [captured];
      }
      assert sweeps[..|rounds|] == sweeps;
    }
  }

  lemma SweepOneMore(m: States, entries: seq<Entry>, i: nat, ticks: nat)
    requires i < |entries| && ticks > 0
    ensures var before, after := Samples(entries[..i], ticks), Samples(entries[..i + 1], ticks);
            match SampleOf(entries[i], ticks)
            case None => after == before
            case Some(s) =>
              && RecordAll(m, after) == Record(RecordAll(m, before), s)
              && Captures(m, after) ==
                 Captures(m, before) + if IsHigh(RecordAll(m, before), s) then [s.thread] else []
  {
    assert entries[..i + 1][..i] == entries[..i];
    var before, sample := Samples(entries[..i], ticks), SampleOf(entries[i], ticks);
    assert sample.Some? ==> (before + [sample.value])[..|before|] == before;
  }

  // ----- what a sample says -----

  lemma WrappedFactor(a: nat, n: nat)
    ensures Wrap(Wrap(a) * n) == Wrap(a * n)
  {
    var q := a / WORD;
    assert a == q * WORD + Wrap(a);
    assert a * n == (q * n) * WORD + Wrap(a) * n by {
      assert a * n == (q * WORD + Wrap(a)) * n;
      assert (q * WORD) * n == (q * n) * WORD;
    }
    var x := Wrap(a) * n;
    assert x == (x / WORD) * WORD + Wrap(x);
    assert a * n == (q * n + x / WORD) * WORD + Wrap(x);
    DivModUnique(a * n, WORD, q * n + x / WORD, Wrap(x));
  }

  lemma Quotient(x: nat, d: nat)
    requires d > 0
    ensures x / d * d <= x < (x / d + 1) * d
  {
    assert x == (x / d) * d + x % d;
  }

  /** Division rounded down, without dividing. */
  predicate IsQuotient(q: nat, x: nat, d: nat) {
    q * d <= x < (q + 1) * d
  }

  lemma WrapBelow(x: nat)
    requires x >= WORD
    ensures Wrap(x) <= x - WORD
  {
    assert x == (x / WORD) * WORD + Wrap(x);
  }

  /** The CPU time is the time spent in user and system mode divided by the ticks per second,
      rounded down, if and only if that many nanoseconds times ticks fit 64 bits. */
  lemma CpuTimeIsBothTimes(times: Times, ticks: nat)
    requires 0 < ticks < WORD
    ensures var t := CpuTime(times, ticks);
            var spent := (times.utime + times.stime) * 1_000_000_000;
            && (IsQuotient(t, spent, ticks) <==> spent < WORD)
            && IsQuotient(t, spent % WORD, ticks)
  {
    WrappedFactor(times.utime + times.stime, NANOSECONDS);
    var exact := (times.utime + times.stime) * 1_000_000_000;
    Quotient(Wrap(exact), ticks);
    if exact >= WORD {
      WrapBelow(exact);
    }
  }

  predicate FieldsFit(longs: seq<int>, unsigneds: seq<nat>) {
    AllFitLong(longs) && AllFitUnsigned(unsigneds)
  }

  /** A thread as the kernel lists it is sampled, with the time it spent in user and system
      mode, if its fields fit their types, and not at all otherwise. */
  lemma ListedThreadIsSampled(
    thread: nat, comm: string, state: char, longs: seq<int>, unsigneds: seq<nat>, tail: string, now: nat, ticks: nat)
    requires thread < WORD && 0 < ticks < WORD
    requires !IsSpace(state) && state != ')' && ')' !in tail && EndsNumber(tail)
    requires |longs| == 5 && |unsigneds| == 7
    ensures var line := PrintStat(thread, comm, state, longs, unsigneds, tail);
            match SampleOf(Entry(Decimal(thread), Some(line), now), ticks)
            case None => !FieldsFit(longs, unsigneds)
            case Some(s) =>
              && FieldsFit(longs, unsigneds) && s.thread == thread && s.now == now
              && var spent := (unsigneds[5] + unsigneds[6]) * 1_000_000_000;
              IsQuotient(s.cpuTime, spent, ticks) <==> spent < WORD
  {
    PrintedSample(thread, comm, state, longs, unsigneds, tail, now, ticks);
    CpuTimeIsBothTimes(Times(unsigneds[5], unsigneds[6]), ticks);
  }

  lemma PrintedSample(
    thread: nat, comm: string, state: char, longs: seq<int>, unsigneds: seq<nat>, tail: string, now: nat, ticks: nat)
    requires thread < WORD && 0 < ticks
    requires !IsSpace(state) && state != ')' && ')' !in tail && EndsNumber(tail)
    requires |longs| == 5 && |unsigneds| == 7
    ensures SampleOf(Entry(Decimal(thread), Some(PrintStat(thread, comm, state, longs, unsigneds, tail)), now), ticks)
            == if FieldsFit(longs, unsigneds)
               then Some(Sample(thread, CpuTime(Times(unsigneds[5], unsigneds[6]), ticks), now)) else None
  {
    ParseReadsBackPrinted(thread, comm, state, longs, unsigneds, tail);
    NameReadsBack(thread);
  }

  /** The first character of something `std::stoull` may read a number from. */
  predicate MayStartNumber(c: char) {
    IsDigit(c) || IsSpace(c) || c == '-' || c == '+'
  }

  /** No sample comes from the dot entries, a name that is not a number, a file that cannot be
      read, or a line that is cut off. */
  lemma OtherEntriesGiveNoSample(e: Entry, ticks: nat)
    requires ticks > 0
    ensures e.name == "" || !MayStartNumber(e.name[0]) ==> SampleOf(e, ticks) == None
    ensures e.line.None? || ')' !in e.line.value ==> SampleOf(e, ticks) == None
    ensures e.line.Some? && ParseStat(e.line.value) == None ==> SampleOf(e, ticks) == None
  {
    if e.line.Some? {
      TruncatedLineGivesNothing(e.line.value, "", "");
    }
  }

  lemma NameReadsBack(thread: nat)
    requires thread < WORD
    ensures ReadUnsigned(Decimal(thread)) == Some(Read(thread, ""))
    ensures Decimal(thread) != "" && Decimal(thread)[0] != '.'
  {
    DecimalReadsBack(thread);
    DigitsReadBack(thread, "");
    assert Decimal(thread) + "" == Decimal(thread);
    assert IsDigit(Decimal(thread)[0]);
  }

  // ----- what captures mean over a window -----

  /** The samples of one thread from i to j run forward: the clock strictly, the CPU time weakly. */
  predicate Forward(samples: seq<Sample>, thread: nat, i: nat, j: nat) {
    forall p, q :: i <= p < q <= j < |samples| && samples[p].thread == samples[q].thread == thread ==>
      && samples[p].now < samples[q].now < WORD
      && samples[p].cpuTime <= samples[q].cpuTime < WORD
  }

  /** The last sample of the thread before j. */
  function Previous(samples: seq<Sample>, thread: nat, j: nat): (p: nat)
    requires j <= |samples|
    requires exists i :: 0 <= i < j && samples[i].thread == thread
    ensures p < j && samples[p].thread == thread
    ensures forall q :: p < q < j ==> samples[q].thread != thread
  {
    if samples[j - 1].thread == thread then j - 1 else Previous(samples, thread, j - 1)
  }

  /** Whatever the other threads do in between, the record of a thread is its last sample. */
  lemma {:induction false} RecordIsLastSample(m: States, samples: seq<Sample>, thread: nat, j: nat, p: nat)
    requires p < j <= |samples| && samples[p].thread == thread
    requires forall q :: p < q < j ==> samples[q].thread != thread
    ensures var r := RecordAll(m, samples[..j]);
            thread in r && r[thread] == ThreadState(samples[p].cpuTime, samples[p].now)
  {
    assert samples[..j][..j - 1] == samples[..j - 1];
    if p < j - 1 {
      RecordIsLastSample(m, samples, thread, j - 1, p);
    }
  }

  lemma {:induction false} UnseenKeepsRecord(m: States, samples: seq<Sample>, thread: nat)
    requires forall q :: 0 <= q < |samples| ==> samples[q].thread != thread
    ensures var r := RecordAll(m, samples);
            (thread in r <==> thread in m) && (thread in m && thread in r ==> r[thread] == m[thread])
  {
    if samples != [] {
      UnseenKeepsRecord(m, samples[..|samples| - 1], thread);
    }
  }

  /** A thread is not captured the first time it is seen, nor when the clock has not moved. */
  lemma NoCaptureWithoutAnInterval(m: States, samples: seq<Sample>, p: nat, j: nat)
    requires p <= j < |samples|
    requires forall q :: p < q < j ==> samples[q].thread != samples[j].thread
    ensures samples[j].thread !in m && p == 0 && (samples[p].thread != samples[j].thread || p == j) ==>
              !CapturedAt(m, samples, j)
    ensures p < j && samples[p].thread == samples[j].thread && samples[p].now == samples[j].now ==>
              !CapturedAt(m, samples, j)
  {
    if p < j && samples[p].thread == samples[j].thread {
      RecordIsLastSample(m, samples, samples[j].thread, j, p);
    } else if p == 0 {
      UnseenKeepsRecord(m, samples[..j], samples[j].thread);
    }
  }

  /** `chosen` are the values that are there, each once and in order. */
  ghost predicate Selects<T>(at: seq<nat>, options: seq<Option<T>>, chosen: seq<T>) {
    && |at| == |chosen|
    && (forall k, l :: 0 <= k < l < |at| ==> at[k] < at[l])
    && (forall k :: 0 <= k < |at| ==> at[k] < |options| && options[at[k]] == Some(chosen[k]))
    && forall i :: 0 <= i < |options| && options[i].Some? ==> i in at
  }

  lemma SelectOneMore<T>(at: seq<nat>, options: seq<Option<T>>, chosen: seq<T>, o: Option<T>)
    requires Selects(at, options, chosen)
    ensures match o
            case None => Selects(at, options + [o], chosen)
            case Some(value) => Selects(at + [|options|], options + [o], chosen + [value])
  {
  }

  function SampleOfEach(entries: seq<Entry>, ticks: nat): (r: seq<Option<Sample>>)
    requires ticks > 0
    ensures |r| == |entries|
  {
    seq(|entries|, i requires 0 <= i < |entries| => SampleOf(entries[i], ticks))
  }

  /** The samples of a sweep are those of its entries, each once and in order. */
  lemma {:induction false} SamplesInOrder(entries: seq<Entry>, ticks: nat) returns (at: seq<nat>)
    requires ticks > 0
    ensures Selects(at, SampleOfEach(entries, ticks), Samples(entries, ticks))
  {
    if entries == [] {
      at := [];
    } else {
      var n := |entries| - 1;
      at := SamplesInOrder(entries[..n], ticks);
      var o := OneMoreSample(entries, ticks);
      SelectOneMore(at, SampleOfEach(entries[..n], ticks), Samples(entries[..n], ticks), o);
      at := at + if o.Some? then [n] else [];
    }
  }

  lemma OneMoreSample(entries: seq<Entry>, ticks: nat) returns (o: Option<Sample>)
    requires entries != [] && ticks > 0
    ensures var front := entries[..|entries| - 1];
            && SampleOfEach(entries, ticks) == SampleOfEach(front, ticks) + [o]
            && Samples(entries, ticks) == Samples(front, ticks) + if o.Some? then [o.value] else []
  {
    o := SampleOf(entries[|entries| - 1], ticks);
  }

  function CaptureOfEach(m: States, samples: seq<Sample>): (r: seq<Option<nat>>)
    ensures |r| == |samples|
  {
    seq(|samples|, i requires 0 <= i < |samples| =>
      if CapturedAt(m, samples, i) then Some(samples[i].thread) else None)
  }

  /** The captures are the threads of the captured samples, each once and in order. */
  lemma {:induction false} CapturesInOrder(m: States, samples: seq<Sample>) returns (at: seq<nat>)
    ensures Selects(at, CaptureOfEach(m, samples), Captures(m, samples))
  {
    if samples == [] {
      at := [];
    } else {
      var n := |samples| - 1;
      at := CapturesInOrder(m, samples[..n]);
      var o := OneMoreCapture(m, samples);
      SelectOneMore(at, CaptureOfEach(m, samples[..n]), Captures(m, samples[..n]), o);
      at := at + if o.Some? then [n] else [];
    }
  }

  lemma OneMoreCapture(m: States, samples: seq<Sample>) returns (o: Option<nat>)
    requires samples != []
    ensures var front := samples[..|samples| - 1];
            && CaptureOfEach(m, samples) == CaptureOfEach(m, front) + [o]
            && Captures(m, samples) == Captures(m, front) + if o.Some? then [o.value] else []
  {
    var n := |samples| - 1;
    o := if CapturedAt(m, samples, n) then Some(samples[n].thread) else None;
    forall i | 0 <= i < n
      ensures CapturedAt(m, samples[..n], i) <==> CapturedAt(m, samples, i)
    {
      assert samples[..n][..i] == samples[..i];
    }
  }

  /** CPU time that has gone back counts as nearly the whole 64 bits: the thread is captured
      unless it was last seen almost as long ago. */
  lemma BackwardTimeIsCaptured(m: States, samples: seq<Sample>, p: nat, j: nat)
    requires p < j < |samples| && samples[p].thread == samples[j].thread
    requires forall q :: p < q < j ==> samples[q].thread != samples[j].thread
    requires samples[j].cpuTime < samples[p].cpuTime < WORD && samples[p].now < samples[j].now < WORD
    ensures CapturedAt(m, samples, j) <==>
            10 * (WORD - (samples[p].cpuTime - samples[j].cpuTime)) > 9 * (samples[j].now - samples[p].now)
  {
    RecordIsLastSample(m, samples, samples[j].thread, j, p);
    DivModUnique(samples[j].cpuTime - samples[p].cpuTime, WORD, -1, WORD - (samples[p].cpuTime - samples[j].cpuTime));
  }

  predicate BusyBetween(a: Sample, b: Sample) {
    10 * (b.cpuTime - a.cpuTime) > 9 * (b.now - a.now)
  }

  predicate Busy(samples: seq<Sample>, i: nat, j: nat)
    requires i < |samples| && j < |samples|
  {
    BusyBetween(samples[i], samples[j])
  }

  lemma CaptureComparesNeighbours(m: States, samples: seq<Sample>, p: nat, j: nat)
    requires p < j < |samples| && Forward(samples, samples[j].thread, p, j)
    requires samples[p].thread == samples[j].thread
    requires forall q :: p < q < j ==> samples[q].thread != samples[j].thread
    ensures CapturedAt(m, samples, j) <==> Busy(samples, p, j)
  {
    RecordIsLastSample(m, samples, samples[j].thread, j, p);
  }

  /** Over any window of a thread's samples, interleaved with any others: if the average is
      above nine tenths some sample of the window was captured, and if all of them were the
      average is above nine tenths. */
  lemma {:induction false} AverageAndCaptures(m: States, samples: seq<Sample>, i: nat, j: nat)
    requires i < j < |samples| && samples[i].thread == samples[j].thread
    requires Forward(samples, samples[j].thread, i, j)
    ensures Busy(samples, i, j) ==>
              exists k :: i < k <= j && samples[k].thread == samples[j].thread && CapturedAt(m, samples, k)
    ensures (forall k :: i < k <= j && samples[k].thread == samples[j].thread ==> CapturedAt(m, samples, k))
            ==> Busy(samples, i, j)
    decreases j
  {
    var p := Previous(samples, samples[j].thread, j);
    CaptureComparesNeighbours(m, samples, p, j);
    if i < p {
      AverageAndCaptures(m, samples, i, p);
    }
  }

  // ----- many sweeps -----

  function Sweeps(rounds: seq<seq<Entry>>, ticks: nat): (r: seq<seq<Sample>>)
    requires ticks > 0
    ensures |r| == |rounds|
    ensures forall k :: 0 <= k < |r| ==> r[k] == Samples(rounds[k], ticks)
  {
    seq(|rounds|, k requires 0 <= k < |rounds| => Samples(rounds[k], ticks))
  }

  /** The samples of all sweeps, one after the other. */
  function Flat(sweeps: seq<seq<Sample>>): seq<Sample> {
    if sweeps == [] then [] else Flat(sweeps[..|sweeps| - 1]) + sweeps[|sweeps| - 1]
  }

  /** Where sweep k begins among them. */
  function Start(sweeps: seq<seq<Sample>>, k: nat): nat
    requires k <= |sweeps|
  {
    |Flat(sweeps[..k])|
  }

  /** What sweep k captures, on the records the sweeps before it left. */
  function CapturesIn(m: States, sweeps: seq<seq<Sample>>, k: nat): seq<nat>
    requires k < |sweeps|
  {
    Captures(RecordAll(m, Flat(sweeps[..k])), sweeps[k])
  }

  /** What the first n sweeps capture, sweep by sweep. */
  function CapturesUpTo(m: States, sweeps: seq<seq<Sample>>, n: nat): (r: seq<seq<nat>>)
    requires n <= |sweeps|
    ensures |r| == n
    ensures forall k :: 0 <= k < n ==> r[k] == CapturesIn(m, sweeps, k)
  {
    if n == 0 then [] else CapturesUpTo(m, sweeps, n - 1) + [CapturesIn(m, sweeps, n - 1)]
  }

  lemma {:induction false} RecordAllJoins(m: States, a: seq<Sample>, b: seq<Sample>)
    ensures RecordAll(RecordAll(m, a), b) == RecordAll(m, a + b)
    decreases |b|
  {
    if b == [] {
      assert a + b == a;
    } else {
      RecordAllJoins(m, a, b[..|b| - 1]);
      assert (a + b)[..|a + b| - 1] == a + b[..|b| - 1];
    }
  }

  lemma CapturedAtJoins(m: States, a: seq<Sample>, b: seq<Sample>, p: nat)
    requires p < |b|
    ensures CapturedAt(RecordAll(m, a), b, p) <==> CapturedAt(m, a + b, |a| + p)
  {
    RecordAllJoins(m, a, b[..p]);
    assert (a + b)[..|a| + p] == a + b[..p];
  }

  /** Sweeps run one after the other capture what one sweep over all their samples would. */
  lemma {:induction false} CapturesJoin(m: States, a: seq<Sample>, b: seq<Sample>)
    ensures Captures(m, a + b) == Captures(m, a) + Captures(RecordAll(m, a), b)
    decreases |b|
  {
    if b == [] {
      assert a + b == a;
    } else {
      var n := |b| - 1;
      CapturesJoin(m, a, b[..n]);
      CapturedAtJoins(m, a, b, n);
      assert (a + b)[..|a + b| - 1] == a + b[..n];
    }
  }

  lemma SweepsJoin(m: States, sweeps: seq<seq<Sample>>, i: nat)
    requires i < |sweeps|
    ensures RecordAll(m, Flat(sweeps[..i + 1])) == RecordAll(RecordAll(m, Flat(sweeps[..i])), sweeps[i])
  {
    assert sweeps[..i + 1][..i] == sweeps[..i];
    RecordAllJoins(m, Flat(sweeps[..i]), sweeps[i]);
  }

  /** Sample p of sweep k stands at Start(k) + p among all samples. */
  lemma {:induction false} SampleOfSweep(sweeps: seq<seq<Sample>>, k: nat, p: nat)
    requires k < |sweeps| && p < |sweeps[k]|
    ensures Start(sweeps, k) + |sweeps[k]| <= |Flat(sweeps)|
    ensures Flat(sweeps)[..Start(sweeps, k) + p] == Flat(sweeps[..k]) + sweeps[k][..p]
    ensures Flat(sweeps)[Start(sweeps, k) + p] == sweeps[k][p]
    decreases |sweeps|
  {
    var n := |sweeps| - 1;
    if k < n {
      SampleOfSweep(sweeps[..n], k, p);
      assert sweeps[..n][..k] == sweeps[..k];
    }
  }

  lemma {:induction false} InCaptures(m: States, samples: seq<Sample>, thread: nat)
    ensures thread in Captures(m, samples) <==>
            exists p :: 0 <= p < |samples| && samples[p].thread == thread && CapturedAt(m, samples, p)
  {
    if samples != [] {
      var n := |samples| - 1;
      InCaptures(m, samples[..n], thread);
      forall p | 0 <= p < n
        ensures CapturedAt(m, samples[..n], p) <==> CapturedAt(m, samples, p)
      {
        assert samples[..n][..p] == samples[..p];
      }
    }
  }

  predicate Lists(sweep: seq<Sample>, thread: nat) {
    exists p :: 0 <= p < |sweep| && sweep[p].thread == thread
  }

  /** The directory names a thread once. */
  predicate Once(sweep: seq<Sample>) {
    forall p, q :: 0 <= p < q < |sweep| ==> sweep[p].thread != sweep[q].thread
  }

  /** A thread is captured in a sweep if and only if its sample there is captured among all. */
  lemma CapturedInSweep(m: States, sweeps: seq<seq<Sample>>, k: nat, p: nat)
    requires k < |sweeps| && p < |sweeps[k]| && Once(sweeps[k])
    ensures Start(sweeps, k) + p < |Flat(sweeps)|
    ensures sweeps[k][p].thread in CapturesIn(m, sweeps, k) <==> CapturedAt(m, Flat(sweeps), Start(sweeps, k) + p)
  {
    var thread, before := sweeps[k][p].thread, Flat(sweeps[..k]);
    InCaptures(RecordAll(m, before), sweeps[k], thread);
    SampleOfSweep(sweeps, k, p);
    RecordAllJoins(m, before, sweeps[k][..p]);
  }

  /** The sweep and place of a sample among all. */
  lemma {:induction false} PlaceOfSample(sweeps: seq<seq<Sample>>, x: nat) returns (k: nat, p: nat)
    requires x < |Flat(sweeps)|
    ensures k < |sweeps| && p < |sweeps[k]| && x == Start(sweeps, k) + p
  {
    var n := |sweeps| - 1;
    if x < Start(sweeps, n) {
      k, p := PlaceOfSample(sweeps[..n], x);
      assert sweeps[..n][..k] == sweeps[..k];
    } else {
      k, p := n, x - Start(sweeps, n);
    }
  }

  lemma {:induction false} StartsGrow(sweeps: seq<seq<Sample>>, i: nat, j: nat)
    requires i < j <= |sweeps|
    ensures Start(sweeps, i) + |sweeps[i]| <= Start(sweeps, j)
    decreases j
  {
    assert sweeps[..j][..j - 1] == sweeps[..j - 1];
    if i < j - 1 {
      StartsGrow(sweeps, i, j - 1);
    }
  }

  lemma CapturedBetweenSweeps(m: States, sweeps: seq<seq<Sample>>, thread: nat, x: nat, i: nat, j: nat, q: nat)
    requires (forall k :: 0 <= k < |sweeps| ==> Once(sweeps[k])) && i < j < |sweeps| && q < |sweeps[j]|
    requires Start(sweeps, i) + |sweeps[i]| <= x <= Start(sweeps, j) + q < |Flat(sweeps)|
    requires Flat(sweeps)[x].thread == thread
    ensures exists k :: i < k <= j && Lists(sweeps[k], thread)
                        && (thread in CapturesIn(m, sweeps, k) <==> CapturedAt(m, Flat(sweeps), x))
  {
    var k, p := PlaceOfSample(sweeps, x);
    SampleOfSweep(sweeps, k, p);
    CapturedInSweep(m, sweeps, k, p);
    if k < i {
      StartsGrow(sweeps, k, i);
    }
    if j < k {
      StartsGrow(sweeps, j, k);
    }
  }

  /** Over any window of sweeps that each list a thread at most once, whatever the other
      threads do: if the thread's average from one sweep to another is above nine tenths some
      sweep after the first captured it, and if all that listed it did, the average is above
      nine tenths. */
  lemma AverageAndSweeps(m: States, sweeps: seq<seq<Sample>>, i: nat, p: nat, j: nat, q: nat)
    requires (forall k :: 0 <= k < |sweeps| ==> Once(sweeps[k]))
    requires i < j < |sweeps| && p < |sweeps[i]| && q < |sweeps[j]| && sweeps[i][p].thread == sweeps[j][q].thread
    requires Forward(Flat(sweeps), sweeps[j][q].thread, Start(sweeps, i) + p, Start(sweeps, j) + q)
    ensures var thread := sweeps[j][q].thread;
            BusyBetween(sweeps[i][p], sweeps[j][q]) ==>
              exists k :: i < k <= j && thread in CapturesIn(m, sweeps, k)
    ensures var thread := sweeps[j][q].thread;
            (forall k :: i < k <= j && Lists(sweeps[k], thread) ==> thread in CapturesIn(m, sweeps, k))
            ==> BusyBetween(sweeps[i][p], sweeps[j][q])
  {
    var thread, x, y := sweeps[j][q].thread, Start(sweeps, i) + p, Start(sweeps, j) + q;
    SampleOfSweep(sweeps, i, p);
    SampleOfSweep(sweeps, j, q);
    StartsGrow(sweeps, i, j);
    AverageAndCaptures(m, Flat(sweeps), x, y);
    forall z | x < z <= y && Flat(sweeps)[z].thread == thread
      ensures exists k :: i < k <= j && Lists(sweeps[k], thread)
                          && (thread in CapturesIn(m, sweeps, k) <==> CapturedAt(m, Flat(sweeps), z))
    {
      OncePerSweep(sweeps, i, p, z);
      CapturedBetweenSweeps(m, sweeps, thread, z, i, j, q);
    }
  }

  /** The next sample of a thread is in a later sweep. */
  lemma OncePerSweep(sweeps: seq<seq<Sample>>, i: nat, p: nat, z: nat)
    requires i < |sweeps| && p < |sweeps[i]| && Once(sweeps[i])
    requires Start(sweeps, i) + p < z < |Flat(sweeps)| && Flat(sweeps)[z].thread == sweeps[i][p].thread
    ensures Start(sweeps, i) + |sweeps[i]| <= z
  {
    if z < Start(sweeps, i) + |sweeps[i]| {
      SampleOfSweep(sweeps, i, z - Start(sweeps, i));
    }
  }
}
