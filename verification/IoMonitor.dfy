/** The descriptor monitor and the hooks that feed it: open, socket and close change a map
    while monitoring is enabled, and the report lists what is left in it. */
module IoMonitor {
  import opened Options

  const PATH_BYTES := 1024  // sizeof(FdInfo::path)

  datatype FdInfo = FdInfo(path: string, isSocket: bool)

  datatype FdRecord = FdRecord(fd: int, path: string, isSocket: bool)

  /** `snprintf(buffer, 1024, "%s", path)`: all but the last byte of the buffer is text. */
  function Clipped(path: string): (r: string)
    ensures |r| < PATH_BYTES && r <= path
    ensures |path| < PATH_BYTES ==> r == path
    ensures |path| >= PATH_BYTES ==> |r| == PATH_BYTES - 1
  {
    if |path| < PATH_BYTES then path else path[..PATH_BYTES - 1]
  }

  function OpenInfo(path: Option<string>): FdInfo {
    FdInfo(if path.Some? then Clipped(path.value) else "", false)
  }

  function SocketInfo(): FdInfo {
    FdInfo(Clipped("socket"), true)
  }

  /** One hooked call with the kernel's answer, or a switch of the monitor. */
  datatype Event =
    | Enable
    | Disable
    | Open(fd: int, path: Option<string>)
    | Socket(fd: int)
    | Close(fd: int)

  /** The entry says what the call opened: a file with the first 1023 characters of its path,
      or with no text for a null path, or a socket. */
  predicate Describes(info: FdInfo, e: Event)
    requires e.Open? || e.Socket?
  {
    match e
    case Socket(_) => info.isSocket && info.path == "socket"
    case Open(_, None) => !info.isSocket && info.path == ""
    case Open(_, Some(path)) =>
      !info.isSocket && info.path <= path && |info.path| == if |path| < 1023 then |path| else 1023
  }

  datatype Monitor = Monitor(enabled: bool, fds: map<int, FdInfo>)

  function After(m: Monitor, e: Event): Monitor {
    match e
    case Enable => m.(enabled := true)
    case Disable => if m.enabled then Monitor(false, map[]) else m
    case Open(fd, path) => if m.enabled && fd >= 0 then m.(fds := m.fds[fd := OpenInfo(path)]) else m
    case Socket(fd) => if m.enabled && fd >= 0 then m.(fds := m.fds[fd := SocketInfo()]) else m
    case Close(fd) => if m.enabled && fd >= 0 then m.(fds := m.fds - {fd}) else m
  }

  class IoMonitor {
    var enabled: bool
    var openFds: map<int, FdInfo>

    function State(): Monitor
      reads this
    {
      Monitor(enabled, openFds)
    }

    constructor ()
      ensures State() == Monitor(false, map[])
    {
      enabled := false;
      openFds := map[];
    }

    method EnableMonitor()
      modifies this
      ensures State() == After(old(State()), Enable)
    {
      if enabled {
        return;
      }
      enabled := true;
    }

    method DisableMonitor()
      modifies this
      ensures State() == After(old(State()), Disable)
    {
      if !enabled {
        return;
      }
      enabled := false;
      openFds := map[];
    }

    method OnOpen(fd: int, path: Option<string>)
      modifies this
      ensures State() == After(old(State()), Open(fd, path))
      ensures enabled && fd >= 0 ==> fd in openFds && Describes(openFds[fd], Open(fd, path))
    {
      if !enabled || fd < 0 {
        return;
      }
      var text := "";
      if path.Some? {
        text := Clipped(path.value);
      }
      openFds := openFds[fd := FdInfo(text, false)];
    }

    method OnClose(fd: int)
      modifies this
      ensures State() == After(old(State()), Close(fd))
    {
      if !enabled || fd < 0 {
        return;
      }
      openFds := openFds - {fd};
    }

    method OnSocket(fd: int)
      modifies this
      ensures State() == After(old(State()), Socket(fd))
      ensures enabled && fd >= 0 ==> fd in openFds && Describes(openFds[fd], Socket(fd))
    {
      if !enabled || fd < 0 {
        return;
      }
      openFds := openFds[fd := FdInfo(Clipped("socket"), true)];
    }

    /** The open hooks: the real call first, then the monitor for a valid descriptor. */
    method OpenHook(path: Option<string>, answer: int) returns (fd: int)
      modifies this
      ensures fd == answer && State() == After(old(State()), Open(answer, path))
    {
      fd := answer;
      if fd >= 0 {
        OnOpen(fd, path);
      }
    }

    method SocketHook(answer: int) returns (fd: int)
      modifies this
      ensures fd == answer && State() == After(old(State()), Socket(answer))
    {
      fd := answer;
      if fd >= 0 {
        OnSocket(fd);
      }
    }

    /** The close hook: the monitor first, then the real call if it was found. */
    method CloseHook(fd: int, answer: Option<int>) returns (res: int)
      modifies this
      ensures State() == After(old(State()), Close(fd))
      ensures res == if answer.Some? then answer.value else -1
    {
      OnClose(fd);
      if answer.Some? {
        return answer.value;
      }
      return -1;
    }

    /** The walk over the map, in whatever order it iterates. */
    method ReportLeakedFds(hasReporter: bool) returns (report: Option<seq<FdRecord>>)
      ensures report.Some? <==> enabled && openFds != map[] && hasReporter
      ensures report.Some? ==> Lists(report.value, openFds)
    {
      if !enabled {
        return None;
      }
      if openFds == map[] {
        return None;
      }
      var fds: seq<FdRecord> := [];
      var rest := openFds;
      while rest != map[]
        invariant forall fd :: fd in rest ==> fd in openFds && rest[fd] == openFds[fd]
        invariant Lists(fds, openFds - rest.Keys)
        decreases |rest|
      {
        NonEmptyMap(rest);
        var fd :| fd in rest;
        assert openFds - (rest - {fd}).Keys == (openFds - rest.Keys)[fd := rest[fd]];
        ListOneMore(fds, openFds - rest.Keys, fd, rest[fd]);
        fds := fds + [FdRecord(fd, rest[fd].path, rest[fd].isSocket)];
        rest := rest - {fd};
      }
      assert openFds - rest.Keys == openFds;
      if hasReporter {
        return Some(fds);
      }
      return None;
    }
  }

  lemma NonEmptyMap(m: map<int, FdInfo>)
    requires m != map[]
    ensures exists fd :: fd in m
  {
    assert (forall fd :: fd !in m) ==> m == map[];
  }

  /** The list holds every entry of the map exactly once. */
  ghost predicate Lists(list: seq<FdRecord>, m: map<int, FdInfo>) {
    && (forall i, j :: 0 <= i < j < |list| ==> list[i].fd != list[j].fd)
    && (forall i :: 0 <= i < |list| ==>
          list[i].fd in m && m[list[i].fd] == FdInfo(list[i].path, list[i].isSocket))
    && forall fd :: fd in m ==> FdRecord(fd, m[fd].path, m[fd].isSocket) in list
  }

  lemma ListOneMore(list: seq<FdRecord>, m: map<int, FdInfo>, fd: int, info: FdInfo)
    requires Lists(list, m) && fd !in m
    ensures Lists(list + [FdRecord(fd, info.path, info.isSocket)], m[fd := info])
  {
  }

  // ----- what the map means, read off the history -----

  function Run(m: Monitor, events: seq<Event>): Monitor {
    if events == [] then m else After(Run(m, events[..|events| - 1]), events[|events| - 1])
  }

  const INITIAL := Monitor(false, map[])

  /** The last switch in the history is an Enable. */
  ghost predicate EnabledAfter(events: seq<Event>) {
    exists k :: 0 <= k < |events| && events[k].Enable? && NoDisableFrom(events, k)
  }

  predicate NoDisableFrom(events: seq<Event>, k: nat) {
    forall j :: k <= j < |events| ==> !events[j].Disable?
  }

  predicate Concerns(e: Event, fd: int) {
    (e.Open? || e.Socket? || e.Close?) && e.fd == fd
  }

  /** Event k obtained the descriptor, monitoring was on then and has stayed on, and nothing
      has happened to the descriptor since. */
  ghost predicate LastObtained(events: seq<Event>, fd: int, k: nat) {
    && k < |events| && fd >= 0
    && (events[k].Open? || events[k].Socket?) && events[k].fd == fd
    && EnabledAfter(events[..k]) && NoDisableFrom(events, k)
    && forall j :: k < j < |events| ==> !Concerns(events[j], fd)
  }

  ghost predicate LeftOpen(events: seq<Event>, fd: int) {
    exists k: nat :: LastObtained(events, fd, k)
  }

  function InfoOf(e: Event): FdInfo
    requires e.Open? || e.Socket?
  {
    if e.Open? then OpenInfo(e.path) else SocketInfo()
  }

  lemma InfoDescribes(e: Event)
    requires e.Open? || e.Socket?
    ensures Describes(InfoOf(e), e)
  {
  }

  /** What describes a call is determined by it. */
  lemma DescriptionIsUnique(a: FdInfo, b: FdInfo, e: Event)
    requires (e.Open? || e.Socket?) && Describes(a, e) && Describes(b, e)
    ensures a == b
  {
    if e.Open? && e.path.Some? {
      assert a.path == e.path.value[..|a.path|] && b.path == e.path.value[..|b.path|];
    }
  }

  lemma {:induction false} EnabledIsLastSwitch(events: seq<Event>)
    ensures Run(INITIAL, events).enabled <==> EnabledAfter(events)
    ensures !Run(INITIAL, events).enabled ==> Run(INITIAL, events).fds == map[]
    ensures forall fd :: fd in Run(INITIAL, events).fds ==> fd >= 0
  {
    if events != [] {
      var n := |events| - 1;
      EnabledIsLastSwitch(events[..n]);
      if EnabledAfter(events) {
        var k :| 0 <= k < |events| && events[k].Enable? && NoDisableFrom(events, k);
        assert k < n ==> events[..n][k].Enable? && NoDisableFrom(events[..n], k);
      }
      if EnabledAfter(events[..n]) && !events[n].Disable? {
        var k :| 0 <= k < n && events[..n][k].Enable? && NoDisableFrom(events[..n], k);
        assert NoDisableFrom(events, k);
      }
      if events[n].Enable? {
        assert NoDisableFrom(events, n);
      }
    }
  }

  lemma {:induction false} LastObtainedIsInMap(events: seq<Event>, fd: int, k: nat)
    requires LastObtained(events, fd, k)
    ensures var fds := Run(INITIAL, events).fds; fd in fds && fds[fd] == InfoOf(events[k])
    decreases |events|
  {
    var n := |events| - 1;
    if k == n {
      EnabledIsLastSwitch(events[..n]);
    } else {
      var init := events[..n];
      assert init[..k] == events[..k] && init[k] == events[k];
      assert LastObtained(init, fd, k);
      LastObtainedIsInMap(init, fd, k);
      assert !Concerns(events[n], fd) && !events[n].Disable?;
    }
  }

  lemma {:induction false} MapEntryWasObtained(events: seq<Event>, fd: int) returns (k: nat)
    requires fd in Run(INITIAL, events).fds
    ensures LastObtained(events, fd, k)
    decreases |events|
  {
    var n := |events| - 1;
    var init, e := events[..n], events[n];
    EnabledIsLastSwitch(events);
    EnabledIsLastSwitch(init);
    if (e.Open? || e.Socket?) && e.fd == fd {
      k := n;
    } else {
      k := MapEntryWasObtained(init, fd);
      assert init[..k] == events[..k] && init[k] == events[k];
      assert forall j :: 0 <= j < n ==> init[j] == events[j];
    }
  }

  /** Across any number of sessions the map holds exactly the descriptors opened since
      monitoring was last switched on and not closed since, each as its latest open or
      socket call described it. */
  lemma MapIsHistory(events: seq<Event>, fd: int)
    ensures fd in Run(INITIAL, events).fds <==> LeftOpen(events, fd)
    ensures forall k: nat :: LastObtained(events, fd, k) ==>
                          fd in Run(INITIAL, events).fds && Describes(Run(INITIAL, events).fds[fd], events[k])
  {
    if fd in Run(INITIAL, events).fds {
      var k := MapEntryWasObtained(events, fd);
    }
    forall k: nat | LastObtained(events, fd, k)
      ensures fd in Run(INITIAL, events).fds && Describes(Run(INITIAL, events).fds[fd], events[k])
    {
      LastObtainedIsInMap(events, fd, k);
      InfoDescribes(events[k]);
    }
  }

  predicate Reported(report: seq<FdRecord>, fd: int) {
    exists i :: 0 <= i < |report| && report[i].fd == fd
  }

  /** The report after any history: each descriptor left open once, and nothing else. */
  lemma ReportIsHistory(events: seq<Event>, report: seq<FdRecord>)
    requires Lists(report, Run(INITIAL, events).fds)
    ensures forall fd :: Reported(report, fd) <==> LeftOpen(events, fd)
    ensures forall i, k: nat :: 0 <= i < |report| && LastObtained(events, report[i].fd, k) ==>
                             Describes(FdInfo(report[i].path, report[i].isSocket), events[k])
  {
    forall fd
      ensures Reported(report, fd) <==> LeftOpen(events, fd)
    {
      MapIsHistory(events, fd);
    }
    forall i, k: nat | 0 <= i < |report| && LastObtained(events, report[i].fd, k)
      ensures Describes(FdInfo(report[i].path, report[i].isSocket), events[k])
    {
      MapIsHistory(events, report[i].fd);
    }
  }
}
