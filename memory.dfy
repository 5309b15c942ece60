/** The memory and process-behaviour collectors of windows_memory.go. */
module Memory {
  import opened Wrappers
  import opened Seqs
  import opened Samples
  import opened Ranking

  /** `ProcessBehavior`: what `getProcessDetails` learns about one process. */
  datatype ProcessBehavior = ProcessBehavior(
    pid: int, name: string, cpuUsage: real, memoryUsage: real,
    threadCount: int, handleCount: int, readBytes: nat, writeBytes: nat,
    networkUsage: nat, dlls: seq<string>, fileAccesses: seq<string>)

  datatype IOCounters = IOCounters(readBytes: nat, writeBytes: nat)

  /** The answers of the per-process queries for one pid: the error of
      `process.NewProcess`, if any, then each query's value, or None where it fails. */
  datatype ProcessProbe = ProcessProbe(
    openError: Option<string>, name: Option<string>, cpu: Option<real>, memory: Option<real>,
    threads: Option<int>, io: Option<IOCounters>, connections: Option<seq<Connection>>)

  /** The declarative reading of `getProcessDetails`: it fails only when the
      process cannot be opened; otherwise a field holds its query's answer, or
      its zero value when that query failed. Handles and DLLs are never queried. */
  function Details(pid: int, probe: ProcessProbe): Result<ProcessBehavior, string> {
    match probe.openError
    case Some(e) => Failure(e)
    case None =>
      Success(ProcessBehavior(
        pid, probe.name.GetOr(""), probe.cpu.GetOr(0.0), probe.memory.GetOr(0.0),
        probe.threads.GetOr(0), 0,
        if probe.io.Some? then probe.io.value.readBytes else 0,
        if probe.io.Some? then probe.io.value.writeBytes else 0,
        if probe.connections.Some? then |probe.connections.value| else 0,
        [], []))
  }

  /** `getProcessDetails`: starts from a record holding only the pid and fills
      in one field per successful query. */
  method GetProcessDetails(pid: int, probe: ProcessProbe) returns (res: Result<ProcessBehavior, string>)
    ensures res.Failure? <==> probe.openError.Some?
    ensures res.Failure? ==> res.error == probe.openError.value
    ensures res.Success? ==> res.value.pid == pid
    ensures res.Success? && probe.cpu.Some? ==> res.value.cpuUsage == probe.cpu.value
    ensures res.Success? && probe.cpu.None? ==> res.value.cpuUsage == 0.0
    ensures res.Success? ==> (probe.connections.Some? ==> res.value.networkUsage == |probe.connections.value|)
    ensures res.Success? ==> res.value.handleCount == 0 && res.value.dlls == []
    ensures res == Details(pid, probe)
  {
    if probe.openError.Some? {
      return Failure(probe.openError.value);
    }
    var behavior := ProcessBehavior(pid, "", 0.0, 0.0, 0, 0, 0, 0, 0, [], []);
    if probe.name.Some? {
      behavior := behavior.(name := probe.name.value);
    }
    if probe.cpu.Some? {
      behavior := behavior.(cpuUsage := probe.cpu.value);
    }
    if probe.memory.Some? {
      behavior := behavior.(memoryUsage := probe.memory.value);
    }
    if probe.threads.Some? {
      behavior := behavior.(threadCount := probe.threads.value);
    }
    if probe.io.Some? {
      behavior := behavior.(readBytes := probe.io.value.readBytes, writeBytes := probe.io.value.writeBytes);
    }
    if probe.connections.Some? {
      behavior := behavior.(networkUsage := |probe.connections.value|);
    }
    return Success(behavior);
  }

  /** The usage percentage above which a process is reported. */
  const HighUsage: real := 50.0

  /** The test of `monitorProcessBehavior`: CPU or memory usage strictly above 50. */
  predicate IsHighResource(b: ProcessBehavior) {
    b.cpuUsage > HighUsage || b.memoryUsage > HighUsage
  }

  /** The processes `monitorProcessBehavior` reports, in enumeration order: those
      whose details can be read and whose usage is high. */
  function FlaggedOf(pids: seq<int>, os: int -> ProcessProbe): (r: seq<ProcessBehavior>)
    ensures |r| <= |pids|
    ensures forall k | 0 <= k < |r| :: IsHighResource(r[k]) && r[k].dlls == [] && r[k].handleCount == 0
    decreases |pids|
  {
    if |pids| == 0 then []
    else
      var front, last := pids[..|pids| - 1], pids[|pids| - 1];
      var d := Details(last, os(last));
      FlaggedOf(front, os) + (if d.Success? && IsHighResource(d.value) then [d.value] else [])
  }

  /** A process is reported exactly when its details can be read and its usage is high. */
  lemma {:induction false} FlaggedIff(pids: seq<int>, os: int -> ProcessProbe, pid: int)
    ensures (exists b | b in FlaggedOf(pids, os) :: b.pid == pid)
            <==> pid in pids && Details(pid, os(pid)).Success? && IsHighResource(Details(pid, os(pid)).value)
    decreases |pids|
  {
    if |pids| > 0 {
      var front, last := pids[..|pids| - 1], pids[|pids| - 1];
      FlaggedIff(front, os, pid);
      assert pids == front + [last];
      var d := Details(last, os(last));
      if d.Success? && IsHighResource(d.value) && last == pid {
        assert d.value in FlaggedOf(pids, os);
      }
      if exists b | b in FlaggedOf(pids, os) :: b.pid == pid {
        var b :| b in FlaggedOf(pids, os) && b.pid == pid;
        if b !in FlaggedOf(front, os) {
          assert b == d.value;
        }
      }
    }
  }

  datatype MonitorReport = MonitorError(message: string) | Flagged(processes: seq<ProcessBehavior>)

  /** `monitorProcessBehavior`: for every enumerated pid, skips it when its
      details cannot be read, and reports it when its usage is high. */
  method MonitorProcessBehavior(processes: Result<seq<int>, string>, os: int -> ProcessProbe)
    returns (out: MonitorReport)
    ensures processes.Failure? ==> out == MonitorError(processes.error)
    ensures processes.Success? ==> out == Flagged(FlaggedOf(processes.value, os))
  {
    if processes.Failure? {
      return MonitorError(processes.error);
    }
    var pids := processes.value;
    var flagged: seq<ProcessBehavior> := [];
    for i := 0 to |pids|
      invariant flagged == FlaggedOf(pids[..i], os)
    {
      assert pids[..i + 1][..i] == pids[..i];
      var behavior := GetProcessDetails(pids[i], os(pids[i]));
      if behavior.Failure? {
        continue;
      }
      if behavior.value.cpuUsage > HighUsage || behavior.value.memoryUsage > HighUsage {
        flagged := flagged + [behavior.value];
      }
    }
    assert pids[..|pids|] == pids;
    return Flagged(flagged);
  }

  // ---- analyzeMemory ----

  /** The system-wide figures of `mem.VirtualMemory`. */
  datatype MemStats = MemStats(usedPercent: real, total: nat, available: nat, used: nat, free: nat)

  /** One sampled process as `analyzeMemory` records it. */
  datatype ProcessMemInfo = ProcessMemInfo(pid: int, name: string, memory: real, path: string, cmdline: string)

  function Mem(p: ProcessMemInfo): real {
    p.memory
  }

  /** How many processes `analyzeMemory` displays. */
  const TopMemoryProcesses: nat := 10

  datatype MemoryReport = MemoryError(message: string) | MemoryAnalysis(stats: MemStats, top: seq<ProcessMemInfo>)

  /** `analyzeMemory`: stops when the memory figures cannot be read; otherwise
      bubble-sorts the processes by memory and shows the first ten. A failed
      enumeration of processes is ignored and gives an empty list. */
  method AnalyzeMemory(memInfo: Result<MemStats, string>, processes: Result<seq<ProcessMemInfo>, string>)
    returns (out: MemoryReport)
    ensures memInfo.Failure? ==> out == MemoryError(memInfo.error)
    ensures memInfo.Success? ==> out.MemoryAnalysis? && out.stats == memInfo.value
    ensures memInfo.Success? ==> var ps := if processes.Success? then processes.value else [];
              |out.top| == Min(TopMemoryProcesses, |ps|) && out.top == TopK(ps, Mem, TopMemoryProcesses)
  {
    if memInfo.Failure? {
      return MemoryError(memInfo.error);
    }
    var ps := if processes.Success? then processes.value else [];
    var list := new ProcessMemInfo[|ps|](i requires 0 <= i < |ps| => ps[i]);
    assert list[..] == ps;
    BubbleSortDesc(list, Mem);
    var top := TopN(list, TopMemoryProcesses);
    assert top == list[..Min(TopMemoryProcesses, list.Length)];
    return MemoryAnalysis(memInfo.value, top);
  }
}
