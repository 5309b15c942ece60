/** The basic incident-response collectors of windows_ir.go that make decisions:
    the process ranking by CPU, the connection listing, the scheduled-task
    filter and the autorun listing with its decoding fallback. */
module IncidentResponse {
  import opened Wrappers
  import opened Seqs
  import opened Text
  import opened Encoding
  import opened Samples
  import opened Ranking

  /** One sampled process as `getProcessInfo` records it. */
  datatype ProcessInfo = ProcessInfo(pid: int, name: string, cpu: real, memory: real, cmdline: string)

  function Cpu(p: ProcessInfo): real {
    p.cpu
  }

  /** How many processes `getProcessInfo` displays. */
  const TopProcesses: nat := 5

  /** What `getProcessInfo` shows: the error, or the process count and the
      displayed top entries. */
  datatype ProcessReport = ProcessError(message: string) | ProcessTable(total: nat, top: seq<ProcessInfo>)

  /** `getProcessInfo`: collects the samples, bubble-sorts them by CPU and shows the first five. */
  method GetProcessInfo(processes: Result<seq<ProcessInfo>, string>) returns (out: ProcessReport)
    ensures processes.Failure? ==> out == ProcessError(processes.error)
    ensures processes.Success? ==> out.ProcessTable? && out.total == |processes.value|
    ensures processes.Success? ==> |out.top| == Min(TopProcesses, |processes.value|)
    ensures processes.Success? ==> out.top == TopK(processes.value, Cpu, TopProcesses)
  {
    if processes.Failure? {
      return ProcessError(processes.error);
    }
    var ps := processes.value;
    var infos := new ProcessInfo[|ps|](i requires 0 <= i < |ps| => ps[i]);
    assert infos[..] == ps;
    BubbleSortDesc(infos, Cpu);
    var top := TopN(infos, TopProcesses);
    assert top == infos[..Min(TopProcesses, infos.Length)];
    return ProcessTable(|ps|, top);
  }

  /** How many connections `getNetworkInfo` details. */
  const ShownConnections: nat := 5

  /** The detail lines of one connection: the remote address only when its IP is known. */
  datatype ConnectionView = ConnectionView(local: Addr, remote: Option<Addr>, status: string)

  function ViewOf(c: Connection): (v: ConnectionView)
    ensures v.local == c.laddr && v.status == c.status
    ensures v.remote.Some? <==> c.raddr.ip != ""
    ensures v.remote.Some? ==> v.remote.value == c.raddr
  {
    ConnectionView(c.laddr, if c.raddr.ip != "" then Some(c.raddr) else None, c.status)
  }

  /** What the connection part of `getNetworkInfo` shows. */
  datatype ConnectionReport =
    | ConnectionError(message: string)
    | ConnectionTable(count: nat, shown: seq<ConnectionView>)

  /** The connection part of `getNetworkInfo`: the number of all connections,
      then details of the first five in enumeration order. */
  method ShowConnections(conns: Result<seq<Connection>, string>) returns (out: ConnectionReport)
    ensures conns.Failure? ==> out == ConnectionError(conns.error)
    ensures conns.Success? ==> out.ConnectionTable? && out.count == |conns.value|
    ensures conns.Success? ==> |out.shown| == Min(ShownConnections, |conns.value|)
    ensures conns.Success? ==> forall k | 0 <= k < |out.shown| :: out.shown[k] == ViewOf(conns.value[k])
  {
    if conns.Failure? {
      return ConnectionError(conns.error);
    }
    var cs := conns.value;
    var shown: seq<ConnectionView> := [];
    var i := 0;
    while i < |cs|
      invariant 0 <= i <= Min(ShownConnections, |cs|)
      invariant |shown| == i
      invariant forall k | 0 <= k < i :: shown[k] == ViewOf(cs[k])
    {
      if i >= ShownConnections {
        break;
      }
      shown := shown + [ViewOf(cs[i])];
      i := i + 1;
    }
    return ConnectionTable(|cs|, shown);
  }

  const TaskMarker: string := "TaskName:"

  predicate IsTaskLine(line: string) {
    Contains(line, TaskMarker)
  }

  /** `getScheduledTasks`: of the `schtasks /query /fo LIST` output (None when the
      command fails), the lines of its "\n"-split that contain "TaskName:". */
  method GetScheduledTasks(output: Option<string>, decode: string -> Option<string>)
    returns (printed: seq<string>)
    ensures output.None? ==> printed == []
    ensures output.Some? ==> printed == Filter(Split(CallerText(output.value, decode), "\n"), IsTaskLine)
  {
    printed := [];
    if output.Some? {
      var converted := GbkToUtf8(output.value, decode);
      var outputStr := if !converted.failed then converted.text else output.value;
      var tasks := Split(outputStr, "\n");
      for i := 0 to |tasks|
        invariant printed == Filter(tasks[..i], IsTaskLine)
      {
        FilterSnoc(tasks, i, IsTaskLine);
        if Contains(tasks[i], TaskMarker) {
          printed := printed + [tasks[i]];
        }
      }
      assert tasks[..|tasks|] == tasks;
    }
  }

  /** The printed task lines are exactly the lines holding "TaskName:", in output order. */
  lemma TaskLinesExact(text: string, out: seq<string>)
    requires out == Filter(Split(text, "\n"), IsTaskLine)
    ensures forall k | 0 <= k < |out| :: Contains(out[k], TaskMarker) && out[k] in Split(text, "\n")
    ensures forall line | line in Split(text, "\n") && Contains(line, TaskMarker) :: line in out
  {
    var lines := Split(text, "\n");
    forall line | line in lines && Contains(line, TaskMarker) ensures line in out {
      var k :| 0 <= k < |lines| && lines[k] == line;
    }
  }

  /** One printed item of `getAutoRuns`. */
  datatype AutoRunLine =
    | SystemRunKeys(text: string)
    | UserRunKeys(text: string)
    | StartupFolder(path: string)
    | StartupEntry(name: string)

  /** `getAutoRuns`: the machine and user Run keys as `reg query` prints them
      (each shown only when its command succeeded), then the startup folder's
      path and, when it can be read, its entries. */
  function GetAutoRuns(hklm: Option<string>, hkcu: Option<string>, startupPath: string,
                       startup: Option<seq<string>>, decode: string -> Option<string>): (lines: seq<AutoRunLine>)
    ensures var keys := (if hklm.Some? then 1 else 0) + (if hkcu.Some? then 1 else 0);
      var entries := if startup.Some? then startup.value else [];
      && |lines| == keys + 1 + |entries|
      && (hklm.Some? ==> lines[0] == SystemRunKeys(GbkToUtf8(hklm.value, decode).text))
      && (hkcu.Some? ==> lines[keys - 1] == UserRunKeys(GbkToUtf8(hkcu.value, decode).text))
      && lines[keys] == StartupFolder(startupPath)
      && forall k | 0 <= k < |entries| :: lines[keys + 1 + k] == StartupEntry(entries[k])
  {
    (if hklm.Some? then [SystemRunKeys(CallerText(hklm.value, decode))] else [])
    + (if hkcu.Some? then [UserRunKeys(CallerText(hkcu.value, decode))] else [])
    + [StartupFolder(startupPath)]
    + (if startup.Some? then seq(|startup.value|, i requires 0 <= i < |startup.value| => StartupEntry(startup.value[i])) else [])
  }
}
