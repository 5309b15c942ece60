/** The command-line dispatch of main_windows.go: which collector groups run,
    in which order, and when the report is generated. The admin probe, the
    flag parser and the host query are inputs. */
module Dispatch {
  import opened Wrappers
  import Report
  import opened Text

  /** The parsed command-line flags. */
  datatype Flags = Flags(all: bool, ir: bool, reg: bool, mem: bool, log: bool, net: bool,
                         baseline: bool, report: bool)

  /** The flags when none is given: every group off, `-report` on. */
  const DefaultFlags: Flags := Flags(false, false, false, false, false, false, false, true)

  datatype Group = IncidentResponse | RegistryCheck | MemoryAnalysis | LogAnalysis | NetworkAnalysis | BaselineCheck

  /** The order in which `main` considers the groups. */
  const GroupOrder: seq<Group> :=
    [IncidentResponse, RegistryCheck, MemoryAnalysis, LogAnalysis, NetworkAnalysis, BaselineCheck]

  function Rank(g: Group): nat {
    match g
    case IncidentResponse => 0
    case RegistryCheck => 1
    case MemoryAnalysis => 2
    case LogAnalysis => 3
    case NetworkAnalysis => 4
    case BaselineCheck => 5
  }

  /** The group's own flag. */
  function OwnFlag(f: Flags, g: Group): bool {
    match g
    case IncidentResponse => f.ir
    case RegistryCheck => f.reg
    case MemoryAnalysis => f.mem
    case LogAnalysis => f.log
    case NetworkAnalysis => f.net
    case BaselineCheck => f.baseline
  }

  /** A group runs when `-all` or its own flag is set. */
  predicate Selected(f: Flags, g: Group) {
    f.all || OwnFlag(f, g)
  }

  /** Some group flag is set; `-report` does not count. */
  predicate AnyGroupFlag(f: Flags) {
    f.all || f.ir || f.reg || f.mem || f.log || f.net || f.baseline
  }

  /** What `main` does: stop for lack of rights, stop with the usage text, or
      run the selected groups and then, when asked, the report. */
  datatype Plan = AdminRequired | Usage | Checks(groups: seq<Group>, report: bool)

  /** Every group is in the order, at the place its rank says. */
  lemma GroupOrderComplete(g: Group)
    ensures GroupOrder[Rank(g)] == g
  {
  }

  lemma GroupOrderRanks(k: nat)
    requires k < |GroupOrder|
    ensures Rank(GroupOrder[k]) == k
  {
  }

  /** The selected groups of rank `n` and above, in `main`'s order. */
  function SelectedFrom(f: Flags, n: nat): (r: seq<Group>)
    requires n <= |GroupOrder|
    ensures forall k | 0 <= k < |r| :: Rank(r[k]) >= n && Selected(f, r[k])
    ensures forall i, j | 0 <= i < j < |r| :: Rank(r[i]) < Rank(r[j])
    decreases |GroupOrder| - n
  {
    if n == |GroupOrder| then []
    else
      var g := GroupOrder[n];
      GroupOrderRanks(n);
      var rest := SelectedFrom(f, n + 1);
      var head := if Selected(f, g) then [g] else [];
      assert forall k | |head| <= k < |head + rest| :: (head + rest)[k] == rest[k - |head|];
      head + rest
  }

  /** A group of rank `n` or above is kept exactly when it is selected. */
  lemma {:induction false} SelectedFromMembers(f: Flags, n: nat, g: Group)
    requires n <= |GroupOrder|
    ensures g in SelectedFrom(f, n) <==> Selected(f, g) && Rank(g) >= n
    decreases |GroupOrder| - n
  {
    if n < |GroupOrder| {
      SelectedFromMembers(f, n + 1, g);
      GroupOrderRanks(n);
      GroupOrderComplete(g);
    }
  }

  /** The groups `main` runs for `f`, in its order. */
  function SelectedGroups(f: Flags): seq<Group> {
    SelectedFrom(f, 0)
  }

  lemma SelectedGroupsMeaning(f: Flags)
    ensures forall g :: g in SelectedGroups(f) <==> Selected(f, g)
  {
    forall g ensures g in SelectedGroups(f) <==> Selected(f, g) {
      SelectedFromMembers(f, 0, g);
    }
  }

  function Dispatch(admin: bool, f: Flags): (p: Plan)
    ensures p == AdminRequired <==> !admin
    ensures p == Usage <==> admin && !AnyGroupFlag(f)
    ensures p.Checks? ==> forall g :: g in p.groups <==> Selected(f, g)
    ensures p.Checks? ==> forall i, j | 0 <= i < j < |p.groups| :: Rank(p.groups[i]) < Rank(p.groups[j])
    ensures p.Checks? ==> p.report == f.report
  {
    if !admin then AdminRequired
    else if !AnyGroupFlag(f) then Usage
    else
      SelectedGroupsMeaning(f);
      Checks(SelectedGroups(f), f.report)
  }

  /** An admin run with some group flag runs checks, and at least one group. */
  lemma ChecksRunSomething(admin: bool, f: Flags)
    requires admin && AnyGroupFlag(f)
    ensures Dispatch(admin, f).Checks? && Dispatch(admin, f).groups != []
  {
    var g := if f.all || f.ir then IncidentResponse else if f.reg then RegistryCheck
      else if f.mem then MemoryAnalysis else if f.log then LogAnalysis
      else if f.net then NetworkAnalysis else BaselineCheck;
    assert Selected(f, g);
  }

  /** The process's exit status: 1 for both early stops; a report failure is
      only printed and leaves it at 0. */
  function ExitStatus(p: Plan): int {
    if p.Checks? then 0 else 1
  }

  /** Exit status 1 exactly when the run lacks rights or selects no group. */
  lemma ExitStatusIff(admin: bool, f: Flags)
    ensures ExitStatus(Dispatch(admin, f)) == 1 <==> !admin || !AnyGroupFlag(f)
  {
  }

  /** The defaults select nothing, so a bare invocation shows the usage; with
      any group flag the report is generated unless turned off. */
  lemma DefaultsMeanUsage()
    ensures Dispatch(true, DefaultFlags) == Usage
    ensures DefaultFlags.report
  {
  }

  /** The collectors of each group, by their function names, in the order they
      run (`runIncidentResponse` for the first group). */
  function CollectorNames(g: Group): seq<string> {
    match g
    case IncidentResponse =>
      ["getSystemInfo", "getCPUInfo", "getMemoryInfo", "getDiskInfo", "getNetworkInfo",
       "getProcessInfo", "getAutoRuns", "getScheduledTasks"]
    case RegistryCheck => ["checkRegistry", "checkSystemFileIntegrity", "checkSuspiciousFiles"]
    case MemoryAnalysis => ["analyzeMemory", "monitorProcessBehavior"]
    case LogAnalysis =>
      ["analyzeSystemLogs", "analyzeSecurityLogs", "analyzeApplicationLogs", "analyzePowerShellLogs", "analyzeLogFiles"]
    case NetworkAnalysis =>
      ["analyzeNetworkConnections", "analyzeNetworkInterfaces", "analyzeNetworkTraffic",
       "analyzeFirewallRules", "checkDNSSettings"]
    case BaselineCheck =>
      ["checkPasswordPolicy", "checkUserAccounts", "checkSystemServices", "checkSystemPatches",
       "checkAuditPolicy", "checkFileSystemPermissions", "checkShareSettings", "checkUACSettings",
       "checkWindowsDefender"]
  }

  /** A collector: the group that runs it and its function name. */
  datatype Collector = Collector(group: Group, name: string)

  function GroupCollectors(g: Group): (r: seq<Collector>)
    ensures |r| == |CollectorNames(g)|
    ensures forall k | 0 <= k < |r| :: r[k] == Collector(g, CollectorNames(g)[k])
  {
    seq(|CollectorNames(g)|, k requires 0 <= k < |CollectorNames(g)| => Collector(g, CollectorNames(g)[k]))
  }

  /** One step of a run. */
  datatype Step = Announce(group: Group) | Collect(collector: Collector) | GenerateReport

  /** A group's steps: its banner, then its collectors in order. */
  function GroupSteps(g: Group): (r: seq<Step>)
    ensures |r| == 1 + |GroupCollectors(g)| && r[0] == Announce(g)
    ensures forall k | 0 <= k < |GroupCollectors(g)| :: r[k + 1] == Collect(GroupCollectors(g)[k])
  {
    [Announce(g)] + seq(|GroupCollectors(g)|, k requires 0 <= k < |GroupCollectors(g)| => Collect(GroupCollectors(g)[k]))
  }

  function GroupsSteps(gs: seq<Group>): seq<Step>
    decreases |gs|
  {
    if |gs| == 0 then [] else GroupsSteps(gs[..|gs| - 1]) + GroupSteps(gs[|gs| - 1])
  }

  /** The steps a plan runs, in order; the report comes last. */
  function Steps(p: Plan): seq<Step> {
    if p.Checks? then GroupsSteps(p.groups) + (if p.report then [GenerateReport] else []) else []
  }

  /** A group's steps run exactly its own collectors. */
  lemma CollectInGroupSteps(c: Collector, g: Group)
    ensures Collect(c) in GroupSteps(g) <==> c.group == g && c.name in CollectorNames(g)
    ensures GenerateReport !in GroupSteps(g)
  {
    var r := GroupSteps(g);
    if Collect(c) in r {
      var k :| 0 <= k < |r| && r[k] == Collect(c);
      assert GroupCollectors(g)[k - 1] == c;
    }
    if c.group == g && c.name in CollectorNames(g) {
      var k :| 0 <= k < |CollectorNames(g)| && CollectorNames(g)[k] == c.name;
      assert r[k + 1] == Collect(c);
    }
  }

  /** Within a group, every collector belongs to that group and no function is called twice. */
  lemma CollectorsOfGroup(g: Group)
    ensures forall c | c in GroupCollectors(g) :: c.group == g && c.name in CollectorNames(g)
    ensures forall i, j | 0 <= i < j < |CollectorNames(g)| :: CollectorNames(g)[i] != CollectorNames(g)[j]
  {
  }

  /** A group's steps announce that group once, at the start, then only collect
      its own collectors, one step per listed name, and never generate the report. */
  lemma GroupStepsShape(g: Group)
    ensures forall h :: Announce(h) in GroupSteps(g) <==> h == g
    ensures forall k | 1 <= k < |GroupSteps(g)| :: GroupSteps(g)[k].Collect? && GroupSteps(g)[k].collector.group == g
    ensures |GroupSteps(g)| == 1 + |CollectorNames(g)|
    ensures GenerateReport !in GroupSteps(g)
  {
    var r := GroupSteps(g);
    forall k | 1 <= k < |r| ensures r[k] == Collect(GroupCollectors(g)[k - 1]) {
    }
  }

  lemma {:induction false} CollectInGroupsSteps(c: Collector, gs: seq<Group>)
    ensures Collect(c) in GroupsSteps(gs) <==> c.group in gs && c.name in CollectorNames(c.group)
    ensures GenerateReport !in GroupsSteps(gs)
    decreases |gs|
  {
    if |gs| > 0 {
      var front, last := gs[..|gs| - 1], gs[|gs| - 1];
      assert gs == front + [last];
      CollectInGroupsSteps(c, front);
      CollectInGroupSteps(c, last);
    }
  }

  /** A collector runs exactly when its group is selected, and the report step
      runs exactly when `-report` is set, once, after every collector. */
  lemma StepsOfRun(admin: bool, f: Flags, c: Collector)
    ensures Collect(c) in Steps(Dispatch(admin, f)) <==>
      admin && AnyGroupFlag(f) && Selected(f, c.group) && c.name in CollectorNames(c.group)
    ensures GenerateReport in Steps(Dispatch(admin, f)) <==> admin && AnyGroupFlag(f) && f.report
    ensures GenerateReport in Steps(Dispatch(admin, f)) ==>
      Steps(Dispatch(admin, f))[|Steps(Dispatch(admin, f))| - 1] == GenerateReport
  {
    var p := Dispatch(admin, f);
    if p.Checks? {
      CollectInGroupsSteps(c, p.groups);
    }
  }

  /** What `host.Info` reports. */
  datatype HostInfo = HostInfo(hostname: string, os: string, platform: string, platformVersion: string)

  /** The system-information text `main` hands to the report. */
  function SysInfoText(h: HostInfo): string {
    HostLine(h) + "\n" + OsLine(h) + "\n" + PlatformLine(h) + "\n"
  }

  function HostLine(h: HostInfo): string { "主机名: " + h.hostname }
  function OsLine(h: HostInfo): string { "操作系统: " + h.os }
  function PlatformLine(h: HostInfo): string { "平台: " + h.platform + " " + h.platformVersion }

  /** For host fields without line breaks, the system information is three
      labelled lines, each ended by a newline: host name, OS, platform and version. */
  lemma SysInfoLines(h: HostInfo)
    requires '\n' !in h.hostname && '\n' !in h.os && '\n' !in h.platform && '\n' !in h.platformVersion
    ensures Split(SysInfoText(h), "\n") ==
      ["主机名: " + h.hostname, "操作系统: " + h.os, "平台: " + h.platform + " " + h.platformVersion, ""]
  {
    assert '\n' !in HostLine(h);
    assert '\n' !in OsLine(h);
    assert '\n' !in PlatformLine(h);
    SplitThreeLines(HostLine(h), OsLine(h), PlatformLine(h));
  }

  /** The outcome of a run: the plan, the report attempt if any, and the exit status. */
  datatype Outcome = Outcome(plan: Plan, report: Option<Result<Report.ReportFile, Report.ReportError>>, status: int)

  /** `main`: dispatches, and after the selected groups generates the report
      from an empty result list; a report failure is printed and ignored. */
  method Run(admin: bool, f: Flags, host: HostInfo, env: Report.ReportEnv) returns (out: Outcome)
    ensures out.plan == Dispatch(admin, f)
    ensures out.status == ExitStatus(out.plan)
    ensures out.status == 1 <==> !admin || !AnyGroupFlag(f)
    ensures out.report.Some? <==> admin && AnyGroupFlag(f) && f.report
    ensures out.report.Some? && out.report.value.Success? ==>
      var rep := out.report.value.value.report;
      rep.checkResults == [] && rep.totalIssues == 0
      && rep.criticalCount == 0 && rep.warningCount == 0 && rep.infoCount == 0
      && rep.systemInfo == SysInfoText(host)
  {
    var plan := Dispatch(admin, f);
    if !plan.Checks? {
      return Outcome(plan, None, 1);
    }
    var report: Option<Result<Report.ReportFile, Report.ReportError>> := None;
    if plan.report {
      var results: seq<Report.CheckResult> := [];
      var res := Report.GenerateReport(results, SysInfoText(host), env);
      report := Some(res);
    }
    return Outcome(plan, report, 0);
  }
}
