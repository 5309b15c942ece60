/** The security-baseline checks of windows_baseline.go. Each command's output
    is an input (None when the command fails) and each registry integer is an
    input (None when the key cannot be opened or the value cannot be read). */
module Baseline {
  import opened Wrappers
  import opened Seqs
  import opened Text
  import opened Encoding

  /** One printed item of the baseline checks. */
  datatype BaselineLine =
    | Dump(heading: string, text: string)
    | StrongKeyWarning
    | GuestWarning
    | ServiceRunning(service: string)
    | ServiceStopped(service: string)
    | Permissions(path: string, text: string)
    | UacDisabled
    | UacEnabled

  /** A command whose output is printed whole under a heading: nothing when the
      command fails, else its decoded text, or its raw text when decoding fails. */
  function DumpOutput(heading: string, output: Option<string>, decode: string -> Option<string>)
    : (r: seq<BaselineLine>)
    ensures output.None? ==> r == []
    ensures output.Some? ==> r == [Dump(heading, GbkToUtf8(output.value, decode).text)]
  {
    match output
    case None => []
    case Some(raw) =>
      var c := GbkToUtf8(raw, decode);
      if !c.failed then [Dump(heading, c.text)] else [Dump(heading, raw)]
  }

  // ---- checkPasswordPolicy ----

  /** `checkPasswordPolicy`: the `net accounts` dump, then a warning exactly when
      `RequireStrongKey` can be read and is 0. */
  function CheckPasswordPolicy(netAccounts: Option<string>, requireStrongKey: Option<nat>,
                               decode: string -> Option<string>): (r: seq<BaselineLine>)
    ensures StrongKeyWarning in r <==> requireStrongKey == Some(0)
    ensures |r| == (if netAccounts.Some? then 1 else 0) + (if requireStrongKey == Some(0) then 1 else 0)
  {
    DumpOutput("当前密码策略", netAccounts, decode)
    + (if requireStrongKey.Some? && requireStrongKey.value == 0 then [StrongKeyWarning] else [])
  }

  // ---- checkUserAccounts ----

  /** The line `net user Guest` prints for a disabled account, with its column padding. */
  const GuestDisabled: string := "Account active               No"

  /** The Guest test as written: on the decoded text when decoding succeeds, on
      the raw output otherwise. Both branches decide on the text the converter
      returned. */
  predicate GuestEnabled(raw: string, decode: string -> Option<string>)
    ensures GuestEnabled(raw, decode) <==> !Contains(GbkToUtf8(raw, decode).text, GuestDisabled)
  {
    var c := GbkToUtf8(raw, decode);
    if !c.failed then !Contains(c.text, GuestDisabled) else !Contains(raw, GuestDisabled)
  }

  /** `checkUserAccounts`: the administrators dump, then the Guest warning exactly
      when `net user Guest` succeeds and lacks the disabled line. */
  function CheckUserAccounts(administrators: Option<string>, guest: Option<string>,
                             decode: string -> Option<string>): (r: seq<BaselineLine>)
    ensures GuestWarning in r <==> guest.Some? && !Contains(GbkToUtf8(guest.value, decode).text, GuestDisabled)
    ensures |r| == (if administrators.Some? then 1 else 0) + (if GuestWarning in r then 1 else 0)
    ensures administrators.Some? ==> r[0] == Dump("管理员组成员", GbkToUtf8(administrators.value, decode).text)
  {
    DumpOutput("管理员组成员", administrators, decode)
    + (if guest.Some? && GuestEnabled(guest.value, decode) then [GuestWarning] else [])
  }

  /** The padding of the disabled line matters: an output holding it with one
      space fewer still draws the warning. */
  lemma GuestSpacingMatters(decode: string -> Option<string>)
    requires decode("Account active No") == Some("Account active No")
    ensures GuestEnabled("Account active No", decode)
  {
    assert !Contains("Account active No", GuestDisabled) by {
      assert |"Account active No"| < |GuestDisabled|;
    }
  }

  // ---- checkSystemServices ----

  const CriticalServices: seq<string> := ["Windows Defender", "Windows Firewall", "Windows Update", "Remote Registry"]

  /** The line for one service: none when `sc query` fails, otherwise running
      exactly when the output contains "RUNNING". */
  function ServiceStatus(service: string, output: Option<string>, decode: string -> Option<string>)
    : (r: Option<BaselineLine>)
    ensures r.None? <==> output.None?
    ensures r.Some? ==> (r.value == ServiceRunning(service) <==> Contains(CallerText(output.value, decode), "RUNNING"))
    ensures r.Some? ==> r.value in {ServiceRunning(service), ServiceStopped(service)}
  {
    match output
    case None => None
    case Some(raw) =>
      var c := GbkToUtf8(raw, decode);
      var text := if !c.failed then c.text else raw;
      if Contains(text, "RUNNING") then Some(ServiceRunning(service)) else Some(ServiceStopped(service))
  }

  /** `line` is the line the status check gives for its own service. */
  predicate IsStatusOf(line: BaselineLine, query: string -> Option<string>, decode: string -> Option<string>) {
    (line.ServiceRunning? || line.ServiceStopped?) && ServiceStatus(line.service, query(line.service), decode) == Some(line)
  }

  /** The service lines for `names` in list order; `query(name)` is the output
      of `sc query name`. A service whose query fails gets no line. */
  function ServiceLines(names: seq<string>, query: string -> Option<string>, decode: string -> Option<string>)
    : (r: seq<BaselineLine>)
    ensures |r| <= |names|
    ensures forall k | 0 <= k < |r| :: r[k].ServiceRunning? || r[k].ServiceStopped?
    decreases |names|
  {
    if |names| == 0 then []
    else
      var head := ServiceStatus(names[0], query(names[0]), decode);
      (if head.Some? then [head.value] else []) + ServiceLines(names[1..], query, decode)
  }

  /** Every line is the status line of one of the listed services. */
  lemma {:induction false} ServiceLinesSound(names: seq<string>, query: string -> Option<string>, decode: string -> Option<string>)
    ensures forall line | line in ServiceLines(names, query, decode) ::
      IsStatusOf(line, query, decode) && line.service in names
    decreases |names|
  {
    if |names| > 0 {
      var head := ServiceStatus(names[0], query(names[0]), decode);
      var front := if head.Some? then [head.value] else [];
      var rest := ServiceLines(names[1..], query, decode);
      ServiceLinesSound(names[1..], query, decode);
      assert ServiceLines(names, query, decode) == front + rest;
      forall line | line in front + rest ensures IsStatusOf(line, query, decode) && line.service in names {
        if line !in rest {
          assert line == head.value;
        }
      }
    }
  }

  /** Every listed service whose query succeeds has its status line. */
  lemma {:induction false} ServiceLinesComplete(names: seq<string>, query: string -> Option<string>, decode: string -> Option<string>)
    ensures forall k | 0 <= k < |names| && query(names[k]).Some? ::
      ServiceStatus(names[k], query(names[k]), decode).value in ServiceLines(names, query, decode)
    decreases |names|
  {
    if |names| > 0 {
      var head := ServiceStatus(names[0], query(names[0]), decode);
      var front := if head.Some? then [head.value] else [];
      var rest := ServiceLines(names[1..], query, decode);
      ServiceLinesComplete(names[1..], query, decode);
      assert ServiceLines(names, query, decode) == front + rest;
      forall k | 0 <= k < |names| && query(names[k]).Some?
        ensures ServiceStatus(names[k], query(names[k]), decode).value in front + rest
      {
        if k > 0 {
          assert names[k] == names[1..][k - 1];
        }
      }
    }
  }

  /** When every query succeeds, line `k` is the status of service `k`. */
  lemma {:induction false} ServiceLinesAllSucceed(names: seq<string>, query: string -> Option<string>, decode: string -> Option<string>)
    requires forall k | 0 <= k < |names| :: query(names[k]).Some?
    ensures var r := ServiceLines(names, query, decode);
      |r| == |names| && forall k | 0 <= k < |names| :: r[k] == ServiceStatus(names[k], query(names[k]), decode).value
    decreases |names|
  {
    if |names| > 0 {
      var head := ServiceStatus(names[0], query(names[0]), decode);
      var rest := ServiceLines(names[1..], query, decode);
      assert forall k | 0 <= k < |names[1..]| :: query(names[1..][k]).Some? by {
        forall k | 0 <= k < |names[1..]| ensures query(names[1..][k]).Some? {
          assert names[1..][k] == names[k + 1];
        }
      }
      ServiceLinesAllSucceed(names[1..], query, decode);
      assert ServiceLines(names, query, decode) == [head.value] + rest;
      forall k | 1 <= k < |names| ensures ([head.value] + rest)[k] == ServiceStatus(names[k], query(names[k]), decode).value {
        assert names[k] == names[1..][k - 1];
      }
    }
  }

  /** `checkSystemServices`: the four critical services in list order. */
  function CheckSystemServices(query: string -> Option<string>, decode: string -> Option<string>)
    : seq<BaselineLine>
  {
    ServiceLines(CriticalServices, query, decode)
  }

  /** `checkSystemServices` prints at most one status line for each of the four
      critical services, each line justified by that service's query, a line for
      every query that succeeds, and, when all four succeed, the four in list order. */
  lemma CheckSystemServicesLines(query: string -> Option<string>, decode: string -> Option<string>)
    ensures |CheckSystemServices(query, decode)| <= 4
    ensures forall line | line in CheckSystemServices(query, decode) ::
      line.service in CriticalServices && IsStatusOf(line, query, decode)
    ensures forall k | 0 <= k < 4 && query(CriticalServices[k]).Some? ::
      ServiceStatus(CriticalServices[k], query(CriticalServices[k]), decode).value in CheckSystemServices(query, decode)
    ensures (forall k | 0 <= k < 4 :: query(CriticalServices[k]).Some?) ==>
      |CheckSystemServices(query, decode)| == 4
      && forall k | 0 <= k < 4 ::
        CheckSystemServices(query, decode)[k] == ServiceStatus(CriticalServices[k], query(CriticalServices[k]), decode).value
  {
    ServiceLinesSound(CriticalServices, query, decode);
    ServiceLinesComplete(CriticalServices, query, decode);
    if forall k | 0 <= k < 4 :: query(CriticalServices[k]).Some? {
      ServiceLinesAllSucceed(CriticalServices, query, decode);
    }
  }

  // ---- checkSystemPatches, checkAuditPolicy, checkShareSettings, checkWindowsDefender ----

  function CheckSystemPatches(output: Option<string>, decode: string -> Option<string>): seq<BaselineLine> {
    DumpOutput("已安装的补丁", output, decode)
  }

  function CheckAuditPolicy(output: Option<string>, decode: string -> Option<string>): seq<BaselineLine> {
    DumpOutput("当前审计策略", output, decode)
  }

  function CheckShareSettings(output: Option<string>, decode: string -> Option<string>): seq<BaselineLine> {
    DumpOutput("当前共享", output, decode)
  }

  /** `checkWindowsDefender`: the preferences dump, then the status dump, each when its command succeeds. */
  function CheckWindowsDefender(preference: Option<string>, status: Option<string>,
                                decode: string -> Option<string>): (r: seq<BaselineLine>)
    ensures |r| == (if preference.Some? then 1 else 0) + (if status.Some? then 1 else 0)
    ensures status.Some? ==> r[|r| - 1] == Dump("Windows Defender状态", GbkToUtf8(status.value, decode).text)
  {
    DumpOutput("Windows Defender配置", preference, decode) + DumpOutput("Windows Defender状态", status, decode)
  }

  // ---- checkFileSystemPermissions ----

  const CriticalPaths: seq<string> := [
    "C:\\Windows\\System32", "C:\\Windows\\System32\\config", "C:\\Program Files", "C:\\Program Files (x86)"]

  function PathPermissions(path: string, output: Option<string>, decode: string -> Option<string>)
    : (r: Option<BaselineLine>)
    ensures r.None? <==> output.None?
    ensures r.Some? ==> r.value == Permissions(path, GbkToUtf8(output.value, decode).text)
  {
    match output
    case None => None
    case Some(raw) =>
      var c := GbkToUtf8(raw, decode);
      if !c.failed then Some(Permissions(path, c.text)) else Some(Permissions(path, raw))
  }

  /** The permission listings for `paths` in list order; `icacls(path)` is the
      output of `icacls path`, and a failed run is skipped silently. */
  function PermissionLines(paths: seq<string>, icacls: string -> Option<string>, decode: string -> Option<string>)
    : (r: seq<BaselineLine>)
    ensures |r| <= |paths|
    ensures forall k | 0 <= k < |r| :: r[k].Permissions?
    decreases |paths|
  {
    if |paths| == 0 then []
    else
      var head := PathPermissions(paths[0], icacls(paths[0]), decode);
      (if head.Some? then [head.value] else []) + PermissionLines(paths[1..], icacls, decode)
  }

  /** Every listing belongs to a listed path whose `icacls` run succeeded, and
      shows that run's converted output. */
  lemma {:induction false} PermissionLinesSound(paths: seq<string>, icacls: string -> Option<string>, decode: string -> Option<string>)
    ensures forall line | line in PermissionLines(paths, icacls, decode) ::
      line.Permissions? && line.path in paths && icacls(line.path).Some?
      && line.text == GbkToUtf8(icacls(line.path).value, decode).text
    decreases |paths|
  {
    if |paths| > 0 {
      var head := PathPermissions(paths[0], icacls(paths[0]), decode);
      var front := if head.Some? then [head.value] else [];
      var rest := PermissionLines(paths[1..], icacls, decode);
      PermissionLinesSound(paths[1..], icacls, decode);
      assert PermissionLines(paths, icacls, decode) == front + rest;
      forall line: BaselineLine | line in front + rest
        ensures line.Permissions? && line.path in paths && icacls(line.path).Some?
          && line.text == GbkToUtf8(icacls(line.path).value, decode).text
      {
        if line !in rest {
          assert line == head.value;
        }
      }
    }
  }

  /** Every listed path whose `icacls` run succeeds has its listing. */
  lemma {:induction false} PermissionLinesComplete(paths: seq<string>, icacls: string -> Option<string>, decode: string -> Option<string>)
    ensures forall k | 0 <= k < |paths| && icacls(paths[k]).Some? ::
      Permissions(paths[k], GbkToUtf8(icacls(paths[k]).value, decode).text) in PermissionLines(paths, icacls, decode)
    decreases |paths|
  {
    if |paths| > 0 {
      var head := PathPermissions(paths[0], icacls(paths[0]), decode);
      var front := if head.Some? then [head.value] else [];
      var rest := PermissionLines(paths[1..], icacls, decode);
      PermissionLinesComplete(paths[1..], icacls, decode);
      assert PermissionLines(paths, icacls, decode) == front + rest;
      forall k | 0 <= k < |paths| && icacls(paths[k]).Some?
        ensures Permissions(paths[k], GbkToUtf8(icacls(paths[k]).value, decode).text) in front + rest
      {
        if k > 0 {
          assert paths[k] == paths[1..][k - 1];
        }
      }
    }
  }

  /** When every run succeeds, listing `k` is that of path `k`. */
  lemma {:induction false} PermissionLinesAllSucceed(paths: seq<string>, icacls: string -> Option<string>, decode: string -> Option<string>)
    requires forall k | 0 <= k < |paths| :: icacls(paths[k]).Some?
    ensures var r := PermissionLines(paths, icacls, decode);
      |r| == |paths| && forall k | 0 <= k < |paths| :: r[k].path == paths[k]
    decreases |paths|
  {
    if |paths| > 0 {
      var head := PathPermissions(paths[0], icacls(paths[0]), decode);
      var rest := PermissionLines(paths[1..], icacls, decode);
      assert forall k | 0 <= k < |paths[1..]| :: icacls(paths[1..][k]).Some? by {
        forall k | 0 <= k < |paths[1..]| ensures icacls(paths[1..][k]).Some? {
          assert paths[1..][k] == paths[k + 1];
        }
      }
      PermissionLinesAllSucceed(paths[1..], icacls, decode);
      assert PermissionLines(paths, icacls, decode) == [head.value] + rest;
      forall k | 1 <= k < |paths| ensures ([head.value] + rest)[k].path == paths[k] {
        assert paths[k] == paths[1..][k - 1];
      }
    }
  }

  /** `checkFileSystemPermissions`: `icacls` on the four critical paths in list order. */
  function CheckFileSystemPermissions(icacls: string -> Option<string>, decode: string -> Option<string>)
    : seq<BaselineLine>
  {
    PermissionLines(CriticalPaths, icacls, decode)
  }

  /** `checkFileSystemPermissions` prints at most one listing for each of the four
      critical paths, the converted `icacls` output of a path whose run succeeded,
      a listing for every such path, and, when all four succeed, the four in list order. */
  lemma CheckFileSystemPermissionsLines(icacls: string -> Option<string>, decode: string -> Option<string>)
    ensures |CheckFileSystemPermissions(icacls, decode)| <= 4
    ensures forall line | line in CheckFileSystemPermissions(icacls, decode) ::
      line.Permissions? && line.path in CriticalPaths && icacls(line.path).Some?
      && line.text == GbkToUtf8(icacls(line.path).value, decode).text
    ensures forall k | 0 <= k < 4 && icacls(CriticalPaths[k]).Some? ::
      Permissions(CriticalPaths[k], GbkToUtf8(icacls(CriticalPaths[k]).value, decode).text)
        in CheckFileSystemPermissions(icacls, decode)
    ensures (forall k | 0 <= k < 4 :: icacls(CriticalPaths[k]).Some?) ==>
      |CheckFileSystemPermissions(icacls, decode)| == 4
      && forall k | 0 <= k < 4 :: CheckFileSystemPermissions(icacls, decode)[k].path == CriticalPaths[k]
  {
    PermissionLinesSound(CriticalPaths, icacls, decode);
    PermissionLinesComplete(CriticalPaths, icacls, decode);
    if forall k | 0 <= k < 4 :: icacls(CriticalPaths[k]).Some? {
      PermissionLinesAllSucceed(CriticalPaths, icacls, decode);
    }
  }

  // ---- checkUACSettings ----

  /** `checkUACSettings`: nothing when `EnableLUA` cannot be read, a warning when
      it is 0, and "enabled" for any other value. */
  function CheckUacSettings(enableLua: Option<nat>): (r: seq<BaselineLine>)
    ensures r == [] <==> enableLua.None?
    ensures UacDisabled in r <==> enableLua == Some(0)
    ensures UacEnabled in r <==> enableLua.Some? && enableLua.value != 0
    ensures |r| <= 1
  {
    match enableLua
    case None => []
    case Some(v) => if v == 0 then [UacDisabled] else [UacEnabled]
  }
}
