# Windows incident-response tool — a verified model

This project models and verifies the core of a command-line incident-response tool for Windows. The tool is run as administrator. Its flags select groups of collectors:

- basic incident response: processes, connections, autoruns, scheduled tasks;
- registry and file integrity: critical registry keys, system file signatures, recently modified executables;
- memory and process behaviour;
- log analysis;
- network security: suspicious ports, interface traffic, firewall rules, DNS servers;
- the security baseline: password policy, Guest account, critical services, patches, audit policy, directory permissions, shares, UAC, Defender.

Each collector queries the operating system, often by running a command whose GBK-encoded output is decoded with a fallback to the raw bytes. It then classifies what it found and prints it. At the end the tool writes an HTML summary report to `reports\report_YYYYMMDD_HHMMSS.html`.

Every operating-system query is an input of the model. Process and connection tables, registry keys, command outputs, file stat results, walked directory entries, the clock and the administrator probe are all given as values, `Option`/`Result` values, or functions from a key (a pid, a registry path, a service name) to an answer. The GBK decoder is a parameter `string -> Option<string>`. What each collector decides and prints becomes a sequence of typed lines.

Modules, one per source file or shared concern:

- `Wrappers`: `Option` and `Result`.
- `Seqs`: `Min` and `Filter`.
- `Text`: the Go `strings` and `path/filepath` operations the collectors use (`Contains`, `Index`, `Split`, `Join`, `filepath.Ext`, `ToLower`), with their laws.
- `Encoding`: the GBK-to-UTF-8 fallback shared by every collector.
- `Ranking`: the in-place descending bubble sort over an `array` and the top-N display. The sort is proved equal to a stable insertion sort `SortDesc`.
- `Report` (windows_report.go):
  - finding records and the `ResultList` class that `addCheckResult` appends to;
  - severity counts;
  - the report document as an ordered block structure with a parser proving it lossless;
  - zero-padded time stamps and the report path;
  - `generateReport` with its error order.
- `Samples`: connection records shared by two collectors.
- `IncidentResponse` (windows_ir.go), `Memory` (windows_memory.go), `Network` (windows_network.go), `Baseline` (windows_baseline.go), `Registry` (windows_registry.go): the collectors.
- `Dispatch` (main_windows.go): flags to an ordered plan of groups and collectors, the exit status, and `main` itself as a method that runs the report step.

Loops that the source writes step by step are methods with loop invariants, proved equal to a specification function. The specification function's properties are proved as lemmas. These methods are: the bubble sort, the display loops, the process-behaviour monitor, the registry value and hive loops, the integrity loop, the extension loop and the suspicious-file search. `addCheckResult` updates a slice through its `*[]CheckResult` parameter, so it is a method of a class whose `seq` field it reassigns.

## Model

| member | source | states |
|---|---|---|
| Report.ResultList.constructor | main_windows.go:152 | A new list of findings is empty. |
| Report.ResultList.AddCheckResult | windows_report.go:144-152 | Appends exactly one record carrying the five given fields at the end; every earlier record is unchanged. |
| Report.CountScenario | windows_report.go:98-108 | One "warning" and one "info" finding give warning 1, info 1, critical 0. |
| Report.CountSeverityIsIndexCount | windows_report.go:98-108 | Each bucket count is the number of results whose severity is exactly (case-sensitively) that string. |
| Report.CountAppend | windows_report.go:99-107 | One more result raises exactly the bucket of its own severity, by one. |
| Report.BucketsBound | windows_report.go:100-115 | Critical + Warning + Info never exceeds the total, with equality exactly when every severity is one of the three known strings. |
| Report.IssueOf | windows_report.go:73-83 | An issue block carries the result's fields. Its status class is "ok" exactly when the status is "正常", else "error". The details section is present exactly when the details are non-empty. |
| Report.ParseIssuesRoundTrip | windows_report.go:73-83 | Reading the issue blocks back gives the results, in the same order. |
| Report.RenderRoundTrip | windows_report.go:36-87 | The rendered document determines the report: parsing it gives back every field and every result in order. |
| Report.PadRoundTrip | windows_report.go:112 | Zero-padding a number below 10^width gives exactly width digits whose value is the number. |
| Report.DisplayStampRoundTrip | windows_report.go:112 | The displayed stamp `DisplayStamp`, Go's layout "2006-01-02 15:04:05", is 19 characters long: the date fields joined by '-', a space, and the time fields joined by ':'. It parses back to the same date and time. |
| Report.FileStampRoundTrip | windows_report.go:134 | The file stamp is 8 digits, "_", 6 digits, and it parses back to the same date and time. |
| Report.ReportPathInjective | windows_report.go:134 | Two valid times give the same report path only when they are equal. |
| Report.GenerateReport | windows_report.go:90-141 | Errors come in order: mkdir, template parse, execute, write. Success happens exactly when all four steps succeed. Then the path is `reports\report_<stamp>.html`, the report holds the time, the system info, the results in order, the total and the three counts, and the document is its rendering. |
| Ranking.InsertDesc | windows_ir.go:166-172 | Inserting into the ranking adds exactly one element: length + 1, multiset grows by that element. |
| Ranking.SortDesc | windows_memory.go:175-181 | The reference ranking is a permutation of its input (same length, same multiset). |
| Ranking.SortDescSorted | windows_memory.go:175-181 | The reference ranking is non-increasing by score. |
| Ranking.InsertDescTies | windows_ir.go:168 | Inserting into a descending list puts the new element last among the entries of its own score. |
| Ranking.SortDescStable | windows_ir.go:168 | Entries with equal score keep their input relative order. |
| Ranking.SwapKeepsTies | windows_ir.go:168-170 | Swapping two adjacent entries with different scores keeps the relative order of every group of equal scores. |
| Ranking.SortedArrangementUnique | windows_ir.go:166-172 | Two sorted, stable arrangements of the same multiset are equal. |
| Ranking.CharacterizesSortDesc | windows_ir.go:166-172 | Any sorted, stable permutation of the input equals the reference ranking. |
| Ranking.SortDescOfSorted | windows_ir.go:166 | An already sorted list, in particular one with at most one entry, is left unchanged. |
| Ranking.BubbleSortDesc | windows_ir.go:166-172 | The in-place bubble sort leaves the array non-increasing, a permutation of its old contents, stable, and equal to the reference ranking of its old contents. |
| Ranking.BubblePass | windows_ir.go:167-171 | One inner pass keeps the multiset and the tie order, and extends the sorted, dominating suffix by one position. |
| Ranking.TopN | windows_ir.go:175-181 | The display loop shows exactly min(limit, n) entries, the first ones of the array. |
| Ranking.TopKIdempotent | windows_memory.go:184-190 | Taking the top k of the top k changes nothing. |
| Ranking.SortTieInput | windows_ir.go:168 | Scores 10, 30, 30, 5 rank as the two 30s in input order, then 10, then 5. |
| Ranking.TopKTieScenario | windows_ir.go:166-181 | The top 2 of scores 10, 30, 30, 5 are the two tied 30s, in input order. |
| IncidentResponse.GetProcessInfo | windows_ir.go:134-183 | An enumeration error is reported. Otherwise the total is the number of processes, and the displayed rows are the first min(5, n) of the CPU ranking. |
| IncidentResponse.ViewOf | windows_ir.go:121-130 | A connection row shows the local address and status. It shows the remote address exactly when the remote IP is non-empty. |
| IncidentResponse.ShowConnections | windows_ir.go:117-131 | The count covers all connections. Details are shown for exactly the first min(5, n) of them, in enumeration order. |
| IncidentResponse.GetScheduledTasks | windows_ir.go:233-252 | A failed command prints nothing. Otherwise the printed lines are the "\n"-split lines of the (fallback-)decoded output that contain "TaskName:", in order. |
| IncidentResponse.TaskLinesExact | windows_ir.go:245-250 | Every printed line contains "TaskName:" and is a line of the output, and every output line containing it is printed. |
| IncidentResponse.GetAutoRuns | windows_ir.go:195-231 | The HKLM and HKCU Run-key dumps appear only when their `reg query` succeeded, in that order, each as decoded or raw text. They are followed by the startup folder path and one line per readable startup entry. |
| Encoding.GbkToUtf8 | windows_baseline.go:28-35 | Decoding fails exactly when the decoder fails. The text is then the raw data, and otherwise the decoded data. |
| Encoding.CallerTextIsConversionText | windows_baseline.go:84-91 | The callers' choice (decoded text, else raw output) is the converted text, so both branches decide identically. |
| Memory.GetProcessDetails | windows_memory.go:27-87 | Fails exactly when opening the process fails. Otherwise the pid is the requested one and each metric is the queried value, or zero when its query fails. Network usage is the number of connections, the handle count is 0 and the DLL list is empty. |
| Memory.FlaggedOf | windows_memory.go:102-127 | Every reported process has CPU > 50 or memory > 50, an empty DLL list and a zero handle count, so the DLL section is never printed. |
| Memory.FlaggedIff | windows_memory.go:103-109 | A pid is reported exactly when it was enumerated, its details can be read, and its CPU or memory usage is strictly above 50. |
| Memory.MonitorProcessBehavior | windows_memory.go:90-128 | An enumeration error is reported. Otherwise the loop, which skips unreadable processes, reports exactly the flagged processes in enumeration order. |
| Memory.AnalyzeMemory | windows_memory.go:131-190 | A memory-statistics error returns at once. Otherwise the statistics are shown, and the table holds the first min(10, n) processes of the stable memory ranking; a failed process enumeration gives an empty table. |
| Network.SuspiciousPortsDomain | windows_network.go:20-32 | The table holds exactly the eleven listed ports, each with a non-empty service name. |
| Network.AlertsOf | windows_network.go:69-83 | A connection gives a listening alert exactly when its local port is in the table and a remote alert exactly when its remote port is; the listening alert comes first. |
| Network.ConnectionAlertsConcat | windows_network.go:57-84 | Connections are examined independently, in enumeration order. |
| Network.ConnectionAlertsSingle | windows_network.go:57-84 | One connection gives its alerts when its process can be opened, and nothing otherwise. |
| Network.UnopenableSilent | windows_network.go:59-62 | A connection whose process cannot be opened produces no output. |
| Network.AnalyzeNetworkConnections | windows_network.go:46-85 | An enumeration error is reported and nothing else. Otherwise the warnings are `ConnectionAlerts` of the connections. Per ConnectionAlertsConcat, ConnectionAlertsSingle and AlertsOf, those are the suspicious-port alerts of each connection whose process opens, in enumeration order. |
| Network.AnalyzeFirewallRules | windows_network.go:146-173 | A command failure prints only the error. Otherwise the reported rules are exactly the "\r\n\r\n" blocks of the decoded output that contain both "允许" and "入站". The contract states membership in both directions. Order and multiplicity follow from the body, a `Seqs.Filter` of the blocks, with `Seqs.FilterConcat` and `Seqs.FilterSingleton`. |
| Network.RuleBlocksTile | windows_network.go:167 | The blocks joined with "\r\n\r\n" give back the output, and no block contains the separator. |
| Network.DnsSegmentsMeaning | windows_network.go:197-202 | Nothing is printed exactly when "DNS 服务器" is absent. Otherwise one segment is printed per occurrence: the text between it and the next. |
| Network.CheckDnsSettings | windows_network.go:176-203 | A command failure prints only the error. Otherwise the printed segments are `DnsSegments` of the decoded output, which equals the pieces after the first of its "DNS 服务器"-split. Nothing is printed exactly when the marker is absent. |
| Network.AddU64 | windows_network.go:130-131 | A uint64 sum is the true sum, or the true sum minus 2^64 when it overflows. |
| Network.AddU64WrapDetect | windows_network.go:130-131 | The sum wraps exactly when it is smaller than an operand; uint64 addition is commutative. |
| Network.TrafficOf | windows_network.go:124-131 | The counters are shown unchanged. The error and drop counts are Errin + Errout and Dropin + Dropout, modulo 2^64. |
| Network.AnalyzeNetworkTraffic | windows_network.go:114-133 | An error is reported. Otherwise there is one traffic line per interface, in order. |
| Baseline.DumpOutput | windows_baseline.go:130-143 | A failed command prints nothing, and a successful one prints its converted output under the heading. The patch, audit-policy and share collectors are this with their headings. |
| Baseline.CheckPasswordPolicy | windows_baseline.go:38-60 | The strong-password warning appears exactly when RequireStrongKey is readable and 0. Only the policy dump and that warning can appear. |
| Baseline.GuestEnabled | windows_baseline.go:79-92 | The Guest account counts as enabled exactly when the converted output lacks the literal "Account active" + 15 spaces + "No". |
| Baseline.CheckUserAccounts | windows_baseline.go:63-93 | The Guest warning appears exactly when `net user Guest` succeeds and its output lacks the literal. The administrators dump comes first when its command succeeds. |
| Baseline.GuestSpacingMatters | windows_baseline.go:84 | The literal match is exact: output with a single space is judged as an enabled Guest account. |
| Baseline.ServiceStatus | windows_baseline.go:108-124 | A failed `sc query` gives no line. Otherwise the service is reported running exactly when the converted output contains "RUNNING", and not running otherwise. |
| Baseline.ServiceLines | windows_baseline.go:107-126 | The loop gives at most one line per listed service, each a running or not-running line. |
| Baseline.ServiceLinesSound | windows_baseline.go:107-126 | Every line is the status check's line for its own service, and that service is one of the listed ones. |
| Baseline.ServiceLinesComplete | windows_baseline.go:107-126 | Every listed service whose `sc query` succeeds has its status line. |
| Baseline.ServiceLinesAllSucceed | windows_baseline.go:107-126 | When every query succeeds, there is one line per service and line k is service k's status, so services are checked in list order. |
| Baseline.CheckSystemServicesLines | windows_baseline.go:96-127 | `CheckSystemServices` runs over the four critical services "Windows Defender", "Windows Firewall", "Windows Update" and "Remote Registry". It prints at most one line per service, and each line is that service's status. Every successful query has its line. When all four succeed, there are four lines in list order. |
| Baseline.CheckWindowsDefender | windows_baseline.go:222-246 | The preference and status dumps appear for the commands that succeed, with the status dump last. |
| Baseline.PathPermissions | windows_baseline.go:174-183 | A failed `icacls` gives nothing, and otherwise the path's converted ACL listing. |
| Baseline.PermissionLines | windows_baseline.go:173-184 | The loop gives at most one permission listing per path. |
| Baseline.PermissionLinesSound | windows_baseline.go:173-184 | Every listing belongs to a listed path whose `icacls` run succeeded, and shows that run's converted output. |
| Baseline.PermissionLinesComplete | windows_baseline.go:173-184 | Every listed path whose `icacls` run succeeds has its listing; paths whose run fails are skipped silently. |
| Baseline.PermissionLinesAllSucceed | windows_baseline.go:173-184 | When every run succeeds, listing k is that of path k, so paths are handled in list order. |
| Baseline.CheckFileSystemPermissionsLines | windows_baseline.go:162-185 | `CheckFileSystemPermissions` runs `icacls` on the four critical paths: `C:\Windows\System32`, `C:\Windows\System32\config`, `C:\Program Files` and `C:\Program Files (x86)`. It prints at most one listing per path, and a listing only for a path whose run succeeded, carrying that run's converted output. Every successful run has its listing. When all four succeed, there are four listings in list order. |
| Baseline.CheckUacSettings | windows_baseline.go:204-219 | Nothing is printed exactly when EnableLUA is unreadable. The warning appears exactly when it is 0, and "UAC已启用" for any other value. |
| Registry.StringValues | windows_registry.go:54-58 | Only values readable as strings are printed, and every such value is. |
| Registry.ReadValues | windows_registry.go:54-58 | The value loop prints exactly the string-readable values, in order. |
| Registry.KeyLinesSound | windows_registry.go:38-60 | Every line about one key is justified by that key's state: a header only for a readable key, and a failure line only when failures are reported. |
| Registry.HiveLinesSound | windows_registry.go:38-84 | Every line of a hive pass is justified by the state of one of the critical paths. |
| Registry.HiveLinesCover | windows_registry.go:38-84 | Every readable critical key gets its header. An unopenable key gets a failure line when failures are reported (HKLM). |
| Registry.ReadKey | windows_registry.go:39-58 | One iteration prints exactly the key's lines: a failure message (when reported) for a key that cannot be opened or read, else its path and string values. |
| Registry.ReadHive | windows_registry.go:38-60 | The loop over the keys, with `continue` on failure, prints exactly the hive listing of those keys, in order. |
| Registry.CheckRegistry | windows_registry.go:33-84 | HKLM is listed with failures reported, then HKCU with failures skipped silently, each under its header. |
| Registry.IntegrityLines | windows_registry.go:110-140 | A file header appears only for a file that exists and whose signature query succeeded. A missing-file warning appears only for a file reported as not existing. |
| Registry.IntegrityLinesCover | windows_registry.go:112-123 | A missing file gets its warning and skips the signature check; a signature failure gets its message and skips the file; otherwise the file gets its header. |
| Registry.CheckFile | windows_registry.go:111-139 | One iteration prints exactly the file's lines. A missing file prints only its warning and a failed signature query only its message. Otherwise the header, the converted signature, and the size and time when `os.Stat` succeeds. |
| Registry.CheckFiles | windows_registry.go:110-140 | The loop over the files prints exactly the integrity listing of those files, in order. |
| Registry.CheckSystemFileIntegrity | windows_registry.go:97-141 | The check of the six critical files prints exactly their integrity listing, in order. |
| Registry.SuspiciousRoots | windows_registry.go:148-153 | Four roots are searched, the last being C:\Windows\Temp. |
| Registry.VisitEntry | windows_registry.go:162-180 | An entry is reported at most once. It is reported exactly when it is readable, not a directory, has one of the seven extensions in lower case, and is less than 24 hours older than the clock reading taken during its own callback; it is reported with its path, size and modification time. |
| Registry.EntryReports | windows_registry.go:162-180 | A walk reports at most one line per entry, all of them suspicious-file lines. |
| Registry.EntryReportsIff | windows_registry.go:156-180 | A walked path is reported exactly when its entry is suspicious; entries with an error are skipped and the walk continues. |
| Registry.WalkRoot | windows_registry.go:162-180 | One walk reports exactly the suspicious entries it visits, in visiting order, each judged at its own clock reading. |
| Registry.CheckSuspiciousFiles | windows_registry.go:144-185 | Each root is announced and walked in order, with the suspicious entries of its walk reported. |
| Registry.ExtLower | windows_registry.go:167 | Lower-casing commutes with `filepath.Ext`. |
| Registry.ExtMatchIgnoresCase | windows_registry.go:167 | Two paths equal up to case are judged alike, so extension matching is case-insensitive. |
| Text.SplitJoin | windows_network.go:167 | `strings.Split` followed by `strings.Join` with the same separator is the identity. |
| Text.SplitPiecesFree | windows_ir.go:245 | No piece of a split contains the separator. |
| Text.ExtShape | windows_registry.go:167 | The extension is the suffix from the last '.' of the final path element, or empty when that element has no '.'. |
| Dispatch.GroupOrderComplete | main_windows.go:98-145 | Every group has its place in the fixed order IR, Reg, Mem, Log, Net, Baseline. |
| Dispatch.SelectedFromMembers | main_windows.go:98-145 | A group is in the plan from a rank on exactly when it is selected and ranks there or later. |
| Dispatch.SelectedGroupsMeaning | main_windows.go:98-145 | A group runs exactly when `-all` or its own flag is set. |
| Dispatch.Dispatch | main_windows.go:73-145 | A non-admin run stops first. Otherwise, with none of the seven group flags (`-report` does not count), usage is printed. Otherwise the plan holds exactly the selected groups, in the fixed order, and the report flag. |
| Dispatch.ChecksRunSomething | main_windows.go:93-145 | An admin run with at least one group flag runs checks, and at least one group runs. |
| Dispatch.ExitStatusIff | main_windows.go:73-96 | The process exits with status 1 exactly when it is not admin or no group flag is set. |
| Dispatch.DefaultsMeanUsage | main_windows.go:87-96 | With default flags an admin run prints usage; `-report` defaults to true. |
| Dispatch.CollectorsOfGroup | main_windows.go:16-26 | Every collector of a group belongs to that group, and no group lists the same function twice. |
| Dispatch.GroupStepsShape | main_windows.go:98-145 | A group's steps announce that group and no other, at the start only. Every later step is a collector of that group, one per listed function. No group step generates the report. |
| Dispatch.CollectInGroupsSteps | main_windows.go:98-145 | A collector runs in a sequence of groups exactly when its group is among them, and no group step generates the report. |
| Dispatch.StepsOfRun | main_windows.go:73-163 | A collector runs exactly when the run is admin, some group flag is set and its group is selected. The report is generated exactly when, in addition, `-report` is set, and it is the last step. |
| Dispatch.SysInfoLines | main_windows.go:154-156 | The system information handed to the report, `SysInfoText`, is three lines, each ended by a newline: "主机名: " and the host name, "操作系统: " and the OS, and "平台: " with the platform and its version, separated by a space. This holds for host fields without line breaks. |
| Dispatch.Run | main_windows.go:71-164 | The exit status depends only on the plan; a report failure does not change it. A report is attempted exactly for a checking run with `-report`. A generated report has no results, all counts 0, and the host information as its system info. |

## Left out

- OS queries (gopsutil process, connection, memory, interface and host calls; registry reads; `exec.Command`; `os.Stat`; `filepath.Walk`; `os.MkdirAll`, `os.WriteFile`) are not modelled: they are the model's inputs. The administrator probe is the `admin` input of `Dispatch`.
- GBK decoding internals are foreign library code; the decoder is a parameter, and only the fallback to the raw bytes is modelled. Command output bytes are a `string`, as Go's `string(data)`.
- `strings.ToLower` is modelled on ASCII letters only. Go's Unicode lower-casing also maps non-ASCII characters, and two of them land on ASCII letters: U+212A (Kelvin sign) becomes 'k' and U+0130 (capital I with dot above) becomes 'i'. No other non-ASCII character lowers to ASCII. None of the seven suspicious extensions contains 'k' or 'i', and all seven are ASCII. So an extension matches under Go's lower-casing exactly when it matches under the model's.
- `html/template` parsing, execution and HTML escaping are replaced by an ordered block structure. Parse and execute are modelled as succeeding or failing inputs.
- `time.Now` is an input. It is read twice in `generateReport`, once for the displayed stamp and once for the file name, so it is two inputs that may differ.
- `time.Since` is the difference of a clock reading and the modification time, in nanoseconds. In `checkSuspiciousFiles` every walked entry carries its own reading, the `now` field of `WalkEntry`. The callback calls `time.Since` at most once per entry, because the seven extensions are distinct. Go's saturation of very large durations is not modelled.
- Float formatting (`%.2f`, GB conversions) and CPU and memory percentages as IEEE floats are not modelled. Scores are `real`, so NaN is left out; the ordering and the strict `>` 50 threshold are exact.
- The report path: the directory is "reports", joined by `filepath.Join`, which on Windows uses "\". The model gives `reports\report_YYYYMMDD_HHMMSS.html`.
- A severity other than "critical", "warning" or "info" is counted in no bucket, as the code does; there is no default-to-info rule.
- `Registry.CheckSuspiciousFiles`: the walk's error branch (windows_registry.go:181-183) is not modelled. The walk callback always returns nil, so `filepath.Walk` cannot return an error there.
- `Registry.CheckSystemFileIntegrity`: one stat result answers both calls to `os.Stat` on a file (windows_registry.go:112,135). A file deleted between the two calls is not modelled.
- `analyzeNetworkInterfaces` (windows_network.go:88-111) is not modelled: it only prints each interface's fields.
- `getSystemInfo`, `getCPUInfo`, `getMemoryInfo` and `getDiskInfo` (windows_ir.go:32-97) are not modelled: they only print query results. Only their place in the collector order is modelled.
- The interface half of `getNetworkInfo` (windows_ir.go:100-115) is not modelled: it only prints each interface's name, MAC address, flags and addresses. Its connection listing (windows_ir.go:117-131) is modelled by `IncidentResponse.ViewOf` and `IncidentResponse.ShowConnections`.
- windows_log.go is not part of this model. Its analysers only print constant event-ID lists; only their place in the collector order is modelled.
- main.go is not part of this model. It is the non-Windows "unsupported platform" exit.
- `OutputCapture` (main_windows.go:35-69) is not modelled. It swaps the global stdout and copies from a goroutine, and it is never used.
- Flag parsing is represented by its parsed result, the `Flags` value. `flag.Usage` text is not modelled.
- `defer key.Close()` and other resource release are not modelled; they have no observable effect on the output.
- `IncidentResponse.GetProcessInfo`, `Memory.AnalyzeMemory`: the `append` loop that builds the process list is an array initializer in the model. Both give one record per process, in enumeration order, before the in-place sort.
