/** The registry and file-system checks of windows_registry.go: the walk over
    the critical keys of both hives, the integrity check of the critical system
    files and the search for recently changed executable files. Registry reads,
    `os.Stat`, the signature query, the environment, the clock and the
    directory walks are inputs. */
module Registry {
  import opened Wrappers
  import opened Text
  import opened Encoding

  /** `criticalRegPaths`: the keys read under both hives, in this order. */
  const CriticalRegPaths: seq<string> := [
    "SOFTWARE\\Microsoft\\Windows\\CurrentVersion\\Run",
    "SOFTWARE\\Microsoft\\Windows\\CurrentVersion\\RunOnce",
    "SOFTWARE\\Microsoft\\Windows\\CurrentVersion\\RunServices",
    "SOFTWARE\\Microsoft\\Windows\\CurrentVersion\\Policies",
    "SYSTEM\\CurrentControlSet\\Services",
    "SYSTEM\\CurrentControlSet\\Control\\SafeBoot",
    "SOFTWARE\\Microsoft\\Windows NT\\CurrentVersion\\Winlogon",
    "SOFTWARE\\Microsoft\\Windows\\CurrentVersion\\Explorer\\Shell Folders"
  ]

  /** A value of a key: its name, and its text when `GetStringValue` can read it. */
  datatype RegValue = RegValue(name: string, text: Option<string>)

  /** What opening a key and listing its value names gives. */
  datatype KeyState =
    | Unopenable(error: string)
    | Unreadable(error: string)
    | Readable(values: seq<RegValue>)

  /** One printed item of `checkRegistry`. */
  datatype RegistryLine =
    | HiveHeader(hive: string)
    | OpenFailed(path: string, error: string)
    | ReadFailed(error: string)
    | KeyHeader(path: string)
    | ValueLine(name: string, value: string)

  /** The values of a key that are printed: those readable as strings, in order. */
  function StringValues(vs: seq<RegValue>): (r: seq<RegistryLine>)
    ensures |r| <= |vs|
    ensures forall k | 0 <= k < |r| :: r[k].ValueLine? && RegValue(r[k].name, Some(r[k].value)) in vs
    ensures forall k | 0 <= k < |vs| && vs[k].text.Some? :: ValueLine(vs[k].name, vs[k].text.value) in r
    decreases |vs|
  {
    if |vs| == 0 then []
    else
      var front, last := vs[..|vs| - 1], vs[|vs| - 1];
      assert vs == front + [last];
      StringValues(front) + (match last.text case Some(t) => [ValueLine(last.name, t)] case None => [])
  }

  /** The lines for one key. Both failures skip the key; only a hive read with
      `reportFailures` prints them. */
  function KeyLines(path: string, state: KeyState, reportFailures: bool): seq<RegistryLine> {
    match state
    case Unopenable(e) => if reportFailures then [OpenFailed(path, e)] else []
    case Unreadable(e) => if reportFailures then [ReadFailed(e)] else []
    case Readable(vs) => [KeyHeader(path)] + StringValues(vs)
  }

  /** The lines for the keys `paths` of one hive, in order; `keys(path)` is the state of that key. */
  function HiveLines(paths: seq<string>, keys: string -> KeyState, reportFailures: bool): seq<RegistryLine>
    decreases |paths|
  {
    if |paths| == 0 then []
    else
      var front, last := paths[..|paths| - 1], paths[|paths| - 1];
      HiveLines(front, keys, reportFailures) + KeyLines(last, keys(last), reportFailures)
  }

  /** What the lines of one key say: failures only for a reporting hive, and a
      header or an open failure only about that key, matching its state. */
  predicate SoundFor(line: RegistryLine, paths: seq<string>, keys: string -> KeyState, reportFailures: bool) {
    && (!reportFailures ==> !line.OpenFailed? && !line.ReadFailed?)
    && (line.KeyHeader? ==> line.path in paths && keys(line.path).Readable?)
    && (line.OpenFailed? ==> line.path in paths && keys(line.path) == Unopenable(line.error))
  }

  lemma KeyLinesSound(paths: seq<string>, p: string, keys: string -> KeyState, reportFailures: bool)
    requires p in paths
    ensures forall line | line in KeyLines(p, keys(p), reportFailures) :: SoundFor(line, paths, keys, reportFailures)
  {
    match keys(p)
    case Readable(vs) =>
      forall line | line in StringValues(vs) ensures line.ValueLine? {
        var k :| 0 <= k < |StringValues(vs)| && StringValues(vs)[k] == line;
      }
    case _ =>
  }

  /** A silent hive prints no failure; every header and every open failure is
      about one of the paths, and says what happened to that key. */
  lemma {:induction false} HiveLinesSound(paths: seq<string>, keys: string -> KeyState, reportFailures: bool)
    ensures forall line | line in HiveLines(paths, keys, reportFailures) :: SoundFor(line, paths, keys, reportFailures)
    decreases |paths|
  {
    if |paths| > 0 {
      var front, last := paths[..|paths| - 1], paths[|paths| - 1];
      assert paths == front + [last];
      HiveLinesSound(front, keys, reportFailures);
      KeyLinesSound(paths, last, keys, reportFailures);
      forall line | line in HiveLines(front, keys, reportFailures)
        ensures SoundFor(line, paths, keys, reportFailures)
      {
        assert SoundFor(line, front, keys, reportFailures);
      }
    }
  }

  /** Every readable key gets its header and every unopenable key of a reporting
      hive its message. */
  lemma {:induction false} HiveLinesCover(paths: seq<string>, keys: string -> KeyState, reportFailures: bool, p: string)
    requires p in paths
    ensures keys(p).Readable? ==> KeyHeader(p) in HiveLines(paths, keys, reportFailures)
    ensures keys(p).Unopenable? && reportFailures ==> OpenFailed(p, keys(p).error) in HiveLines(paths, keys, reportFailures)
    decreases |paths|
  {
    var front, last := paths[..|paths| - 1], paths[|paths| - 1];
    assert paths == front + [last];
    if p != last {
      HiveLinesCover(front, keys, reportFailures, p);
    }
  }

  /** The two hives `checkRegistry` reads. */
  const LocalMachine: string := "HKEY_LOCAL_MACHINE"
  const CurrentUser: string := "HKEY_CURRENT_USER"

  /** The inner loop of `checkRegistry`: prints each value that reads as a string. */
  method ReadValues(values: seq<RegValue>) returns (printed: seq<RegistryLine>)
    ensures printed == StringValues(values)
  {
    printed := [];
    for j := 0 to |values|
      invariant printed == StringValues(values[..j])
    {
      assert values[..j + 1][..j] == values[..j];
      if values[j].text.Some? {
        printed := printed + [ValueLine(values[j].name, values[j].text.value)];
      }
    }
    assert values[..|values|] == values;
  }

  /** The body of one iteration of a hive loop: skip the key when it cannot be
      opened or its value names cannot be read (printing why when
      `reportFailures`), else print its path and its string values. */
  method ReadKey(path: string, state: KeyState, reportFailures: bool) returns (printed: seq<RegistryLine>)
    ensures printed == KeyLines(path, state, reportFailures)
  {
    printed := [];
    match state
    case Unopenable(e) =>
      if reportFailures {
        printed := [OpenFailed(path, e)];
      }
    case Unreadable(e) =>
      if reportFailures {
        printed := [ReadFailed(e)];
      }
    case Readable(values) =>
      var shown := ReadValues(values);
      printed := [KeyHeader(path)] + shown;
  }

  /** One of the two loops of `checkRegistry`, over the keys `paths` in order. */
  method ReadHive(paths: seq<string>, keys: string -> KeyState, reportFailures: bool) returns (lines: seq<RegistryLine>)
    ensures lines == HiveLines(paths, keys, reportFailures)
  {
    lines := [];
    for i := 0 to |paths|
      invariant lines == HiveLines(paths[..i], keys, reportFailures)
    {
      assert paths[..i + 1][..i] == paths[..i];
      var printed := ReadKey(paths[i], keys(paths[i]), reportFailures);
      lines := lines + printed;
    }
    assert paths[..|paths|] == paths;
  }

  /** `checkRegistry`: the machine hive, reporting failures, then the user hive,
      silently, each over the eight critical keys. */
  method CheckRegistry(hklm: string -> KeyState, hkcu: string -> KeyState) returns (lines: seq<RegistryLine>)
    ensures lines == [HiveHeader(LocalMachine)] + HiveLines(CriticalRegPaths, hklm, true)
                   + [HiveHeader(CurrentUser)] + HiveLines(CriticalRegPaths, hkcu, false)
  {
    var machine := ReadHive(CriticalRegPaths, hklm, true);
    var user := ReadHive(CriticalRegPaths, hkcu, false);
    lines := [HiveHeader(LocalMachine)] + machine + [HiveHeader(CurrentUser)] + user;
  }

  // ---- checkSystemFileIntegrity ----

  const CriticalFiles: seq<string> := [
    "C:\\Windows\\System32\\ntoskrnl.exe",
    "C:\\Windows\\System32\\winlogon.exe",
    "C:\\Windows\\System32\\services.exe",
    "C:\\Windows\\System32\\lsass.exe",
    "C:\\Windows\\System32\\svchost.exe",
    "C:\\Windows\\System32\\csrss.exe"
  ]

  /** The answer of `os.Stat`. */
  datatype StatResult = Found(size: nat, modTime: int) | NotExist | StatError(error: string)

  /** What the integrity check learns about one file: its `os.Stat`, and the
      output of the signature query, or its error. */
  datatype FileProbe = FileProbe(stat: StatResult, signature: Result<string, string>)

  /** One printed item of `checkSystemFileIntegrity`. */
  datatype IntegrityLine =
    | Missing(file: string)
    | SignatureFailed(file: string, error: string)
    | FileHeader(file: string)
    | SignatureInfo(text: string)
    | Attributes(size: nat, modTime: int)

  /** The lines for one file: a missing file only draws a warning; a failed
      signature query only its message; otherwise the header, the decoded
      signature, and the size and time when the file can be stat'ed. A stat error
      other than "does not exist" does not stop the signature query. */
  function FileLines(file: string, probe: FileProbe, decode: string -> Option<string>): seq<IntegrityLine> {
    if probe.stat.NotExist? then [Missing(file)]
    else if probe.signature.Failure? then [SignatureFailed(file, probe.signature.error)]
    else
      [FileHeader(file), SignatureInfo(GbkToUtf8(probe.signature.value, decode).text)]
      + (if probe.stat.Found? then [Attributes(probe.stat.size, probe.stat.modTime)] else [])
  }

  function IntegrityLines(files: seq<string>, probes: string -> FileProbe, decode: string -> Option<string>)
    : (r: seq<IntegrityLine>)
    ensures forall k | 0 <= k < |r| && r[k].FileHeader? ::
      r[k].file in files && !probes(r[k].file).stat.NotExist? && probes(r[k].file).signature.Success?
    ensures forall k | 0 <= k < |r| && r[k].Missing? :: r[k].file in files && probes(r[k].file).stat.NotExist?
    decreases |files|
  {
    if |files| == 0 then []
    else
      var front, last := files[..|files| - 1], files[|files| - 1];
      assert files == front + [last];
      IntegrityLines(front, probes, decode) + FileLines(last, probes(last), decode)
  }

  /** A file whose signature can be queried gets its header; a missing one its warning. */
  lemma {:induction false} IntegrityLinesCover(files: seq<string>, probes: string -> FileProbe,
                                                decode: string -> Option<string>, f: string)
    requires f in files
    ensures probes(f).stat.NotExist? ==> Missing(f) in IntegrityLines(files, probes, decode)
    ensures !probes(f).stat.NotExist? && probes(f).signature.Success? ==>
      FileHeader(f) in IntegrityLines(files, probes, decode)
    ensures !probes(f).stat.NotExist? && probes(f).signature.Failure? ==>
      SignatureFailed(f, probes(f).signature.error) in IntegrityLines(files, probes, decode)
    decreases |files|
  {
    var front, last := files[..|files| - 1], files[|files| - 1];
    assert files == front + [last];
    if f != last {
      IntegrityLinesCover(front, probes, decode, f);
    }
  }

  /** The body of one iteration of `checkSystemFileIntegrity`; each `return`
      is a `continue` of the loop. */
  method CheckFile(file: string, probe: FileProbe, decode: string -> Option<string>)
    returns (printed: seq<IntegrityLine>)
    ensures printed == FileLines(file, probe, decode)
  {
    if probe.stat.NotExist? {
      return [Missing(file)];
    }
    if probe.signature.Failure? {
      return [SignatureFailed(file, probe.signature.error)];
    }
    printed := [FileHeader(file)];
    var converted := GbkToUtf8(probe.signature.value, decode);
    if !converted.failed {
      printed := printed + [SignatureInfo(converted.text)];
    } else {
      printed := printed + [SignatureInfo(probe.signature.value)];
    }
    if probe.stat.Found? {
      printed := printed + [Attributes(probe.stat.size, probe.stat.modTime)];
    }
  }

  /** The loop of `checkSystemFileIntegrity` over `files`; `probes(file)`
      answers both `os.Stat` calls for that file. */
  method CheckFiles(files: seq<string>, probes: string -> FileProbe, decode: string -> Option<string>)
    returns (lines: seq<IntegrityLine>)
    ensures lines == IntegrityLines(files, probes, decode)
  {
    lines := [];
    for i := 0 to |files|
      invariant lines == IntegrityLines(files[..i], probes, decode)
    {
      assert files[..i + 1][..i] == files[..i];
      var printed := CheckFile(files[i], probes(files[i]), decode);
      lines := lines + printed;
    }
    assert files[..|files|] == files;
  }

  /** `checkSystemFileIntegrity` over the six critical files. */
  method CheckSystemFileIntegrity(probes: string -> FileProbe, decode: string -> Option<string>)
    returns (lines: seq<IntegrityLine>)
    ensures lines == IntegrityLines(CriticalFiles, probes, decode)
  {
    lines := CheckFiles(CriticalFiles, probes, decode);
  }

  // ---- checkSuspiciousFiles ----

  /** `suspiciousExts`: all-lower-case, pairwise distinct. */
  const SuspiciousExts: seq<string> := [".exe", ".dll", ".bat", ".cmd", ".ps1", ".vbs", ".js"]

  /** `24*time.Hour` in nanoseconds. */
  const DayNanos: int := 86_400_000_000_000

  /** `os.FileInfo` as far as the check looks at it; times are in nanoseconds. */
  datatype FileInfo = FileInfo(isDir: bool, size: nat, modTime: int)

  /** One call of the walk callback: the visited path, its information or the
      walk's error, and the clock reading `time.Since` takes during that call. */
  datatype WalkEntry = WalkEntry(path: string, info: Result<FileInfo, string>, now: int)

  /** The directories searched: the TEMP, APPDATA and LOCALAPPDATA variables
      (`os.Getenv` gives "" for an unset one) and the system temporary directory. */
  function SuspiciousRoots(env: string -> string): (r: seq<string>)
    ensures |r| == 4 && r[3] == "C:\\Windows\\Temp"
  {
    [env("TEMP"), env("APPDATA"), env("LOCALAPPDATA"), "C:\\Windows\\Temp"]
  }

  /** The lower-cased extension of a path is one of the seven. */
  predicate HasSuspiciousExt(path: string) {
    ToLower(Ext(path)) in SuspiciousExts
  }

  /** The test of the walk callback: no walk error, not a directory, a
      suspicious extension in any case, and changed less than 24 hours before
      the callback's own clock reading. */
  predicate IsSuspicious(e: WalkEntry) {
    && e.info.Success?
    && !e.info.value.isDir
    && HasSuspiciousExt(e.path)
    && e.now - e.info.value.modTime < DayNanos
  }

  /** One printed item of `checkSuspiciousFiles`. */
  datatype FileLine = CheckingDir(root: string) | SuspiciousFile(path: string, size: nat, modTime: int)

  /** The walk callback: compares the lower-cased extension with each of the
      seven in turn and reports the file for each match that is recent. */
  method VisitEntry(e: WalkEntry) returns (reports: seq<FileLine>)
    ensures |reports| <= 1
    ensures |reports| == 1 <==> IsSuspicious(e)
    ensures IsSuspicious(e) ==> reports == [SuspiciousFile(e.path, e.info.value.size, e.info.value.modTime)]
  {
    reports := [];
    if e.info.Failure? {
      return;
    }
    var info := e.info.value;
    if !info.isDir {
      var ext := ToLower(Ext(e.path));
      for k := 0 to |SuspiciousExts|
        invariant reports == if ext in SuspiciousExts[..k] && e.now - info.modTime < DayNanos
                             then [SuspiciousFile(e.path, info.size, info.modTime)] else []
      {
        assert SuspiciousExts[..k + 1] == SuspiciousExts[..k] + [SuspiciousExts[k]];
        if ext == SuspiciousExts[k] {
          assert ext !in SuspiciousExts[..k];
          if e.now - info.modTime < DayNanos {
            reports := reports + [SuspiciousFile(e.path, info.size, info.modTime)];
          }
        }
      }
      assert SuspiciousExts[..|SuspiciousExts|] == SuspiciousExts;
    }
  }

  /** The reports for the entries of one walk, in visiting order. */
  function EntryReports(entries: seq<WalkEntry>): (r: seq<FileLine>)
    ensures |r| <= |entries|
    ensures forall k | 0 <= k < |r| :: r[k].SuspiciousFile?
    decreases |entries|
  {
    if |entries| == 0 then []
    else
      var front, last := entries[..|entries| - 1], entries[|entries| - 1];
      EntryReports(front)
      + (if IsSuspicious(last) then [SuspiciousFile(last.path, last.info.value.size, last.info.value.modTime)] else [])
  }

  /** A visited entry is reported exactly when it is suspicious. */
  lemma {:induction false} EntryReportsIff(entries: seq<WalkEntry>, path: string)
    requires forall i, j | 0 <= i < j < |entries| :: entries[i].path != entries[j].path
    ensures (exists line | line in EntryReports(entries) :: line.path == path)
            <==> exists e | e in entries :: e.path == path && IsSuspicious(e)
    decreases |entries|
  {
    if |entries| > 0 {
      var front, last := entries[..|entries| - 1], entries[|entries| - 1];
      assert entries == front + [last];
      EntryReportsIff(front, path);
      var tail := if IsSuspicious(last) then [SuspiciousFile(last.path, last.info.value.size, last.info.value.modTime)] else [];
      assert EntryReports(entries) == EntryReports(front) + tail;
      if exists line | line in EntryReports(entries) :: line.path == path {
        var line :| line in EntryReports(entries) && line.path == path;
        if line !in EntryReports(front) {
          assert line in tail;
          assert last in entries;
        }
      }
      if exists e | e in entries :: e.path == path && IsSuspicious(e) {
        var e :| e in entries && e.path == path && IsSuspicious(e);
        if e == last {
          assert tail[0] in EntryReports(entries);
        } else {
          assert e in front;
        }
      }
    }
  }

  /** The lines for the roots: each root's heading, then its walk's reports. */
  function SearchLines(roots: seq<string>, walk: string -> seq<WalkEntry>): seq<FileLine>
    decreases |roots|
  {
    if |roots| == 0 then []
    else
      var front, last := roots[..|roots| - 1], roots[|roots| - 1];
      SearchLines(front, walk) + [CheckingDir(last)] + EntryReports(walk(last))
  }

  /** One `filepath.Walk`: the callback applied to every visited entry in order. */
  method WalkRoot(entries: seq<WalkEntry>) returns (reports: seq<FileLine>)
    ensures reports == EntryReports(entries)
  {
    reports := [];
    for j := 0 to |entries|
      invariant reports == EntryReports(entries[..j])
    {
      assert entries[..j + 1][..j] == entries[..j];
      var found := VisitEntry(entries[j]);
      reports := reports + found;
    }
    assert entries[..|entries|] == entries;
  }

  /** `checkSuspiciousFiles`: walks each of the four roots, `walk(root)` being the
      entries the walk visits with their information or error. The callback
      always returns nil, so no walk reports an error. */
  method CheckSuspiciousFiles(env: string -> string, walk: string -> seq<WalkEntry>)
    returns (lines: seq<FileLine>)
    ensures lines == SearchLines(SuspiciousRoots(env), walk)
  {
    var roots := SuspiciousRoots(env);
    lines := [];
    for i := 0 to |roots|
      invariant lines == SearchLines(roots[..i], walk)
    {
      assert roots[..i + 1][..i] == roots[..i];
      var root := roots[i];
      var reports := WalkRoot(walk(root));
      lines := lines + [CheckingDir(root)] + reports;
    }
    assert roots[..|roots|] == roots;
  }

  /** Lower-casing keeps dots and path separators, and nothing else becomes one. */
  lemma LowerCharKeeps(c: char)
    ensures LowerChar(c) == '.' <==> c == '.'
    ensures IsPathSeparator(LowerChar(c)) <==> IsPathSeparator(c)
  {
  }

  /** Lower-casing a path does not move where its extension starts. */
  lemma {:induction false} ExtBeforeLowerLength(path: string, n: nat)
    requires n <= |path|
    ensures |ExtBefore(ToLower(path), n)| == |ExtBefore(path, n)|
    decreases n
  {
    if n > 0 {
      LowerCharKeeps(path[n - 1]);
      assert ToLower(path)[n - 1] == LowerChar(path[n - 1]);
      if !IsPathSeparator(path[n - 1]) && path[n - 1] != '.' {
        ExtBeforeLowerLength(path, n - 1);
      }
    }
  }

  /** The extension found scanning back from `n` is a suffix of the path. */
  lemma {:induction false} ExtBeforeSuffix(path: string, n: nat)
    requires n <= |path|
    ensures ExtBefore(path, n) == path[|path| - |ExtBefore(path, n)|..]
    decreases n
  {
    if n > 0 && !IsPathSeparator(path[n - 1]) && path[n - 1] != '.' {
      ExtBeforeSuffix(path, n - 1);
    }
  }

  /** Lower-casing a path and taking its extension commute. */
  lemma ExtLower(path: string)
    ensures Ext(ToLower(path)) == ToLower(Ext(path))
  {
    var lower := ToLower(path);
    ExtBeforeLowerLength(path, |path|);
    ExtBeforeSuffix(path, |path|);
    ExtBeforeSuffix(lower, |lower|);
    var e, le := Ext(path), Ext(lower);
    var start := |path| - |e|;
    assert |le| == |e| && |lower| == |path|;
    forall k | 0 <= k < |e| ensures le[k] == ToLower(e)[k] {
      assert le[k] == lower[start + k];
      assert e[k] == path[start + k];
    }
  }

  /** Extension matching ignores ASCII case: paths that agree once lower-cased
      are both suspicious or both not. */
  lemma ExtMatchIgnoresCase(p: string, q: string)
    requires ToLower(p) == ToLower(q)
    ensures HasSuspiciousExt(p) <==> HasSuspiciousExt(q)
  {
    ExtLower(p);
    ExtLower(q);
  }
}
