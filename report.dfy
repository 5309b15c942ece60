/** The audit report of windows_report.go: the finding record, the list that
    collectors append to, the severity counts, the report built from them, its
    rendering as an ordered document of blocks, and the timestamped file name. */
module Report {
  import opened Wrappers

  /** One finding, as contributed by a collector. */
  datatype CheckResult = CheckResult(
    category: string, description: string, severity: string, status: string, details: string)

  /** The data handed to the report template. */
  datatype Report = Report(
    timestamp: string, systemInfo: string, checkResults: seq<CheckResult>,
    totalIssues: int, criticalCount: int, warningCount: int, infoCount: int)

  const Critical: string := "critical"
  const Warning: string := "warning"
  const Info: string := "info"

  /** The three severities the counting switch recognises. */
  predicate KnownSeverity(sev: string) {
    sev == Critical || sev == Warning || sev == Info
  }

  /** The slice of results that `addCheckResult` updates through its `*[]CheckResult` parameter. */
  class ResultList {
    var results: seq<CheckResult>

    constructor ()
      ensures results == []
    {
      results := [];
    }

    /** `addCheckResult`: appends one record with the five given fields. */
    method AddCheckResult(category: string, description: string, severity: string, status: string, details: string)
      modifies this
      ensures results == old(results) + [CheckResult(category, description, severity, status, details)]
    {
      results := results + [CheckResult(category, description, severity, status, details)];
    }
  }

  /** Number of results whose severity is exactly `sev`. */
  function CountSeverity(rs: seq<CheckResult>, sev: string): nat
    decreases |rs|
  {
    if |rs| == 0 then 0
    else CountSeverity(rs[..|rs| - 1], sev) + (if rs[|rs| - 1].severity == sev then 1 else 0)
  }

  /** Two findings, a warning then an info, count as one of each and none critical. */
  lemma CountScenario()
    ensures var rs := [CheckResult("Guest Account", "checked", Warning, "Active", ""),
                       CheckResult("UAC", "checked", Info, "Enabled", "")];
      |rs| == 2 && CountSeverity(rs, Warning) == 1 && CountSeverity(rs, Info) == 1
      && CountSeverity(rs, Critical) == 0
  {
    var rs := [CheckResult("Guest Account", "checked", Warning, "Active", ""),
               CheckResult("UAC", "checked", Info, "Enabled", "")];
    assert rs[..1] == [rs[0]] && rs[..1][..0] == [];
    assert Warning != Info && Warning != Critical && Info != Critical;
    assert CountSeverity(rs[..1], Warning) == 1 && CountSeverity(rs[..1], Info) == 0;
    assert CountSeverity(rs[..1], Critical) == 0;
    assert rs[..|rs| - 1] == rs[..1];
  }

  /** The indices of the results whose severity is exactly `sev`. */
  ghost function SeverityIndices(rs: seq<CheckResult>, sev: string): set<nat> {
    set i: nat | i < |rs| && rs[i].severity == sev
  }

  /** The count is the number of positions holding that severity. */
  lemma {:induction false} CountSeverityIsIndexCount(rs: seq<CheckResult>, sev: string)
    ensures CountSeverity(rs, sev) == |SeverityIndices(rs, sev)|
    decreases |rs|
  {
    if |rs| > 0 {
      var front := rs[..|rs| - 1];
      CountSeverityIsIndexCount(front, sev);
      var last := |rs| - 1;
      if rs[last].severity == sev {
        assert SeverityIndices(rs, sev) == SeverityIndices(front, sev) + {last};
        assert last !in SeverityIndices(front, sev);
      } else {
        assert SeverityIndices(rs, sev) == SeverityIndices(front, sev);
      }
    }
  }

  /** Appending one result adds one to its own severity's count and to no other. */
  lemma CountAppend(rs: seq<CheckResult>, r: CheckResult, sev: string)
    ensures CountSeverity(rs + [r], sev) == CountSeverity(rs, sev) + (if r.severity == sev then 1 else 0)
  {
    assert (rs + [r])[..|rs|] == rs;
  }

  /** The three buckets never hold more than all results, and hold exactly all of
      them when every severity is one of the three known strings. */
  lemma {:induction false} BucketsBound(rs: seq<CheckResult>)
    ensures CountSeverity(rs, Critical) + CountSeverity(rs, Warning) + CountSeverity(rs, Info) <= |rs|
    ensures CountSeverity(rs, Critical) + CountSeverity(rs, Warning) + CountSeverity(rs, Info) == |rs|
            <==> forall i | 0 <= i < |rs| :: KnownSeverity(rs[i].severity)
    decreases |rs|
  {
    if |rs| > 0 {
      var front := rs[..|rs| - 1];
      BucketsBound(front);
      assert forall i | 0 <= i < |front| :: front[i] == rs[i];
    }
  }

  /** Output blocks of the report template, in document order. */
  datatype Block =
    | Header(timestamp: string)
    | Summary(systemInfo: string, total: int, critical: int, warning: int, info: int)
      /** One `<div class="issue {severity}">`; `statusClass` follows `status-`. */
    | Issue(category: string, description: string, severity: string,
            statusClass: string, status: string, details: Option<string>)

  /** The status literal that the template shows in the "ok" style. */
  const NormalStatus: string := "正常"

  /** The block the template emits for one result. */
  function IssueOf(r: CheckResult): (b: Block)
    ensures b.Issue? && b.category == r.category && b.description == r.description
    ensures b.severity == r.severity && b.status == r.status
    ensures b.statusClass == (if r.status == NormalStatus then "ok" else "error")
    ensures b.details.Some? <==> r.details != ""
    ensures b.details.Some? ==> b.details.value == r.details
  {
    Issue(r.category, r.description, r.severity,
          if r.status == NormalStatus then "ok" else "error", r.status,
          if r.details == "" then None else Some(r.details))
  }

  /** The template: header, summary with the four counts, then one issue block
      per result in list order. */
  function Render(rep: Report): seq<Block> {
    [Header(rep.timestamp),
     Summary(rep.systemInfo, rep.totalIssues, rep.criticalCount, rep.warningCount, rep.infoCount)]
    + seq(|rep.checkResults|, i requires 0 <= i < |rep.checkResults| => IssueOf(rep.checkResults[i]))
  }

  /** Reads the results back out of a sequence of issue blocks. */
  function ParseIssues(bs: seq<Block>): Option<seq<CheckResult>>
    decreases |bs|
  {
    if |bs| == 0 then Some([])
    else if !bs[0].Issue? then None
    else match ParseIssues(bs[1..])
      case None => None
      case Some(rest) =>
        var b := bs[0];
        Some([CheckResult(b.category, b.description, b.severity, b.status, b.details.GetOr(""))] + rest)
  }

  /** Reads a report back out of a rendered document. */
  function Parse(doc: seq<Block>): Option<Report> {
    if |doc| < 2 || !doc[0].Header? || !doc[1].Summary? then None
    else match ParseIssues(doc[2..])
      case None => None
      case Some(rs) =>
        var s := doc[1];
        Some(Report(doc[0].timestamp, s.systemInfo, rs, s.total, s.critical, s.warning, s.info))
  }

  lemma {:induction false} ParseIssuesRoundTrip(rs: seq<CheckResult>)
    ensures ParseIssues(seq(|rs|, i requires 0 <= i < |rs| => IssueOf(rs[i]))) == Some(rs)
    decreases |rs|
  {
    var bs := seq(|rs|, i requires 0 <= i < |rs| => IssueOf(rs[i]));
    if |rs| > 0 {
      var tail := rs[1..];
      ParseIssuesRoundTrip(tail);
      assert bs[1..] == seq(|tail|, i requires 0 <= i < |tail| => IssueOf(tail[i]));
      assert rs == [rs[0]] + tail;
    }
  }

  /** The rendered document gives back the timestamp, the system information, the
      four counts and every result, in order, with all five fields. */
  lemma RenderRoundTrip(rep: Report)
    ensures Parse(Render(rep)) == Some(rep)
  {
    var doc := Render(rep);
    var rs := rep.checkResults;
    assert doc[2..] == seq(|rs|, i requires 0 <= i < |rs| => IssueOf(rs[i]));
    ParseIssuesRoundTrip(rs);
  }

  // ---- Timestamps ----

  /** A wall-clock reading, as `time.Now()` gives it. */
  datatype DateTime = DateTime(year: nat, month: nat, day: nat, hour: nat, minute: nat, second: nat)

  predicate ValidDateTime(t: DateTime) {
    t.year < 10000 && 1 <= t.month <= 12 && 1 <= t.day <= 31
    && t.hour < 24 && t.minute < 60 && t.second < 60
  }

  function DigitChar(d: nat): char
    requires d < 10
  {
    ('0' as int + d) as char
  }

  predicate IsDigit(c: char) {
    '0' <= c <= '9'
  }

  /** Decimal digits of `n`, without leading zeros ("0" for zero). */
  function Digits(n: nat): (s: string)
    ensures 1 <= |s|
    ensures forall k | 0 <= k < |s| :: IsDigit(s[k])
    decreases n
  {
    if n < 10 then [DigitChar(n)] else Digits(n / 10) + [DigitChar(n % 10)]
  }

  function Zeros(k: nat): (s: string)
    ensures |s| == k
    ensures forall c | c in s :: c == '0'
  {
    seq(k, _ => '0')
  }

  /** Go's layout fields: `n` in decimal, zero-padded to at least `width` digits. */
  function Pad(n: nat, width: nat): string {
    var d := Digits(n);
    if |d| < width then Zeros(width - |d|) + d else d
  }

  /** The value of a string of decimal digits. */
  function Value(s: string): nat
    decreases |s|
  {
    if |s| == 0 then 0
    else Value(s[..|s| - 1]) * 10 + (if IsDigit(s[|s| - 1]) then s[|s| - 1] as int - '0' as int else 0)
  }

  function Pow10(k: nat): nat {
    if k == 0 then 1 else 10 * Pow10(k - 1)
  }

  lemma {:induction false} DigitsRoundTrip(n: nat)
    ensures Value(Digits(n)) == n
    decreases n
  {
    if n >= 10 {
      DigitsRoundTrip(n / 10);
      var s := Digits(n);
      assert s[..|s| - 1] == Digits(n / 10);
    }
  }

  lemma {:induction false} DigitsLength(n: nat, width: nat)
    requires 1 <= width && n < Pow10(width)
    ensures |Digits(n)| <= width
    decreases n
  {
    if n >= 10 {
      assert width >= 2;
      assert n / 10 < Pow10(width - 1);
      DigitsLength(n / 10, width - 1);
    }
  }

  lemma {:induction false} ValueLeadingZeros(k: nat, s: string)
    ensures Value(Zeros(k) + s) == Value(s)
    decreases |s|
  {
    if |s| == 0 {
      assert Zeros(k) + s == Zeros(k);
      ValueOfZeros(k);
    } else {
      var front := s[..|s| - 1];
      ValueLeadingZeros(k, front);
      assert (Zeros(k) + s)[..|Zeros(k) + s| - 1] == Zeros(k) + front;
    }
  }

  lemma {:induction false} ValueOfZeros(k: nat)
    ensures Value(Zeros(k)) == 0
    decreases k
  {
    if k > 0 {
      ValueOfZeros(k - 1);
      assert Zeros(k)[..k - 1] == Zeros(k - 1);
    }
  }

  /** A padded field is exactly `width` digits long and reads back as `n`. */
  lemma PadRoundTrip(n: nat, width: nat)
    requires 1 <= width && n < Pow10(width)
    ensures |Pad(n, width)| == width
    ensures forall k | 0 <= k < width :: IsDigit(Pad(n, width)[k])
    ensures Value(Pad(n, width)) == n
  {
    DigitsLength(n, width);
    DigitsRoundTrip(n);
    ValueLeadingZeros(width - |Digits(n)|, Digits(n));
    assert Pad(n, width) == Zeros(width - |Digits(n)|) + Digits(n);
  }

  /** `Format("2006-01-02 15:04:05")`, the timestamp shown in the report. */
  function DisplayStamp(t: DateTime): string {
    DisplayDate(t) + " " + DisplayTime(t)
  }

  function DisplayDate(t: DateTime): string {
    Pad(t.year, 4) + "-" + Pad(t.month, 2) + "-" + Pad(t.day, 2)
  }

  function DisplayTime(t: DateTime): string {
    Pad(t.hour, 2) + ":" + Pad(t.minute, 2) + ":" + Pad(t.second, 2)
  }

  const ReportDir: string := "reports"
  /** `filepath.Join("reports", ...)` on Windows, up to the timestamp. */
  const PathPrefix: string := "reports\\report_"

  /** `Format("20060102_150405")`, the timestamp in the file name. */
  function FileStamp(t: DateTime): string {
    Pad(t.year, 4) + Pad(t.month, 2) + Pad(t.day, 2) + "_" + Pad(t.hour, 2) + Pad(t.minute, 2) + Pad(t.second, 2)
  }

  /** The path the report is written to. */
  function ReportPath(t: DateTime): string {
    PathPrefix + FileStamp(t) + ".html"
  }

  /** Reads the date and time back out of a file stamp. */
  function ParseFileStamp(s: string): Option<DateTime> {
    if |s| != 15 || s[8] != '_' then None
    else Some(DateTime(Value(s[0..4]), Value(s[4..6]), Value(s[6..8]),
                       Value(s[9..11]), Value(s[11..13]), Value(s[13..15])))
  }

  /** The file stamp is 8 digits, '_', 6 digits, and gives back the time it was made from. */
  lemma FileStampRoundTrip(t: DateTime)
    requires ValidDateTime(t)
    ensures |FileStamp(t)| == 15 && FileStamp(t)[8] == '_'
    ensures forall k | 0 <= k < 15 && k != 8 :: IsDigit(FileStamp(t)[k])
    ensures ParseFileStamp(FileStamp(t)) == Some(t)
  {
    assert Pow10(2) == 100 && Pow10(4) == 10000;
    PadRoundTrip(t.year, 4);
    PadRoundTrip(t.month, 2);
    PadRoundTrip(t.day, 2);
    PadRoundTrip(t.hour, 2);
    PadRoundTrip(t.minute, 2);
    PadRoundTrip(t.second, 2);
    var y, mo, d := Pad(t.year, 4), Pad(t.month, 2), Pad(t.day, 2);
    var h, mi, se := Pad(t.hour, 2), Pad(t.minute, 2), Pad(t.second, 2);
    var s := FileStamp(t);
    assert s == y + mo + d + "_" + h + mi + se;
    assert s[0..4] == y && s[4..6] == mo && s[6..8] == d;
    assert s[9..11] == h && s[11..13] == mi && s[13..15] == se;
  }

  /** Three fields joined by one separator character are found at fixed offsets. */
  lemma FieldsAt(a: string, b: string, c: string, sep: char)
    ensures var s := a + [sep] + b + [sep] + c;
      && |s| == |a| + |b| + |c| + 2 && s[|a|] == sep && s[|a| + 1 + |b|] == sep
      && s[..|a|] == a && s[|a| + 1..|a| + 1 + |b|] == b && s[|a| + |b| + 2..] == c
  {
  }

  /** Reads three numeric fields of widths `w1`, `w2`, `w3` joined by `sep`. */
  function ParseFields(s: string, w1: nat, w2: nat, w3: nat, sep: char): Option<(nat, nat, nat)> {
    if |s| != w1 + w2 + w3 + 2 || s[w1] != sep || s[w1 + 1 + w2] != sep then None
    else Some((Value(s[..w1]), Value(s[w1 + 1..w1 + 1 + w2]), Value(s[w1 + w2 + 2..])))
  }

  /** Reads the date and time back out of a displayed stamp. */
  function ParseDisplayStamp(s: string): Option<DateTime> {
    if |s| != 19 || s[10] != ' ' then None
    else match (ParseFields(s[..10], 4, 2, 2, '-'), ParseFields(s[11..], 2, 2, 2, ':'))
      case (Some((y, mo, d)), Some((h, mi, se))) => Some(DateTime(y, mo, d, h, mi, se))
      case _ => None
  }

  /** The displayed stamp is "YYYY-MM-DD hh:mm:ss" and gives back the time it was made from. */
  lemma DisplayStampRoundTrip(t: DateTime)
    requires ValidDateTime(t)
    ensures |DisplayStamp(t)| == 19
    ensures ParseDisplayStamp(DisplayStamp(t)) == Some(t)
  {
    assert Pow10(2) == 100 && Pow10(4) == 10000;
    PadRoundTrip(t.year, 4);
    PadRoundTrip(t.month, 2);
    PadRoundTrip(t.day, 2);
    PadRoundTrip(t.hour, 2);
    PadRoundTrip(t.minute, 2);
    PadRoundTrip(t.second, 2);
    FieldsAt(Pad(t.year, 4), Pad(t.month, 2), Pad(t.day, 2), '-');
    FieldsAt(Pad(t.hour, 2), Pad(t.minute, 2), Pad(t.second, 2), ':');
    var date, time := DisplayDate(t), DisplayTime(t);
    assert date == Pad(t.year, 4) + ['-'] + Pad(t.month, 2) + ['-'] + Pad(t.day, 2);
    assert time == Pad(t.hour, 2) + [':'] + Pad(t.minute, 2) + [':'] + Pad(t.second, 2);
    assert ParseFields(date, 4, 2, 2, '-') == Some((t.year, t.month, t.day));
    assert ParseFields(time, 2, 2, 2, ':') == Some((t.hour, t.minute, t.second));
    var s := DisplayStamp(t);
    assert s[..10] == date && s[11..] == time;
  }

  /** Reports made at different seconds never share a file name. */
  lemma ReportPathInjective(t1: DateTime, t2: DateTime)
    requires ValidDateTime(t1) && ValidDateTime(t2)
    requires ReportPath(t1) == ReportPath(t2)
    ensures t1 == t2
  {
    FileStampRoundTrip(t1);
    FileStampRoundTrip(t2);
    var n := |PathPrefix|;
    assert FileStamp(t1) == ReportPath(t1)[n..n + 15];
    assert FileStamp(t2) == ReportPath(t2)[n..n + 15];
  }

  // ---- generateReport ----

  /** The four ways `generateReport` can fail, in the order it checks them. */
  datatype ReportError = MkdirFailed | ParseFailed | ExecuteFailed | WriteFailed

  /** What the file system, the template engine and the clock answer during one call:
      `MkdirAll`, `Parse`, `Execute` and `WriteFile` succeed or not, and `time.Now()`
      is read once for the shown timestamp and once more for the file name. */
  datatype ReportEnv = ReportEnv(
    mkdirOk: bool, parseOk: bool, executeOk: bool, writeOk: bool,
    stampTime: DateTime, fileTime: DateTime)

  /** A written report: where, the data it was rendered from, and the document. */
  datatype ReportFile = ReportFile(path: string, report: Report, document: seq<Block>)

  /** `generateReport`: creates the directory, counts the severities in one pass,
      builds the report, renders it and writes it. */
  method GenerateReport(results: seq<CheckResult>, sysInfo: string, env: ReportEnv)
    returns (res: Result<ReportFile, ReportError>)
    ensures !env.mkdirOk ==> res == Failure(MkdirFailed)
    ensures env.mkdirOk && !env.parseOk ==> res == Failure(ParseFailed)
    ensures env.mkdirOk && env.parseOk && !env.executeOk ==> res == Failure(ExecuteFailed)
    ensures env.mkdirOk && env.parseOk && env.executeOk && !env.writeOk ==> res == Failure(WriteFailed)
    ensures res.Success? <==> env.mkdirOk && env.parseOk && env.executeOk && env.writeOk
    ensures res.Success? ==> res.value.path == ReportPath(env.fileTime)
    ensures res.Success? ==> res.value.report == Report(
              DisplayStamp(env.stampTime), sysInfo, results, |results|,
              CountSeverity(results, Critical), CountSeverity(results, Warning), CountSeverity(results, Info))
    ensures res.Success? ==> res.value.document == Render(res.value.report)
  {
    if !env.mkdirOk {
      return Failure(MkdirFailed);
    }
    var criticalCount, warningCount, infoCount := 0, 0, 0;
    for i := 0 to |results|
      invariant criticalCount == CountSeverity(results[..i], Critical)
      invariant warningCount == CountSeverity(results[..i], Warning)
      invariant infoCount == CountSeverity(results[..i], Info)
    {
      assert results[..i + 1][..i] == results[..i];
      var severity := results[i].severity;
      if severity == Critical {
        criticalCount := criticalCount + 1;
      } else if severity == Warning {
        warningCount := warningCount + 1;
      } else if severity == Info {
        infoCount := infoCount + 1;
      }
    }
    assert results[..|results|] == results;
    var report := Report(DisplayStamp(env.stampTime), sysInfo, results, |results|,
                         criticalCount, warningCount, infoCount);
    if !env.parseOk {
      return Failure(ParseFailed);
    }
    if !env.executeOk {
      return Failure(ExecuteFailed);
    }
    var document := Render(report);
    if !env.writeOk {
      return Failure(WriteFailed);
    }
    return Success(ReportFile(ReportPath(env.fileTime), report, document));
  }
}
