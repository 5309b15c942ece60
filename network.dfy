/** The network collectors of windows_network.go that decide what to report:
    the suspicious-port table and the per-connection warnings, the firewall-rule
    filter, the DNS segment split and the error and drop sums of the traffic
    listing. The queries (`net.Connections`, `netsh`, `ipconfig`,
    `net.IOCounters`) are inputs. */
module Network {
  import opened Wrappers
  import opened Seqs
  import opened Text
  import opened Encoding
  import opened Samples

  /** `suspiciousPorts`: well-known service ports worth a warning. */
  const SuspiciousPorts: map<int, string> := map[
    22 := "SSH",
    23 := "Telnet",
    445 := "SMB",
    1433 := "MSSQL",
    3306 := "MySQL",
    3389 := "RDP",
    4444 := "Metasploit",
    5432 := "PostgreSQL",
    5900 := "VNC",
    6379 := "Redis",
    27017 := "MongoDB"
  ]

  /** The table holds exactly the eleven listed ports. */
  lemma SuspiciousPortsDomain(port: int)
    ensures port in SuspiciousPorts <==>
      port in [22, 23, 445, 1433, 3306, 3389, 4444, 5432, 5900, 6379, 27017]
    ensures port in SuspiciousPorts ==> |SuspiciousPorts[port]| > 0
  {
  }

  // ---- analyzeNetworkConnections ----

  /** One warning block of `analyzeNetworkConnections`. */
  datatype Alert =
    | Listening(port: nat, service: string, process: string, pid: int, status: string)
    | Remote(remote: Addr, service: string, local: Addr, process: string, pid: int, status: string)

  /** The warnings for one connection whose process is `name`: the local port's
      first, then the remote port's, each exactly when that port is in the table. */
  function AlertsOf(c: Connection, name: string): (r: seq<Alert>)
    ensures |r| == (if c.laddr.port in SuspiciousPorts then 1 else 0)
                 + (if c.raddr.port in SuspiciousPorts then 1 else 0)
    ensures c.laddr.port in SuspiciousPorts ==>
      r[0] == Listening(c.laddr.port, SuspiciousPorts[c.laddr.port], name, c.pid, c.status)
    ensures c.raddr.port in SuspiciousPorts ==>
      r[|r| - 1] == Remote(c.raddr, SuspiciousPorts[c.raddr.port], c.laddr, name, c.pid, c.status)
  {
    (if c.laddr.port in SuspiciousPorts
     then [Listening(c.laddr.port, SuspiciousPorts[c.laddr.port], name, c.pid, c.status)]
     else [])
    + (if c.raddr.port in SuspiciousPorts
       then [Remote(c.raddr, SuspiciousPorts[c.raddr.port], c.laddr, name, c.pid, c.status)]
       else [])
  }

  /** The warnings of `analyzeNetworkConnections` for the enumerated connections.
      `lookup(pid)` is None when the owning process cannot be opened, and otherwise
      the name `proc.Name` gives ("" when that query fails). */
  function ConnectionAlerts(conns: seq<Connection>, lookup: int -> Option<string>): seq<Alert>
    decreases |conns|
  {
    if |conns| == 0 then []
    else
      var front, last := conns[..|conns| - 1], conns[|conns| - 1];
      ConnectionAlerts(front, lookup)
      + (match lookup(last.pid) case None => [] case Some(name) => AlertsOf(last, name))
  }

  /** The warnings of a run are those of its parts, in order. */
  lemma {:induction false} ConnectionAlertsConcat(a: seq<Connection>, b: seq<Connection>, lookup: int -> Option<string>)
    ensures ConnectionAlerts(a + b, lookup) == ConnectionAlerts(a, lookup) + ConnectionAlerts(b, lookup)
    decreases |b|
  {
    if |b| == 0 {
      assert a + b == a;
    } else {
      var front, last := b[..|b| - 1], b[|b| - 1];
      assert (a + b)[..|a + b| - 1] == a + front;
      assert (a + b)[|a + b| - 1] == last;
      ConnectionAlertsConcat(a, front, lookup);
    }
  }

  /** A single connection gives its own warnings, or none when its process cannot be opened. */
  lemma ConnectionAlertsSingle(c: Connection, lookup: int -> Option<string>)
    ensures ConnectionAlerts([c], lookup) == if lookup(c.pid).Some? then AlertsOf(c, lookup(c.pid).value) else []
  {
    assert [c][..0] == [];
  }

  /** A connection whose process cannot be opened produces no warning, wherever it is. */
  lemma UnopenableSilent(a: seq<Connection>, c: Connection, b: seq<Connection>, lookup: int -> Option<string>)
    requires lookup(c.pid).None?
    ensures ConnectionAlerts(a + [c] + b, lookup) == ConnectionAlerts(a + b, lookup)
  {
    ConnectionAlertsConcat(a + [c], b, lookup);
    ConnectionAlertsConcat(a, [c], lookup);
    ConnectionAlertsConcat(a, b, lookup);
    ConnectionAlertsSingle(c, lookup);
  }

  datatype ConnectionsReport = ConnectionsError(message: string) | Warnings(alerts: seq<Alert>)

  /** `analyzeNetworkConnections`: a failed enumeration stops with its error;
      otherwise the alerts of the connections, examined in enumeration order. */
  function AnalyzeNetworkConnections(conns: Result<seq<Connection>, string>, lookup: int -> Option<string>)
    : (r: ConnectionsReport)
    ensures conns.Failure? <==> r.ConnectionsError?
    ensures conns.Failure? ==> r.message == conns.error
    ensures conns.Success? ==> r == Warnings(ConnectionAlerts(conns.value, lookup))
  {
    match conns
    case Failure(e) => ConnectionsError(e)
    case Success(cs) => Warnings(ConnectionAlerts(cs, lookup))
  }

  // ---- analyzeFirewallRules ----

  const RuleSeparator: string := "\r\n\r\n"
  const Allow: string := "允许"
  const Inbound: string := "入站"

  /** The firewall-rule test: the block mentions both "allow" and "inbound". */
  predicate IsInboundAllow(rule: string) {
    Contains(rule, Allow) && Contains(rule, Inbound)
  }

  /** The rule blocks of the `netsh` output. */
  function RuleBlocks(text: string): seq<string> {
    Split(text, RuleSeparator)
  }

  datatype CommandReport = CommandError(message: string) | Blocks(blocks: seq<string>)

  /** `analyzeFirewallRules`: a failed `netsh` stops with its error; otherwise
      the decoded output's blocks that allow inbound traffic, in order. */
  function AnalyzeFirewallRules(output: Result<string, string>, decode: string -> Option<string>)
    : (r: CommandReport)
    ensures output.Failure? <==> r.CommandError?
    ensures output.Failure? ==> r.message == output.error
    ensures output.Success? ==>
      var blocks := RuleBlocks(CallerText(output.value, decode));
      && (forall k | 0 <= k < |r.blocks| :: r.blocks[k] in blocks && IsInboundAllow(r.blocks[k]))
      && (forall k | 0 <= k < |blocks| && IsInboundAllow(blocks[k]) :: blocks[k] in r.blocks)
  {
    match output
    case Failure(e) => CommandError(e)
    case Success(raw) => Blocks(Filter(RuleBlocks(CallerText(raw, decode)), IsInboundAllow))
  }

  /** The blocks tile the output: joined with the separator they give it back, and
      none of them contains the separator. */
  lemma RuleBlocksTile(text: string)
    ensures Join(RuleBlocks(text), RuleSeparator) == text
    ensures forall b | b in RuleBlocks(text) :: !Contains(b, RuleSeparator)
  {
    SplitJoin(text, RuleSeparator);
    SplitPiecesFree(text, RuleSeparator);
  }

  // ---- checkDNSSettings ----

  const DnsMarker: string := "DNS 服务器"

  /** `checkDNSSettings`' segments: when the marker occurs, the pieces after each
      occurrence of it. */
  function DnsSegments(text: string): seq<string> {
    if Contains(text, DnsMarker) then Split(text, DnsMarker)[1..] else []
  }

  /** No segment is printed exactly when the marker is absent; the guard in front
      of the split changes nothing; and the text is the piece before the first
      marker followed by marker and segment, for each segment in turn. */
  lemma DnsSegmentsMeaning(text: string)
    ensures DnsSegments(text) == [] <==> !Contains(text, DnsMarker)
    ensures DnsSegments(text) == Split(text, DnsMarker)[1..]
    ensures Join([Split(text, DnsMarker)[0]] + DnsSegments(text), DnsMarker) == text
    ensures forall seg | seg in DnsSegments(text) :: !Contains(seg, DnsMarker)
  {
    var parts := Split(text, DnsMarker);
    SplitSingleIffAbsent(text, DnsMarker);
    SplitJoin(text, DnsMarker);
    SplitPiecesFree(text, DnsMarker);
    assert parts == [parts[0]] + parts[1..];
    forall seg | seg in DnsSegments(text) ensures !Contains(seg, DnsMarker) {
      assert seg in parts;
    }
  }

  /** `checkDNSSettings`: a failed `ipconfig` stops with its error; otherwise the
      segments after each "DNS 服务器" of the decoded output. */
  function CheckDnsSettings(output: Result<string, string>, decode: string -> Option<string>)
    : (r: CommandReport)
    ensures output.Failure? <==> r.CommandError?
    ensures output.Failure? ==> r.message == output.error
    ensures output.Success? ==> r.blocks == DnsSegments(CallerText(output.value, decode))
    ensures output.Success? ==> r.blocks == Split(CallerText(output.value, decode), DnsMarker)[1..]
    ensures output.Success? ==>
      (r.blocks == [] <==> !Contains(CallerText(output.value, decode), DnsMarker))
  {
    match output
    case Failure(e) => CommandError(e)
    case Success(raw) =>
      DnsSegmentsMeaning(CallerText(raw, decode));
      Blocks(DnsSegments(CallerText(raw, decode)))
  }

  // ---- analyzeNetworkTraffic ----

  const TwoTo64: int := 0x1_0000_0000_0000_0000

  /** Go's `uint64`. */
  newtype u64 = x: int | 0 <= x < TwoTo64

  /** Addition of two `uint64` values, wrapping at 2^64. */
  function AddU64(a: u64, b: u64): (r: u64)
    ensures a as int + b as int < TwoTo64 ==> r as int == a as int + b as int
    ensures a as int + b as int >= TwoTo64 ==> r as int == a as int + b as int - TwoTo64
  {
    ((a as int + b as int) % TwoTo64) as u64
  }

  /** A sum wraps exactly when it comes out below one of its operands. */
  lemma AddU64WrapDetect(a: u64, b: u64)
    ensures AddU64(a, b) < a <==> a as int + b as int >= TwoTo64
    ensures AddU64(a, b) == AddU64(b, a)
  {
  }

  /** One entry of `net.IOCounters(true)`. */
  datatype IOCountersStat = IOCountersStat(
    name: string, bytesSent: u64, bytesRecv: u64, packetsSent: u64, packetsRecv: u64,
    errin: u64, errout: u64, dropin: u64, dropout: u64)

  /** The figures printed for one interface. */
  datatype TrafficLine = TrafficLine(
    name: string, bytesSent: u64, bytesRecv: u64, packetsSent: u64, packetsRecv: u64,
    errors: u64, drops: u64)

  function TrafficOf(io: IOCountersStat): (t: TrafficLine)
    ensures t.name == io.name && t.bytesSent == io.bytesSent && t.bytesRecv == io.bytesRecv
    ensures t.packetsSent == io.packetsSent && t.packetsRecv == io.packetsRecv
    ensures t.errors as int == (io.errin as int + io.errout as int) % TwoTo64
    ensures t.drops as int == (io.dropin as int + io.dropout as int) % TwoTo64
  {
    TrafficLine(io.name, io.bytesSent, io.bytesRecv, io.packetsSent, io.packetsRecv,
                AddU64(io.errin, io.errout), AddU64(io.dropin, io.dropout))
  }

  datatype TrafficReport = TrafficError(message: string) | Traffic(lines: seq<TrafficLine>)

  /** `analyzeNetworkTraffic`: one block per interface, in enumeration order. */
  function AnalyzeNetworkTraffic(stats: Result<seq<IOCountersStat>, string>): (r: TrafficReport)
    ensures stats.Failure? <==> r.TrafficError?
    ensures stats.Failure? ==> r.message == stats.error
    ensures stats.Success? ==> |r.lines| == |stats.value|
    ensures stats.Success? ==> forall k | 0 <= k < |r.lines| :: r.lines[k] == TrafficOf(stats.value[k])
  {
    match stats
    case Failure(e) => TrafficError(e)
    case Success(ios) => Traffic(seq(|ios|, k requires 0 <= k < |ios| => TrafficOf(ios[k])))
  }
}
