/** The built-in rule table (RULES in src/prom.c), column by column, and the proof that
    it is a good table. */
module RuleTable {
  import opened CStrings
  import opened Types
  import opened Rules

  const RULES_N: nat := 17

  function Plugin(i: nat): string
    requires i < RULES_N
  {
    ["cpu", "memory", "swap", "load", "uptime", "interface", "interface", "interface",
     "disk", "disk", "disk", "df", "processes", "processes", "processes", "thermal", "tcpconns"][i]
  }

  /** Position of the rule's type in the type table. */
  function TypeIndex(i: nat): (t: nat)
    requires i < RULES_N
    ensures t < |TABLE|
  {
    [0, 0, 13, 11, 12, 1, 2, 3, 4, 5, 6, 10, 7, 8, 9, 14, 15][i]
  }

  function Type(i: nat): string
    requires i < RULES_N
  {
    ["percent", "percent", "swap", "load", "uptime", "if_octets", "if_packets", "if_errors",
     "disk_ops", "disk_octets", "disk_time", "df_complex", "ps_rss", "ps_cputime", "ps_count",
     "temperature", "tcp_connections"][i]
  }

  function Family(i: nat): string
    requires i < RULES_N
  {
    ["svgd_cpu_percent", "svgd_memory_percent", "svgd_swap_bytes", "svgd_load", "svgd_uptime_seconds",
     "svgd_network_bytes_total", "svgd_network_packets_total", "svgd_network_errors_total",
     "svgd_disk_ops_total", "svgd_disk_bytes_total", "svgd_disk_io_time_ms_total",
     "svgd_filesystem_bytes", "svgd_process_rss_bytes", "svgd_process_cpu_jiffies_total",
     "svgd_process_count", "svgd_thermal_celsius", "svgd_tcp_connections"][i]
  }

  function PiLabel(i: nat): Option<string>
    requires i < RULES_N
  {
    [None, None, None, None, None, Some("device"), Some("device"), Some("device"),
     Some("device"), Some("device"), Some("device"), Some("fs"), Some("process"), Some("process"),
     Some("process"), Some("thermal_zone"), None][i]
  }

  function TiLabel(i: nat): Option<string>
    requires i < RULES_N
  {
    [Some("mode"), Some("type"), Some("state"), None, None, None, None, None,
     None, None, None, Some("state"), None, None, None, Some("type"), Some("state")][i]
  }

  function DsLabel(i: nat): Option<string>
    requires i < RULES_N
  {
    [None, None, None, Some("interval"), None, Some("direction"), Some("direction"), Some("direction"),
     Some("operation"), Some("operation"), Some("operation"), None, None, Some("mode"), Some("kind"),
     None, None][i]
  }

  function DsValues(i: nat): seq<string>
    requires i < RULES_N
  {
    [[], [], [], ["1m", "5m", "15m"], [],
     ["receive", "transmit"], ["receive", "transmit"], ["receive", "transmit"],
     ["read", "write"], ["read", "write"], ["read", "write"], [], [],
     ["user", "system"], ["processes", "threads"], [], []][i]
  }

  /** The long texts are split so that each part stays a short literal. */
  function Help(i: nat): string
    requires i < RULES_N
  {
    HelpHead(i) + HelpTail(i)
  }

  function HelpHead(i: nat): string
    requires i < RULES_N
  {
    ["CPU busy percentage ", "Memory utilization ", "Swap usage in bytes.", "System load average ",
     "System uptime in seconds.", "Network bytes transferred.", "Network packets transferred.",
     "Network receive/transmit ", "Disk I/O operations completed.", "Disk bytes read/written.",
     "Cumulative disk I/O time ", "Filesystem used/free bytes.", "Per-process-group ",
     "Per-process-group cumulative ", "Per-process-group ", "Thermal zone temperature ",
     "TCP socket count by "][i]
  }

  function HelpTail(i: nat): string
    requires i < RULES_N
  {
    ["(delta between samples).", "percentage by category.", "", "(1/5/15-minute).",
     "", "", "", "errors.", "", "", "in milliseconds.", "", "resident set size (bytes).",
     "CPU time (jiffies).", "instance and thread counts.", "(degrees Celsius).",
     "connection state."][i]
  }

  function RuleAt(i: nat): Rule
    requires i < RULES_N
  {
    Rule(Plugin(i), Type(i), Family(i), PiLabel(i), TiLabel(i), DsLabel(i), DsValues(i), Help(i))
  }

  function Table(): (t: seq<Rule>)
    ensures |t| == RULES_N
  {
    seq(RULES_N, i requires 0 <= i < RULES_N => RuleAt(i))
  }

  // ---- the table is good -----------------------------------------------------------

  lemma FamiliesDiffer(i: nat, j: nat)
    requires i < j < RULES_N
    ensures Family(i) != Family(j)
  {
  }

  lemma FamilyNames1()
    ensures IsName("svgd_cpu_percent")
    ensures IsName("svgd_memory_percent")
  {
  }

  lemma FamilyNames2()
    ensures IsName("svgd_swap_bytes")
    ensures IsName("svgd_load")
  {
  }

  lemma FamilyNames3()
    ensures IsName("svgd_uptime_seconds")
    ensures IsName("svgd_network_bytes_total")
  {
  }

  lemma FamilyNames4()
    ensures IsName("svgd_network_packets_total")
    ensures IsName("svgd_network_errors_total")
  {
  }

  lemma FamilyNames5()
    ensures IsName("svgd_disk_ops_total")
    ensures IsName("svgd_disk_bytes_total")
  {
  }

  lemma FamilyNames6()
    ensures IsName("svgd_disk_io_time_ms_total")
    ensures IsName("svgd_filesystem_bytes")
  {
  }

  lemma FamilyNames7()
    ensures IsName("svgd_process_rss_bytes")
    ensures IsName("svgd_process_cpu_jiffies_total")
  {
  }

  lemma FamilyNames8()
    ensures IsName("svgd_process_count")
    ensures IsName("svgd_thermal_celsius")
  {
  }

  lemma FamilyNames9()
    ensures IsName("svgd_tcp_connections")
  {
  }

  lemma FamiliesAreNames(i: nat)
    requires i < RULES_N
    ensures IsName(Family(i))
  {
    FamilyNames1();
    FamilyNames2();
    FamilyNames3();
    FamilyNames4();
    FamilyNames5();
    FamilyNames6();
    FamilyNames7();
    FamilyNames8();
    FamilyNames9();
  }

  lemma HelpIsPlain(i: nat)
    requires i < RULES_N
    ensures IsPlainText(Help(i))
  {
    HeadIsPlain(i);
    TailIsPlain(i);
  }

  lemma PlainHeads1()
    ensures IsPlainText("CPU busy percentage ")
    ensures IsPlainText("Memory utilization ")
    ensures IsPlainText("Swap usage in bytes.")
  {
  }

  lemma PlainHeads2()
    ensures IsPlainText("System load average ")
    ensures IsPlainText("System uptime in seconds.")
    ensures IsPlainText("Network bytes transferred.")
  {
  }

  lemma PlainHeads3()
    ensures IsPlainText("Network packets transferred.")
    ensures IsPlainText("Network receive/transmit ")
    ensures IsPlainText("Disk I/O operations completed.")
  {
  }

  lemma PlainHeads4()
    ensures IsPlainText("Disk bytes read/written.")
    ensures IsPlainText("Cumulative disk I/O time ")
    ensures IsPlainText("Filesystem used/free bytes.")
  {
  }

  lemma PlainHeads5()
    ensures IsPlainText("Per-process-group ")
    ensures IsPlainText("Per-process-group cumulative ")
    ensures IsPlainText("Thermal zone temperature ")
  {
  }

  lemma PlainHeads6()
    ensures IsPlainText("TCP socket count by ")
  {
  }

  lemma HeadIsPlain(i: nat)
    requires i < RULES_N
    ensures IsPlainText(HelpHead(i))
  {
    PlainHeads1();
    PlainHeads2();
    PlainHeads3();
    PlainHeads4();
    PlainHeads5();
    PlainHeads6();
  }

  lemma PlainTails1()
    ensures IsPlainText("(delta between samples).")
    ensures IsPlainText("percentage by category.")
    ensures IsPlainText("(1/5/15-minute).")
  {
  }

  lemma PlainTails2()
    ensures IsPlainText("errors.")
    ensures IsPlainText("in milliseconds.")
    ensures IsPlainText("resident set size (bytes).")
  {
  }

  lemma PlainTails3()
    ensures IsPlainText("CPU time (jiffies).")
    ensures IsPlainText("instance and thread counts.")
    ensures IsPlainText("(degrees Celsius).")
  {
  }

  lemma PlainTails4()
    ensures IsPlainText("connection state.")
  {
  }

  lemma TailIsPlain(i: nat)
    requires i < RULES_N
    ensures IsPlainText(HelpTail(i))
  {
    PlainTails1();
    PlainTails2();
    PlainTails3();
    PlainTails4();
  }

  lemma PiLabelsAreNames(i: nat)
    requires i < RULES_N
    ensures IsKey(PiLabel(i))
  {
  }

  lemma TiLabelsAreNames(i: nat)
    requires i < RULES_N
    ensures IsKey(TiLabel(i))
  {
  }

  lemma DsLabelsAreNames(i: nat)
    requires i < RULES_N
    ensures IsKey(DsLabel(i))
  {
  }

  lemma LabelsDiffer(i: nat)
    requires i < RULES_N
    ensures PiLabel(i).Some? ==> PiLabel(i) != TiLabel(i) && PiLabel(i) != DsLabel(i)
    ensures TiLabel(i).Some? ==> TiLabel(i) != DsLabel(i)
  {
  }

  lemma TypeIsInTable(i: nat)
    requires i < RULES_N
    ensures TABLE[TypeIndex(i)].name == Type(i)
  {
  }

  lemma SourceCounts(i: nat)
    requires i < RULES_N
    ensures DsLabel(i).Some? ==> |DsValues(i)| == |TABLE[TypeIndex(i)].ds|
    ensures DsLabel(i).None? ==> |TABLE[TypeIndex(i)].ds| == 1
  {
  }

  lemma DsValuesDiffer(i: nat)
    requires i < RULES_N
    ensures forall a, b :: 0 <= a < b < |DsValues(i)| ==> DsValues(i)[a] != DsValues(i)[b]
  {
  }

  lemma RuleIsGood(i: nat)
    requires i < RULES_N
    ensures GoodRule(RuleAt(i))
  {
    FamiliesAreNames(i);
    HelpIsPlain(i);
    PiLabelsAreNames(i);
    TiLabelsAreNames(i);
    DsLabelsAreNames(i);
    LabelsDiffer(i);
    TypeIsInTable(i);
    LookupFinds(TypeIndex(i));
    SourceCounts(i);
    DsValuesDiffer(i);
  }

  lemma TableRuleIsGood(i: nat)
    requires i < RULES_N
    ensures GoodRule(Table()[i])
  {
    RuleIsGood(i);
  }

  lemma TableFamiliesDiffer(i: nat, j: nat)
    requires i < j < RULES_N
    ensures Table()[i].family != Table()[j].family
  {
    FamiliesDiffer(i, j);
  }

  /** The built-in table meets everything the renderer relies on. */
  lemma TableIsGood()
    ensures GoodTable(Table())
  {
    var rules := Table();
    forall i | 0 <= i < |rules| ensures GoodRule(rules[i]) {
      TableRuleIsGood(i);
    }
    forall i, j | 0 <= i < j < |rules| ensures rules[i].family != rules[j].family {
      TableFamiliesDiffer(i, j);
    }
  }
}
