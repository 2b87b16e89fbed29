/** What the readers can emit (src/readers): their plugin and type names, and why metrics
    of theirs that share a file always agree on its schema. */
module Emitters {
  import opened CStrings
  import opened Metrics
  import opened Types
  import opened Path
  import opened Writer
  import opened WriterRun

  /** A plugin and a type it emits; `bare` if always without a type instance. */
  datatype Emission = Emission(plugin: string, typ: string, bare: bool)

  const EMISSIONS: seq<Emission> := [
    Emission("cpu", "percent", false),
    Emission("load", "load", true),
    Emission("uptime", "uptime", true),
    Emission("memory", "percent", false),
    Emission("swap", "swap", false),
    Emission("interface", "if_octets", true),
    Emission("interface", "if_packets", true),
    Emission("interface", "if_errors", true),
    Emission("disk", "disk_ops", true),
    Emission("disk", "disk_octets", true),
    Emission("disk", "disk_time", true),
    Emission("df", "df_complex", false),
    Emission("processes", "ps_rss", true),
    Emission("processes", "ps_cputime", true),
    Emission("processes", "ps_count", true),
    Emission("thermal", "temperature", false),
    Emission("tcpconns", "tcp_connections", false)
  ]

  /** Instances and values are arbitrary, so every metric of every reader is covered. */
  ghost predicate EmittedAs(m: Metric, k: nat)
    requires k < |EMISSIONS|
  {
    m.plugin == EMISSIONS[k].plugin && m.typ == EMISSIONS[k].typ && (EMISSIONS[k].bare ==> m.typeInstance.None?)
  }

  ghost predicate Emittable(m: Metric) { exists k :: 0 <= k < |EMISSIONS| && EmittedAs(m, k) }

  ghost function AllEmittable(): iset<Metric> { iset m: Metric | Emittable(m) }

  lemma PluginsArePlain(k: nat)
    requires k < |EMISSIONS|
    ensures forall i :: 0 <= i < |EMISSIONS[k].plugin| ==> 'a' <= EMISSIONS[k].plugin[i] <= 'z'
  {
  }

  /** A plugin with several types emits them all without type instance. */
  lemma SeveralTypesAreBare(i: nat, j: nat)
    requires i < |EMISSIONS| && j < |EMISSIONS| && EMISSIONS[i].plugin == EMISSIONS[j].plugin
    ensures i == j || (EMISSIONS[i].bare && EMISSIONS[j].bare)
  {
  }

  /** The plugin can be read off a path: it ends at the first dash or slash. */
  lemma PluginOfPath(c: Config, a: Metric, b: Metric)
    requires Plain(a.plugin) && Plain(b.plugin) && PathOf(c, a) == PathOf(c, b)
    ensures a.plugin == b.plugin
  {
    PluginStands(c, a);
    PluginStands(c, b);
    var t := PathOf(c, a)[|c.datadir| + |c.host| + 2..];
    assert t[..|a.plugin|] == a.plugin && t[..|b.plugin|] == b.plugin;
    SamePrefix(t, a.plugin, b.plugin);
  }

  /** Two prefixes without dash or slash, each followed by one, are the same. */
  lemma SamePrefix(t: string, p: string, q: string)
    requires Plain(p) && Plain(q) && |p| < |t| && |q| < |t| && t[..|p|] == p && t[..|q|] == q
    requires (t[|p|] == '-' || t[|p|] == '/') && (t[|q|] == '-' || t[|q|] == '/')
    ensures p == q
  {
    assert forall k :: 0 <= k < |p| ==> t[k] == p[k];
    assert forall k :: 0 <= k < |q| ==> t[k] == q[k];
  }

  lemma PluginStands(c: Config, m: Metric)
    ensures var k := |c.datadir| + |c.host| + 2;
            && k + |m.plugin| < |PathOf(c, m)|
            && PathOf(c, m)[k..k + |m.plugin|] == m.plugin
            && (PathOf(c, m)[k + |m.plugin|] == '-' || PathOf(c, m)[k + |m.plugin|] == '/')
  {
    var k := |c.datadir| + |c.host| + 2;
    var rest := Suffix(m.pluginInstance) + ("/" + FileName(m));
    var head := c.datadir + "/" + c.host + "/";
    assert PathOf(c, m) == head + (m.plugin + rest);
    assert |head| == k;
    assert rest[0] == '-' || rest[0] == '/';
  }

  lemma PlainPlugin(m: Metric)
    requires Emittable(m)
    ensures Plain(m.plugin)
  {
    var k :| 0 <= k < |EMISSIONS| && EmittedAs(m, k);
    PluginsArePlain(k);
  }

  /** Without a type instance the path names the type. */
  lemma TypeOfBare(c: Config, a: Metric, b: Metric)
    requires a.typeInstance.None? && b.typeInstance.None? && Lookup(a.typ).Some? && Lookup(b.typ).Some?
    requires PathOf(c, a) == PathOf(c, b)
    ensures a.typ == b.typ
  {
    LookupWellFormed(a.typ);
    LookupWellFormed(b.typ);
    TableNamesArePlain(a.typ);
    TableNamesArePlain(b.typ);
    PathNamesType(c.datadir, c.host, a);
    PathNamesType(c.datadir, c.host, b);
  }

  /** Metrics of the readers that share a file have the same type. */
  lemma SharedFileMeansSameType(c: Config, a: Metric, b: Metric)
    requires Emittable(a) && Emittable(b) && Lookup(a.typ).Some? && Lookup(b.typ).Some?
    requires PathOf(c, a) == PathOf(c, b)
    ensures a.typ == b.typ
  {
    PlainPlugin(a);
    PlainPlugin(b);
    PluginOfPath(c, a, b);
    var i :| 0 <= i < |EMISSIONS| && EmittedAs(a, i);
    var j :| 0 <= j < |EMISSIONS| && EmittedAs(b, j);
    SeveralTypesAreBare(i, j);
    if i != j {
      TypeOfBare(c, a, b);
    }
  }

  /** The readers never reach the failing case, whatever names devices, processes and zones
      have: no two of their metrics that share a file disagree. */
  lemma ReadersAgree(c: Config, fmt: Printer)
    ensures SchemasAgree(c, AllEmittable()) && CountsAgree(c, AllEmittable(), fmt)
  {
    var ms := AllEmittable();
    forall a, b | a in ms && b in ms ensures !SchemasClash(c, a, b) && !CountsClash(c, a, b, fmt) {
      if Storable(c, a) && Storable(c, b) && PathOf(c, a) == PathOf(c, b) {
        SharedFileMeansSameType(c, a, b);
      }
    }
  }

  /** So over every run of the readers every file has the schema of every metric that maps
      to it, and every accepted update has exactly its file's number of values. */
  lemma EveryReaderRunFits(c: Config, events: seq<Event>, fmt: Printer)
    requires CleanPrinter(fmt) && forall i :: 0 <= i < |events| ==> Emittable(events[i].m)
    ensures UpdatesFit(After(c, EMPTY, events, fmt))
    ensures OneSchemaPerFile(c, AllEmittable(), After(c, EMPTY, events, fmt).files)
  {
    var ms := AllEmittable();
    ReadersAgree(c, fmt);
    assert About(ms, events);
    AgreedRunsFit(c, ms, events, fmt);
    RunsCreateFrom(c, ms, events, fmt);
    AgreedFiles(c, ms, After(c, EMPTY, events, fmt).files);
  }

  /** The name behind the last slash of a type instance is the one the path shows. */
  lemma NamedAfterSlash(m: Metric, before: string, name: string)
    requires m.typeInstance == Some(before + ("/" + name)) && Plain(name)
    ensures NamedType(m) == name
  {
    var v := before + ("/" + name);
    assert v[|before|] == '/' && v[|before| + 1..] == name;
    forall k | |before| < k < |v| ensures v[k] != '/' {
      assert v[k] == name[k - |before| - 1];
    }
    NotFound(name, '-', 0);
  }

  lemma OtherSchema(m: Metric, name: string)
    requires NamedType(m) == name && SourcesOf(m) != SourcesOf(m.(typ := name))
    ensures !SchemaSurvives(m)
  {
  }

  lemma Temperature()
    ensures Lookup("temperature").Some? && |Lookup("temperature").value.ds| == 1
  {
    LookupFinds(14);
  }

  /** The metric of a thermal zone whose type ends in "/load". */
  function OddZone(zone: string, before: string, v: Values): Metric {
    Metric("thermal", Some(zone), "temperature", Some(before + ("/" + "load")), 1, v)
  }

  lemma OddZoneIsStorable(c: Config, zone: string, before: string, v: Values)
    requires |c.datadir| + |c.host| < 3500 && |zone| < 256 && |before| < 59
    ensures Storable(c, OddZone(zone, before, v))
  {
    var m := OddZone(zone, before, v);
    Temperature();
    assert |FileName(m)| == 11 + 1 + |before| + 5 + 4;
    assert |DirName(m)| == 7 + 1 + |zone|;
  }

  /** A file name may still mislead about the type: only the thermal reader's type instance is
      free, and a zone type with a slash, of a length its buffer holds, hides the type behind
      another name. Its first write, if the file can be created, leaves a disk on which a
      file does not have the schema its name stands for. */
  lemma ZoneTypeCanMislead(c: Config, zone: string, before: string, v: Values, env: Env, fmt: Printer)
    requires CleanPrinter(fmt) && env.createOk
    requires |c.datadir| + |c.host| < 3500 && |zone| < 256 && |before| < 59
    ensures Emittable(OddZone(zone, before, v)) && Storable(c, OddZone(zone, before, v))
    ensures !Consistent(Write(c, EMPTY, OddZone(zone, before, v), env, fmt).0)
  {
    var m := OddZone(zone, before, v);
    OddZoneIsStorable(c, zone, before, v);
    OddZoneIsMisnamed(zone, before, v);
    FirstWriteIsConsistentExactly(c, m, env, fmt);
  }

  lemma OddZoneIsMisnamed(zone: string, before: string, v: Values)
    ensures Emittable(OddZone(zone, before, v)) && !SchemaSurvives(OddZone(zone, before, v))
  {
    var m := OddZone(zone, before, v);
    assert EmittedAs(m, 15);
    Temperature();
    Load();
    LookupWellFormed("load");
    TableNamesArePlain("load");
    NamedAfterSlash(m, before, "load");
    OtherSchema(m, "load");
  }
}
