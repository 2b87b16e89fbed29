/** The collectd-layout RRD path builder (src/path.c). */
module Path {
  import opened CStrings
  import opened Metrics
  import opened Buffers

  function Suffix(instance: Option<string>): string {
    match instance case None => "" case Some(v) => "-" + v
  }

  function DirName(m: Metric): string { m.plugin + Suffix(m.pluginInstance) }

  function FileName(m: Metric): string { m.typ + Suffix(m.typeInstance) + ".rrd" }

  /** The directory part of a path. */
  function DirPath(base: string, host: string, m: Metric): string {
    base + "/" + host + ("/" + DirName(m))
  }

  function FullPath(base: string, host: string, m: Metric): string {
    DirPath(base, host, m) + ("/" + FileName(m))
  }

  const FILE_MAX: nat := 256

  /** Appends "/a[-b]" at `off`; on truncation `off` is left alone. */
  method AppendSeg(out: array<char>, off: nat, a: string, b: Option<string>) returns (rc: int, off': nat)
    requires off <= out.Length
    modifies out
    ensures out[..off] == old(out[..off])
    ensures rc == if off + 1 + |a| + |Suffix(b)| < out.Length then 0 else -1
    ensures rc != 0 ==> off' == off
    ensures rc == 0 ==> off' == off + 1 + |a| + |Suffix(b)| && HoldsAt(out, off, "/" + (a + Suffix(b)))
  {
    var wlen := Snprintf(out, off, "/" + (a + Suffix(b)));
    if wlen >= out.Length - off {
      return -1, off;
    }
    return 0, off + wlen;
  }

  /** The builder succeeds exactly when the whole path and its file part fit, and
      then the buffer holds exactly the concatenation. */
  method MetricToPath(out: array<char>, base: string, host: string, m: Metric) returns (rc: int)
    modifies out
    ensures rc == if |FullPath(base, host, m)| < out.Length && |FileName(m)| < FILE_MAX then 0 else -1
    ensures rc == 0 ==> HoldsAt(out, 0, FullPath(base, host, m))
  {
    if out.Length == 0 {
      return -1;
    }
    var off := Snprintf(out, 0, base + "/" + host);
    if off >= out.Length {
      return -1;
    }
    var r, off' := AppendSeg(out, off, m.plugin, m.pluginInstance);
    if r != 0 {
      return -1;
    }
    HoldsAppend(out, base + "/" + host, "/" + DirName(m));
    var file := FileName(m);
    if |file| >= FILE_MAX {
      return -1;
    }
    var wlen := Snprintf(out, off', "/" + file);
    if wlen >= out.Length - off' {
      return -1;
    }
    HoldsAppend(out, DirPath(base, host, m), "/" + file);
    return 0;
  }

  // ---- the inverse -------------------------------------------------------

  /** The identity of a metric that its path encodes. */
  datatype Ident = Ident(plugin: string, pluginInstance: Option<string>,
                         typ: string, typeInstance: Option<string>)

  function IdentOf(m: Metric): Ident { Ident(m.plugin, m.pluginInstance, m.typ, m.typeInstance) }

  /** Splits "name[-instance]" at the first dash. */
  function SplitDash(s: string): (string, Option<string>) {
    match IndexOf(s, '-', 0)
    case None => (s, None)
    case Some(i) => (s[..i], Some(s[i + 1..]))
  }

  /** Drops the last four characters (".rrd"). */
  function DropExtension(s: string): string {
    if |s| >= 4 then s[..|s| - 4] else s
  }

  /** What follows the last slash, without its extension. */
  function FileStem(path: string): string {
    match LastIndexOf(path, '/', |path|)
    case None => DropExtension(path)
    case Some(i) => DropExtension(path[i + 1..])
  }

  /** The type a path names, whatever its directory part. */
  function TypeOfPath(path: string): string { SplitDash(FileStem(path)).0 }

  function ParsePath(base: string, host: string, path: string): Option<Ident> {
    var k := |base| + |host| + 2;
    match LastIndexOf(path, '/', |path|)
    case None => None
    case Some(i) =>
      if i < k then None
      else
        var (plugin, pi) := SplitDash(path[k..i]);
        var (typ, ti) := SplitDash(FileStem(path));
        Some(Ident(plugin, pi, typ, ti))
  }

  /** No character of `s` is '-' or '/'. */
  ghost predicate Plain(s: string) { '-' !in s && '/' !in s }

  ghost predicate NoSlash(s: Option<string>) { s.Some? ==> '/' !in s.value }

  lemma SplitDashSuffix(name: string, instance: Option<string>)
    requires '-' !in name
    ensures SplitDash(name + Suffix(instance)) == (name, instance)
  {
    var s := name + Suffix(instance);
    match instance
    case None =>
      assert s == name;
      NotFound(s, '-', 0);
    case Some(v) =>
      assert s[|name|] == '-';
      assert forall i :: 0 <= i < |name| ==> s[i] == name[i];
      FirstIs(s, '-', 0, |name|);
      assert s[|name| + 1..] == v;
  }

  lemma LastSlash(base: string, host: string, m: Metric)
    requires Plain(m.typ) && NoSlash(m.typeInstance)
    ensures var p := FullPath(base, host, m);
            var d := |base| + |host| + 2 + |DirName(m)|;
            LastIndexOf(p, '/', |p|) == Some(d) && p[d + 1..] == FileName(m)
  {
    var p := FullPath(base, host, m);
    var d := |base| + |host| + 2 + |DirName(m)|;
    assert |DirPath(base, host, m)| == d;
    assert p[d] == '/' && p[d + 1..] == FileName(m);
    var f := FileName(m);
    assert '/' !in f by {
      assert '/' !in ".rrd";
      assert '/' !in m.typ;
      assert '/' !in Suffix(m.typeInstance);
    }
    forall i | d < i < |p| ensures p[i] != '/' {
      assert p[i] == f[i - d - 1];
    }
  }

  /** A slash-free file name ends the stem search at the slash before it. */
  lemma StemAfterSlash(head: string, tail: string)
    requires '/' !in tail
    ensures FileStem(head + ("/" + (tail + ".rrd"))) == tail
  {
    var f := tail + ".rrd";
    var p := head + ("/" + f);
    assert '/' !in f by { assert '/' !in ".rrd"; }
    assert p[|head|] == '/' && p[|head| + 1..] == f;
    forall k | |head| < k < |p| ensures p[k] != '/' {
      assert p[k] == f[k - |head| - 1];
    }
    assert f[..|f| - 4] == tail;
  }

  lemma StemOfPath(base: string, host: string, m: Metric)
    requires Plain(m.typ) && NoSlash(m.typeInstance)
    ensures FileStem(FullPath(base, host, m)) == m.typ + Suffix(m.typeInstance)
  {
    StemAfterSlash(DirPath(base, host, m), m.typ + Suffix(m.typeInstance));
  }

  /** The type that the path of a metric with a plain type names: what stands before the
      first dash of its last segment. */
  function NamedType(m: Metric): string {
    if m.typeInstance.None? then m.typ
    else
      var v := m.typeInstance.value;
      match LastIndexOf(v, '/', |v|)
      case None => m.typ
      case Some(i) => SplitDash(v[i + 1..]).0
  }

  /** Checkable before a write: the part of the type instance after its last
      slash, if there is one, names the same type. */
  predicate TypeSurvives(m: Metric) { NamedType(m) == m.typ }

  lemma StemOfSlashed(base: string, host: string, m: Metric, i: nat)
    requires m.typeInstance.Some? && LastIndexOf(m.typeInstance.value, '/', |m.typeInstance.value|) == Some(i)
    ensures FileStem(FullPath(base, host, m)) == m.typeInstance.value[i + 1..]
  {
    var v := m.typeInstance.value;
    var head := "/" + m.typ + "-" + v[..i];
    var last := "/" + (v[i + 1..] + ".rrd");
    assert v == v[..i] + "/" + v[i + 1..];
    assert "/" + FileName(m) == head + last;
    assert FullPath(base, host, m) == (DirPath(base, host, m) + head) + last;
    StemAfterSlash(DirPath(base, host, m) + head, v[i + 1..]);
  }

  lemma PathNamesType(base: string, host: string, m: Metric)
    requires Plain(m.typ)
    ensures TypeOfPath(FullPath(base, host, m)) == NamedType(m)
  {
    if m.typeInstance.Some? {
      var v := m.typeInstance.value;
      var last := LastIndexOf(v, '/', |v|);
      if last.Some? {
        StemOfSlashed(base, host, m, last.value);
        return;
      }
    }
    StemOfPath(base, host, m);
    SplitDashSuffix(m.typ, m.typeInstance);
  }

  /** The type can be read off a path exactly when it survives in this sense;
      plugin and plugin instance are unrestricted. */
  lemma TypeIsRecoverable(base: string, host: string, m: Metric)
    requires Plain(m.typ)
    ensures TypeOfPath(FullPath(base, host, m)) == m.typ <==> TypeSurvives(m)
  {
    PathNamesType(base, host, m);
  }

  lemma DirectoryOfPath(base: string, host: string, m: Metric)
    ensures var k := |base| + |host| + 2;
            FullPath(base, host, m)[k..k + |DirName(m)|] == DirName(m)
  {
    var k := |base| + |host| + 2;
    var d := DirPath(base, host, m);
    assert d[k..] == DirName(m);
    assert FullPath(base, host, m)[k..k + |DirName(m)|] == d[k..];
  }

  /** What the inverse asks of a metric; its plugin instance is arbitrary. */
  ghost predicate Invertible(m: Metric) { '-' !in m.plugin && Plain(m.typ) && NoSlash(m.typeInstance) }

  lemma InverseOfPath(base: string, host: string, m: Metric)
    requires Invertible(m)
    ensures ParsePath(base, host, FullPath(base, host, m)) == Some(IdentOf(m))
  {
    LastSlash(base, host, m);
    StemOfPath(base, host, m);
    SplitDashSuffix(m.typ, m.typeInstance);
    SplitDashSuffix(m.plugin, m.pluginInstance);
    DirectoryOfPath(base, host, m);
  }

  /** What is split at its first dash has none in front, and keeps its characters. */
  lemma SplitDashParts(s: string)
    ensures '-' !in SplitDash(s).0
    ensures '/' !in s ==> '/' !in SplitDash(s).0 && NoSlash(SplitDash(s).1)
  {
    var i := IndexOf(s, '-', 0);
    if i.Some? {
      forall k | 0 <= k < i.value ensures s[..i.value][k] != '-' {
        NoneBefore(s, '-', 0, k);
      }
    } else if '-' in s {
      var k :| 0 <= k < |s| && s[k] == '-';
      FoundBefore(s, '-', 0, k);
    }
  }

  lemma StemHasNoSlash(path: string)
    ensures '/' !in FileStem(path)
  {
    var last := LastIndexOf(path, '/', |path|);
    var tail := if last.Some? then path[last.value + 1..] else path;
    var from := if last.Some? then last.value + 1 else 0;
    forall k | 0 <= k < |tail| ensures tail[k] != '/' {
      assert tail[k] == path[from + k];
    }
  }

  /** Whatever a path parses to meets the inverse's conditions. */
  lemma ParsedIsInvertible(base: string, host: string, path: string)
    ensures var r := ParsePath(base, host, path);
            r.Some? ==> '-' !in r.value.plugin && Plain(r.value.typ) && NoSlash(r.value.typeInstance)
  {
    var k := |base| + |host| + 2;
    var last := LastIndexOf(path, '/', |path|);
    if last.Some? && last.value >= k {
      SplitDashParts(path[k..last.value]);
      StemHasNoSlash(path);
      SplitDashParts(FileStem(path));
    }
  }

  /** For any base and host the inverse recovers all four identity fields exactly when the
      plugin has no dash, the type neither dash nor slash, and the type instance no slash. */
  lemma PathRoundTrip(base: string, host: string, m: Metric)
    ensures ParsePath(base, host, FullPath(base, host, m)) == Some(IdentOf(m)) <==> Invertible(m)
  {
    if Invertible(m) {
      InverseOfPath(base, host, m);
    } else {
      ParsedIsInvertible(base, host, FullPath(base, host, m));
    }
  }

  lemma PathInjective(base: string, host: string, a: Metric, b: Metric)
    requires Invertible(a) && Invertible(b) && FullPath(base, host, a) == FullPath(base, host, b)
    ensures IdentOf(a) == IdentOf(b)
  {
    PathRoundTrip(base, host, a);
    PathRoundTrip(base, host, b);
  }

  lemma SplitDashJoins(s: string)
    ensures SplitDash(s).0 + Suffix(SplitDash(s).1) == s
  {
    var i := IndexOf(s, '-', 0);
    if i.Some? {
      assert s == s[..i.value] + ("-" + s[i.value + 1..]);
    }
  }

  /** The directory and file part of a path behind base and host, cut at its last slash. */
  lemma TailOfPath(m: Metric) returns (dir: string, stem: string)
    ensures DirName(m) + ("/" + FileName(m)) == dir + ("/" + (stem + ".rrd")) && '/' !in stem
  {
    var body := DirName(m) + ("/" + (m.typ + Suffix(m.typeInstance)));
    var i := LastIndexOf(body, '/', |body|);
    assert body[|DirName(m)|] == '/';
    dir, stem := body[..i.value], body[i.value + 1..];
    forall k | 0 <= k < |stem| ensures stem[k] != '/' {
      assert stem[k] == body[i.value + 1 + k];
    }
    assert body == dir + ("/" + stem);
    MoveExtension(DirName(m), m.typ + Suffix(m.typeInstance), dir, stem);
  }

  lemma MoveExtension(a: string, b: string, c: string, d: string)
    requires a + ("/" + b) == c + ("/" + d)
    ensures a + ("/" + (b + ".rrd")) == c + ("/" + (d + ".rrd"))
  {
    assert a + ("/" + (b + ".rrd")) == (a + ("/" + b)) + ".rrd";
    assert c + ("/" + (d + ".rrd")) == (c + ("/" + d)) + ".rrd";
  }

  lemma SamePaths(base: string, host: string, a: Metric, b: Metric)
    requires DirName(a) + ("/" + FileName(a)) == DirName(b) + ("/" + FileName(b))
    ensures FullPath(base, host, a) == FullPath(base, host, b)
  {
    PathParts(base, host, a);
    PathParts(base, host, b);
  }

  lemma PathParts(base: string, host: string, m: Metric)
    ensures FullPath(base, host, m) == (base + "/" + host + "/") + (DirName(m) + ("/" + FileName(m)))
  {
  }

  /** No parser at all could do better: every path is that of a metric the inverse recovers,
      and any other metric with that path is lost. */
  lemma EveryPathIsInvertible(base: string, host: string, m: Metric) returns (b: Metric)
    ensures Invertible(b) && FullPath(base, host, b) == FullPath(base, host, m)
    ensures IdentOf(b) == IdentOf(m) <==> Invertible(m)
  {
    var dir, stem := TailOfPath(m);
    var (plugin, pi) := SplitDash(dir);
    var (typ, ti) := SplitDash(stem);
    SplitDashParts(dir);
    SplitDashParts(stem);
    SplitDashJoins(dir);
    SplitDashJoins(stem);
    b := m.(plugin := plugin, pluginInstance := pi, typ := typ, typeInstance := ti);
    SamePaths(base, host, m, b);
    if Invertible(m) {
      PathInjective(base, host, m, b);
    }
  }

  /** In particular for plugins: every plugin with a dash shares each of
      its paths with the plugin before the dash. */
  lemma DashInPluginCollides(base: string, host: string, m: Metric) returns (b: Metric)
    requires '-' in m.plugin
    ensures FullPath(base, host, b) == FullPath(base, host, m) && b.plugin != m.plugin && '-' !in b.plugin
    ensures b.typ == m.typ && b.typeInstance == m.typeInstance && b.dsCount == m.dsCount && b.values == m.values
  {
    var k :| 0 <= k < |m.plugin| && m.plugin[k] == '-';
    FoundBefore(m.plugin, '-', 0, k);
    var i := IndexOf(m.plugin, '-', 0).value;
    SplitDashParts(m.plugin);
    b := m.(plugin := m.plugin[..i], pluginInstance := Some(m.plugin[i + 1..] + Suffix(m.pluginInstance)));
    DashMoves(m.plugin, i, Suffix(m.pluginInstance));
    SameNames(base, host, m, b);
  }

  lemma DashMoves(p: string, i: nat, suffix: string)
    requires i < |p| && p[i] == '-'
    ensures p[..i] + ("-" + (p[i + 1..] + suffix)) == p + suffix
  {
    assert p == p[..i] + ("-" + p[i + 1..]);
  }

  lemma SameNames(base: string, host: string, a: Metric, b: Metric)
    requires DirName(a) == DirName(b) && FileName(a) == FileName(b)
    ensures FullPath(base, host, a) == FullPath(base, host, b)
  {
  }

  /** A slash in a type instance breaks the schema: these two metrics share a
      file although one carries a single source and the other three. */
  lemma SlashInTypeInstanceCollides(base: string, host: string, v: Values)
    ensures var a := Metric("p", Some("x"), "percent", Some("a/load"), 1, v);
            var b := Metric("p", Some("x/percent-a"), "load", None, 3, v);
            FullPath(base, host, a) == FullPath(base, host, b) && a.typ != b.typ
  {
    var a := Metric("p", Some("x"), "percent", Some("a/load"), 1, v);
    var b := Metric("p", Some("x/percent-a"), "load", None, 3, v);
    var tail := "/percent-a/load.rrd";
    assert DirName(a) == "p-x" && "/" + FileName(a) == tail;
    assert DirName(b) == "p-x/percent-a" && "/" + DirName(b) + ("/" + FileName(b)) == "/p-x" + tail;
    assert FullPath(base, host, b) == (base + "/" + host) + ("/" + DirName(b) + ("/" + FileName(b)));
    assert |"percent"| != |"load"|;
  }
}
