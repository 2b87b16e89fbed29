/** Rules of the Prometheus renderer: the family and labels a (plugin, type) pair maps
    to, and what the renderer relies on in a rule table (src/prom.c). */
module Rules {
  import opened CStrings
  import opened Types

  /** `dsValues` lists the non-NULL label values, one per data source index. */
  datatype Rule = Rule(plugin: string, typ: string, family: string,
                       piLabel: Option<string>, tiLabel: Option<string>,
                       dsLabel: Option<string>, dsValues: seq<string>, help: string)

  /** First rule for the pair, as the linear scan finds it. */
  function FindRule(rules: seq<Rule>, plugin: string, typ: string): (r: Option<Rule>)
    ensures r.Some? ==> r.value in rules && r.value.plugin == plugin && r.value.typ == typ
    ensures r.None? ==> forall x :: x in rules ==> x.plugin != plugin || x.typ != typ
  {
    if rules == [] then None
    else if rules[0].plugin == plugin && rules[0].typ == typ then Some(rules[0])
    else FindRule(rules[1..], plugin, typ)
  }

  /** The scan stops at the first rule for the pair, wherever others follow. */
  lemma {:induction false} FirstRuleWins(rules: seq<Rule>, i: nat, plugin: string, typ: string)
    requires i < |rules| && rules[i].plugin == plugin && rules[i].typ == typ
    requires forall j :: 0 <= j < i ==> rules[j].plugin != plugin || rules[j].typ != typ
    ensures FindRule(rules, plugin, typ) == Some(rules[i])
  {
    if i > 0 {
      FirstRuleWins(rules[1..], i - 1, plugin, typ);
    }
  }

  /** The TYPE text of a family: from the first data source of its collectd type. */
  function PromType(typ: string): string {
    match Lookup(typ)
    case None => "untyped"
    case Some(td) =>
      if |td.ds| == 0 then "untyped"
      else if td.ds[0].dst == Gauge then "gauge" else "counter"
  }

  /** The TYPE text speaks for every data source, not only the first: "gauge" for types all
      of whose sources are gauges, "counter" for types none of whose sources is, and
      "untyped" exactly for unknown types. */
  lemma TypeSpeaksForAllSources(typ: string)
    ensures Lookup(typ).None? <==> PromType(typ) == "untyped"
    ensures Lookup(typ).Some? ==>
              var ds := Lookup(typ).value.ds;
              && (PromType(typ) == "gauge" <==> forall k :: 0 <= k < |ds| ==> ds[k].dst == Gauge)
              && (PromType(typ) == "counter" <==> forall k :: 0 <= k < |ds| ==> ds[k].dst != Gauge)
  {
    LookupWellFormed(typ);
    assert "untyped"[0] != "gauge"[0] && "untyped"[0] != "counter"[0] && "gauge"[0] != "counter"[0];
  }

  /** Printable text with no backslash, so the escapes of HELP text never occur. */
  predicate IsPlainText(s: string) {
    forall k :: 0 <= k < |s| ==> ' ' <= s[k] <= '[' || 'a' <= s[k] <= 'z'
  }

  predicate IsNameChar(c: char) { 'a' <= c <= 'z' || 'A' <= c <= 'Z' || '0' <= c <= '9' || c == '_' }

  /** A label name of the exposition format, [a-zA-Z_][a-zA-Z0-9_]*; it is a metric name, too,
      since those may hold colons besides. */
  predicate IsName(s: string) {
    s != "" && !('0' <= s[0] <= '9') && forall k :: 0 <= k < |s| ==> IsNameChar(s[k])
  }

  predicate IsKey(k: Option<string>) { k.Some? ==> IsName(k.value) }

  ghost predicate LabelsAreNames(r: Rule) {
    && IsKey(r.piLabel) && IsKey(r.tiLabel) && IsKey(r.dsLabel)
    && (r.piLabel.Some? ==> r.piLabel != r.tiLabel && r.piLabel != r.dsLabel)
    && (r.tiLabel.Some? ==> r.tiLabel != r.dsLabel)
  }

  /** The DS label values agree in number with the type table: with a DS label there is
      one distinct value per data source, without one there is a single source. */
  ghost predicate SourcesAgree(r: Rule) {
    && Lookup(r.typ).Some?
    && (r.dsLabel.Some? ==> |r.dsValues| == |Lookup(r.typ).value.ds|)
    && (r.dsLabel.None? ==> |Lookup(r.typ).value.ds| == 1)
    && (forall i, j :: 0 <= i < j < |r.dsValues| ==> r.dsValues[i] != r.dsValues[j])
  }

  lemma TypeTextsAreNames()
    ensures IsName("untyped") && IsName("gauge") && IsName("counter")
  {
  }

  lemma PromTypeIsName(typ: string)
    ensures IsName(PromType(typ))
  {
    TypeTextsAreNames();
  }

  ghost predicate GoodRule(r: Rule) {
    IsName(r.family) && IsPlainText(r.help) && LabelsAreNames(r) && SourcesAgree(r)
  }

  ghost predicate GoodTable(rules: seq<Rule>) {
    && (forall i :: 0 <= i < |rules| ==> GoodRule(rules[i]))
    && (forall i, j :: 0 <= i < j < |rules| ==> rules[i].family != rules[j].family)
  }

  /** A family determines its rule. */
  lemma FamilyDeterminesRule(rules: seq<Rule>, a: Rule, b: Rule)
    requires GoodTable(rules) && a in rules && b in rules && a.family == b.family
    ensures a == b
  {
    var i :| 0 <= i < |rules| && rules[i] == a;
    var j :| 0 <= j < |rules| && rules[j] == b;
    assert rules[i].family == rules[j].family;
    assert i == j;
  }
}
