/** The collectd-compatible type table (src/types.c): the schema source for the
    RRD writer, the RRA builder and the Prometheus renderer. */
module Types {
  import opened CStrings

  datatype Dst = Gauge | Derive | Counter
  datatype DsDef = DsDef(name: string, dst: Dst)
  datatype TypeDef = TypeDef(name: string, ds: seq<DsDef>)

  const TABLE: seq<TypeDef> := [
    TypeDef("percent", [DsDef("value", Gauge)]),
    TypeDef("if_octets", [DsDef("rx", Derive), DsDef("tx", Derive)]),
    TypeDef("if_packets", [DsDef("rx", Derive), DsDef("tx", Derive)]),
    TypeDef("if_errors", [DsDef("rx", Derive), DsDef("tx", Derive)]),
    TypeDef("disk_ops", [DsDef("read", Derive), DsDef("write", Derive)]),
    TypeDef("disk_octets", [DsDef("read", Derive), DsDef("write", Derive)]),
    TypeDef("disk_time", [DsDef("read", Derive), DsDef("write", Derive)]),
    TypeDef("ps_rss", [DsDef("value", Gauge)]),
    TypeDef("ps_cputime", [DsDef("user", Derive), DsDef("syst", Derive)]),
    TypeDef("ps_count", [DsDef("processes", Gauge), DsDef("threads", Gauge)]),
    TypeDef("df_complex", [DsDef("value", Gauge)]),
    TypeDef("load", [DsDef("shortterm", Gauge), DsDef("midterm", Gauge), DsDef("longterm", Gauge)]),
    TypeDef("uptime", [DsDef("value", Gauge)]),
    TypeDef("swap", [DsDef("value", Gauge)]),
    TypeDef("temperature", [DsDef("value", Gauge)]),
    TypeDef("tcp_connections", [DsDef("value", Gauge)])
  ]

  /** First match in the table, scanning from `from`. */
  function LookupFrom(defs: seq<TypeDef>, name: string): (r: Option<TypeDef>)
    ensures r.Some? ==> r.value in defs && r.value.name == name
    ensures r.None? ==> forall d :: d in defs ==> d.name != name
  {
    if defs == [] then None
    else if defs[0].name == name then Some(defs[0])
    else LookupFrom(defs[1..], name)
  }

  function Lookup(name: string): Option<TypeDef> { LookupFrom(TABLE, name) }

  /** All characters lie in 'A'..'z', so in particular none is '-', '/', '.' or ':'. */
  predicate IsWord(s: string) { forall k :: 0 <= k < |s| ==> 'A' <= s[k] <= 'z' }

  /** What the users of the table rely on: a name free of separators, one to four
      data sources with short separator-free names, all of one kind. */
  ghost predicate WellFormedType(d: TypeDef) {
    && IsWord(d.name)
    && 1 <= |d.ds| <= 4
    && (forall k :: 0 <= k < |d.ds| ==> |d.ds[k].name| <= 19 && IsWord(d.ds[k].name))
    && (forall k :: 0 <= k < |d.ds| ==> d.ds[k].dst == d.ds[0].dst)
  }

  lemma NamesAreWords()
    ensures forall i :: 0 <= i < |TABLE| ==> IsWord(TABLE[i].name)
  {
  }

  lemma SourcesAreUniform()
    ensures forall i, k :: 0 <= i < |TABLE| && 0 <= k < |TABLE[i].ds| ==> TABLE[i].ds[k].dst == TABLE[i].ds[0].dst
    ensures forall i :: 0 <= i < |TABLE| ==> 1 <= |TABLE[i].ds| <= 3
  {
  }

  lemma SourceNamesAreShort()
    ensures forall i, k :: 0 <= i < |TABLE| && 0 <= k < |TABLE[i].ds| ==>
      |TABLE[i].ds[k].name| <= 19 && IsWord(TABLE[i].ds[k].name)
  {
  }

  /** Every type the lookup can return is well formed. */
  lemma LookupWellFormed(name: string)
    ensures Lookup(name).Some? ==> WellFormedType(Lookup(name).value) && Lookup(name).value.name == name
  {
    NamesAreWords();
    SourcesAreUniform();
    SourceNamesAreShort();
  }

  lemma NamesAreDistinct()
    ensures forall i, j :: 0 <= i < j < |TABLE| ==> TABLE[i].name != TABLE[j].name
  {
  }

  lemma {:induction false} LookupFromFinds(defs: seq<TypeDef>, i: nat)
    requires i < |defs|
    requires forall j, k :: 0 <= j < k < |defs| ==> defs[j].name != defs[k].name
    ensures LookupFrom(defs, defs[i].name) == Some(defs[i])
  {
    if i > 0 {
      LookupFromFinds(defs[1..], i - 1);
    }
  }

  /** Every table entry is reachable under its own name. */
  lemma LookupFinds(i: nat)
    requires i < |TABLE|
    ensures Lookup(TABLE[i].name) == Some(TABLE[i])
  {
    NamesAreDistinct();
    LookupFromFinds(TABLE, i);
  }
}
