/** Why a scrape of the modelled readers never shows a series twice: no two metrics that a
    cycle stages share plugin, type and process. */
module Series {
  import opened CStrings
  import opened Lists
  import opened Metrics
  import opened Types
  import opened Rules
  import opened Render
  import opened WriterRun
  import RuleTable
  import opened Exposition
  import Writer
  import Registry
  import Collect
  import Cpu
  import Processes
  import Readers
  import P = Prom

  // ---- metrics that are told apart -----------------------------------------------------

  /** Of different plugin or type, or about different processes. */
  predicate Apart(a: Metric, b: Metric) {
    a.plugin != b.plugin || a.typ != b.typ || (a.plugin == "processes" && a.pluginInstance != b.pluginInstance)
  }

  ghost predicate AllApart(ms: seq<Metric>) { forall i, j :: 0 <= i < j < |ms| ==> Apart(ms[i], ms[j]) }

  ghost predicate CrossApart(a: seq<Metric>, b: seq<Metric>) {
    forall i, j :: 0 <= i < |a| && 0 <= j < |b| ==> Apart(a[i], b[j])
  }

  lemma AppendApart(a: seq<Metric>, b: seq<Metric>)
    requires AllApart(a) && AllApart(b) && CrossApart(a, b)
    ensures AllApart(a + b)
  {
    var ms := a + b;
    forall i, j | 0 <= i < j < |ms| ensures Apart(ms[i], ms[j]) {
      if j < |a| {
        assert Apart(a[i], a[j]);
      } else if i < |a| {
        assert Apart(a[i], b[j - |a|]);
      } else {
        assert Apart(b[i - |a|], b[j - |a|]);
      }
    }
  }

  /** Short names, and as many values as the type has sources. */
  ghost predicate Plain(m: Metric) {
    && |m.plugin| < 48 && |m.typ| < 48 && |OrEmpty(m.pluginInstance)| < 256
    && (m.plugin == "processes" ==> m.pluginInstance.Some?)
    && 0 <= m.dsCount <= MAX_DS && Lookup(m.typ).Some? && |Lookup(m.typ).value.ds| == m.dsCount
  }

  ghost predicate AllPlain(ms: seq<Metric>) { forall i :: 0 <= i < |ms| ==> Plain(ms[i]) }

  // ---- the processes reader ---------------------------------------------------------------

  lemma PsTypes()
    ensures HasSources("ps_rss", 1) && HasSources("ps_cputime", 2) && HasSources("ps_count", 2)
  {
    PsEntries();
    LookupFinds(7);
    LookupFinds(8);
    LookupFinds(9);
  }

  lemma PsEntries()
    ensures TABLE[7].name == "ps_rss" && |TABLE[7].ds| == 1
    ensures TABLE[8].name == "ps_cputime" && |TABLE[8].ds| == 2
    ensures TABLE[9].name == "ps_count" && |TABLE[9].ds| == 2
  {
  }

  predicate HasSources(typ: string, n: nat) { Lookup(typ).Some? && |Lookup(typ).value.ds| == n }

  lemma PsIsPlain(comm: string, typ: string, n: nat, x: real, y: real)
    requires |comm| < 32 && |typ| < 48 && n <= MAX_DS && HasSources(typ, n)
    ensures Plain(Processes.PsMetric(comm, typ, n, x, y))
  {
    assert |"processes"| == 9;
  }

  lemma ThreePlain(ms: seq<Metric>)
    requires |ms| == 3 && Plain(ms[0]) && Plain(ms[1]) && Plain(ms[2])
    ensures AllPlain(ms)
  {
    forall i | 0 <= i < |ms| ensures Plain(ms[i]) {
      assert i == 0 || i == 1 || i == 2;
    }
  }

  lemma ThreeApart(ms: seq<Metric>)
    requires |ms| == 3 && ms[0].typ != ms[1].typ && ms[0].typ != ms[2].typ && ms[1].typ != ms[2].typ
    ensures AllApart(ms)
  {
    forall i, j | 0 <= i < j < |ms| ensures Apart(ms[i], ms[j]) {
      assert i == 0 || (i == 1 && j == 2);
    }
  }

  lemma TypedSlotIsPlain(comm: string, t: Processes.Totals, rss: string, cputime: string, count: string)
    requires |comm| < 32
    requires HasSources(rss, 1) && HasSources(cputime, 2) && HasSources(count, 2)
    requires |rss| < |count| < |cputime| < 48
    ensures var ms := [Processes.PsMetric(comm, rss, 1, t.rss as real, 0.0),
                       Processes.PsMetric(comm, cputime, 2, t.utime as real, t.stime as real),
                       Processes.PsMetric(comm, count, 2, t.procs as real, t.threads as real)];
            AllPlain(ms) && AllApart(ms)
  {
    var ms := [Processes.PsMetric(comm, rss, 1, t.rss as real, 0.0),
               Processes.PsMetric(comm, cputime, 2, t.utime as real, t.stime as real),
               Processes.PsMetric(comm, count, 2, t.procs as real, t.threads as real)];
    PsIsPlain(comm, rss, 1, t.rss as real, 0.0);
    PsIsPlain(comm, cputime, 2, t.utime as real, t.stime as real);
    PsIsPlain(comm, count, 2, t.procs as real, t.threads as real);
    ThreePlain(ms);
    ThreeApart(ms);
  }

  lemma SlotIsPlain(x: Processes.Slot)
    requires |x.comm| < 32
    ensures AllPlain(Processes.SlotMetrics(x)) && AllApart(Processes.SlotMetrics(x))
  {
    PsTypes();
    TypedSlotIsPlain(x.comm, x.totals, "ps_rss", "ps_cputime", "ps_count");
  }

  ghost predicate GoodTable(table: seq<Processes.Slot>) {
    && (forall i :: 0 <= i < |table| ==> |table[i].comm| < 32)
    && (forall i, j :: 0 <= i < j < |table| ==> table[i].comm != table[j].comm)
  }

  ghost predicate AllNamed(ms: seq<Metric>, comm: string) {
    forall i :: 0 <= i < |ms| ==> ms[i].plugin == "processes" && ms[i].pluginInstance == Some(comm)
  }

  lemma SlotIsNamed(x: Processes.Slot)
    ensures AllNamed(Processes.SlotMetrics(x), x.comm)
  {
  }

  ghost predicate AllOfProcesses(ms: seq<Metric>) { forall i :: 0 <= i < |ms| ==> ms[i].plugin == "processes" }

  lemma {:induction false} TableIsApart(table: seq<Processes.Slot>)
    requires GoodTable(table)
    ensures AllPlain(Processes.TableMetrics(table)) && AllApart(Processes.TableMetrics(table))
    ensures AllOfProcesses(Processes.TableMetrics(table))
    decreases |table|
  {
    if table != [] {
      var n := |table| - 1;
      TableIsApart(table[..n]);
      SlotIsPlain(table[n]);
      SlotIsNamed(table[n]);
      NewSlotIsApart(table, n, Processes.TableMetrics(table[..n]), Processes.SlotMetrics(table[n]));
      AppendApart(Processes.TableMetrics(table[..n]), Processes.SlotMetrics(table[n]));
    }
  }

  lemma NewSlotIsApart(table: seq<Processes.Slot>, n: nat, before: seq<Metric>, more: seq<Metric>)
    requires GoodTable(table) && n < |table|
    requires before == Processes.TableMetrics(table[..n]) && AllOfProcesses(before)
    requires AllNamed(more, table[n].comm)
    ensures CrossApart(before, more)
  {
    forall i, j | 0 <= i < |before| && 0 <= j < |more| ensures Apart(before[i], more[j]) {
      Processes.MetricsNameSlots(table[..n], before[i]);
      var x :| x in table[..n] && before[i].pluginInstance == Some(x.comm);
      var k :| 0 <= k < n && table[k] == x;
    }
  }

  lemma AggregateIsGood(samples: seq<Processes.Sample>, cap: nat)
    requires forall i :: 0 <= i < |samples| ==> |samples[i].comm| < 32
    ensures GoodTable(Processes.Aggregate(samples, cap))
  {
    Processes.AggregateIsGroupBy(samples, cap);
    Processes.NamesFacts(samples);
    var table, names := Processes.Aggregate(samples, cap), Processes.Names(samples);
    forall i | 0 <= i < |table| ensures table[i].comm == names[i] && |table[i].comm| < 32 {
      assert names[i] in names;
    }
  }

  // ---- one cycle of both readers -------------------------------------------------------------

  function PluginOf(r: Registry.Reader): string {
    if r.Cpu? then "cpu" else if r.Processes? then "processes" else ""
  }

  function MetricsOf(prev: Cpu.Prev, input: Readers.Input, r: Registry.Reader): seq<Metric> {
    if r.Cpu? then Readers.CpuMetrics(prev, input) else if r.Processes? then Readers.ProcessMetrics(input) else []
  }

  lemma ReaderIsApart(prev: Cpu.Prev, input: Readers.Input, r: Registry.Reader)
    ensures var ms := MetricsOf(prev, input, r);
            && AllPlain(ms) && AllApart(ms)
            && (forall i :: 0 <= i < |ms| ==> ms[i].plugin == PluginOf(r) && (r.Cpu? || r.Processes?))
  {
    if r.Cpu? {
      Percent();
    } else if r.Processes? && input.dir.Some? {
      var page := if input.pageSize <= 0 then 4096 else input.pageSize;
      AggregateIsGood(Processes.SamplesOf(input.dir.value, page), Processes.MAX_COMMS);
      TableIsApart(Readers.TableOf(input.dir.value, input.pageSize));
    }
  }

  function Emitted(enabled: seq<Registry.Reader>, prev: Cpu.Prev, input: Readers.Input): seq<Metric> {
    if enabled == [] then []
    else Emitted(enabled[..|enabled| - 1], prev, input) + MetricsOf(prev, input, enabled[|enabled| - 1])
  }

  lemma {:induction false} EmittedIsApart(enabled: seq<Registry.Reader>, prev: Cpu.Prev, input: Readers.Input)
    requires forall i, j :: 0 <= i < j < |enabled| ==> enabled[i] != enabled[j]
    ensures AllPlain(Emitted(enabled, prev, input)) && AllApart(Emitted(enabled, prev, input))
    ensures forall i :: 0 <= i < |Emitted(enabled, prev, input)| ==> FromOneOf(Emitted(enabled, prev, input)[i], enabled)
    decreases |enabled|
  {
    if enabled != [] {
      var n := |enabled| - 1;
      var r, before, more := enabled[n], Emitted(enabled[..n], prev, input), MetricsOf(prev, input, enabled[n]);
      EmittedIsApart(enabled[..n], prev, input);
      ReaderIsApart(prev, input, r);
      forall i | 0 <= i < |before| ensures FromOneOf(before[i], enabled) && (more != [] ==> before[i].plugin != PluginOf(r)) {
        OtherReader(before[i], enabled, n);
      }
      AppendApart(before, more);
    }
  }

  ghost predicate FromOneOf(m: Metric, enabled: seq<Registry.Reader>) {
    exists k :: 0 <= k < |enabled| && (enabled[k].Cpu? || enabled[k].Processes?) && m.plugin == PluginOf(enabled[k])
  }

  lemma OtherReader(m: Metric, enabled: seq<Registry.Reader>, n: nat)
    requires n < |enabled| && FromOneOf(m, enabled[..n])
    requires forall i, j :: 0 <= i < j < |enabled| ==> enabled[i] != enabled[j]
    ensures FromOneOf(m, enabled)
    ensures enabled[n].Cpu? || enabled[n].Processes? ==> m.plugin != PluginOf(enabled[n])
  {
    var k :| 0 <= k < n && (enabled[..n][k].Cpu? || enabled[..n][k].Processes?) && m.plugin == PluginOf(enabled[..n][k]);
    assert enabled[k] != enabled[n];
    assert |"cpu"| != |"processes"|;
  }

  // ---- the copies ---------------------------------------------------------------------------

  predicate SnapApart(a: SnapMetric, b: SnapMetric) {
    a.plugin != b.plugin || a.typ != b.typ || (a.plugin == "processes" && a.pluginInstance != b.pluginInstance)
  }

  /** As many values as the type has sources. */
  predicate IsSized(sm: SnapMetric) { HasSources(sm.typ, |sm.values|) }

  ghost predicate Staged(sms: seq<SnapMetric>) { Pairwise(sms, SnapApart) && All(sms, IsSized) }

  function CopiesOf(ms: seq<Metric>): seq<SnapMetric> {
    if ms == [] then [] else CopiesOf(ms[..|ms| - 1]) + [CopyMetric(ms[|ms| - 1])]
  }

  lemma {:induction false} CopyAt(ms: seq<Metric>)
    ensures |CopiesOf(ms)| == |ms| && forall i :: 0 <= i < |ms| ==> CopiesOf(ms)[i] == CopyMetric(ms[i])
    decreases |ms|
  {
    if ms != [] {
      CopyAt(ms[..|ms| - 1]);
    }
  }

  lemma CopiesAreStaged(ms: seq<Metric>)
    requires AllPlain(ms) && AllApart(ms)
    ensures Staged(CopiesOf(ms))
  {
    CopyAt(ms);
    forall i | 0 <= i < |ms| ensures IsSized(CopiesOf(ms)[i]) {
      assert Plain(ms[i]);
    }
    forall i, j | 0 <= i < j < |ms| ensures SnapApart(CopiesOf(ms)[i], CopiesOf(ms)[j]) {
      assert Plain(ms[i]) && Plain(ms[j]) && Apart(ms[i], ms[j]);
    }
  }

  lemma {:induction false} AnsweredCopies(ms: seq<Metric>, envs: nat -> Writer.Env)
    ensures Collect.Copies(Readers.Answered(ms, envs)) == CopiesOf(ms)
    decreases |ms|
  {
    if ms != [] {
      var n := |ms| - 1;
      AnsweredCopies(ms[..n], envs);
      Collect.CopiesSnoc(Readers.Answered(ms[..n], envs), Event(ms[n], envs(n)));
    }
  }

  lemma CopiesOfSnoc(ms: seq<Metric>, m: Metric)
    ensures CopiesOf(ms + [m]) == CopiesOf(ms) + [CopyMetric(m)]
  {
    assert (ms + [m])[..|ms|] == ms;
  }

  lemma {:induction false} CopiesOfAppend(a: seq<Metric>, b: seq<Metric>)
    ensures CopiesOf(a + b) == CopiesOf(a) + CopiesOf(b)
    decreases |b|
  {
    if b == [] {
      assert a + b == a;
    } else {
      var init, m := b[..|b| - 1], b[|b| - 1];
      assert b == init + [m] && a + b == (a + init) + [m];
      CopiesOfAppend(a, init);
      CopiesOfSnoc(init, m);
      CopiesOfSnoc(a + init, m);
    }
  }

  lemma SourceIsAnswered(prev: Cpu.Prev, input: Readers.Input, r: Registry.Reader)
    ensures Collect.Copies(Readers.SourceOf(prev, input)(r)) == CopiesOf(MetricsOf(prev, input, r))
  {
    AnsweredCopies(MetricsOf(prev, input, r), input.envs);
  }

  /** The copies of what one more reader emits. */
  lemma EmissionsStep(init: seq<Registry.Reader>, r: Registry.Reader, source: Collect.Source)
    ensures Collect.Copies(Collect.Emissions(init + [r], source))
         == Collect.Copies(Collect.Emissions(init, source)) + Collect.Copies(source(r))
  {
    assert (init + [r])[..|init|] == init;
    Collect.CopiesAppend(Collect.Emissions(init, source), source(r));
  }

  lemma EmittedStep(init: seq<Registry.Reader>, r: Registry.Reader, prev: Cpu.Prev, input: Readers.Input)
    ensures CopiesOf(Emitted(init + [r], prev, input)) == CopiesOf(Emitted(init, prev, input)) + CopiesOf(MetricsOf(prev, input, r))
  {
    assert (init + [r])[..|init|] == init;
    CopiesOfAppend(Emitted(init, prev, input), MetricsOf(prev, input, r));
  }

  ghost predicate CopiesAgree(enabled: seq<Registry.Reader>, prev: Cpu.Prev, input: Readers.Input) {
    Collect.Copies(Collect.Emissions(enabled, Readers.SourceOf(prev, input))) == CopiesOf(Emitted(enabled, prev, input))
  }

  lemma CycleStep(init: seq<Registry.Reader>, r: Registry.Reader, enabled: seq<Registry.Reader>, prev: Cpu.Prev, input: Readers.Input)
    requires enabled == init + [r] && CopiesAgree(init, prev, input)
    ensures CopiesAgree(enabled, prev, input)
  {
    EmissionsStep(init, r, Readers.SourceOf(prev, input));
    EmittedStep(init, r, prev, input);
    SourceIsAnswered(prev, input, r);
  }

  lemma NoCopies(prev: Cpu.Prev, input: Readers.Input)
    ensures CopiesAgree([], prev, input)
  {
  }

  lemma {:induction false} CycleCopies(enabled: seq<Registry.Reader>, prev: Cpu.Prev, input: Readers.Input)
    ensures CopiesAgree(enabled, prev, input)
    decreases |enabled|
  {
    if enabled == [] {
      NoCopies(prev, input);
    } else {
      var init, r := enabled[..|enabled| - 1], enabled[|enabled| - 1];
      assert enabled == init + [r];
      CycleCopies(init, prev, input);
      CycleStep(init, r, enabled, prev, input);
    }
  }

  // ---- the series ---------------------------------------------------------------------------

  /** Rules for processes export the process. */
  predicate NamesProcess(r: Rule) { r.plugin == "processes" ==> r.piLabel.Some? }

  lemma ProcessRulesAt(i: nat)
    requires i < RuleTable.RULES_N
    ensures NamesProcess(RuleTable.RuleAt(i))
  {
  }

  ghost predicate NameProcesses(rules: seq<Rule>) { forall i :: 0 <= i < |rules| ==> NamesProcess(rules[i]) }

  lemma TableNamesProcesses()
    ensures NameProcesses(RuleTable.Table())
  {
    var table := RuleTable.Table();
    forall i | 0 <= i < |table| ensures NamesProcess(table[i]) {
      ProcessRulesAt(i);
      assert table[i] == RuleTable.RuleAt(i);
    }
  }

  lemma TwoOfOneRule(sms: seq<SnapMetric>, x: Entry, y: Entry, st: Style)
    requires Staged(sms) && NameProcesses(st.rules)
    requires ValidEntry(st, sms, x) && ValidEntry(st, sms, y) && x.i != y.i && x.r == y.r
    ensures DifferInExportedField(x.r, sms[x.i], sms[y.i])
  {
    if x.i < y.i {
      assert SnapApart(sms[x.i], sms[y.i]);
    } else {
      assert SnapApart(sms[y.i], sms[x.i]);
    }
    var k :| 0 <= k < |st.rules| && st.rules[k] == x.r;
    assert NamesProcess(st.rules[k]);
  }

  lemma StagedDiffers(sms: seq<SnapMetric>, st: Style)
    requires Staged(sms) && NameProcesses(st.rules)
    ensures forall x, y :: ValidEntry(st, sms, x) && ValidEntry(st, sms, y) && x.i != y.i && x.r == y.r ==>
              DifferInExportedField(x.r, sms[x.i], sms[y.i])
  {
    forall x, y | ValidEntry(st, sms, x) && ValidEntry(st, sms, y) && x.i != y.i && x.r == y.r
      ensures DifferInExportedField(x.r, sms[x.i], sms[y.i])
    {
      TwoOfOneRule(sms, x, y, st);
    }
  }

  lemma StagedIsSized(sms: seq<SnapMetric>, st: Style)
    requires Staged(sms)
    ensures forall x :: ValidEntry(st, sms, x) ==> |sms[x.i].values| == |Lookup(x.r.typ).value.ds|
  {
    forall x | ValidEntry(st, sms, x) ensures |sms[x.i].values| == |Lookup(x.r.typ).value.ds| {
      assert IsSized(sms[x.i]);
    }
  }

  lemma StagedIsUnique(st: Style, sms: seq<SnapMetric>, e: Entry, de: nat, f: Entry, df: nat)
    requires Staged(sms) && NameProcesses(st.rules) && GoodStyle(st)
    requires ValidEntry(st, sms, e) && ValidEntry(st, sms, f)
    requires de < |sms[e.i].values| && df < |sms[f.i].values| && (e.i, de) != (f.i, df)
    ensures e.r.family != f.r.family || LabelSet(e.r, sms[e.i], de) != LabelSet(f.r, sms[f.i], df)
  {
    StagedDiffers(sms, st);
    StagedIsSized(sms, st);
    SampleIdentityIsUnique(st, sms, e, de, f, df);
  }

  /** What failed allocations left out makes no difference. */
  lemma PartIsStaged(part: seq<SnapMetric>, sms: seq<SnapMetric>)
    requires Sublist(part, sms) && Staged(sms)
    ensures Staged(part)
  {
    SublistPairwise(part, sms, SnapApart);
    SublistAll(part, sms, IsSized);
  }

  lemma EverythingOnce()
    ensures forall i, j :: 0 <= i < j < |Registry.Everything()| ==> Registry.Everything()[i] != Registry.Everything()[j]
  {
  }

  /** No configuration enables a reader twice. */
  lemma EnabledOnce(names: seq<string>)
    ensures forall i, j :: 0 <= i < j < |Collect.EnabledBy(names)| ==> Collect.EnabledBy(names)[i] != Collect.EnabledBy(names)[j]
  {
    EverythingOnce();
    Registry.DedupIsASet(Registry.KnownReaders(Collect.Requests(names)));
  }

  function CycleOf(names: seq<string>, prev: Cpu.Prev, input: Readers.Input): seq<SnapMetric> {
    Collect.Copies(Collect.Emissions(Collect.EnabledBy(names), Readers.SourceOf(prev, input)))
  }

  /** In every cycle of the two readers, whatever the configuration, the kernel and the
      allocator do: no two samples of a scrape share family and labels. */
  lemma NoSeriesTwice(fmt: real -> string, names: seq<string>, prev: Cpu.Prev, input: Readers.Input,
                      sms: seq<SnapMetric>, e: Entry, de: nat, f: Entry, df: nat)
    requires Sublist(sms, CycleOf(names, prev, input))
    requires forall v :: IsToken(Shown(P.Builtin(fmt), v))
    requires ValidEntry(P.Builtin(fmt), sms, e) && ValidEntry(P.Builtin(fmt), sms, f)
    requires de < |sms[e.i].values| && df < |sms[f.i].values| && (e.i, de) != (f.i, df)
    ensures e.r.family != f.r.family || LabelSet(e.r, sms[e.i], de) != LabelSet(f.r, sms[f.i], df)
  {
    var enabled := Collect.EnabledBy(names);
    EnabledOnce(names);
    CycleCopies(enabled, prev, input);
    EmittedIsApart(enabled, prev, input);
    CopiesAreStaged(Emitted(enabled, prev, input));
    PartIsStaged(sms, CycleOf(names, prev, input));
    TableNamesProcesses();
    P.BuiltinIsGood(fmt);
    StagedIsUnique(P.Builtin(fmt), sms, e, de, f, df);
  }
}
