/** Rendering a snapshot (render_to_dstring in src/prom.c), on values: entries sorted by
    family, one HELP and TYPE line before the samples of each family. Everything here
    holds for any good rule table and any order qsort may return. */
module Render {
  import opened CStrings
  import opened Lists
  import opened Metrics
  import opened Types
  import opened Rules
  import opened Exposition
  import opened Grouping

  /** What rendering depends on: the rule table, the TYPE text of a collectd type
      (prom_type_for) and the printer of values (fmt_val). */
  datatype Style = Style(rules: seq<Rule>, kind: string -> string, fmt: real -> string)

  function Kind(st: Style, typ: string): string { st.kind(typ) }

  function Shown(st: Style, v: real): string { st.fmt(v) }

  ghost predicate GoodStyle(st: Style) {
    && GoodTable(st.rules)
    && (forall t :: IsName(Kind(st, t)))
    && (forall v :: IsToken(Shown(st, v)))
  }

  /** A rule and the index of the metric it applies to. */
  datatype Entry = Entry(r: Rule, i: nat)

  // ---- samples of one metric -------------------------------------------------------

  function LabelOf(key: Option<string>, value: string): seq<Label> {
    if key.Some? && value != "" then [Label(key.value, value)] else []
  }

  function SourceLabel(r: Rule, di: nat): seq<Label> {
    if r.dsLabel.Some? && di < |r.dsValues| then [Label(r.dsLabel.value, r.dsValues[di])] else []
  }

  function Labels(r: Rule, sm: SnapMetric, di: nat): seq<Label> {
    LabelOf(r.piLabel, sm.pluginInstance) + LabelOf(r.tiLabel, sm.typeInstance) + SourceLabel(r, di)
  }

  function SampleItem(st: Style, r: Rule, sm: SnapMetric, di: nat): Item
    requires di < |sm.values|
  {
    Sample(r.family, Labels(r, sm, di), Shown(st, sm.values[di]))
  }

  /** Samples of the first n data sources. */
  function SamplesUpto(st: Style, r: Rule, sm: SnapMetric, n: nat): seq<Item>
    requires n <= |sm.values|
  {
    if n == 0 then [] else SamplesUpto(st, r, sm, n - 1) + [SampleItem(st, r, sm, n - 1)]
  }

  function Samples(st: Style, r: Rule, sm: SnapMetric): seq<Item> {
    SamplesUpto(st, r, sm, |sm.values|)
  }

  lemma {:induction false} SamplesAt(st: Style, r: Rule, sm: SnapMetric, n: nat)
    requires n <= |sm.values|
    ensures |SamplesUpto(st, r, sm, n)| == n
    ensures forall di :: 0 <= di < n ==> SamplesUpto(st, r, sm, n)[di] == SampleItem(st, r, sm, di)
    decreases n
  {
    if n > 0 {
      SamplesAt(st, r, sm, n - 1);
    }
  }

  // ---- entries ---------------------------------------------------------------------

  /** The entries of the known metrics among the first k, in input order. */
  function Known(st: Style, ms: seq<SnapMetric>, k: nat): seq<Entry>
    requires k <= |ms|
  {
    if k == 0 then []
    else
      var before := Known(st, ms, k - 1);
      match FindRule(st.rules, ms[k - 1].plugin, ms[k - 1].typ)
      case None => before
      case Some(r) => before + [Entry(r, k - 1)]
  }

  predicate ValidEntry(st: Style, ms: seq<SnapMetric>, e: Entry) {
    e.i < |ms| && FindRule(st.rules, ms[e.i].plugin, ms[e.i].typ) == Some(e.r)
  }

  predicate ValidEntries(st: Style, ms: seq<SnapMetric>, es: seq<Entry>) {
    forall k :: 0 <= k < |es| ==> ValidEntry(st, ms, es[k])
  }

  ghost predicate SortedByFamily(es: seq<Entry>) {
    forall a, b :: 0 <= a < b < |es| ==> Leq(es[a].r.family, es[b].r.family)
  }

  /** Any result qsort may leave: it is not stable, so only the order by family and
      the multiset of entries are known. */
  ghost predicate QsortResult(st: Style, ms: seq<SnapMetric>, es: seq<Entry>) {
    && multiset(es) == multiset(Known(st, ms, |ms|))
    && ValidEntries(st, ms, es)
    && SortedByFamily(es)
  }

  // ---- the lines -------------------------------------------------------------------

  function Header(st: Style, r: Rule, typ: string): seq<Item> {
    [Help(r.family, r.help), Type(r.family, Kind(st, typ))]
  }

  /** The lines entry `e` can write: the head of its family and its samples. */
  function Part(st: Style, ms: seq<SnapMetric>, e: Entry): Block<Item> {
    if e.i < |ms| then Block(e.r.family, Header(st, e.r, ms[e.i].typ), Samples(st, e.r, ms[e.i]))
    else Block(e.r.family, [], [])
  }

  function PartOf(st: Style, ms: seq<SnapMetric>): Entry -> Block<Item> {
    e => Part(st, ms, e)
  }

  function Parts(st: Style, ms: seq<SnapMetric>, es: seq<Entry>): (ps: seq<Block<Item>>)
    ensures |ps| == |es|
    ensures forall k :: 0 <= k < |es| ==> ps[k] == Part(st, ms, es[k])
  {
    Mapped(PartOf(st, ms), es)
  }

  /** The text written for the sorted entries. */
  function Text(st: Style, ms: seq<SnapMetric>, es: seq<Entry>): string {
    Document(Written(Parts(st, ms, es)))
  }

  /** Reference: sample lines entry by entry, in the order given. */
  function SamplesOf(st: Style, ms: seq<SnapMetric>, es: seq<Entry>): seq<Item> {
    if es == [] then []
    else SamplesOf(st, ms, es[..|es| - 1]) + Part(st, ms, es[|es| - 1]).samples
  }

  /** Naive rendering: the samples of the known metrics, metric by metric in input order. */
  function Naive(st: Style, ms: seq<SnapMetric>): seq<Item> {
    SamplesOf(st, ms, Known(st, ms, |ms|))
  }

  // ---- from entries to parts ----------------------------------------------------------

  lemma PartsSnoc(st: Style, ms: seq<SnapMetric>, es: seq<Entry>, e: Entry)
    ensures Parts(st, ms, es + [e]) == Parts(st, ms, es) + [Part(st, ms, e)]
  {
  }

  lemma {:induction false} NaiveBag(st: Style, ms: seq<SnapMetric>, es: seq<Entry>)
    ensures Bag(Parts(st, ms, es), None) == multiset(SamplesOf(st, ms, es))
    decreases |es|
  {
    if es == [] {
      assert Parts(st, ms, es) == [];
    } else {
      var init, e := es[..|es| - 1], es[|es| - 1];
      assert es == init + [e];
      PartsSnoc(st, ms, init, e);
      BagSnoc(Parts(st, ms, init), Part(st, ms, e), None);
      NaiveBag(st, ms, init);
    }
  }

  lemma PartsPermute(st: Style, ms: seq<SnapMetric>, a: seq<Entry>, b: seq<Entry>)
    requires multiset(a) == multiset(b)
    ensures multiset(Parts(st, ms, a)) == multiset(Parts(st, ms, b))
  {
    MappedPermutes(PartOf(st, ms), a, b);
  }

  /** The TYPE and HELP text of a family do not depend on which sample comes first. */
  lemma HeadsOfPartsAgree(st: Style, ms: seq<SnapMetric>, es: seq<Entry>)
    requires GoodStyle(st) && ValidEntries(st, ms, es)
    ensures HeadsAgree(Parts(st, ms, es))
  {
    var ps := Parts(st, ms, es);
    forall a, b | 0 <= a < |ps| && 0 <= b < |ps| && ps[a].family == ps[b].family ensures ps[a].head == ps[b].head {
      assert ValidEntry(st, ms, es[a]) && ValidEntry(st, ms, es[b]);
      FamilyDeterminesRule(st.rules, es[a].r, es[b].r);
    }
  }

  // ---- every written line is well formed ------------------------------------------------

  lemma PlainTextIsOneLine(s: string)
    requires IsPlainText(s) || IsName(s)
    ensures '\n' !in s
  {
  }

  predicate HasNameKey(l: Label) { IsName(l.key) }

  lemma LabelKeysAreNames(r: Rule, sm: SnapMetric, di: nat)
    requires GoodRule(r)
    ensures All(Labels(r, sm, di), HasNameKey)
  {
    var a, b, c := LabelOf(r.piLabel, sm.pluginInstance), LabelOf(r.tiLabel, sm.typeInstance), SourceLabel(r, di);
    KeyIsName(r.piLabel, a);
    KeyIsName(r.tiLabel, b);
    KeyIsName(r.dsLabel, c);
    AllAppend(a, b, HasNameKey);
    AllAppend(a + b, c, HasNameKey);
  }

  lemma KeyIsName(key: Option<string>, labels: seq<Label>)
    requires IsKey(key) && |labels| <= 1 && forall i :: 0 <= i < |labels| ==> key == Some(labels[i].key)
    ensures All(labels, HasNameKey)
  {
  }

  ghost predicate AllWritable(items: seq<Item>) {
    forall i :: 0 <= i < |items| ==> Writable(items[i])
  }

  lemma HeaderIsWritable(st: Style, r: Rule, typ: string)
    requires GoodStyle(st) && GoodRule(r)
    ensures AllWritable(Header(st, r, typ))
  {
    PlainTextIsOneLine(r.help);
    PlainTextIsOneLine(Kind(st, typ));
  }

  lemma SamplesAreWritable(st: Style, r: Rule, sm: SnapMetric)
    requires GoodRule(r) && forall v :: IsToken(Shown(st, v))
    ensures AllWritable(Samples(st, r, sm))
  {
    SamplesAt(st, r, sm, |sm.values|);
    forall di | 0 <= di < |sm.values| ensures Writable(Samples(st, r, sm)[di]) {
      LabelKeysAreNames(r, sm, di);
      assert IsToken(Shown(st, sm.values[di]));
    }
  }

  lemma {:induction false} WrittenIsWritable(ps: seq<Block<Item>>)
    requires forall k :: 0 <= k < |ps| ==> AllWritable(ps[k].head) && AllWritable(ps[k].samples)
    ensures AllWritable(Written(ps))
    decreases |ps|
  {
    if ps != [] {
      WrittenIsWritable(ps[..|ps| - 1]);
    }
  }

  lemma PartsAreWritable(st: Style, ms: seq<SnapMetric>, es: seq<Entry>)
    requires GoodStyle(st) && ValidEntries(st, ms, es)
    ensures AllWritable(Written(Parts(st, ms, es)))
  {
    var ps := Parts(st, ms, es);
    forall k | 0 <= k < |ps| ensures AllWritable(ps[k].head) && AllWritable(ps[k].samples) {
      assert ValidEntry(st, ms, es[k]);
      var j :| 0 <= j < |st.rules| && st.rules[j] == es[k].r;
      HeaderIsWritable(st, es[k].r, ms[es[k].i].typ);
      SamplesAreWritable(st, es[k].r, ms[es[k].i]);
    }
    WrittenIsWritable(ps);
  }

  // ---- main results ----------------------------------------------------------------------

  /** The block is headed by the HELP and TYPE lines of a rule of the table. */
  ghost predicate HeadedByRule(st: Style, g: Block<Item>) {
    exists r :: r in st.rules && g.family == r.family && g.head == Header(st, r, r.typ)
  }

  lemma HeadsComeFromRules(st: Style, ms: seq<SnapMetric>, es: seq<Entry>, g: Block<Item>)
    requires ValidEntries(st, ms, es) && HeadIn(Parts(st, ms, es), g)
    ensures HeadedByRule(st, g)
  {
    var ps := Parts(st, ms, es);
    var j :| 0 <= j < |ps| && SameHead(ps[j], g);
    assert ValidEntry(st, ms, es[j]);
    assert es[j].r in st.rules;
  }

  ghost predicate SamplesMatchFamily(g: Block<Item>) {
    forall j :: 0 <= j < |g.samples| ==> g.samples[j].Sample? && g.samples[j].family == g.family
  }

  lemma PartSamplesMatch(st: Style, ms: seq<SnapMetric>, e: Entry)
    ensures SamplesMatchFamily(Part(st, ms, e))
  {
    if e.i < |ms| {
      SamplesAt(st, e.r, ms[e.i], |ms[e.i].values|);
    }
  }

  lemma BlockSamplesMatch(st: Style, ms: seq<SnapMetric>, es: seq<Entry>, gs: seq<Block<Item>>, a: nat)
    requires GroupingOf(Parts(st, ms, es), gs) && a < |gs|
    ensures SamplesMatchFamily(gs[a])
  {
    var ps, g := Parts(st, ms, es), gs[a];
    forall j | 0 <= j < |g.samples| ensures g.samples[j].Sample? && g.samples[j].family == g.family {
      var x := g.samples[j];
      assert x in multiset(g.samples);
      BagOfBlock(gs, a);
      BagElement(ps, g.family, x);
      var k :| 0 <= k < |ps| && ps[k].family == g.family && x in ps[k].samples;
      PartSamplesMatch(st, ms, es[k]);
    }
  }

  /** A document of which whole lines may be missing, none if `all`. */
  ghost predicate LinesOf(out: string, items: seq<Item>, all: bool) {
    exists kept :: Sublist(kept, items) && (all ==> kept == items) && out == Document(kept)
  }

  lemma {:induction false} SublistIsWritable(kept: seq<Item>, items: seq<Item>)
    requires Sublist(kept, items) && AllWritable(items)
    ensures AllWritable(kept)
    decreases |items|
  {
    if kept != [] {
      var init := items[..|items| - 1];
      if Sublist(kept, init) {
        SublistIsWritable(kept, init);
      } else {
        SublistIsWritable(kept[..|kept| - 1], init);
        assert Writable(kept[|kept| - 1]);
        assert forall i :: 0 <= i < |kept| - 1 ==> kept[i] == kept[..|kept| - 1][i];
      }
    }
  }

  /** What survives of a text when appends fail still parses: to the lines of the full text,
      in order, without those that were lost. */
  lemma PartialTextParses(st: Style, ms: seq<SnapMetric>, es: seq<Entry>, out: string, all: bool) returns (kept: seq<Item>)
    requires GoodStyle(st) && QsortResult(st, ms, es) && LinesOf(out, Written(Parts(st, ms, es)), all)
    ensures ParseDocument(out) == Some(kept) && Sublist(kept, Written(Parts(st, ms, es)))
    ensures all ==> kept == Written(Parts(st, ms, es)) && out == Text(st, ms, es)
  {
    var items := Written(Parts(st, ms, es));
    kept :| Sublist(kept, items) && (all ==> kept == items) && out == Document(kept);
    PartsAreWritable(st, ms, es);
    SublistIsWritable(kept, items);
    DocumentRoundTrip(kept);
  }

  /** The text parses into blocks in strictly increasing family order, each headed once by the
      HELP and TYPE lines of its rule, with exactly the samples of naive rendering. */
  ghost predicate IsScrapeOf(st: Style, out: string, gs: seq<Block<Item>>, ms: seq<SnapMetric>) {
    && ParseDocument(out) == Some(Concatenated(gs))
    && Increasing(gs)
    && (forall a :: 0 <= a < |gs| ==> HeadedByRule(st, gs[a]) && SamplesMatchFamily(gs[a]))
    && Bag(gs, None) == multiset(Naive(st, ms))
  }

  /** Rendering is correct for every metric list and every order qsort may leave:
      a parser of the exposition format reads the text as family blocks in strictly
      increasing order, each headed once by the HELP and TYPE lines of its rule, and
      the sample lines are exactly those of the known metrics. */
  lemma RenderingIsCorrect(st: Style, ms: seq<SnapMetric>, es: seq<Entry>)
    returns (gs: seq<Block<Item>>)
    requires GoodStyle(st) && QsortResult(st, ms, es)
    ensures IsScrapeOf(st, Text(st, ms, es), gs, ms)
    ensures GroupingOf(Parts(st, ms, es), gs)
  {
    var ps := Parts(st, ms, es);
    PartsAreWritable(st, ms, es);
    DocumentRoundTrip(Written(ps));
    gs := GroupingExists(ps);
    BlocksAreGood(st, ms, es, gs);
    SamplesAreNaive(st, ms, es);
  }

  lemma BlocksAreGood(st: Style, ms: seq<SnapMetric>, es: seq<Entry>, gs: seq<Block<Item>>)
    requires GoodStyle(st) && QsortResult(st, ms, es) && GroupingOf(Parts(st, ms, es), gs)
    ensures forall a :: 0 <= a < |gs| ==> HeadedByRule(st, gs[a]) && SamplesMatchFamily(gs[a])
  {
    forall a | 0 <= a < |gs| ensures HeadedByRule(st, gs[a]) && SamplesMatchFamily(gs[a]) {
      BlockSamplesMatch(st, ms, es, gs, a);
      assert HeadIn(Parts(st, ms, es), gs[a]);
      HeadsComeFromRules(st, ms, es, gs[a]);
    }
  }

  lemma SamplesAreNaive(st: Style, ms: seq<SnapMetric>, es: seq<Entry>)
    requires QsortResult(st, ms, es)
    ensures Bag(Parts(st, ms, es), None) == multiset(Naive(st, ms))
  {
    var known := Known(st, ms, |ms|);
    PartsPermute(st, ms, es, known);
    BagPermutes(Parts(st, ms, es), Parts(st, ms, known), None);
    NaiveBag(st, ms, known);
  }

  /** Two runs that sorted differently produce the same families, heads and, block by
      block, the same samples. */
  lemma SortingOrderDoesNotMatter(st: Style, ms: seq<SnapMetric>,
                                  es: seq<Entry>, gs: seq<Block<Item>>, fs: seq<Entry>, hs: seq<Block<Item>>)
    requires GoodStyle(st) && QsortResult(st, ms, es) && QsortResult(st, ms, fs)
    requires GroupingOf(Parts(st, ms, es), gs) && GroupingOf(Parts(st, ms, fs), hs)
    ensures Equivalent(gs, hs)
  {
    PartsPermute(st, ms, es, fs);
    HeadsOfPartsAgree(st, ms, fs);
    OrderDoesNotMatter(Parts(st, ms, es), gs, Parts(st, ms, fs), hs);
  }

  // ---- sample identity -------------------------------------------------------------------

  /** The labels as a set: what identifies a sample within its family. */
  ghost function LabelSet(r: Rule, sm: SnapMetric, di: nat): set<Label> {
    set l | l in Labels(r, sm, di)
  }

  /** The instances of two metrics differ in a field that the rule exports. */
  predicate DifferInExportedField(r: Rule, a: SnapMetric, b: SnapMetric) {
    || (r.piLabel.Some? && a.pluginInstance != b.pluginInstance)
    || (r.tiLabel.Some? && a.typeInstance != b.typeInstance)
  }

  /** For a label that is written, its key determines its value. */
  lemma LabelByKey(r: Rule, sm: SnapMetric, di: nat, l: Label)
    requires LabelsAreNames(r)
    ensures l in Labels(r, sm, di) <==>
      || (r.piLabel == Some(l.key) && sm.pluginInstance == l.value && l.value != "")
      || (r.tiLabel == Some(l.key) && sm.typeInstance == l.value && l.value != "")
      || (r.dsLabel == Some(l.key) && di < |r.dsValues| && r.dsValues[di] == l.value)
  {
    var a, b, c := LabelOf(r.piLabel, sm.pluginInstance), LabelOf(r.tiLabel, sm.typeInstance), SourceLabel(r, di);
    assert l in Labels(r, sm, di) <==> l in a || l in b || l in c;
  }

  lemma InstancesSeparate(r: Rule, a: SnapMetric, da: nat, b: SnapMetric, db: nat)
    requires LabelsAreNames(r) && DifferInExportedField(r, a, b)
    ensures LabelSet(r, a, da) != LabelSet(r, b, db)
  {
    var pi := r.piLabel.Some? && a.pluginInstance != b.pluginInstance;
    var key := if pi then r.piLabel.value else r.tiLabel.value;
    var va := if pi then a.pluginInstance else a.typeInstance;
    var vb := if pi then b.pluginInstance else b.typeInstance;
    var l := Label(key, if va != "" then va else vb);
    LabelByKey(r, a, da, l);
    LabelByKey(r, b, db, l);
    assert l in LabelSet(r, a, da) <==> l !in LabelSet(r, b, db);
  }

  lemma SourcesSeparate(r: Rule, a: SnapMetric, da: nat, db: nat)
    requires GoodRule(r) && |a.values| == |Lookup(r.typ).value.ds|
    requires da < |a.values| && db < |a.values| && da != db
    ensures LabelSet(r, a, da) != LabelSet(r, a, db)
  {
    var l := Label(r.dsLabel.value, r.dsValues[da]);
    LabelByKey(r, a, da, l);
    LabelByKey(r, a, db, l);
    assert r.dsValues[da] != r.dsValues[db] by {
      if da < db {
        assert r.dsValues[da] != r.dsValues[db];
      } else {
        assert r.dsValues[db] != r.dsValues[da];
      }
    }
    assert l in LabelSet(r, a, da) && l !in LabelSet(r, a, db);
  }

  /** When two samples share family and labels, exactly: same rule, same data source,
      and no exported instance field differs. So identities are unique as soon as any
      two metrics under one rule differ in an exported field. */
  lemma SampleIdentity(st: Style, ms: seq<SnapMetric>, e: Entry, de: nat, f: Entry, df: nat)
    requires GoodStyle(st) && ValidEntry(st, ms, e) && ValidEntry(st, ms, f)
    requires |ms[e.i].values| == |Lookup(e.r.typ).value.ds| && |ms[f.i].values| == |Lookup(f.r.typ).value.ds|
    requires de < |ms[e.i].values| && df < |ms[f.i].values|
    ensures e.r.family == f.r.family && LabelSet(e.r, ms[e.i], de) == LabelSet(f.r, ms[f.i], df)
            <==> e.r == f.r && de == df && !DifferInExportedField(e.r, ms[e.i], ms[f.i])
  {
    if e.r.family == f.r.family {
      FamilyDeterminesRule(st.rules, e.r, f.r);
      assert GoodRule(e.r);
      if DifferInExportedField(e.r, ms[e.i], ms[f.i]) {
        InstancesSeparate(e.r, ms[e.i], de, ms[f.i], df);
      } else {
        assert Labels(e.r, ms[e.i], df) == Labels(e.r, ms[f.i], df);
        if de != df {
          SourcesSeparate(e.r, ms[e.i], de, df);
        }
      }
    }
  }

  /** Over a whole snapshot: with matching value counts, and any two metrics under one
      rule differing in an exported field, no two samples share an identity. */
  lemma SampleIdentityIsUnique(st: Style, ms: seq<SnapMetric>, e: Entry, de: nat, f: Entry, df: nat)
    requires GoodStyle(st) && ValidEntry(st, ms, e) && ValidEntry(st, ms, f)
    requires forall x :: ValidEntry(st, ms, x) ==> |ms[x.i].values| == |Lookup(x.r.typ).value.ds|
    requires forall x, y :: ValidEntry(st, ms, x) && ValidEntry(st, ms, y) && x.i != y.i && x.r == y.r ==>
               DifferInExportedField(x.r, ms[x.i], ms[y.i])
    requires de < |ms[e.i].values| && df < |ms[f.i].values| && (e.i, de) != (f.i, df)
    ensures e.r.family != f.r.family || LabelSet(e.r, ms[e.i], de) != LabelSet(f.r, ms[f.i], df)
  {
    SampleIdentity(st, ms, e, de, f, df);
  }
}
