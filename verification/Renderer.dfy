/** The rendering code of src/prom.c in its own form: labels and lines appended to
    growable strings, entries collected in an array and sorted in place. */
module Renderer {
  import opened CStrings
  import opened Lists
  import opened Metrics
  import opened Rules
  import opened Exposition
  import opened Grouping
  import opened Render
  import opened Pieces
  import D = DString

  // ---- labels ----------------------------------------------------------------------------

  /** One append of one piece. */
  method EmitPiece(d: D.Text, s: string)
    requires d.Valid()
    modifies d
    ensures d.Valid() && D.Kept(D.Same, old(d.text), d.text, [s], d.reliable)
  {
    d.Emit(s);
    D.KeptOne(D.Same, old(d.text), d.text, s, d.reliable);
  }

  /** append_escaped: character by character, each escape in one piece. */
  method AppendEscaped(d: D.Text, s: string)
    requires d.Valid()
    modifies d
    ensures d.Valid() && D.Kept(D.Same, old(d.text), d.text, EscapePieces(s), d.reliable)
  {
    ghost var t := d.text;
    D.KeptNothing(D.Same, t, [], d.reliable);
    var i := 0;
    while i < |s|
      invariant 0 <= i <= |s| && d.Valid()
      invariant D.Kept(D.Same, t, d.text, EscapePieces(s[..i]), d.reliable)
    {
      ghost var u := d.text;
      EmitPiece(d, EscapeChar(s[i]));
      EscapePiecesStep(s, i);
      D.KeptThen(D.Same, t, u, d.text, EscapePieces(s[..i]), [EscapeChar(s[i])], d.reliable);
      i := i + 1;
    }
    assert s[..|s|] == s;
  }

  method AppendPair(d: D.Text, l: Label)
    requires d.Valid()
    modifies d
    ensures d.Valid() && D.Kept(D.Same, old(d.text), d.text, PairPieces(l), d.reliable)
  {
    ghost var t := d.text;
    EmitPiece(d, l.key);
    ghost var u := d.text;
    EmitPiece(d, "=\"");
    ghost var v := d.text;
    D.KeptThen(D.Same, t, u, v, [l.key], ["=\""], d.reliable);
    AppendEscaped(d, l.value);
    ghost var w := d.text;
    D.KeptThen(D.Same, t, v, w, [l.key] + ["=\""], EscapePieces(l.value), d.reliable);
    EmitPiece(d, "\"");
    D.KeptThen(D.Same, t, w, d.text, [l.key] + ["=\""] + EscapePieces(l.value), ["\""], d.reliable);
  }

  /** ds_append_label: a comma first unless the list is still empty. */
  method AppendLabel(d: D.Text, l: Label)
    requires d.Valid()
    modifies d
    ensures d.Valid() && D.Kept(D.Same, old(d.text), d.text, Comma(old(d.text) != "") + PairPieces(l), d.reliable)
  {
    ghost var t := d.text;
    if d.len > 0 {
      EmitPiece(d, ",");
    } else {
      D.KeptNothing(D.Same, t, Comma(false), d.reliable);
    }
    ghost var u := d.text;
    AppendPair(d, l);
    D.KeptThen(D.Same, t, u, d.text, Comma(t != ""), PairPieces(l), d.reliable);
  }

  /** One conditional label of the sample loop; `ls` is what the text was to hold so far. */
  method MaybeLabel(d: D.Text, ghost ls: seq<Label>, more: seq<Label>)
    requires d.Valid() && |more| <= 1
    requires D.Kept(D.Same, "", d.text, LabelPieces(ls), d.reliable)
    modifies d
    ensures d.Valid() && D.Kept(D.Same, "", d.text, LabelPieces(ls + more), d.reliable)
  {
    if more == [] {
      assert ls + more == ls;
      return;
    }
    ghost var t := d.text;
    assert ls + more == ls + [more[0]];
    AppendLabel(d, more[0]);
    LabelAdded(t, d.text, ls, more[0], d.reliable);
  }

  /** The label list of one sample, built in a string of its own: its pieces in order, each
      whole or missing, and none missing unless an allocation failed. */
  method BuildLabels(r: Rule, sm: SnapMetric, di: nat, reliable: bool) returns (labels: D.Text)
    ensures fresh(labels) && labels.Valid() && labels.reliable == reliable
    ensures D.Kept(D.Same, "", labels.text, LabelPieces(Labels(r, sm, di)), reliable)
  {
    labels := new D.Text(reliable);
    var a, b, c := LabelOf(r.piLabel, sm.pluginInstance), LabelOf(r.tiLabel, sm.typeInstance), SourceLabel(r, di);
    D.KeptNothing(D.Same, "", LabelPieces([]), reliable);
    MaybeLabel(labels, [], a);
    assert [] + a == a;
    MaybeLabel(labels, a, b);
    MaybeLabel(labels, a + b, c);
  }

  // ---- lines -----------------------------------------------------------------------------

  /** One append of one line. */
  method EmitLine(d: D.Text, s: string, ghost it: Item, labelsOk: bool)
    requires d.Valid() && Shows(s, it, labelsOk)
    modifies d
    ensures d.Valid() && Puts(old(d.text), d.text, [it], labelsOk, d.reliable)
  {
    d.Emit(s);
    PutsOne(old(d.text), d.text, s, it, labelsOk, d.reliable);
  }

  /** The text of one sample line; `labelsOk` says that no allocation for the labels fails. */
  method SampleText(st: Style, r: Rule, sm: SnapMetric, di: nat, labelsOk: bool) returns (s: string)
    requires di < |sm.values|
    ensures Shows(s, SampleItem(st, r, sm, di), labelsOk)
  {
    var labels := BuildLabels(r, sm, di, labelsOk);
    var value := Shown(st, sm.values[di]);
    ShowsWithLabels(labels.text, r.family, Labels(r, sm, di), value, labelsOk);
    if labels.len > 0 {
      s := r.family + ("{" + (labels.buf[..labels.len] + ("}" + (" " + value)))) + "\n";
    } else {
      s := r.family + (" " + value) + "\n";
    }
  }

  /** One sample line: whole or missing. */
  method EmitSample(d: D.Text, st: Style, r: Rule, sm: SnapMetric, di: nat, labelsOk: bool)
    requires d.Valid() && di < |sm.values|
    modifies d
    ensures d.Valid() && Puts(old(d.text), d.text, [SampleItem(st, r, sm, di)], labelsOk, d.reliable)
  {
    var s := SampleText(st, r, sm, di, labelsOk);
    EmitLine(d, s, SampleItem(st, r, sm, di), labelsOk);
  }

  /** `upto(n)` stands for the first n samples; it is left abstract where the loop is
      verified. */
  ghost predicate CountsSamples(upto: nat -> seq<Item>, st: Style, r: Rule, sm: SnapMetric) {
    && upto(0) == []
    && forall di {:trigger SampleItem(st, r, sm, di)} :: 0 <= di < |sm.values| ==>
         upto(di + 1) == upto(di) + [SampleItem(st, r, sm, di)]
  }

  ghost function SamplesCount(st: Style, r: Rule, sm: SnapMetric): nat -> seq<Item> {
    (n: nat) => if n <= |sm.values| then SamplesUpto(st, r, sm, n) else []
  }

  lemma SamplesAreCounted(st: Style, r: Rule, sm: SnapMetric)
    ensures CountsSamples(SamplesCount(st, r, sm), st, r, sm)
  {
  }

  /** One sample per data source. */
  method EmitSamples(d: D.Text, st: Style, r: Rule, sm: SnapMetric, labelsOk: bool)
    requires d.Valid()
    modifies d
    ensures d.Valid()
    ensures Puts(old(d.text), d.text, Samples(st, r, sm), labelsOk, d.reliable)
  {
    SamplesAreCounted(st, r, sm);
    PutsNothing(d.text, labelsOk, d.reliable);
    EmitCounted(d, st, r, sm, labelsOk, SamplesCount(st, r, sm), d.text);
  }

  method EmitCounted(d: D.Text, st: Style, r: Rule, sm: SnapMetric, labelsOk: bool,
                     ghost upto: nat -> seq<Item>, ghost t: string)
    requires d.Valid() && CountsSamples(upto, st, r, sm)
    requires Puts(t, d.text, upto(0), labelsOk, d.reliable)
    modifies d
    ensures d.Valid()
    ensures Puts(t, d.text, upto(|sm.values|), labelsOk, d.reliable)
  {
    var di := 0;
    while di < |sm.values|
      invariant 0 <= di <= |sm.values| && d.Valid()
      invariant Puts(t, d.text, upto(di), labelsOk, d.reliable)
    {
      EmitSampleAt(d, st, r, sm, di, labelsOk, upto, t);
      di := di + 1;
    }
  }

  method EmitSampleAt(d: D.Text, st: Style, r: Rule, sm: SnapMetric, di: nat, labelsOk: bool,
                      ghost upto: nat -> seq<Item>, ghost t: string)
    requires d.Valid() && CountsSamples(upto, st, r, sm) && di < |sm.values|
    requires Puts(t, d.text, upto(di), labelsOk, d.reliable)
    modifies d
    ensures d.Valid()
    ensures Puts(t, d.text, upto(di + 1), labelsOk, d.reliable)
  {
    ghost var u, it := d.text, SampleItem(st, r, sm, di);
    EmitSample(d, st, r, sm, di, labelsOk);
    PutsThen(t, u, d.text, upto(di), [it], labelsOk, d.reliable);
  }

  /** HELP and TYPE. */
  method EmitHeader(d: D.Text, st: Style, r: Rule, typ: string, labelsOk: bool)
    requires d.Valid()
    modifies d
    ensures d.Valid() && Puts(old(d.text), d.text, Header(st, r, typ), labelsOk, d.reliable)
  {
    ghost var t, help, kind := d.text, Item.Help(r.family, r.help), Item.Type(r.family, Kind(st, typ));
    EmitLine(d, "# HELP " + (r.family + (" " + r.help)) + "\n", help, labelsOk);
    ghost var u := d.text;
    EmitLine(d, "# TYPE " + (r.family + (" " + Kind(st, typ))) + "\n", kind, labelsOk);
    PutsThen(t, u, d.text, [help], [kind], labelsOk, d.reliable);
    assert [help] + [kind] == Header(st, r, typ);
  }

  /** One entry: a new family starts with its header. */
  method EmitEntry(d: D.Text, st: Style, ms: seq<SnapMetric>, e: Entry, starts: bool, labelsOk: bool)
    requires d.Valid() && e.i < |ms|
    modifies d
    ensures d.Valid()
    ensures Puts(old(d.text), d.text, PartLines(Part(st, ms, e), starts), labelsOk, d.reliable)
  {
    ghost var t, head := d.text, if starts then Header(st, e.r, ms[e.i].typ) else [];
    if starts {
      EmitHeader(d, st, e.r, ms[e.i].typ, labelsOk);
    } else {
      PutsNothing(t, labelsOk, d.reliable);
    }
    ghost var u, samples := d.text, Samples(st, e.r, ms[e.i]);
    EmitSamples(d, st, e.r, ms[e.i], labelsOk);
    assert head + samples == PartLines(Part(st, ms, e), starts);
    PutsThen(t, u, d.text, head, samples, labelsOk, d.reliable);
  }

  lemma WrittenStep(ps: seq<Block<Item>>, k: nat)
    requires k < |ps|
    ensures Written(ps[..k + 1]) == Written(ps[..k]) + PartLines(ps[k], Starts(ps, k))
  {
    var before := ps[..k];
    assert ps[..k + 1] == before + [ps[k]];
    assert Starts(ps, k) == (before == [] || before[|before| - 1].family != ps[k].family);
    WrittenSnoc(before, ps[k]);
  }

  /** `upto(k)` stands for what the first k entries write. */
  ghost predicate CountsParts(upto: nat -> seq<Item>, ps: seq<Block<Item>>) {
    && upto(0) == []
    && forall k {:trigger Starts(ps, k)} :: 0 <= k < |ps| ==> upto(k + 1) == upto(k) + PartLines(ps[k], Starts(ps, k))
  }

  ghost function PartsCount(ps: seq<Block<Item>>): nat -> seq<Item> {
    (k: nat) => if k <= |ps| then Written(ps[..k]) else []
  }

  lemma PartsAreCounted(ps: seq<Block<Item>>)
    ensures CountsParts(PartsCount(ps), ps) && PartsCount(ps)(|ps|) == Written(ps)
  {
    assert ps[..|ps|] == ps && ps[..0] == [];
    forall k | 0 <= k < |ps| ensures PartsCount(ps)(k + 1) == PartsCount(ps)(k) + PartLines(ps[k], Starts(ps, k)) {
      PartsCountStep(ps, k);
    }
  }

  lemma PartsCountStep(ps: seq<Block<Item>>, k: nat)
    requires k < |ps|
    ensures PartsCount(ps)(k + 1) == PartsCount(ps)(k) + PartLines(ps[k], Starts(ps, k))
  {
    WrittenStep(ps, k);
  }

  /** The rendering loop over the sorted entries. */
  method EmitEntries(d: D.Text, st: Style, ms: seq<SnapMetric>, es: seq<Entry>, labelsOk: bool)
    requires d.Valid() && forall k :: 0 <= k < |es| ==> es[k].i < |ms|
    modifies d
    ensures d.Valid()
    ensures Puts(old(d.text), d.text, Written(Parts(st, ms, es)), labelsOk, d.reliable)
  {
    ghost var ps := Parts(st, ms, es);
    PartsAreCounted(ps);
    assert ArePartsOf(ps, st, ms, es);
    PutsNothing(d.text, labelsOk, d.reliable);
    EmitParts(d, st, ms, es, labelsOk, PartsCount(ps), ps, d.text);
  }

  ghost predicate ArePartsOf(ps: seq<Block<Item>>, st: Style, ms: seq<SnapMetric>, es: seq<Entry>) {
    |ps| == |es| && forall k {:trigger Part(st, ms, es[k])} :: 0 <= k < |es| ==> es[k].i < |ms| && ps[k] == Part(st, ms, es[k])
  }

  /** `cur_family` before turn k. */
  predicate FamilyBefore(family: Option<string>, es: seq<Entry>, k: nat)
    requires k <= |es|
  {
    family == if k == 0 then None else Some(es[k - 1].r.family)
  }

  method EmitParts(d: D.Text, st: Style, ms: seq<SnapMetric>, es: seq<Entry>, labelsOk: bool,
                   ghost upto: nat -> seq<Item>, ghost ps: seq<Block<Item>>, ghost t: string)
    requires d.Valid() && CountsParts(upto, ps) && ArePartsOf(ps, st, ms, es)
    requires Puts(t, d.text, upto(0), labelsOk, d.reliable)
    modifies d
    ensures d.Valid()
    ensures Puts(t, d.text, upto(|es|), labelsOk, d.reliable)
  {
    var family: Option<string> := None;
    var k := 0;
    while k < |es|
      invariant 0 <= k <= |es| && d.Valid()
      invariant FamilyBefore(family, es, k)
      invariant Puts(t, d.text, upto(k), labelsOk, d.reliable)
    {
      family := EmitTurn(d, st, ms, es, k, family, labelsOk, upto, ps, t);
      k := k + 1;
    }
  }

  /** One turn of the loop. */
  method EmitTurn(d: D.Text, st: Style, ms: seq<SnapMetric>, es: seq<Entry>, k: nat, family: Option<string>,
                  labelsOk: bool, ghost upto: nat -> seq<Item>, ghost ps: seq<Block<Item>>, ghost t: string)
    returns (family': Option<string>)
    requires d.Valid() && k < |es| && CountsParts(upto, ps) && ArePartsOf(ps, st, ms, es)
    requires FamilyBefore(family, es, k)
    requires Puts(t, d.text, upto(k), labelsOk, d.reliable)
    modifies d
    ensures d.Valid() && FamilyBefore(family', es, k + 1)
    ensures Puts(t, d.text, upto(k + 1), labelsOk, d.reliable)
  {
    family' := Some(es[k].r.family);
    var starts := family.None? || family.value != es[k].r.family;
    ghost var u := d.text;
    assert ps[k] == Part(st, ms, es[k]);
    assert k > 0 ==> ps[k - 1] == Part(st, ms, es[k - 1]);
    assert starts == Starts(ps, k);
    EmitEntry(d, st, ms, es[k], starts, labelsOk);
    PutsThen(t, u, d.text, upto(k), PartLines(ps[k], starts), labelsOk, d.reliable);
  }

  // ---- collecting and sorting the entries ---------------------------------------------

  /** The filter loop: e[..m] gets the known metrics in input order. */
  method CollectEntries(st: Style, ms: seq<SnapMetric>, e: array<Entry>) returns (m: nat)
    requires e.Length == |ms|
    modifies e
    ensures m <= e.Length && e[..m] == Known(st, ms, |ms|)
  {
    m := 0;
    var i := 0;
    while i < |ms|
      invariant 0 <= m <= i <= |ms| && e[..m] == Known(st, ms, i)
    {
      var r := FindRule(st.rules, ms[i].plugin, ms[i].typ);
      if r.Some? {
        e[m] := Entry(r.value, i);
        m := m + 1;
        assert e[..m] == e[..m - 1] + [Entry(r.value, i)];
      }
      i := i + 1;
    }
  }

  lemma {:induction false} KnownIsValid(st: Style, ms: seq<SnapMetric>, k: nat)
    requires k <= |ms|
    ensures ValidEntries(st, ms, Known(st, ms, k))
    decreases k
  {
    if k > 0 {
      KnownIsValid(st, ms, k - 1);
    }
  }

  /** Places `e` before the first entry whose family is not smaller. */
  function Insert(e: Entry, es: seq<Entry>): (r: seq<Entry>)
    ensures multiset(r) == multiset(es) + multiset{e}
    decreases |es|
  {
    if es == [] then [e]
    else if Leq(e.r.family, es[0].r.family) then [e] + es
    else
      assert es == [es[0]] + es[1..];
      [es[0]] + Insert(e, es[1..])
  }

  lemma {:induction false} InsertSorted(e: Entry, es: seq<Entry>)
    requires SortedByFamily(es)
    ensures SortedByFamily(Insert(e, es))
    decreases |es|
  {
    if es == [] {
    } else if Leq(e.r.family, es[0].r.family) {
      forall b | 0 <= b < |es| ensures Leq(e.r.family, es[b].r.family) {
        if b > 0 {
          LeqTransitive(e.r.family, es[0].r.family, es[b].r.family);
        }
      }
    } else {
      InsertSorted(e, es[1..]);
      LeqTotal(e.r.family, es[0].r.family);
      var r := Insert(e, es[1..]);
      forall b | 0 <= b < |r| ensures Leq(es[0].r.family, r[b].r.family) {
        assert r[b] in multiset(r);
        assert multiset(r) == multiset(es[1..]) + multiset{e};
        if r[b] != e {
          assert r[b] in es[1..];
        }
      }
    }
  }

  /** qsort: callers may rely only on the order by family and on the entries being the
      same; how equal families are ordered is left open. */
  method Qsort(e: array<Entry>, m: nat)
    requires m <= e.Length
    modifies e
    ensures multiset(e[..m]) == multiset(old(e[..m])) && SortedByFamily(e[..m])
  {
    var sorted: seq<Entry> := [];
    var i := 0;
    while i < m
      invariant 0 <= i <= m && |sorted| == i && SortedByFamily(sorted)
      invariant multiset(sorted) == multiset(e[..i]) && e[..] == old(e[..])
    {
      assert e[..i + 1] == e[..i] + [e[i]];
      InsertSorted(e[i], sorted);
      sorted := Insert(e[i], sorted);
      assert |multiset(sorted)| == |sorted|;
      i := i + 1;
    }
    forall k | 0 <= k < m {
      e[k] := sorted[k];
    }
    assert e[..m] == sorted;
  }

  /** render_to_dstring for a non-empty list: unless the entry array cannot be allocated,
      the loop runs over some sorted order of the known metrics and appends a line for each of
      their items. When allocations fail, whole lines may be missing, and label lists may have
      lost pieces; if none fails, neither. */
  method RenderToText(d: D.Text, st: Style, ms: seq<SnapMetric>, labelsOk: bool) returns (ghost es: seq<Entry>)
    requires d.Valid() && ms != []
    modifies d
    ensures d.Valid()
    ensures QsortResult(st, ms, es)
    ensures Puts(old(d.text), d.text, Written(Parts(st, ms, es)), labelsOk, d.reliable)
  {
    var e := new Entry[|ms|];
    var m := CollectEntries(st, ms, e);
    KnownIsValid(st, ms, |ms|);
    ghost var known := e[..m];
    Qsort(e, m);
    es := e[..m];
    forall k | 0 <= k < |es| ensures ValidEntry(st, ms, es[k]) {
      assert es[k] in multiset(es);
      assert es[k] in known;
    }
    var oom: bool := *;
    if oom && !d.reliable {
      PutsDropped(d.text, Written(Parts(st, ms, es)), labelsOk);
      return;
    }
    EmitEntries(d, st, ms, e[..m], labelsOk);
  }

  /** If only appends to the document fail, whole lines are missing and nothing else. */
  lemma PutsLines(out: string, items: seq<Item>, all: bool)
    requires Puts("", out, items, true, all)
    ensures LinesOf(out, items, all)
  {
    var kept := PutsADocument(LineText, out, items, all);
  }

  /** The rendered text of a non-empty list, in a string of its own. */
  method RenderList(st: Style, ms: seq<SnapMetric>, reliable: bool, labelsOk: bool) returns (out: string, ghost es: seq<Entry>)
    requires ms != []
    ensures QsortResult(st, ms, es)
    ensures Puts("", out, Written(Parts(st, ms, es)), labelsOk, reliable)
    ensures labelsOk ==> LinesOf(out, Written(Parts(st, ms, es)), reliable)
  {
    var d := new D.Text(reliable);
    es := RenderToText(d, st, ms, labelsOk);
    out := d.buf[..d.len];
    if labelsOk {
      PutsLines(out, Written(Parts(st, ms, es)), reliable);
    }
  }
}
