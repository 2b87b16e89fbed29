/** What the renderer appends, piece by piece (append_escaped, ds_append_label and the sample
    loop of src/prom.c), what is left of it when appends fail, and what a parser makes of it. */
module Pieces {
  import opened CStrings
  import opened Lists
  import opened Rules
  import opened Exposition
  import D = DString

  // ---- labels ----------------------------------------------------------------------------

  /** The appends of append_escaped, one for each character. */
  function EscapePieces(s: string): seq<string> {
    if s == "" then [] else EscapePieces(s[..|s| - 1]) + [EscapeChar(s[|s| - 1])]
  }

  lemma EscapePiecesStep(s: string, i: nat)
    requires i < |s|
    ensures EscapePieces(s[..i + 1]) == EscapePieces(s[..i]) + [EscapeChar(s[i])]
  {
    assert s[..i + 1][..i] == s[..i];
  }

  lemma EscapeSnoc(s: string, c: char)
    ensures Escape(s + [c]) == Escape(s) + EscapeChar(c)
    decreases |s|
  {
    if s == "" {
      assert s + [c] == [c] && [c][1..] == "";
    } else {
      EscapeSnoc(s[1..], c);
      assert (s + [c])[1..] == s[1..] + [c];
    }
  }

  lemma {:induction false} EscapePiecesSpell(s: string)
    ensures D.Spelled(D.Same, EscapePieces(s)) == Escape(s)
    decreases |s|
  {
    if s != "" {
      var init, c := s[..|s| - 1], s[|s| - 1];
      assert s == init + [c];
      EscapePiecesSpell(init);
      D.SpelledSnoc(D.Same, EscapePieces(init), EscapeChar(c));
      EscapeSnoc(init, c);
    }
  }

  /** key="value" in the appends of ds_append_label. */
  function PairPieces(l: Label): seq<string> {
    [l.key] + ["=\""] + EscapePieces(l.value) + ["\""]
  }

  lemma PairPiecesSpell(l: Label)
    ensures D.Spelled(D.Same, PairPieces(l)) == LabelText(l)
  {
    EscapePiecesSpell(l.value);
    FramedSpell(l.key, "=\"", EscapePieces(l.value), "\"");
    PairText(l.key, Escape(l.value));
  }

  lemma FramedSpell(a: string, b: string, v: seq<string>, c: string)
    ensures D.Spelled(D.Same, [a] + [b] + v + [c]) == ((a + b) + D.Spelled(D.Same, v)) + c
  {
    D.SpelledSnoc(D.Same, [a] + [b] + v, c);
    D.SpelledAppend(D.Same, [a] + [b], v);
    D.SpelledSnoc(D.Same, [a], b);
    D.SpelledSnoc(D.Same, [], a);
    assert [] + [a] == [a];
  }

  lemma PairText(key: string, value: string)
    ensures ((key + "=\"") + value) + "\"" == key + ("=\"" + (value + "\""))
  {
  }

  function Comma(present: bool): seq<string> { if present then [","] else [] }

  /** The appends of a whole label list. */
  function LabelPieces(ls: seq<Label>): seq<string> {
    if ls == [] then []
    else
      var n := |ls| - 1;
      LabelPieces(ls[..n]) + (Comma(n > 0) + PairPieces(ls[n]))
  }

  lemma LabelPiecesSnoc(ls: seq<Label>, l: Label)
    ensures LabelPieces(ls + [l]) == LabelPieces(ls) + (Comma(ls != []) + PairPieces(l))
  {
    assert (ls + [l])[..|ls|] == ls;
  }

  lemma {:induction false} LabelsTextSnoc(ls: seq<Label>, l: Label)
    ensures LabelsText(ls + [l]) == (if ls == [] then "" else LabelsText(ls) + ",") + LabelText(l)
    ensures LabelsText(ls) == "" <==> ls == []
    decreases |ls|
  {
    if |ls| == 1 {
      assert ls == [ls[0]];
      MoreLabels(ls[0], [l]);
      Regroup(LabelText(ls[0]), ",", LabelText(l));
    } else if |ls| > 1 {
      var x, t := ls[0], ls[1..];
      LabelsTextSnoc(t, l);
      assert ls + [l] == [x] + (t + [l]) && ls == [x] + t;
      MoreLabels(x, t + [l]);
      MoreLabels(x, t);
      CommaText(LabelText(x), LabelsText(t), LabelText(l));
    }
  }

  lemma CommaText(a: string, b: string, c: string)
    ensures a + ("," + ((b + ",") + c)) == ((a + ("," + b)) + ",") + c
  {
  }

  lemma CommaSpells(present: bool)
    ensures D.Spelled(D.Same, Comma(present)) == if present then "," else ""
  {
    D.SpelledSnoc(D.Same, [], ",");
    assert [] + [","] == [","];
  }

  lemma {:induction false} LabelPiecesSpell(ls: seq<Label>)
    ensures D.Spelled(D.Same, LabelPieces(ls)) == LabelsText(ls)
    decreases |ls|
  {
    if ls != [] {
      var init, l := ls[..|ls| - 1], ls[|ls| - 1];
      assert ls == init + [l];
      LabelPiecesSpell(init);
      LabelPiecesSnoc(init, l);
      D.SpelledAppend(D.Same, LabelPieces(init), Comma(init != []) + PairPieces(l));
      D.SpelledAppend(D.Same, Comma(init != []), PairPieces(l));
      CommaSpells(init != []);
      PairPiecesSpell(l);
      LabelsTextSnoc(init, l);
      Regroup(LabelsText(init), if init != [] then "," else "", LabelText(l));
    }
  }

  lemma Regroup(a: string, b: string, c: string)
    ensures a + (b + c) == (a + b) + c
  {
  }

  /** Whether the text of a list is empty tells the list from the empty one, if no append
      was dropped; and the empty list has no text. */
  lemma EmptyText(u: string, ls: seq<Label>, all: bool)
    requires D.Kept(D.Same, "", u, LabelPieces(ls), all)
    ensures ls == [] ==> u == ""
    ensures all && u == "" ==> ls == []
  {
    if all {
      D.KeptAll(D.Same, "", u, LabelPieces(ls));
      LabelPiecesSpell(ls);
      LabelsTextSnoc(ls, Label("", ""));
    }
  }

  lemma LabelAdded(t: string, u: string, ls: seq<Label>, l: Label, all: bool)
    requires D.Kept(D.Same, "", t, LabelPieces(ls), all) && D.Kept(D.Same, t, u, Comma(t != "") + PairPieces(l), all)
    ensures D.Kept(D.Same, "", u, LabelPieces(ls + [l]), all)
  {
    LabelPiecesSnoc(ls, l);
    EmptyText(t, ls, all);
    CommaOrNot(t, u, ls != [], PairPieces(l), all);
    D.KeptThen(D.Same, "", t, u, LabelPieces(ls), Comma(ls != []) + PairPieces(l), all);
  }

  /** A comma left out because the text before it was lost counts as a dropped piece. */
  lemma CommaOrNot(t: string, u: string, due: bool, pieces: seq<string>, all: bool)
    requires D.Kept(D.Same, t, u, Comma(t != "") + pieces, all)
    requires (t != "" ==> due) && (all && due ==> t != "")
    ensures D.Kept(D.Same, t, u, Comma(due) + pieces, all)
  {
    if due && t == "" {
      assert Comma(false) + pieces == pieces;
      D.KeptNothing(D.Same, t, Comma(true), all);
      D.KeptThen(D.Same, t, t, u, Comma(true), pieces, all);
    }
  }

  // ---- lines -----------------------------------------------------------------------------

  /** The line written for a sample whose label text is `text`. */
  function SampleWith(family: string, text: string, value: string): string {
    if |text| > 0 then family + ("{" + (text + ("}" + (" " + value)))) else family + (" " + value)
  }

  /** With the complete label text it is the line of the sample. */
  lemma CompleteLabels(family: string, ls: seq<Label>, value: string)
    ensures SampleWith(family, LabelsText(ls), value) == Line(Sample(family, ls, value))
  {
    LabelsTextSnoc(ls, Label("", ""));
  }

  /** A line that may stand for an item: its own line, or for a sample the line with what is
      left of the label pieces, which is all of them if `labelsOk`. */
  ghost predicate Shows(line: string, it: Item, labelsOk: bool) {
    match it
    case Sample(f, ls, v) => ShowsSample(line, f, ls, v, labelsOk)
    case _ => line == Line(it) + "\n"
  }

  ghost predicate ShowsSample(line: string, family: string, ls: seq<Label>, value: string, labelsOk: bool) {
    exists kept :: Sublist(kept, LabelPieces(ls)) && (labelsOk ==> kept == LabelPieces(ls))
                   && line == SampleWith(family, D.Spelled(D.Same, kept), value) + "\n"
  }

  lemma ShowsWithLabels(text: string, family: string, ls: seq<Label>, value: string, labelsOk: bool)
    requires D.Kept(D.Same, "", text, LabelPieces(ls), labelsOk)
    ensures ShowsSample(SampleWith(family, text, value) + "\n", family, ls, value, labelsOk)
  {
    var kept :| Sublist(kept, LabelPieces(ls)) && (labelsOk ==> kept == LabelPieces(ls)) && text == "" + D.Spelled(D.Same, kept);
    assert text == D.Spelled(D.Same, kept);
  }

  lemma ShownWhole(line: string, it: Item)
    requires Shows(line, it, true)
    ensures line == Line(it) + "\n"
  {
    if it.Sample? {
      LabelPiecesSpell(it.labels);
      CompleteLabels(it.family, it.labels, it.value);
    }
  }

  ghost predicate AllShow(lines: seq<string>, items: seq<Item>, labelsOk: bool) {
    |lines| == |items| && forall k :: 0 <= k < |items| ==> Shows(lines[k], items[k], labelsOk)
  }

  /** From t to u: for each item in turn a line that may stand for it was appended, as a whole
      or not at all; none was left out if `all`. */
  ghost predicate Puts(t: string, u: string, items: seq<Item>, labelsOk: bool, all: bool) {
    exists lines :: AllShow(lines, items, labelsOk) && D.Kept(D.Same, t, u, lines, all)
  }

  lemma PutsNothing(t: string, labelsOk: bool, all: bool)
    ensures Puts(t, t, [], labelsOk, all)
  {
    D.KeptNothing(D.Same, t, [], all);
    assert AllShow([], [], labelsOk);
  }

  lemma PutsOne(t: string, u: string, line: string, it: Item, labelsOk: bool, all: bool)
    requires Shows(line, it, labelsOk) && (u == t + line || (u == t && !all))
    ensures Puts(t, u, [it], labelsOk, all)
  {
    D.KeptOne(D.Same, t, u, line, all);
    assert AllShow([line], [it], labelsOk);
  }

  lemma PutsThen(t: string, u: string, v: string, xs: seq<Item>, ys: seq<Item>, labelsOk: bool, all: bool)
    requires Puts(t, u, xs, labelsOk, all) && Puts(u, v, ys, labelsOk, all)
    ensures Puts(t, v, xs + ys, labelsOk, all)
  {
    var a :| AllShow(a, xs, labelsOk) && D.Kept(D.Same, t, u, a, all);
    var b :| AllShow(b, ys, labelsOk) && D.Kept(D.Same, u, v, b, all);
    D.KeptThen(D.Same, t, u, v, a, b, all);
    BothShow(a, xs, b, ys, labelsOk);
  }

  lemma BothShow(a: seq<string>, xs: seq<Item>, b: seq<string>, ys: seq<Item>, labelsOk: bool)
    requires AllShow(a, xs, labelsOk) && AllShow(b, ys, labelsOk)
    ensures AllShow(a + b, xs + ys, labelsOk)
  {
    forall k | 0 <= k < |xs + ys| ensures Shows((a + b)[k], (xs + ys)[k], labelsOk) {
      if k < |xs| {
        assert Shows(a[k], xs[k], labelsOk);
      } else {
        assert Shows(b[k - |xs|], ys[k - |xs|], labelsOk);
      }
    }
  }

  /** Nothing of the list was written. */
  lemma PutsDropped(t: string, items: seq<Item>, labelsOk: bool)
    ensures Puts(t, t, items, labelsOk, false)
  {
    var lines := seq(|items|, k requires 0 <= k < |items| => Line(items[k]) + "\n");
    forall k | 0 <= k < |items| ensures Shows(lines[k], items[k], labelsOk) {
      OwnLineShows(items[k], labelsOk);
    }
    D.KeptNothing(D.Same, t, lines, false);
    assert AllShow(lines, items, labelsOk);
  }

  lemma OwnLineShows(it: Item, labelsOk: bool)
    ensures Shows(Line(it) + "\n", it, labelsOk)
  {
    if it.Sample? {
      SublistSelf(LabelPieces(it.labels));
      LabelPiecesSpell(it.labels);
      CompleteLabels(it.family, it.labels, it.value);
    }
  }

  // ---- what survives parses ----------------------------------------------------------------

  lemma OneLine(it: Item)
    ensures Document([it]) == Line(it) + "\n"
  {
    assert [it][1..] == [];
    assert Line(it) + ("\n" + "") == Line(it) + "\n";
  }

  lemma DocumentSnoc(items: seq<Item>, it: Item)
    ensures Document(items + [it]) == Document(items) + (Line(it) + "\n")
  {
    DocumentAppend(items, [it]);
    OneLine(it);
  }

  function LineText(it: Item): string { Line(it) + "\n" }

  /** `f` writes an item as its line. */
  ghost predicate WritesLines(f: Item -> string) { forall it {:trigger f(it)} :: f(it) == Line(it) + "\n" }

  lemma {:induction false} LinesSpell(f: Item -> string, items: seq<Item>)
    requires WritesLines(f)
    ensures D.Spelled(f, items) == Document(items)
    decreases |items|
  {
    if items != [] {
      var init, it := items[..|items| - 1], items[|items| - 1];
      assert items == init + [it];
      LinesSpell(f, init);
      OneMoreLine(f, init, it);
    }
  }

  lemma OneMoreLine(f: Item -> string, items: seq<Item>, it: Item)
    requires WritesLines(f) && D.Spelled(f, items) == Document(items)
    ensures D.Spelled(f, items + [it]) == Document(items + [it])
  {
    D.SpelledSnoc(f, items, it);
    assert f(it) == Line(it) + "\n";
    DocumentSnoc(items, it);
  }

  /** With complete label lists each line is the item's own. */
  lemma {:induction false} WholeLines(f: Item -> string, lines: seq<string>, items: seq<Item>)
    requires WritesLines(f) && AllShow(lines, items, true)
    ensures lines == D.Texts(f, items)
    decreases |items|
  {
    if items != [] {
      var n := |items| - 1;
      AllShowInit(lines, items, n, true);
      WholeLines(f, lines[..n], items[..n]);
      ShownWhole(lines[n], items[n]);
      assert f(items[n]) == Line(items[n]) + "\n";
      D.TextsLast(f, lines, items, n);
    }
  }

  lemma AllShowInit(lines: seq<string>, items: seq<Item>, n: nat, labelsOk: bool)
    requires AllShow(lines, items, labelsOk) && |items| == n + 1
    ensures AllShow(lines[..n], items[..n], labelsOk) && Shows(lines[n], items[n], labelsOk)
  {
  }

  /** Lines of which whole ones may be missing, none if `all`, are a document. */
  lemma PutsADocument(f: Item -> string, out: string, items: seq<Item>, all: bool) returns (kept: seq<Item>)
    requires WritesLines(f) && Puts("", out, items, true, all)
    ensures Sublist(kept, items) && (all ==> kept == items) && out == Document(kept)
  {
    var lines :| AllShow(lines, items, true) && D.Kept(D.Same, "", out, lines, all);
    WholeLines(f, lines, items);
    D.KeptTexts(f, "", out, items, all);
    kept :| Sublist(kept, items) && (all ==> kept == items) && out == "" + D.Spelled(f, kept);
    LinesSpell(f, kept);
  }

  // ---- what a parser makes of a line that lost label pieces ---------------------------------

  lemma {:induction false} PiecesHaveText(ls: seq<Label>)
    requires forall i :: 0 <= i < |ls| ==> IsName(ls[i].key)
    ensures forall k :: 0 <= k < |LabelPieces(ls)| ==> LabelPieces(ls)[k] != ""
    decreases |ls|
  {
    if ls != [] {
      var n := |ls| - 1;
      PiecesHaveText(ls[..n]);
      EscapesHaveText(ls[n].value);
    }
  }

  lemma {:induction false} EscapesHaveText(s: string)
    ensures forall k :: 0 <= k < |EscapePieces(s)| ==> EscapePieces(s)[k] != ""
    decreases |s|
  {
    if s != "" {
      EscapesHaveText(s[..|s| - 1]);
    }
  }

  /** Dropping pieces that have text makes the text shorter. */
  lemma {:induction false} DroppingShortens(kept: seq<string>, pieces: seq<string>)
    requires Sublist(kept, pieces) && forall k :: 0 <= k < |pieces| ==> pieces[k] != ""
    ensures |D.Spelled(D.Same, kept)| <= |D.Spelled(D.Same, pieces)|
    ensures |D.Spelled(D.Same, kept)| == |D.Spelled(D.Same, pieces)| ==> kept == pieces
    decreases |pieces|
  {
    if pieces != [] {
      var init, last := pieces[..|pieces| - 1], pieces[|pieces| - 1];
      if kept == [] {
        DroppingShortens([], init);
      } else if Sublist(kept, init) {
        DroppingShortens(kept, init);
      } else {
        DroppingShortens(kept[..|kept| - 1], init);
        assert kept == kept[..|kept| - 1] + [last] && pieces == init + [last];
      }
    }
  }

  /** The label text can be read off the line. */
  lemma SampleWithInjective(family: string, a: string, b: string, value: string)
    requires SampleWith(family, a, value) == SampleWith(family, b, value)
    ensures a == b
  {
    var s, t, n := SampleWith(family, a, value), SampleWith(family, b, value), |family|;
    assert |a| > 0 ==> s[n] == '{' && s[n + 1..n + 1 + |a|] == a;
    assert |b| > 0 ==> t[n] == '{' && t[n + 1..n + 1 + |b|] == b;
    assert |a| == 0 ==> s[n] == ' ';
    assert |b| == 0 ==> t[n] == ' ';
  }

  /** A line whose label list may have lost pieces parses to the sample it was meant for if and
      only if nothing was lost. */
  lemma ParsesExactlyWhenComplete(family: string, ls: seq<Label>, value: string, kept: seq<string>)
    requires Writable(Sample(family, ls, value)) && Sublist(kept, LabelPieces(ls))
    ensures ParseSample(SampleWith(family, D.Spelled(D.Same, kept), value)) == Some(Sample(family, ls, value))
            <==> kept == LabelPieces(ls)
  {
    ParsesExactly(SampleWith(family, D.Spelled(D.Same, kept), value), Sample(family, ls, value));
    CompleteLabels(family, ls, value);
    LabelPiecesSpell(ls);
    if SampleWith(family, D.Spelled(D.Same, kept), value) == SampleWith(family, LabelsText(ls), value) {
      SampleWithInjective(family, D.Spelled(D.Same, kept), LabelsText(ls), value);
      PiecesHaveText(ls);
      DroppingShortens(kept, LabelPieces(ls));
    }
  }

  lemma {:induction false} EscapesAreOneLine(s: string)
    ensures forall k :: 0 <= k < |EscapePieces(s)| ==> '\n' !in EscapePieces(s)[k]
    decreases |s|
  {
    if s != "" {
      EscapesAreOneLine(s[..|s| - 1]);
      assert '\n' !in EscapeChar(s[|s| - 1]);
    }
  }

  lemma PairIsOneLine(l: Label)
    requires IsName(l.key)
    ensures forall k :: 0 <= k < |PairPieces(l)| ==> '\n' !in PairPieces(l)[k]
  {
    EscapesAreOneLine(l.value);
    assert '\n' !in l.key && '\n' !in "=\"" && '\n' !in "\"";
  }

  lemma {:induction false} PiecesAreOneLine(ls: seq<Label>)
    requires forall i :: 0 <= i < |ls| ==> IsName(ls[i].key)
    ensures forall k :: 0 <= k < |LabelPieces(ls)| ==> '\n' !in LabelPieces(ls)[k]
    decreases |ls|
  {
    if ls != [] {
      var n := |ls| - 1;
      PiecesAreOneLine(ls[..n]);
      PairIsOneLine(ls[n]);
      assert '\n' !in ",";
    }
  }

  lemma {:induction false} SpelledOnOneLine(kept: seq<string>, pieces: seq<string>)
    requires Sublist(kept, pieces) && forall k :: 0 <= k < |pieces| ==> '\n' !in pieces[k]
    ensures '\n' !in D.Spelled(D.Same, kept)
    decreases |pieces|
  {
    if kept != [] {
      var init := pieces[..|pieces| - 1];
      if Sublist(kept, init) {
        SpelledOnOneLine(kept, init);
      } else {
        SpelledOnOneLine(kept[..|kept| - 1], init);
      }
    }
  }

  /** Whatever label pieces were lost, each line written is exactly one line, so the other
      lines of the document are not affected. */
  lemma ShownLineIsOneLine(line: string, it: Item, labelsOk: bool)
    requires Writable(it) && Shows(line, it, labelsOk)
    ensures line != "" && line[|line| - 1] == '\n' && '\n' !in line[..|line| - 1]
  {
    if it.Sample? {
      var kept :| Sublist(kept, LabelPieces(it.labels)) && line == SampleWith(it.family, D.Spelled(D.Same, kept), it.value) + "\n";
      PiecesAreOneLine(it.labels);
      SpelledOnOneLine(kept, LabelPieces(it.labels));
      SampleOnOneLine(it.family, D.Spelled(D.Same, kept), it.value);
      assert line[..|line| - 1] == SampleWith(it.family, D.Spelled(D.Same, kept), it.value);
    } else {
      LineHasNoNewline(it);
      assert line[..|line| - 1] == Line(it);
    }
  }

  lemma SampleOnOneLine(family: string, text: string, value: string)
    requires IsName(family) && '\n' !in text && IsToken(value)
    ensures '\n' !in SampleWith(family, text, value)
  {
    assert '\n' !in "{" && '\n' !in "}" && '\n' !in " ";
  }

  lemma {:induction false} PrefixIsSublist(pieces: seq<string>, n: nat)
    requires n <= |pieces|
    ensures Sublist(pieces[..n], pieces)
    decreases |pieces|
  {
    if n == |pieces| {
      SublistSelf(pieces);
      assert pieces[..n] == pieces;
    } else {
      var m := |pieces| - 1;
      PrefixIsSublist(pieces[..m], n);
      assert pieces[..m][..n] == pieces[..n];
    }
  }

  /** The last piece of a label list is the closing quote of its last value; if just that is
      lost, the line is unparsable. */
  lemma LostQuoteBreaksLine(family: string, ls: seq<Label>, value: string) returns (kept: seq<string>)
    requires Writable(Sample(family, ls, value)) && ls != [] && '"' !in value
    ensures kept + ["\""] == LabelPieces(ls) && Sublist(kept, LabelPieces(ls))
    ensures ParseSample(SampleWith(family, D.Spelled(D.Same, kept), value)) == None
  {
    kept := AllButLast(ls);
    SublistSelf(kept);
    SublistDrop(kept, kept, "\"");
    OpenText(ls, kept);
    OpenLineFails(family, ls, value);
  }

  lemma AllButLast(ls: seq<Label>) returns (kept: seq<string>)
    requires ls != []
    ensures kept + ["\""] == LabelPieces(ls)
  {
    var pieces := LabelPieces(ls);
    kept := pieces[..|pieces| - 1];
  }

  lemma OpenLineFails(family: string, ls: seq<Label>, value: string)
    requires Writable(Sample(family, ls, value)) && ls != [] && '"' !in value && OpenLabels(ls) != ""
    ensures ParseSample(SampleWith(family, OpenLabels(ls), value)) == None
  {
    assert '"' !in "} " + value;
    OpenLabelsFail(ls, "} " + value);
    UnparsableLabels(family, OpenLabels(ls), value);
  }

  lemma OpenText(ls: seq<Label>, kept: seq<string>)
    requires ls != [] && kept + ["\""] == LabelPieces(ls)
    ensures D.Spelled(D.Same, kept) == OpenLabels(ls) != ""
  {
    LabelPiecesSpell(ls);
    ClosingQuote(ls);
    D.SpelledSnoc(D.Same, kept, "\"");
    SameButQuote(D.Spelled(D.Same, kept), OpenLabels(ls));
  }

  lemma SameButQuote(a: string, b: string)
    requires a + "\"" == b + "\""
    ensures a == b
  {
    assert (a + "\"")[..|a|] == a && (b + "\"")[..|b|] == b;
  }

  lemma UnparsableLabels(family: string, text: string, value: string)
    requires IsName(family) && text != "" && ParseLabels(text + ("} " + value)) == None
    ensures ParseSample(SampleWith(family, text, value)) == None
  {
    var inner := text + ("}" + (" " + value));
    assert "} " == "}" + " ";
    assert inner == text + ("} " + value);
    NameStops(family, "{" + inner);
    Around(family, '{', inner);
  }

  /** Other losses go unnoticed: without all pieces of its last label, and the comma before it,
      the line is that of the sample without that label. */
  lemma LostLabelIsSilent(family: string, ls: seq<Label>, l: Label, value: string)
    requires Writable(Sample(family, ls + [l], value))
    ensures Sublist(LabelPieces(ls), LabelPieces(ls + [l]))
    ensures SampleWith(family, D.Spelled(D.Same, LabelPieces(ls)), value) == Line(Sample(family, ls, value))
    ensures ParseSample(Line(Sample(family, ls, value))) == Some(Sample(family, ls, value))
  {
    LabelPiecesSnoc(ls, l);
    PrefixIsSublist(LabelPieces(ls + [l]), |LabelPieces(ls)|);
    assert LabelPieces(ls + [l])[..|LabelPieces(ls)|] == LabelPieces(ls);
    LabelPiecesSpell(ls);
    CompleteLabels(family, ls, value);
    assert forall i :: 0 <= i < |ls| ==> ls[i] == (ls + [l])[i];
    SampleRoundTrip(family, ls, value);
  }
}
