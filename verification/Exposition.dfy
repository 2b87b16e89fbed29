/** The Prometheus text exposition format, version 0.0.4: how items are written
    (append_escaped, ds_append_label and the format strings of src/prom.c) and an
    independent parser for the line format, with the round trip between the two. */
module Exposition {
  import opened CStrings
  import opened Types
  import opened Rules

  datatype Label = Label(key: string, value: string)

  /** One line of the document. */
  datatype Item =
    | Help(family: string, text: string)
    | Type(family: string, kind: string)
    | Sample(family: string, labels: seq<Label>, value: string)

  // ---- writing ---------------------------------------------------------------------

  function EscapeChar(c: char): string {
    if c == '\\' || c == '"' then ['\\', c]
    else if c == '\n' then ['\\', 'n']
    else [c]
  }

  function Escape(s: string): string {
    if s == "" then "" else EscapeChar(s[0]) + Escape(s[1..])
  }

  function LabelText(l: Label): string {
    l.key + ("=\"" + (Escape(l.value) + "\""))
  }

  /** Labels separated by commas. */
  function LabelsText(ls: seq<Label>): string {
    if ls == [] then ""
    else if |ls| == 1 then LabelText(ls[0])
    else LabelText(ls[0]) + ("," + LabelsText(ls[1..]))
  }

  /** A line without its line feed. */
  function Line(it: Item): string {
    match it
    case Help(f, t) => "# HELP " + (f + (" " + t))
    case Type(f, k) => "# TYPE " + (f + (" " + k))
    case Sample(f, ls, v) =>
      if ls == [] then f + (" " + v)
      else f + ("{" + (LabelsText(ls) + ("}" + (" " + v))))
  }

  function Document(items: seq<Item>): string {
    if items == [] then "" else Line(items[0]) + ("\n" + Document(items[1..]))
  }

  // ---- parsing ---------------------------------------------------------------------

  /** A quoted value: unescapes up to the closing quote and returns what follows it. */
  function ParseQuoted(s: string): (r: Option<(string, string)>)
    ensures r.Some? ==> |r.value.1| < |s|
    decreases |s|
  {
    if s == "" then None
    else if s[0] == '"' then Some(("", s[1..]))
    else if s[0] == '\n' then None
    else if s[0] == '\\' then
      if |s| < 2 then None
      else if s[1] == '\\' || s[1] == '"' || s[1] == 'n' then
        match ParseQuoted(s[2..])
        case None => None
        case Some((v, rest)) => Some(([if s[1] == 'n' then '\n' else s[1]] + v, rest))
      else None
    else
      match ParseQuoted(s[1..])
      case None => None
      case Some((v, rest)) => Some(([s[0]] + v, rest))
  }

  /** key="value" and what follows. */
  function ParseLabel(s: string): (r: Option<(Label, string)>)
    ensures r.Some? ==> |r.value.1| < |s|
  {
    match IndexOf(s, '=', 0)
    case None => None
    case Some(i) =>
      if !IsName(s[..i]) || i + 1 >= |s| || s[i + 1] != '"' then None
      else
        match ParseQuoted(s[i + 2..])
        case None => None
        case Some((v, rest)) => Some((Label(s[..i], v), rest))
  }

  /** A non-empty label list up to and including the closing brace. */
  function ParseLabels(s: string): Option<(seq<Label>, string)>
    decreases |s|
  {
    match ParseLabel(s)
    case None => None
    case Some((l, rest)) =>
      if rest == "" then None
      else if rest[0] == '}' then Some(([l], rest[1..]))
      else if rest[0] == ',' then
        match ParseLabels(rest[1..])
        case None => None
        case Some((ls, tail)) => Some(([l] + ls, tail))
      else None
  }

  /** [a-zA-Z_:][a-zA-Z0-9_:]*. */
  predicate IsMetricName(s: string) {
    s != "" && !('0' <= s[0] <= '9') && forall k :: 0 <= k < |s| ==> IsNameChar(s[k]) || s[k] == ':'
  }

  /** Length of the leading run free of '{' and ' '. */
  function NameLength(s: string): (n: nat)
    ensures n <= |s|
  {
    if s == "" || s[0] == '{' || s[0] == ' ' then 0 else 1 + NameLength(s[1..])
  }

  /** " value" at the end of a sample line. */
  function ParseValue(s: string): Option<string> {
    if |s| >= 2 && s[0] == ' ' && ' ' !in s[1..] then Some(s[1..]) else None
  }

  function ParseSample(line: string): Option<Item> {
    var n := NameLength(line);
    if !IsMetricName(line[..n]) || n == |line| then None
    else if line[n] == ' ' then
      match ParseValue(line[n..])
      case None => None
      case Some(v) => Some(Sample(line[..n], [], v))
    else
      match ParseLabels(line[n + 1..])
      case None => None
      case Some((ls, rest)) =>
        match ParseValue(rest)
        case None => None
        case Some(v) => Some(Sample(line[..n], ls, v))
  }

  function ParseComment(line: string): Option<Item>
    requires |line| >= 7
  {
    var s := line[7..];
    match IndexOf(s, ' ', 0)
    case None => None
    case Some(i) =>
      if line[..7] == "# HELP " then Some(Help(s[..i], s[i + 1..]))
      else if line[..7] == "# TYPE " then Some(Type(s[..i], s[i + 1..]))
      else None
  }

  function ParseLine(line: string): Option<Item> {
    if line != "" && line[0] == '#' then
      if |line| < 7 then None else ParseComment(line)
    else ParseSample(line)
  }

  /** Every line ends with a line feed, including the last. */
  function ParseDocument(text: string): Option<seq<Item>>
    decreases |text|
  {
    if text == "" then Some([])
    else
      match IndexOf(text, '\n', 0)
      case None => None
      case Some(i) =>
        match (ParseLine(text[..i]), ParseDocument(text[i + 1..]))
        case (Some(it), Some(its)) => Some([it] + its)
        case _ => None
  }

  // ---- what can be written -----------------------------------------------------------

  /** A value token: non-empty, no space, no line feed. */
  predicate IsToken(s: string) { s != "" && ' ' !in s && '\n' !in s }

  ghost predicate Writable(it: Item) {
    && IsName(it.family)
    && match it
       case Help(_, t) => '\n' !in t
       case Type(_, k) => '\n' !in k
       case Sample(_, ls, v) => IsToken(v) && forall i :: 0 <= i < |ls| ==> IsName(ls[i].key)
  }

  // ---- round trips -------------------------------------------------------------------

  /** Escaped text has no line feed, for any value. */
  lemma {:induction false} EscapeHasNoNewline(s: string)
    ensures '\n' !in Escape(s)
  {
    if s != "" {
      EscapeHasNoNewline(s[1..]);
      assert '\n' !in EscapeChar(s[0]);
    }
  }

  lemma {:induction false} QuotedRoundTrip(v: string, rest: string)
    ensures ParseQuoted(Escape(v) + ("\"" + rest)) == Some((v, rest))
  {
    var tail := "\"" + rest;
    if v == "" {
      assert Escape(v) + tail == tail;
      assert tail[1..] == rest;
    } else {
      QuotedRoundTrip(v[1..], rest);
      EscapedStarts(v, tail);
      UnescapeOne(v[0], Escape(v[1..]) + tail, v[1..], rest);
      assert [v[0]] + v[1..] == v;
    }
  }

  lemma EscapedStarts(v: string, tail: string)
    requires v != ""
    ensures Escape(v) + tail == EscapeChar(v[0]) + (Escape(v[1..]) + tail)
  {
  }

  /** One escaped character is read back, whatever follows it. */
  lemma UnescapeOne(c: char, more: string, v: string, rest: string)
    requires ParseQuoted(more) == Some((v, rest))
    ensures ParseQuoted(EscapeChar(c) + more) == Some(([c] + v, rest))
  {
    var s := EscapeChar(c) + more;
    assert s[|EscapeChar(c)|..] == more;
  }

  lemma FirstEquals(key: string, more: string)
    requires IsName(key)
    ensures IndexOf(key + ("=" + more), '=', 0) == Some(|key|)
  {
    var s := key + ("=" + more);
    assert forall i :: 0 <= i < |key| ==> s[i] == key[i];
    FirstIs(s, '=', 0, |key|);
  }

  lemma LabelRoundTrip(l: Label, rest: string)
    requires IsName(l.key)
    ensures ParseLabel(LabelText(l) + rest) == Some((l, rest))
  {
    var value := Escape(l.value);
    LabelParts(l.key, value, rest);
    QuotedRoundTrip(l.value, rest);
    KeyAndQuote(l.key, value + ("\"" + rest), l.value, rest);
  }

  lemma LabelParts(key: string, value: string, rest: string)
    ensures (key + ("=\"" + (value + "\""))) + rest == key + ("=" + ("\"" + (value + ("\"" + rest))))
  {
    assert "=\"" == "=" + "\"";
  }

  lemma KeyAndQuote(key: string, quoted: string, v: string, rest: string)
    requires IsName(key) && ParseQuoted(quoted) == Some((v, rest))
    ensures ParseLabel(key + ("=" + ("\"" + quoted))) == Some((Label(key, v), rest))
  {
    var s, i := key + ("=" + ("\"" + quoted)), |key|;
    FirstEquals(key, "\"" + quoted);
    Around(key, '=', "\"" + quoted);
    assert s[i + 2..] == ("\"" + quoted)[1..] == quoted;
  }

  /** What stands before and behind a separator. */
  lemma Around(head: string, c: char, more: string)
    ensures var s, i := head + ([c] + more), |head|;
            i < |s| && s[i] == c && s[..i] == head && s[i + 1..] == more
            && (more != "" ==> s[i + 1] == more[0])
  {
  }

  lemma LastLabel(l: Label, rest: string)
    requires IsName(l.key)
    ensures ParseLabels(LabelText(l) + ("}" + rest)) == Some(([l], rest))
  {
    LabelRoundTrip(l, "}" + rest);
    assert ("}" + rest)[1..] == rest;
  }

  lemma NextLabel(l: Label, more: string, ls: seq<Label>, rest: string)
    requires IsName(l.key) && ParseLabels(more) == Some((ls, rest))
    ensures ParseLabels(LabelText(l) + ("," + more)) == Some(([l] + ls, rest))
  {
    LabelRoundTrip(l, "," + more);
    assert ("," + more)[1..] == more;
  }

  lemma LabelsTextSplit(ls: seq<Label>, end: string)
    requires |ls| > 1
    ensures LabelsText(ls) + end == LabelText(ls[0]) + ("," + (LabelsText(ls[1..]) + end))
  {
    LabelsTextCons(ls);
    Reassociate(LabelText(ls[0]), ",", LabelsText(ls[1..]), end);
  }

  lemma LabelsTextCons(ls: seq<Label>)
    requires |ls| > 1
    ensures LabelsText(ls) == LabelText(ls[0]) + ("," + LabelsText(ls[1..]))
  {
  }

  lemma Reassociate(a: string, b: string, c: string, d: string)
    ensures (a + (b + c)) + d == a + (b + (c + d))
  {
  }

  lemma {:induction false} LabelsRoundTrip(ls: seq<Label>, rest: string)
    requires ls != [] && forall i :: 0 <= i < |ls| ==> IsName(ls[i].key)
    ensures ParseLabels(LabelsText(ls) + ("}" + rest)) == Some((ls, rest))
  {
    if |ls| == 1 {
      LastLabel(ls[0], rest);
      assert [ls[0]] == ls;
    } else {
      var tail, end := ls[1..], "}" + rest;
      assert [ls[0]] + tail == ls;
      LabelsTextSplit(ls, end);
      LabelsRoundTrip(tail, rest);
      NextLabel(ls[0], LabelsText(tail) + end, tail, rest);
    }
  }

  lemma {:induction false} NameStops(name: string, more: string)
    requires (forall k :: 0 <= k < |name| ==> name[k] != '{' && name[k] != ' ')
    requires more != "" && (more[0] == '{' || more[0] == ' ')
    ensures NameLength(name + more) == |name|
  {
    var s := name + more;
    if name != "" {
      NameStops(name[1..], more);
      assert s[1..] == name[1..] + more;
    }
  }

  /** For all label values, one sample line is parsed back to exactly its family,
      ordered labels and value token. */
  lemma SampleRoundTrip(f: string, ls: seq<Label>, v: string)
    requires Writable(Sample(f, ls, v))
    ensures ParseSample(Line(Sample(f, ls, v))) == Some(Sample(f, ls, v))
  {
    var value := " " + v;
    assert value[1..] == v;
    if ls == [] {
      BareSample(f, value, v);
    } else {
      LabelsRoundTrip(ls, value);
      LabelledSample(f, LabelsText(ls) + ("}" + value), ls, value, v);
    }
  }

  lemma BareSample(f: string, value: string, v: string)
    requires IsName(f) && value != "" && value[0] == ' ' && ParseValue(value) == Some(v)
    ensures ParseSample(f + value) == Some(Sample(f, [], v))
  {
    var line := f + value;
    NameStops(f, value);
    assert line[|f|..] == value && line[..|f|] == f && line[|f|] == ' ';
  }

  lemma LabelledSample(f: string, inner: string, ls: seq<Label>, value: string, v: string)
    requires IsName(f) && ParseLabels(inner) == Some((ls, value)) && ParseValue(value) == Some(v)
    ensures ParseSample(f + ("{" + inner)) == Some(Sample(f, ls, v))
  {
    NameStops(f, "{" + inner);
    Around(f, '{', inner);
  }

  lemma FirstSpace(name: string, more: string)
    requires IsName(name)
    ensures IndexOf(name + (" " + more), ' ', 0) == Some(|name|)
  {
    var s := name + (" " + more);
    assert forall i :: 0 <= i < |name| ==> s[i] == name[i];
    FirstIs(s, ' ', 0, |name|);
  }

  lemma CommentRoundTrip(it: Item)
    requires Writable(it) && !it.Sample?
    ensures ParseLine(Line(it)) == Some(it)
  {
    var mark := if it.Help? then "# HELP " else "# TYPE ";
    var text := if it.Help? then it.text else it.kind;
    CommentParts(mark, it.family, text);
  }

  lemma CommentParts(mark: string, family: string, text: string)
    requires IsName(family) && (mark == "# HELP " || mark == "# TYPE ")
    ensures ParseLine(mark + (family + (" " + text))) == Some(if mark == "# HELP " then Help(family, text) else Type(family, text))
  {
    var body := family + (" " + text);
    var line := mark + body;
    FirstSpace(family, text);
    Around(family, ' ', text);
    assert "# HELP "[2] != "# TYPE "[2];
    assert line[7..] == body && line[..7] == mark;
  }

  lemma LineRoundTrip(it: Item)
    requires Writable(it)
    ensures ParseLine(Line(it)) == Some(it)
  {
    if it.Sample? {
      SampleRoundTrip(it.family, it.labels, it.value);
      assert Line(it)[0] == it.family[0];
    } else {
      CommentRoundTrip(it);
    }
  }

  lemma {:induction false} LabelsHaveNoNewline(ls: seq<Label>)
    requires forall i :: 0 <= i < |ls| ==> IsName(ls[i].key)
    ensures '\n' !in LabelsText(ls)
  {
    if ls != [] {
      EscapeHasNoNewline(ls[0].value);
      assert '\n' !in ls[0].key;
      assert '\n' !in "=\"" && '\n' !in "\"";
      LabelsHaveNoNewline(ls[1..]);
      assert '\n' !in ",";
    }
  }

  /** Each item is exactly one line. */
  lemma LineHasNoNewline(it: Item)
    requires Writable(it)
    ensures '\n' !in Line(it)
  {
    assert '\n' !in it.family;
    assert '\n' !in " " && '\n' !in "{" && '\n' !in "}" && '\n' !in "# HELP " && '\n' !in "# TYPE ";
    if it.Sample? {
      LabelsHaveNoNewline(it.labels);
    }
  }

  lemma FirstNewline(line: string, more: string)
    requires '\n' !in line
    ensures IndexOf(line + ("\n" + more), '\n', 0) == Some(|line|)
  {
    var s := line + ("\n" + more);
    assert forall i :: 0 <= i < |line| ==> s[i] == line[i];
    FirstIs(s, '\n', 0, |line|);
  }

  /** Whole documents round trip: parsing recovers the exact list of lines. */
  lemma {:induction false} DocumentRoundTrip(items: seq<Item>)
    requires forall i :: 0 <= i < |items| ==> Writable(items[i])
    ensures ParseDocument(Document(items)) == Some(items)
  {
    if items != [] {
      LineRoundTrip(items[0]);
      LineHasNoNewline(items[0]);
      DocumentRoundTrip(items[1..]);
      FirstLine(Line(items[0]), Document(items[1..]), items[0], items[1..]);
      assert [items[0]] + items[1..] == items;
    }
  }

  lemma FirstLine(line: string, more: string, it: Item, items: seq<Item>)
    requires '\n' !in line && ParseLine(line) == Some(it) && ParseDocument(more) == Some(items)
    ensures ParseDocument(line + ("\n" + more)) == Some([it] + items)
  {
    var text := line + ("\n" + more);
    FirstNewline(line, more);
    assert text[..|line|] == line && text[|line| + 1..] == more;
  }

  lemma {:induction false} DocumentAppend(a: seq<Item>, b: seq<Item>)
    ensures Document(a + b) == Document(a) + Document(b)
  {
    if a == [] {
      assert a + b == b;
    } else {
      DocumentAppend(a[1..], b);
      DocumentSplit(a[0], a[1..], b);
      assert [a[0]] + a[1..] == a;
    }
  }

  lemma DocumentSplit(it: Item, a: seq<Item>, b: seq<Item>)
    requires Document(a + b) == Document(a) + Document(b)
    ensures Document(([it] + a) + b) == Document([it] + a) + Document(b)
  {
    assert ([it] + a) + b == [it] + (a + b);
    DocumentCons(it, a + b);
    DocumentCons(it, a);
    Reassociate(Line(it), "\n", Document(a), Document(b));
  }

  lemma DocumentCons(it: Item, items: seq<Item>)
    ensures Document([it] + items) == Line(it) + ("\n" + Document(items))
  {
    assert ([it] + items)[1..] == items;
  }

  // ---- the parser accepts nothing else --------------------------------------------------

  /** What parses as a quoted value is that value escaped, and its closing quote. */
  lemma {:induction false} QuotedIsCanonical(s: string)
    ensures var r := ParseQuoted(s);
            r.Some? ==> s == Escape(r.value.0) + ("\"" + r.value.1)
    decreases |s|
  {
    if s != "" && s[0] != '"' && s[0] != '\n' {
      var n := if s[0] == '\\' then 2 else 1;
      if n <= |s| {
        QuotedIsCanonical(s[n..]);
        var r := ParseQuoted(s[n..]);
        if ParseQuoted(s).Some? {
          var c := if s[0] != '\\' then s[0] else if s[1] == 'n' then '\n' else s[1];
          EscapeCons(c, r.value.0);
          assert s == EscapeChar(c) + s[n..];
          Prepend(EscapeChar(c), Escape(r.value.0), "\"" + r.value.1);
        }
      }
    } else if s != "" && s[0] == '"' {
      assert s == "" + ("\"" + s[1..]);
    }
  }

  lemma EscapeCons(c: char, v: string)
    ensures Escape([c] + v) == EscapeChar(c) + Escape(v)
  {
    assert ([c] + v)[1..] == v;
  }

  lemma Prepend(a: string, b: string, c: string)
    ensures (a + b) + c == a + (b + c)
  {
  }

  lemma LabelIsCanonical(s: string)
    ensures var r := ParseLabel(s);
            r.Some? ==> s == LabelText(r.value.0) + r.value.1 && IsName(r.value.0.key)
  {
    var r := ParseLabel(s);
    if r.Some? {
      var i := IndexOf(s, '=', 0).value;
      QuotedIsCanonical(s[i + 2..]);
      LabelParts(s[..i], Escape(r.value.0.value), r.value.1);
      AroundQuote(s, i);
    }
  }

  lemma AroundQuote(s: string, i: nat)
    requires i + 1 < |s| && s[i] == '=' && s[i + 1] == '"'
    ensures s == s[..i] + ("=" + ("\"" + s[i + 2..]))
  {
  }

  lemma {:induction false} LabelsAreCanonical(s: string)
    ensures var r := ParseLabels(s);
            r.Some? ==> r.value.0 != [] && s == LabelsText(r.value.0) + ("}" + r.value.1)
    decreases |s|
  {
    var r := ParseLabels(s);
    if r.Some? {
      LabelIsCanonical(s);
      var (l, rest) := ParseLabel(s).value;
      if rest[0] == '}' {
        assert rest == "}" + rest[1..];
      } else {
        LabelsAreCanonical(rest[1..]);
        var (ls, tail) := ParseLabels(rest[1..]).value;
        assert rest == "," + rest[1..];
        MoreLabels(l, ls);
        Reassociate(LabelText(l), ",", LabelsText(ls), "}" + tail);
      }
    }
  }

  lemma MoreLabels(l: Label, ls: seq<Label>)
    requires ls != []
    ensures LabelsText([l] + ls) == LabelText(l) + ("," + LabelsText(ls))
  {
    assert ([l] + ls)[1..] == ls;
  }

  lemma {:induction false} NameLengthStops(s: string)
    ensures NameLength(s) < |s| ==> s[NameLength(s)] == '{' || s[NameLength(s)] == ' '
  {
    if s != "" && s[0] != '{' && s[0] != ' ' {
      NameLengthStops(s[1..]);
    }
  }

  /** A line that parses as a sample is the line written for that sample. */
  lemma SampleIsCanonical(line: string)
    ensures var r := ParseSample(line); r.Some? ==> r.value.Sample? && line == Line(r.value)
  {
    var r := ParseSample(line);
    if r.Some? {
      NameLengthStops(line);
      var n := NameLength(line);
      if line[n] == ' ' {
        BareParts(line, n);
      } else {
        LabelsAreCanonical(line[n + 1..]);
        var (ls, rest) := ParseLabels(line[n + 1..]).value;
        LabelledParts(line, n, ls, rest);
      }
    }
  }

  lemma BareParts(line: string, n: nat)
    requires n < |line| && line[n] == ' '
    ensures line == Line(Sample(line[..n], [], line[n..][1..]))
  {
    assert line == line[..n] + (" " + line[n..][1..]);
  }

  lemma LabelledParts(line: string, n: nat, ls: seq<Label>, rest: string)
    requires n < |line| && line[n] == '{' && ls != [] && rest != "" && rest[0] == ' '
    requires line[n + 1..] == LabelsText(ls) + ("}" + rest)
    ensures line == Line(Sample(line[..n], ls, rest[1..]))
  {
    assert rest == " " + rest[1..];
    assert line == line[..n] + ("{" + line[n + 1..]);
  }

  /** So a line parses to a writable sample if and only if it is that sample's line. */
  lemma ParsesExactly(line: string, it: Item)
    requires Writable(it) && it.Sample?
    ensures ParseSample(line) == Some(it) <==> line == Line(it)
  {
    SampleIsCanonical(line);
    SampleRoundTrip(it.family, it.labels, it.value);
  }

  // ---- a missing closing quote ------------------------------------------------------------

  lemma {:induction false} NoQuoteNoValue(s: string)
    requires '"' !in s
    ensures ParseQuoted(s) == None
    decreases |s|
  {
    if |s| >= 1 {
      NoQuoteNoValue(s[1..]);
      if |s| >= 2 {
        NoQuoteNoValue(s[2..]);
      }
    }
  }

  lemma EscapeKeepsOpen(c: char, more: string)
    requires ParseQuoted(more) == None
    ensures ParseQuoted(EscapeChar(c) + more) == None
  {
    var s := EscapeChar(c) + more;
    assert s[|EscapeChar(c)|..] == more;
  }

  /** A value without its closing quote is not a quoted value, if no quote follows. */
  lemma {:induction false} OpenQuoteFails(v: string, rest: string)
    requires '"' !in rest
    ensures ParseQuoted(Escape(v) + rest) == None
  {
    if v == "" {
      assert Escape(v) + rest == rest;
      NoQuoteNoValue(rest);
    } else {
      OpenQuoteFails(v[1..], rest);
      EscapedStarts(v, rest);
      EscapeKeepsOpen(v[0], Escape(v[1..]) + rest);
    }
  }

  /** A label list without the closing quote of its last value. */
  function OpenLabels(ls: seq<Label>): string
    requires ls != []
  {
    if |ls| == 1 then ls[0].key + ("=\"" + Escape(ls[0].value))
    else LabelText(ls[0]) + ("," + OpenLabels(ls[1..]))
  }

  lemma {:induction false} ClosingQuote(ls: seq<Label>)
    requires ls != []
    ensures LabelsText(ls) == OpenLabels(ls) + "\""
    decreases |ls|
  {
    if |ls| == 1 {
      Reassociate(ls[0].key, "=\"", Escape(ls[0].value), "\"");
    } else {
      ClosingQuote(ls[1..]);
      LabelsTextCons(ls);
      Reassociate(LabelText(ls[0]), ",", OpenLabels(ls[1..]), "\"");
    }
  }

  lemma {:induction false} OpenLabelsFail(ls: seq<Label>, rest: string)
    requires ls != [] && (forall i :: 0 <= i < |ls| ==> IsName(ls[i].key)) && '"' !in rest
    ensures ParseLabels(OpenLabels(ls) + rest) == None
    decreases |ls|
  {
    if |ls| == 1 {
      OpenLabelFails(ls[0], rest);
    } else {
      var more := OpenLabels(ls[1..]) + rest;
      OpenLabelsFail(ls[1..], rest);
      Reassociate(LabelText(ls[0]), ",", OpenLabels(ls[1..]), rest);
      LabelRoundTrip(ls[0], "," + more);
      assert ("," + more)[1..] == more;
    }
  }

  lemma OpenLabelFails(l: Label, rest: string)
    requires IsName(l.key) && '"' !in rest
    ensures ParseLabels((l.key + ("=\"" + Escape(l.value))) + rest) == None
  {
    var quoted := Escape(l.value) + rest;
    var s, i := l.key + ("=" + ("\"" + quoted)), |l.key|;
    assert "=\"" == "=" + "\"";
    assert (l.key + ("=\"" + Escape(l.value))) + rest == s;
    FirstEquals(l.key, "\"" + quoted);
    Around(l.key, '=', "\"" + quoted);
    assert s[i + 2..] == ("\"" + quoted)[1..] == quoted;
    OpenQuoteFails(l.value, rest);
  }
}
