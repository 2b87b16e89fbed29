/** DS and RRA arguments for rrd_create_r (src/rra.c): collectd's consolidation
    arithmetic and the packing of the argument strings into one static buffer. */
module Rra {
  import opened CStrings
  import opened Types
  import opened Buffers
  import Decimal

  const STEP: nat := 5
  const RRAROWS: nat := 2400
  const TIMESPANS: seq<nat> := [3600, 86400, 604800]
  const CFS: seq<string> := ["AVERAGE", "MIN", "MAX"]
  const BUF_SIZE: nat := 2560

  // ---- consolidation arithmetic, for any step, row target and timespans ------

  /** Shorter spans are widened so that they still yield `rows` rows. */
  function Widened(step: nat, rows: nat, span: nat): nat
    requires step > 0
  {
    if span / step < rows then step * rows else span
  }

  /** The next pdp_per_row, given the one of the previous timespan (0 at first). */
  function NextLen(step: nat, rows: nat, span: nat, prev: nat): nat
    requires step > 0 && rows > 0
  {
    if prev == 0 then 1 else Widened(step, rows, span) / (rows * step)
  }

  /** ceil(a / b). */
  function CeilDiv(a: nat, b: nat): nat
    requires b > 0
  {
    (a + b - 1) / b
  }

  datatype Archive = Archive(len: nat, rows: nat)

  /** The (pdp_per_row, rows) pairs of the timespan loop. */
  function Archives(step: nat, rows: nat, spans: seq<nat>): (r: seq<Archive>)
    requires step > 0 && rows > 0
    ensures |r| == |spans|
    ensures forall k :: 0 <= k < |r| ==> r[k].len >= 1
    ensures |r| > 0 ==> r[0].len == 1
  {
    if spans == [] then []
    else
      var before := Archives(step, rows, spans[..|spans| - 1]);
      var span := spans[|spans| - 1];
      var prev := if before == [] then 0 else before[|before| - 1].len;
      WidenedCovers(step, rows, span);
      LenPositive(step, rows, span);
      var len := NextLen(step, rows, span, prev);
      MulPositive(len, step);
      before + [Archive(len, CeilDiv(Widened(step, rows, span), len * step))]
  }

  lemma MulPositive(a: nat, b: nat)
    requires a > 0 && b > 0
    ensures a * b > 0
  {
  }

  lemma {:induction false} MulMonotone(a: nat, b: nat, c: nat)
    requires a <= b
    ensures a * c <= b * c
  {
    assert b * c == a * c + (b - a) * c;
  }

  /** Division gives the quotient bracket a/b * b <= a < (a/b + 1) * b. */
  lemma DivBracket(a: nat, b: nat)
    requires b > 0
    ensures (a / b) * b <= a < (a / b + 1) * b
  {
    assert a == b * (a / b) + a % b;
  }

  lemma WidenedCovers(step: nat, rows: nat, span: nat)
    requires step > 0 && rows > 0
    ensures Widened(step, rows, span) >= rows * step
    ensures Widened(step, rows, span) >= span
  {
    DivBracket(span, step);
    if span / step < rows {
      MulMonotone(span / step + 1, rows, step);
    } else {
      MulMonotone(rows, span / step, step);
    }
  }

  lemma LenPositive(step: nat, rows: nat, span: nat)
    requires step > 0 && rows > 0
    ensures rows * step > 0 && Widened(step, rows, span) / (rows * step) >= 1
  {
    WidenedCovers(step, rows, span);
    MulPositive(rows, step);
    var d := rows * step;
    DivBracket(Widened(step, rows, span), d);
  }

  /** ceil is the least count that covers: it covers, and one less does not. */
  lemma CeilDivLeast(a: nat, b: nat)
    requires b > 0
    ensures CeilDiv(a, b) * b >= a
    ensures forall k: nat :: k * b >= a ==> k >= CeilDiv(a, b)
  {
    DivBracket(a + b - 1, b);
    var q := CeilDiv(a, b);
    assert (q + 1) * b == q * b + b;
    forall k: nat | k * b >= a ensures k >= q {
      assert (k + 1) * b == k * b + b;
      if k < q {
        MulMonotone(k + 1, q, b);
      }
    }
  }

  /** Both bounds on the row count from the bracket rows*step*len <= w < rows*step*(len+1). */
  lemma RowsBounded(step: nat, rows: nat, w: nat, len: nat)
    requires step > 0 && rows > 0 && len >= 1
    requires len * (rows * step) <= w
    ensures len * step > 0 && CeilDiv(w, len * step) >= rows
    ensures w < (len + 1) * (rows * step) ==> CeilDiv(w, len * step) <= 2 * rows
  {
    MulPositive(len, step);
    RowsAtLeast(step, rows, w, len, len * step);
    if w < (len + 1) * (rows * step) {
      TwiceTheRows(step, rows, w, len, len * step);
      CeilDivLeast(w, len * step);
    }
  }

  lemma RowsAtLeast(step: nat, rows: nat, w: nat, len: nat, d: nat)
    requires d == len * step && d > 0 && len * (rows * step) <= w
    ensures CeilDiv(w, d) >= rows
  {
    var q := CeilDiv(w, d);
    assert rows * d == len * (rows * step);
    DivBracket(w + d - 1, d);
    assert (q + 1) * d == q * d + d;
    if q < rows {
      MulMonotone(q + 1, rows, d);
    }
  }

  lemma TwiceTheRows(step: nat, rows: nat, w: nat, len: nat, d: nat)
    requires d == len * step && len >= 1 && w < (len + 1) * (rows * step)
    ensures (2 * rows) * d >= w
  {
    var c := rows * step;
    assert rows * d == len * c;
    assert (len + 1) * c == len * c + c;
    MulMonotone(1, len, c);
    assert (2 * rows) * d == rows * d + rows * d;
  }

  /** One timespan: the length is positive, the rows cover the widened span and are
      the least that do, there are at least `rows` of them, and at most twice
      `rows` after the first timespan. */
  ghost predicate GoodArchive(step: nat, rows: nat, span: nat, first: bool, a: Archive)
    requires step > 0 && rows > 0
  {
    && a.len >= 1
    && Widened(step, rows, span) >= span
    && a.rows * (a.len * step) >= Widened(step, rows, span)
    && (forall k: nat :: k * (a.len * step) >= Widened(step, rows, span) ==> k >= a.rows)
    && a.rows >= rows
    && (!first ==> a.rows <= 2 * rows)
  }

  lemma OneArchive(step: nat, rows: nat, span: nat, prev: nat)
    requires step > 0 && rows > 0
    ensures var w := Widened(step, rows, span);
            var len := NextLen(step, rows, span, prev);
            len >= 1 && len * step > 0
            && GoodArchive(step, rows, span, prev == 0, Archive(len, CeilDiv(w, len * step)))
  {
    WidenedCovers(step, rows, span);
    LenPositive(step, rows, span);
    var w := Widened(step, rows, span);
    var len := NextLen(step, rows, span, prev);
    MulPositive(len, step);
    CeilDivLeast(w, len * step);
    if prev != 0 {
      DivBracket(w, rows * step);
    }
    RowsBounded(step, rows, w, len);
  }

  /** Every archive of every timespan list is good. */
  lemma {:induction false} ArchivesAreGood(step: nat, rows: nat, spans: seq<nat>)
    requires step > 0 && rows > 0
    ensures forall k :: 0 <= k < |spans| ==>
      GoodArchive(step, rows, spans[k], k == 0, Archives(step, rows, spans)[k])
  {
    if spans != [] {
      var init := spans[..|spans| - 1];
      ArchivesAreGood(step, rows, init);
      var before := Archives(step, rows, init);
      var prev := if before == [] then 0 else before[|before| - 1].len;
      OneArchive(step, rows, spans[|spans| - 1], prev);
    }
  }

  lemma WidenedMonotone(step: nat, rows: nat, a: nat, b: nat)
    requires step > 0 && rows > 0 && a <= b
    ensures Widened(step, rows, a) <= Widened(step, rows, b)
  {
    WidenedCovers(step, rows, b);
    DivMonotone(a, b, step);
  }

  lemma DivMonotone(a: nat, b: nat, d: nat)
    requires d > 0 && a <= b
    ensures a / d <= b / d
  {
    DivBracket(a, d);
    DivBracket(b, d);
    if a / d > b / d {
      MulMonotone(b / d + 1, a / d, d);
    }
  }

  /** The carried length in closed form. */
  lemma {:induction false} LengthAt(step: nat, rows: nat, spans: seq<nat>, k: nat)
    requires step > 0 && rows > 0 && 0 < k < |spans|
    ensures rows * step > 0
    ensures Archives(step, rows, spans)[k].len == Widened(step, rows, spans[k]) / (rows * step)
  {
    LenPositive(step, rows, spans[k]);
    if k < |spans| - 1 {
      LengthAt(step, rows, spans[..|spans| - 1], k);
    }
  }

  /** Sorted timespans give sorted consolidation lengths. */
  lemma LengthsAreMonotone(step: nat, rows: nat, spans: seq<nat>, i: nat, j: nat)
    requires step > 0 && rows > 0
    requires i < j < |spans| && spans[i] <= spans[j]
    ensures Archives(step, rows, spans)[i].len <= Archives(step, rows, spans)[j].len
  {
    LengthAt(step, rows, spans, j);
    if i > 0 {
      LengthAt(step, rows, spans, i);
      WidenedMonotone(step, rows, spans[i], spans[j]);
      DivMonotone(Widened(step, rows, spans[i]), Widened(step, rows, spans[j]), rows * step);
    }
  }

  /** The archives of the built-in constants, as tests/test_rra.c lists them. */
  lemma StandardArchives()
    ensures Archives(STEP, RRAROWS, TIMESPANS) == [Archive(1, 2400), Archive(7, 2469), Archive(50, 2420)]
  {
    assert TIMESPANS[..2] == [3600, 86400];
    assert [3600, 86400][..1] == [3600];
    assert [3600][..0] == [];
    var a0 := Archives(STEP, RRAROWS, [3600]);
    assert a0 == [Archive(1, 2400)];
    var a1 := Archives(STEP, RRAROWS, [3600, 86400]);
    assert a1 == a0 + [Archive(7, 2469)];
    assert Archives(STEP, RRAROWS, TIMESPANS) == a1 + [Archive(50, 2420)];
  }

  // ---- the argument lines ----------------------------------------------------

  function DstName(d: Dst): string {
    match d
    case Gauge => "GAUGE"
    case Derive => "DERIVE"
    case Counter => "COUNTER"
  }

  function DsLine(d: DsDef): string {
    "DS:" + d.name + ":" + DstName(d.dst) + ":" + Decimal.Digits(2 * STEP) + ":U:U"
  }

  function RraLine(cf: string, a: Archive): string {
    "RRA:" + cf + ":0.1:" + Decimal.Digits(a.len) + ":" + Decimal.Digits(a.rows)
  }

  function DsLines(ds: seq<DsDef>): seq<string> {
    seq(|ds|, k requires 0 <= k < |ds| => DsLine(ds[k]))
  }

  /** Timespan-major: AVERAGE, MIN and MAX of the first timespan come first. */
  function RraLines(archives: seq<Archive>): seq<string> {
    seq(3 * |archives|, k requires 0 <= k < 3 * |archives| => RraLine(CFS[k % 3], archives[k / 3]))
  }

  /** The arguments rrd_create_r receives for a type. */
  function Lines(td: TypeDef): (r: seq<string>)
    ensures |r| == |td.ds| + 9
  {
    DsLines(td.ds) + RraLines(Archives(STEP, RRAROWS, TIMESPANS))
  }

  // ---- packing ---------------------------------------------------------------

  /** The buffer contents after the lines were written, each with its terminator. */
  function PackedText(lines: seq<string>): string {
    if lines == [] then ""
    else PackedText(lines[..|lines| - 1]) + (lines[|lines| - 1] + "\0")
  }

  function PackedSize(lines: seq<string>): nat { |PackedText(lines)| }

  lemma PackedSnoc(lines: seq<string>, s: string)
    ensures PackedText(lines + [s]) == PackedText(lines) + (s + "\0")
  {
    assert (lines + [s])[..|lines|] == lines;
  }

  /** Line k sits, terminated, right where the text of the lines before it ends. */
  lemma {:induction false} PackedAt(lines: seq<string>, k: nat)
    requires k < |lines|
    ensures var o, t := PackedSize(lines[..k]), PackedText(lines);
            o + |lines[k]| < |t| && t[o..o + |lines[k]|] == lines[k] && t[o + |lines[k]|] == '\0'
            && o + |lines[k]| + 1 == PackedSize(lines[..k + 1])
  {
    var n := |lines|;
    var init := lines[..n - 1];
    var t := PackedText(lines);
    if k == n - 1 {
      assert lines[..k + 1] == lines;
      var o := PackedSize(init);
      assert t[o..o + |lines[k]|] == lines[k];
    } else {
      PackedAt(init, k);
      assert init[..k] == lines[..k] && init[..k + 1] == lines[..k + 1];
      var o := PackedSize(init[..k]);
      assert t[o..o + |lines[k]|] == PackedText(init)[o..o + |lines[k]|];
    }
  }

  lemma {:induction false} PackedBound(lines: seq<string>, w: nat)
    requires forall k :: 0 <= k < |lines| ==> |lines[k]| < w
    ensures PackedSize(lines) <= |lines| * w
  {
    if lines != [] {
      PackedBound(lines[..|lines| - 1], w);
      assert |lines| * w == (|lines| - 1) * w + w;
    }
  }

  /** Four data sources with names of at most 19 characters never exhaust the buffer. */
  lemma NeverExhausted(td: TypeDef)
    requires |td.ds| <= 4
    requires forall k :: 0 <= k < |td.ds| ==> |td.ds[k].name| <= 19
    ensures PackedSize(Lines(td)) <= BUF_SIZE
  {
    StandardArchives();
    Decimal.DigitsLength(2 * STEP, 2) by { assert Decimal.Pow10(2) == 100; }
    var archives := Archives(STEP, RRAROWS, TIMESPANS);
    forall k | 0 <= k < 3 ensures |Decimal.Digits(archives[k].len)| <= 4 && |Decimal.Digits(archives[k].rows)| <= 4 {
      assert Decimal.Pow10(2) == 100;
      assert Decimal.Pow10(4) == 10000;
      Decimal.DigitsLength(archives[k].len, 4);
      Decimal.DigitsLength(archives[k].rows, 4);
    }
    forall k | 0 <= k < |Lines(td)| ensures |Lines(td)[k]| < 60 {
    }
    PackedBound(Lines(td), 60);
  }

  /** The buffer starts with the packed lines and argv points at their starts. */
  ghost predicate Packed(buf: array<char>, argv: array<nat>, lines: seq<string>)
    reads buf, argv
  {
    && |lines| <= argv.Length && PackedSize(lines) <= buf.Length
    && buf[..PackedSize(lines)] == PackedText(lines)
    && forall k :: 0 <= k < |lines| ==> argv[k] == PackedSize(lines[..k])
  }

  /** Packed arguments read back as the lines, and no two of them overlap. */
  lemma ReadBack(buf: array<char>, argv: array<nat>, lines: seq<string>, k: nat)
    requires Packed(buf, argv, lines) && k < |lines|
    ensures HoldsAt(buf, argv[k], lines[k])
    ensures k + 1 < |lines| ==> argv[k] + |lines[k]| < argv[k + 1]
  {
    PackedAt(lines, k);
    var o, t := argv[k], PackedText(lines);
    assert buf[o..o + |lines[k]|] == t[o..o + |lines[k]|];
    assert buf[o + |lines[k]|] == t[o + |lines[k]|];
  }

  /** snprintf at p, argv[i++] = p, advance p past the terminator. */
  method PackLine(buf: array<char>, argv: array<nat>, i: nat, p: nat, line: string, ghost before: seq<string>)
    returns (ok: bool, p': nat)
    requires i == |before| < argv.Length && Packed(buf, argv, before) && p == PackedSize(before)
    modifies buf, argv
    ensures ok <==> PackedSize(before + [line]) <= buf.Length
    ensures ok ==> Packed(buf, argv, before + [line]) && p' == PackedSize(before + [line])
  {
    PackedSnoc(before, line);
    var len := Snprintf(buf, p, line);
    if len >= buf.Length - p {
      return false, p;
    }
    argv[i] := p;
    p' := p + len + 1;
    assert buf[..p'] == buf[..p] + (buf[p..p + len] + [buf[p + len]]);
    assert forall k :: 0 <= k <= i ==> (before + [line])[..k] == before[..k];
    ok := true;
  }

  lemma {:induction false} PackedPrefix(lines: seq<string>, k: nat)
    requires k <= |lines|
    ensures PackedSize(lines[..k]) <= PackedSize(lines)
  {
    if k < |lines| {
      PackedAt(lines, k);
    } else {
      assert lines[..k] == lines;
    }
  }

  ghost predicate AreDsLines(lines: seq<string>, ds: seq<DsDef>) {
    |lines| == |ds| && forall d {:trigger DsLine(ds[d])} :: 0 <= d < |ds| ==> lines[d] == DsLine(ds[d])
  }

  /** One turn of the DS loop. */
  method PackSource(ds: seq<DsDef>, d: nat, buf: array<char>, argv: array<nat>, p: nat, ghost lines: seq<string>) returns (p': nat)
    requires AreDsLines(lines, ds) && d < |ds| <= argv.Length && PackedSize(lines) <= buf.Length
    requires Packed(buf, argv, lines[..d]) && p == PackedSize(lines[..d])
    modifies buf, argv
    ensures Packed(buf, argv, lines[..d + 1]) && p' == PackedSize(lines[..d + 1])
  {
    assert lines[..d] + [lines[d]] == lines[..d + 1];
    PackedPrefix(lines, d + 1);
    var ok;
    ok, p' := PackLine(buf, argv, d, p, DsLine(ds[d]), lines[..d]);
  }

  /** The DS loop: it does not check for room, so its lines must fit. */
  method PackSources(ds: seq<DsDef>, buf: array<char>, argv: array<nat>, ghost lines: seq<string>) returns (p: nat)
    requires AreDsLines(lines, ds) && |ds| <= argv.Length && PackedSize(lines) <= buf.Length
    modifies buf, argv
    ensures Packed(buf, argv, lines) && p == PackedSize(lines)
  {
    p := 0;
    var d := 0;
    while d < |ds|
      invariant 0 <= d <= |ds| && Packed(buf, argv, lines[..d]) && p == PackedSize(lines[..d])
    {
      p := PackSource(ds, d, buf, argv, p, lines);
      d := d + 1;
    }
    assert lines[..|ds|] == lines;
  }

  /** The CF loop of one timespan; line k of `lines` is the first it writes. */
  method PackArchive(a: Archive, buf: array<char>, argv: array<nat>, k: nat, p: nat, ghost lines: seq<string>)
    returns (ok: bool, p': nat)
    requires ArchiveLinesAt(lines, k, a) && |lines| <= argv.Length
    requires Packed(buf, argv, lines[..k]) && p == PackedSize(lines[..k])
    modifies buf, argv
    ensures ok ==> Packed(buf, argv, lines[..k + 3]) && p' == PackedSize(lines[..k + 3])
    ensures !ok ==> PackedSize(lines) > buf.Length
  {
    ok, p' := true, p;
    var c := 0;
    while c < 3
      invariant 0 <= c <= 3 && ok
      invariant Packed(buf, argv, lines[..k + c]) && p' == PackedSize(lines[..k + c])
    {
      assert lines[..k + c] + [lines[k + c]] == lines[..k + c + 1];
      PackedPrefix(lines, k + c + 1);
      ok, p' := PackLine(buf, argv, k + c, p', RraLine(CFS[c], a), lines[..k + c]);
      if !ok {
        return;
      }
      c := c + 1;
    }
  }

  /** Each archive follows from its timespan and the length before it. */
  ghost predicate Chained(archives: seq<Archive>) {
    && |archives| == |TIMESPANS|
    && forall t :: 0 <= t < |TIMESPANS| ==>
         var len := NextLen(STEP, RRAROWS, TIMESPANS[t], PrevLen(archives, t));
         len >= 1 && archives[t] == Archive(len, CeilDiv(Widened(STEP, RRAROWS, TIMESPANS[t]), len * STEP))
  }

  /** cdp_len as carried into timespan t. */
  ghost function PrevLen(archives: seq<Archive>, t: nat): nat
    requires t <= |archives|
  {
    if t == 0 then 0 else archives[t - 1].len
  }

  lemma StandardChained()
    ensures Chained(Archives(STEP, RRAROWS, TIMESPANS))
  {
    StandardArchives();
  }

  ghost predicate ArchiveLinesAt(lines: seq<string>, k: nat, a: Archive) {
    k + 3 <= |lines| && forall c :: 0 <= c < 3 ==> lines[k + c] == RraLine(CFS[c], a)
  }

  /** The timespan loop, with cdp_len carried from one timespan to the next. */
  method PackArchives(buf: array<char>, argv: array<nat>, n: nat, start: nat,
                      ghost lines: seq<string>, ghost archives: seq<Archive>)
    returns (ok: bool)
    requires Chained(archives) && |lines| == n + 9 <= argv.Length
    requires forall t :: 0 <= t < 3 ==> ArchiveLinesAt(lines, n + 3 * t, archives[t])
    requires Packed(buf, argv, lines[..n]) && start == PackedSize(lines[..n])
    modifies buf, argv
    ensures ok ==> Packed(buf, argv, lines)
    ensures ok <==> PackedSize(lines) <= buf.Length
  {
    var cdpLen, t, p := 0, 0, start;
    while t < |TIMESPANS|
      invariant 0 <= t <= |TIMESPANS| && cdpLen == PrevLen(archives, t)
      invariant Packed(buf, argv, lines[..n + 3 * t]) && p == PackedSize(lines[..n + 3 * t])
    {
      cdpLen := NextLen(STEP, RRAROWS, TIMESPANS[t], cdpLen);
      var cdpNum := CeilDiv(Widened(STEP, RRAROWS, TIMESPANS[t]), cdpLen * STEP);
      assert ArchiveLinesAt(lines, n + 3 * t, Archive(cdpLen, cdpNum));
      ok, p := PackArchive(Archive(cdpLen, cdpNum), buf, argv, n + 3 * t, p, lines);
      if !ok {
        return;
      }
      t := t + 1;
    }
    assert lines[..n + 9] == lines;
    ok := true;
  }

  lemma RraLinesAt(before: seq<string>, archives: seq<Archive>, t: nat)
    requires t < |archives|
    ensures ArchiveLinesAt(before + RraLines(archives), |before| + 3 * t, archives[t])
  {
    forall c | 0 <= c < 3 ensures RraLines(archives)[3 * t + c] == RraLine(CFS[c], archives[t]) {
      assert (3 * t + c) % 3 == c && (3 * t + c) / 3 == t;
    }
  }

  lemma LinesOfArchives(td: TypeDef)
    ensures Lines(td)[..|td.ds|] == DsLines(td.ds)
    ensures forall t :: 0 <= t < 3 ==>
      ArchiveLinesAt(Lines(td), |td.ds| + 3 * t, Archives(STEP, RRAROWS, TIMESPANS)[t])
  {
    var archives := Archives(STEP, RRAROWS, TIMESPANS);
    forall t | 0 <= t < 3 ensures ArchiveLinesAt(Lines(td), |td.ds| + 3 * t, archives[t]) {
      RraLinesAt(DsLines(td.ds), archives, t);
    }
  }

  /** The call fails exactly when there is no type, argv is too short or the buffer
      would overflow; otherwise argv holds every line of the type, in order. */
  method RraArgs(td: Option<TypeDef>, buf: array<char>, argv: array<nat>) returns (count: int)
    requires td.Some? ==> PackedSize(DsLines(td.value.ds)) <= buf.Length
    modifies buf, argv
    ensures count == -1 <==> td.None? || |Lines(td.value)| > argv.Length || PackedSize(Lines(td.value)) > buf.Length
    ensures count != -1 ==> count == |Lines(td.value)| && Packed(buf, argv, Lines(td.value))
  {
    if td.None? {
      return -1;
    }
    var n := |td.value.ds|;
    count := n + |TIMESPANS| * |CFS|;
    if count > argv.Length {
      return -1;
    }
    LinesOfArchives(td.value);
    StandardChained();
    var p := PackSources(td.value.ds, buf, argv, DsLines(td.value.ds));
    var ok := PackArchives(buf, argv, n, p, Lines(td.value), Archives(STEP, RRAROWS, TIMESPANS));
    if !ok {
      return -1;
    }
  }

  /** The argument lines contain no NUL, so they are C strings. */
  lemma LinesAreCStrings(td: TypeDef, k: nat)
    requires WellFormedType(td) && k < |Lines(td)|
    ensures '\0' !in Lines(td)[k]
  {
    if k < |td.ds| {
      DsLineIsCString(td.ds[k]);
    } else {
      var a := Archives(STEP, RRAROWS, TIMESPANS)[(k - |td.ds|) / 3];
      assert Lines(td)[k] == RraLine(CFS[(k - |td.ds|) % 3], a);
      RraLineIsCString((k - |td.ds|) % 3, a);
    }
  }

  lemma DsLineIsCString(d: DsDef)
    requires IsWord(d.name)
    ensures '\0' !in DsLine(d)
  {
    assert '\0' !in "DS:" && '\0' !in ":" && '\0' !in ":U:U" && '\0' !in DstName(d.dst);
    assert '\0' !in d.name;
    assert '\0' !in Decimal.Digits(2 * STEP);
  }

  lemma RraLineIsCString(c: nat, a: Archive)
    requires c < 3
    ensures '\0' !in RraLine(CFS[c], a)
  {
    assert '\0' !in "RRA:" && '\0' !in ":0.1:" && '\0' !in ":" && '\0' !in CFS[c];
    assert '\0' !in Decimal.Digits(a.len) && '\0' !in Decimal.Digits(a.rows);
  }

  /** What rrd_create_r sees: the C strings its argument vector points at. */
  method ReadArgs(buf: array<char>, argv: array<nat>, n: nat, ghost lines: seq<string>) returns (args: seq<string>)
    requires Packed(buf, argv, lines) && n == |lines|
    requires forall k :: 0 <= k < |lines| ==> '\0' !in lines[k]
    ensures args == lines
  {
    args := [];
    while |args| < n
      invariant |args| <= n && args == lines[..|args|]
    {
      var k := |args|;
      ReadBack(buf, argv, lines, k);
      CStringHeld(buf, argv[k], lines[k]);
      args := args + [CStringAt(buf, argv[k])];
    }
  }

  /** rra_args as the writer calls it: 64 slots and the static buffer always suffice
      for a well-formed type. */
  method TypeArgs(td: TypeDef) returns (args: seq<string>)
    requires WellFormedType(td)
    ensures args == Lines(td)
  {
    NeverExhausted(td);
    LinesOfArchives(td);
    PackedPrefix(Lines(td), |td.ds|);
    var buf, argv := new char[BUF_SIZE], new nat[64];
    var n := RraArgs(Some(td), buf, argv);
    forall k | 0 <= k < |Lines(td)| ensures '\0' !in Lines(td)[k] {
      LinesAreCStrings(td, k);
    }
    args := ReadArgs(buf, argv, n, Lines(td));
  }
}
