/** Parsing of /proc/[pid]/{comm,stat,statm} (src/readers/processes.c): line reads, the
    split of the stat line on its last ')', and the sscanf of unsigned fields. */
module Stat {
  import opened CStrings
  import opened Decimal

  /** fgets into `size` bytes: the first line with its line feed, cut to size - 1. */
  function Fgets(file: string, size: nat): (r: Option<string>)
    requires size > 1
    ensures r.Some? ==> 0 < |r.value| < size
  {
    if file == "" then None
    else
      var line := match IndexOf(file, '\n', 0) case None => file case Some(i) => file[..i + 1];
      Some(Truncated(line, size))
  }

  predicate IsLineEnd(c: char) { c == '\n' || c == '\r' }

  /** Strips trailing line ends. */
  function Strip(s: string): (r: string)
    ensures |r| <= |s|
  {
    if s != "" && IsLineEnd(s[|s| - 1]) then Strip(s[..|s| - 1]) else s
  }

  const COMM_LEN: nat := 32

  /** The process name: at most 31 characters, never empty. */
  function ReadComm(file: string): (r: Option<string>)
    ensures r.Some? ==> 0 < |r.value| < COMM_LEN
  {
    match Fgets(file, COMM_LEN)
    case None => None
    case Some(line) => if Strip(line) == "" then None else Some(Strip(line))
  }

  const ULONG: nat := 0x1_0000_0000_0000_0000

  /** strtoul: too large saturates, a minus sign wraps around. */
  function Wrap(negative: bool, magnitude: nat): (r: nat)
    ensures r < ULONG
    ensures !negative && magnitude < ULONG ==> r == magnitude
  {
    if magnitude >= ULONG then ULONG - 1
    else if negative && magnitude > 0 then ULONG - magnitude
    else magnitude
  }

  datatype Scanned = Scanned(value: nat, rest: string)

  /** One " %lu" conversion. */
  function ScanULong(s: string): Option<Scanned> {
    var i := SkipSpaces(s, 0);
    var d := AfterSign(s, i);
    var e := DigitRun(s, d);
    if e == d then None else Some(Scanned(Wrap(i < |s| && s[i] == '-', Value(s[d..e])), s[e..]))
  }

  /** Conversions until one fails; sscanf stops earlier, once its format is used up. */
  function ScanULongs(s: string): seq<nat>
    decreases |s|
  {
    match ScanULong(s)
    case None => []
    case Some(Scanned(v, rest)) => if |rest| < |s| then [v] + ScanULongs(rest) else [v]
  }

  /** Length of the leading run without white space. */
  function TokenEnd(s: string, i: nat): (j: nat)
    requires i <= |s|
    ensures i <= j <= |s|
    decreases |s| - i
  {
    if i < |s| && !IsSpace(s[i]) then TokenEnd(s, i + 1) else i
  }

  /** "%*s": skips one token; None at the end of the text. */
  function SkipToken(s: string): Option<string> {
    var i := SkipSpaces(s, 0);
    if i == |s| then None else Some(s[TokenEnd(s, i)..])
  }

  datatype Times = Times(utime: nat, stime: nat, threads: nat)

  /** The three fields used, once all seventeen conversions succeeded. */
  function TimesOf(f: seq<nat>): Option<Times> {
    if |f| < 17 then None else Some(Times(f[10], f[11], f[16]))
  }

  /** The times in the text behind the last ')'. */
  function TimesBehind(behind: string): Option<Times> {
    match SkipToken(behind)
    case None => None
    case Some(rest) => TimesOf(ScanULongs(rest))
  }

  /** utime, stime and num_threads of a stat line: the fields behind the last ')'. */
  function ParseStat(line: string): Option<Times> {
    TimesAfter(line, LastIndexOf(line, ')', |line|))
  }

  function TimesAfter(line: string, p: Option<nat>): Option<Times>
    requires p.Some? ==> p.value < |line|
  {
    if p.None? then None else TimesBehind(line[p.value + 1..])
  }

  function ReadStat(file: string): Option<Times> {
    match Fgets(file, 1024) case None => None case Some(line) => ParseStat(line)
  }

  /** Resident pages: the second field of statm. */
  function ReadStatm(file: string): Option<nat> {
    match Fgets(file, 256)
    case None => None
    case Some(line) => var f := ScanULongs(line); if |f| < 2 then None else Some(f[1])
  }

  // ---- the kernel's stat line ---------------------------------------------------------

  /** " f0 f1 ..." followed by the rest of the line. */
  function FieldsText(fs: seq<int>, tail: string): string {
    if fs == [] then tail else " " + (Print(fs[0]) + FieldsText(fs[1..], tail))
  }

  /** "pid (comm) state f0 f1 ... tail". */
  function PrintStat(pid: nat, comm: string, state: string, fs: seq<int>, tail: string): string {
    (Digits(pid) + " (" + comm) + (")" + (" " + (state + FieldsText(fs, tail))))
  }

  /** What may follow the fields: more text without ')' that does not continue a number. */
  predicate PlainTail(tail: string) { ')' !in tail && (tail != "" ==> !IsDigit(tail[0])) }

  predicate IsState(state: string) { state != "" && ')' !in state && forall i :: 0 <= i < |state| ==> !IsSpace(state[i]) }

  function Wrapped(f: int): nat { Wrap(f < 0, Abs(f)) }

  lemma ScanPrintedField(f: int, rest: string)
    requires rest != "" ==> !IsDigit(rest[0])
    ensures ScanULong(" " + (Print(f) + rest)) == Some(Scanned(Wrapped(f), rest))
  {
    var s, p := " " + (Print(f) + rest), Print(f);
    assert StandsAt(s, 1, p);
    assert 1 + |p| < |s| ==> s[1 + |p|] == rest[0];
    ScanPrinted(s, 1, f);
    SkipOneSpace(s, 0);
    assert s[1 + |p|..] == rest;
  }

  lemma FieldsTextStart(fs: seq<int>, tail: string)
    requires PlainTail(tail)
    ensures FieldsText(fs, tail) != "" ==> !IsDigit(FieldsText(fs, tail)[0])
  {
  }

  function WrappedAll(fs: seq<int>): seq<nat> {
    if fs == [] then [] else [Wrapped(fs[0])] + WrappedAll(fs[1..])
  }

  lemma {:induction false} WrappedAt(fs: seq<int>)
    ensures |WrappedAll(fs)| == |fs| && forall i :: 0 <= i < |fs| ==> WrappedAll(fs)[i] == Wrapped(fs[i])
    decreases |fs|
  {
    if fs != [] {
      WrappedAt(fs[1..]);
    }
  }

  /** One conversion, then the rest. */
  lemma ScanCons(s: string, v: nat, rest: string)
    requires ScanULong(s) == Some(Scanned(v, rest)) && |rest| < |s|
    ensures ScanULongs(s) == [v] + ScanULongs(rest)
  {
  }

  /** Every printed field is read back, before whatever the tail yields. */
  lemma {:induction false} ScanPrintedFields(fs: seq<int>, tail: string)
    requires PlainTail(tail)
    ensures WrappedAll(fs) <= ScanULongs(FieldsText(fs, tail))
    decreases |fs|
  {
    if fs != [] {
      var rest := FieldsText(fs[1..], tail);
      ScanPrintedFields(fs[1..], tail);
      FieldsTextStart(fs[1..], tail);
      FirstField(fs[0], rest);
      PrefixCons(Wrapped(fs[0]), WrappedAll(fs[1..]), ScanULongs(rest));
    }
  }

  lemma FirstField(f: int, rest: string)
    requires rest != "" ==> !IsDigit(rest[0])
    ensures ScanULongs(" " + (Print(f) + rest)) == [Wrapped(f)] + ScanULongs(rest)
  {
    ScanPrintedField(f, rest);
    ScanCons(" " + (Print(f) + rest), Wrapped(f), rest);
  }

  lemma PrefixCons(v: nat, a: seq<nat>, b: seq<nat>)
    requires a <= b
    ensures [v] + a <= [v] + b
  {
  }

  lemma {:induction false} TokenEndIs(s: string, i: nat, e: nat)
    requires i <= e <= |s| && (forall k :: i <= k < e ==> !IsSpace(s[k])) && (e < |s| ==> IsSpace(s[e]))
    ensures TokenEnd(s, i) == e
    decreases e - i
  {
    if i < e {
      TokenEndIs(s, i + 1, e);
    }
  }

  lemma SkipState(state: string, more: string)
    requires IsState(state) && (more != "" ==> more[0] == ' ')
    ensures SkipToken(" " + (state + more)) == Some(more)
  {
    var s := " " + (state + more);
    assert s[1] == state[0];
    SkipOneSpace(s, 0);
    assert forall k :: 1 <= k < 1 + |state| ==> s[k] == state[k - 1];
    assert 1 + |state| < |s| ==> s[1 + |state|] == more[0];
    TokenEndIs(s, 1, 1 + |state|);
    assert s[1 + |state|..] == more;
  }

  lemma {:induction false} FieldsTextHasNoParen(fs: seq<int>, tail: string)
    requires ')' !in tail
    ensures ')' !in FieldsText(fs, tail)
    decreases |fs|
  {
    if fs != [] {
      FieldsTextHasNoParen(fs[1..], tail);
      var d := Digits(if fs[0] < 0 then -fs[0] else fs[0]);
      assert forall i :: 0 <= i < |d| ==> IsDigit(d[i]);
      assert ')' !in Print(fs[0]);
    }
  }

  lemma {:induction false} LastIs(s: string, c: char, end: nat, i: nat)
    requires i < end <= |s| && s[i] == c && forall k :: i < k < end ==> s[k] != c
    ensures LastIndexOf(s, c, end) == Some(i)
  {
  }

  lemma LastParen(head: string, more: string)
    requires ')' !in more
    ensures LastIndexOf(head + (")" + more), ')', |head + (")" + more)|) == Some(|head|)
    ensures (head + (")" + more))[|head| + 1..] == more
  {
    var s := head + (")" + more);
    forall k | |head| < k < |s| ensures s[k] != ')' {
      assert s[k] == more[k - |head| - 1];
    }
    LastIs(s, ')', |s|, |head|);
  }

  lemma BehindState(state: string, fields: string)
    requires IsState(state) && (fields != "" ==> fields[0] == ' ')
    ensures TimesBehind(" " + (state + fields)) == TimesOf(ScanULongs(fields))
  {
    SkipState(state, fields);
  }

  /** Whatever stands before the last ')' is ignored. */
  lemma SplitOnLastParen(head: string, state: string, fields: string)
    requires IsState(state) && ')' !in fields && (fields != "" ==> fields[0] == ' ')
    ensures ParseStat(head + (")" + (" " + (state + fields)))) == TimesOf(ScanULongs(fields))
  {
    var more := " " + (state + fields);
    assert ')' !in more;
    LastParen(head, more);
    BehindState(state, fields);
  }

  /** The parse recovers utime, stime and num_threads whatever the process name holds:
      parentheses, spaces and digits in it make no difference. */
  lemma StatIgnoresComm(pid: nat, comm: string, state: string, fs: seq<int>, tail: string)
    requires IsState(state) && |fs| == 17 && PlainTail(tail)
    ensures ParseStat(PrintStat(pid, comm, state, fs, tail))
         == Some(Times(Wrapped(fs[10]), Wrapped(fs[11]), Wrapped(fs[16])))
  {
    FieldsTextHasNoParen(fs, tail);
    SplitOnLastParen(Digits(pid) + " (" + comm, state, FieldsText(fs, tail));
    ScanPrintedFields(fs, tail);
    WrappedAt(fs);
    UsedFields(ScanULongs(FieldsText(fs, tail)), WrappedAll(fs));
  }

  lemma UsedFields(f: seq<nat>, w: seq<nat>)
    requires w <= f && |w| == 17
    ensures TimesOf(f) == Some(Times(w[10], w[11], w[16]))
  {
  }

  /** So does reading the file, when the line fits the buffer and the name has no line feed. */
  lemma StatFileRoundTrip(pid: nat, comm: string, state: string, fs: seq<int>, tail: string)
    requires IsState(state) && |fs| == 17 && PlainTail(tail) && '\n' !in comm && '\n' !in tail
    requires |PrintStat(pid, comm, state, fs, tail)| < 1023
    requires 0 <= fs[10] < ULONG && 0 <= fs[11] < ULONG && 0 <= fs[16] < ULONG
    ensures ReadStat(PrintStat(pid, comm, state, fs, tail) + "\n") == Some(Times(fs[10], fs[11], fs[16]))
  {
    var line := PrintStat(pid, comm, state, fs, tail);
    StatIgnoresComm(pid, comm, state, fs, tail + "\n");
    LineFeedMoves(pid, comm, state, fs, tail);
    StatLineHasNoNewline(pid, comm, state, fs, tail);
    FgetsLine(line, 1024);
  }

  /** The line that fgets reads from a text: up to and with the first line feed. */
  lemma FgetsUpto(head: string, more: string, size: nat)
    requires '\n' !in head && size > 1
    ensures Fgets(head + ("\n" + more), size) == Some(Truncated(head + "\n", size))
  {
    var file := head + ("\n" + more);
    assert file[|head|] == '\n' && forall k :: 0 <= k < |head| ==> file[k] == head[k];
    FirstIs(file, '\n', 0, |head|);
    assert file[..|head| + 1] == head + "\n";
  }

  lemma FgetsLine(line: string, size: nat)
    requires '\n' !in line && |line| + 1 < size
    ensures Fgets(line + "\n", size) == Some(line + "\n")
  {
    assert line + ("\n" + "") == line + "\n";
    FgetsUpto(line, "", size);
  }

  lemma {:induction false} FieldsTextTail(fs: seq<int>, tail: string, end: string)
    ensures FieldsText(fs, tail + end) == FieldsText(fs, tail) + end
    decreases |fs|
  {
    if fs != [] {
      FieldsTextTail(fs[1..], tail, end);
      var rest := FieldsText(fs[1..], tail);
      assert " " + (Print(fs[0]) + (rest + end)) == (" " + (Print(fs[0]) + rest)) + end;
    }
  }

  lemma LineFeedMoves(pid: nat, comm: string, state: string, fs: seq<int>, tail: string)
    ensures PrintStat(pid, comm, state, fs, tail + "\n") == PrintStat(pid, comm, state, fs, tail) + "\n"
  {
    FieldsTextTail(fs, tail, "\n");
  }

  lemma {:induction false} FieldsTextHasNoNewline(fs: seq<int>, tail: string)
    requires '\n' !in tail
    ensures '\n' !in FieldsText(fs, tail)
    decreases |fs|
  {
    if fs != [] {
      FieldsTextHasNoNewline(fs[1..], tail);
      var d := Digits(if fs[0] < 0 then -fs[0] else fs[0]);
      assert forall i :: 0 <= i < |d| ==> IsDigit(d[i]);
      assert '\n' !in Print(fs[0]);
    }
  }

  lemma StatLineHasNoNewline(pid: nat, comm: string, state: string, fs: seq<int>, tail: string)
    requires IsState(state) && '\n' !in comm && '\n' !in tail
    ensures '\n' !in PrintStat(pid, comm, state, fs, tail)
  {
    FieldsTextHasNoNewline(fs, tail);
    var d := Digits(pid);
    assert forall i :: 0 <= i < |d| ==> IsDigit(d[i]);
    assert '\n' !in d && '\n' !in " (" && '\n' !in ")" && '\n' !in " ";
    assert '\n' !in state;
  }

  lemma StripLine(comm: string)
    requires comm == "" || !IsLineEnd(comm[|comm| - 1])
    ensures Strip(comm + "\n") == comm && Strip(comm) == comm
  {
    var line := comm + "\n";
    assert line[..|line| - 1] == comm;
  }

  /** A text with a line feed, split at the first one. */
  lemma FirstLine(s: string) returns (head: string, more: string)
    requires '\n' in s
    ensures s == head + ("\n" + more) && '\n' !in head
  {
    var k :| 0 <= k < |s| && s[k] == '\n';
    FoundBefore(s, '\n', 0, k);
    var i := IndexOf(s, '\n', 0).value;
    head, more := s[..i], s[i + 1..];
    forall j | 0 <= j < i ensures head[j] != '\n' {
      NoneBefore(s, '\n', 0, j);
    }
  }

  /** The stored name of a short line without a line feed. */
  lemma ShortComm(comm: string)
    requires '\n' !in comm && |comm| < COMM_LEN
    ensures ReadComm(comm + "\n") == if Strip(comm) == "" then None else Some(Strip(comm))
  {
    FgetsUpto(comm, "", COMM_LEN);
    var line := comm + "\n";
    assert comm + ("\n" + "") == line;
    assert line[..|line| - 1] == comm;
    if |line| >= COMM_LEN {
      assert line[..COMM_LEN - 1] == comm;
    }
  }

  /** A name is read back exactly when it is neither empty nor longer than its array, has
      no line feed and does not end in a carriage return. */
  lemma CommRoundTrip(comm: string)
    ensures ReadComm(comm + "\n") == Some(comm) <==>
            0 < |comm| < COMM_LEN && '\n' !in comm && comm[|comm| - 1] != '\r'
  {
    if '\n' in comm {
      var head, more := FirstLine(comm);
      FgetsUpto(head, more + "\n", COMM_LEN);
      assert comm + "\n" == head + ("\n" + (more + "\n"));
      StripDropsLineEnd(Truncated(head + "\n", COMM_LEN), head);
    } else if |comm| < COMM_LEN {
      ShortComm(comm);
      if comm != "" && !IsLineEnd(comm[|comm| - 1]) {
        StripLine(comm);
      }
    }
  }

  lemma StripDropsLineEnd(line: string, head: string)
    requires line == Truncated(head + "\n", COMM_LEN)
    ensures |Strip(line)| <= |head|
  {
    if |head| + 1 < COMM_LEN {
      assert line[|line| - 1] == '\n';
    }
  }

  /** A number at the very start of the text. */
  lemma ScanLeading(n: nat, rest: string)
    requires rest != "" ==> !IsDigit(rest[0])
    ensures ScanULong(Digits(n) + rest) == Some(Scanned(Wrapped(n), rest))
  {
    var s, d := Digits(n) + rest, Digits(n);
    assert StandsAt(s, 0, Print(n));
    assert |d| < |s| ==> s[|d|] == rest[0];
    ScanPrinted(s, 0, n);
    assert SkipSpaces(s, 0) == 0;
    assert s[|d|..] == rest;
  }

  /** "size resident ..." of statm: the resident pages are read back. */
  lemma StatmRoundTrip(size: nat, resident: nat, tail: string)
    requires resident < ULONG && PlainTail(tail) && '\n' !in tail
    requires |Digits(size) + FieldsText([resident], tail)| < 255
    ensures ReadStatm(Digits(size) + FieldsText([resident], tail) + "\n") == Some(resident)
  {
    var line := Digits(size) + FieldsText([resident], tail);
    var rest := FieldsText([resident], tail + "\n");
    FieldsTextHasNoNewline([resident], tail);
    DigitsHaveNoNewline(size);
    FgetsLine(line, 256);
    FieldsTextTail([resident], tail, "\n");
    assert line + "\n" == Digits(size) + rest;
    StatmFields(size, resident, tail + "\n");
  }

  lemma DigitsHaveNoNewline(n: nat)
    ensures '\n' !in Digits(n)
  {
    var d := Digits(n);
    assert forall i :: 0 <= i < |d| ==> IsDigit(d[i]);
  }

  lemma StatmFields(size: nat, resident: nat, tail: string)
    requires resident < ULONG && PlainTail(tail)
    ensures var f := ScanULongs(Digits(size) + FieldsText([resident], tail)); |f| >= 2 && f[1] == resident
  {
    var rest := FieldsText([resident], tail);
    FieldsTextStart([resident], tail);
    ScanLeading(size, rest);
    ScanCons(Digits(size) + rest, Wrapped(size), rest);
    ScanPrintedFields([resident], tail);
    WrappedAt([resident]);
    SecondOf(Wrapped(size), WrappedAll([resident]), ScanULongs(rest));
  }

  lemma SecondOf(v: nat, w: seq<nat>, more: seq<nat>)
    requires w <= more && |w| == 1
    ensures |[v] + more| >= 2 && ([v] + more)[1] == w[0]
  {
  }

  // ---- names with a line feed ---------------------------------------------------------

  /** Linux names have at most 15 characters (TASK_COMM_LEN less its terminator). */
  const KERNEL_COMM: nat := 15

  lemma {:induction false} FewFields(s: string)
    ensures |ScanULongs(s)| <= |s|
    decreases |s|
  {
    match ScanULong(s)
    case None =>
    case Some(Scanned(v, rest)) =>
      assert s != "";
      if |rest| < |s| {
        FewFields(rest);
      }
  }

  /** A line that ends less than 17 characters behind its last ')' is rejected. */
  lemma ShortLineHasNoTimes(line: string, from: nat)
    requires from <= |line| <= from + 17 && forall k :: 0 <= k < from ==> line[k] != ')'
    ensures ParseStat(line) == None
  {
    var p := LastIndexOf(line, ')', |line|);
    if p.Some? {
      FewBehind(line[p.value + 1..]);
    }
    assert TimesAfter(line, p) == None;
  }

  lemma FewBehind(behind: string)
    requires |behind| <= 16
    ensures TimesBehind(behind) == None
  {
    var rest := SkipToken(behind);
    if rest.Some? {
      FewFields(rest.value);
    }
  }

  lemma HeadHasNoParen(pid: nat)
    ensures var h := Digits(pid) + " ("; '\n' !in h && forall k :: 0 <= k < |h| ==> h[k] != ')'
  {
    var d := Digits(pid);
    assert forall i :: 0 <= i < |d| ==> IsDigit(d[i]);
  }

  /** The first line of a stat file whose name has a line feed ends inside the name. */
  lemma NewlineInCommSkips(pid: nat, comm: string, rest: string)
    requires '\n' in comm && |comm| <= KERNEL_COMM && |Digits(pid)| < 1000
    ensures ReadStat((Digits(pid) + " (" + comm) + rest) == None
  {
    var h := Digits(pid) + " (";
    var head, more := FirstLine(comm);
    HeadHasNoParen(pid);
    assert (h + comm) + rest == (h + head) + ("\n" + (more + rest));
    FgetsUpto(h + head, more + rest, 1024);
    ShortLineHasNoTimes((h + head) + "\n", |h|);
  }

  /** For names of the kernel's length, the stat file gives the three fields exactly when
      the name has no line feed; with one the process is skipped. */
  lemma StatFileExactly(pid: nat, comm: string, state: string, fs: seq<int>, tail: string)
    requires IsState(state) && |fs| == 17 && PlainTail(tail) && '\n' !in tail
    requires |comm| <= KERNEL_COMM && |PrintStat(pid, comm, state, fs, tail)| < 1023
    requires 0 <= fs[10] < ULONG && 0 <= fs[11] < ULONG && 0 <= fs[16] < ULONG
    ensures ReadStat(PrintStat(pid, comm, state, fs, tail) + "\n") == Some(Times(fs[10], fs[11], fs[16])) <==> '\n' !in comm
    ensures '\n' in comm ==> ReadStat(PrintStat(pid, comm, state, fs, tail) + "\n") == None
  {
    if '\n' in comm {
      var rest := ")" + (" " + (state + FieldsText(fs, tail)));
      assert PrintStat(pid, comm, state, fs, tail) + "\n" == (Digits(pid) + " (" + comm) + (rest + "\n");
      assert |Digits(pid)| < 1000 by { FieldsTextLength(fs, tail); }
      NewlineInCommSkips(pid, comm, rest + "\n");
    } else {
      StatFileRoundTrip(pid, comm, state, fs, tail);
    }
  }

  /** Seventeen printed fields take at least two characters each. */
  lemma {:induction false} FieldsTextLength(fs: seq<int>, tail: string)
    ensures |FieldsText(fs, tail)| >= 2 * |fs|
    decreases |fs|
  {
    if fs != [] {
      FieldsTextLength(fs[1..], tail);
      assert |Print(fs[0])| >= 1;
    }
  }

  lemma Spelled(head: string, own: string, more: string, end: string)
    ensures (head + ("x) S" + own + ("\n" + more))) + end + "\n"
         == ((head + "x") + (")" + (" " + ("S" + own)))) + ("\n" + (more + end + "\n"))
  {
    assert "x) S" == "x" + ")" + " " + "S";
  }

  /** The bound on the length is needed: a longer name can spell a stat line of its own,
      and then its numbers are believed whatever the kernel wrote. */
  lemma LongNameIsBelieved(pid: nat, spelled: seq<int>, more: string, state: string, fs: seq<int>, tail: string)
    requires |spelled| == 17 && |PrintStat(pid, "x", "S", spelled, "")| < 1023
    requires 0 <= spelled[10] < ULONG && 0 <= spelled[11] < ULONG && 0 <= spelled[16] < ULONG
    ensures var comm := "x) S" + FieldsText(spelled, "") + ("\n" + more);
            ReadStat(PrintStat(pid, comm, state, fs, tail) + "\n") == Some(Times(spelled[10], spelled[11], spelled[16]))
  {
    var own := FieldsText(spelled, "");
    var comm := "x) S" + own + ("\n" + more);
    var line := PrintStat(pid, "x", "S", spelled, "");
    var rest := more + (")" + (" " + (state + FieldsText(fs, tail)))) + "\n";
    Spelled(Digits(pid) + " (", own, more, ")" + (" " + (state + FieldsText(fs, tail))));
    assert IsState("S");
    StatLineHasNoNewline(pid, "x", "S", spelled, "");
    FgetsUpto(line, rest, 1024);
    FgetsLine(line, 1024);
    StatFileRoundTrip(pid, "x", "S", spelled, "");
  }
}
