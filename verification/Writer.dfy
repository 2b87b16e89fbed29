/** The RRD writer (src/writer_rrd.c): directory creation, lazy file creation, value
    formatting, and updates through the daemon with a direct fallback. */
module Writer {
  import opened CStrings
  import opened Metrics
  import opened Types
  import opened Buffers
  import opened Path
  import Rra

  // ---- fmt_values --------------------------------------------------------------

  /** Prints one value in the format its data source calls for. */
  type Printer = (Dst, real) -> string

  function Printed(fmt: Printer, d: Dst, v: real): string { fmt(d, v) }

  /** Number printers emit no separator and no NUL. */
  ghost predicate CleanPrinter(fmt: Printer) {
    forall d, v :: ':' !in Printed(fmt, d, v) && '\0' !in Printed(fmt, d, v)
  }

  function Token(fmt: Printer, td: TypeDef, m: Metric, i: nat): string
    requires i < |td.ds| <= MAX_DS
  {
    Printed(fmt, td.ds[i].dst, m.values[i])
  }

  /** "N:v1:...:vk". */
  function ValueText(fmt: Printer, td: TypeDef, m: Metric, k: nat): string
    requires k <= |td.ds| <= MAX_DS
  {
    if k == 0 then "N" else ValueText(fmt, td, m, k - 1) + (":" + Token(fmt, td, m, k - 1))
  }

  lemma {:induction false} ValueTextGrows(fmt: Printer, td: TypeDef, m: Metric, j: nat, k: nat)
    requires j <= k <= |td.ds| <= MAX_DS
    ensures |ValueText(fmt, td, m, j)| <= |ValueText(fmt, td, m, k)|
  {
    if j < k {
      ValueTextGrows(fmt, td, m, j, k - 1);
    }
  }

  /** Fails exactly on a count mismatch or when the text does not fit; otherwise the
      buffer holds the text, terminated by the last value printed. */
  method FmtValues(out: array<char>, fmt: Printer, td: TypeDef, m: Metric) returns (rc: int)
    requires |td.ds| <= MAX_DS
    modifies out
    ensures rc == 0 || rc == -1
    ensures rc == 0 <==> out.Length > 0 && |td.ds| == m.dsCount
                         && (|td.ds| == 0 || |ValueText(fmt, td, m, |td.ds|)| < out.Length)
    ensures rc == 0 && |td.ds| > 0 ==> HoldsAt(out, 0, ValueText(fmt, td, m, |td.ds|))
  {
    if out.Length == 0 || |td.ds| != m.dsCount {
      return -1;
    }
    out[0] := 'N';
    var off, i := 1, 0;
    assert out[..1] == "N";
    while i < m.dsCount
      invariant 0 <= i <= m.dsCount && off == |ValueText(fmt, td, m, i)| <= out.Length
      invariant out[..off] == ValueText(fmt, td, m, i)
      invariant i > 0 ==> HoldsAt(out, 0, ValueText(fmt, td, m, i))
    {
      var piece := ":" + Token(fmt, td, m, i);
      var wlen := Snprintf(out, off, piece);
      if wlen >= out.Length - off {
        ValueTextGrows(fmt, td, m, i + 1, |td.ds|);
        return -1;
      }
      HoldsAppend(out, ValueText(fmt, td, m, i), piece);
      off := off + wlen;
      i := i + 1;
    }
    return 0;
  }

  /** How rrd_update reads its argument: fields separated by ':'. */
  function SplitColon(s: string): (r: seq<string>)
    ensures r != []
  {
    match LastIndexOf(s, ':', |s|)
    case None => [s]
    case Some(i) => SplitColon(s[..i]) + [s[i + 1..]]
  }

  function Tokens(fmt: Printer, td: TypeDef, m: Metric, k: nat): (r: seq<string>)
    requires k <= |td.ds| <= MAX_DS
    ensures |r| == k
  {
    seq(k, i requires 0 <= i < k => Token(fmt, td, m, i))
  }

  /** The update argument reads back as "N" and exactly one field per data source. */
  lemma {:induction false} ValuesRoundTrip(fmt: Printer, td: TypeDef, m: Metric, k: nat)
    requires k <= |td.ds| <= MAX_DS && CleanPrinter(fmt)
    ensures SplitColon(ValueText(fmt, td, m, k)) == ["N"] + Tokens(fmt, td, m, k)
  {
    if k == 0 {
      assert LastIndexOf("N", ':', 1) == None;
      assert Tokens(fmt, td, m, 0) == [];
    } else {
      var before, tok := ValueText(fmt, td, m, k - 1), Token(fmt, td, m, k - 1);
      TokensStep(fmt, td, m, k);
      ValuesRoundTrip(fmt, td, m, k - 1);
      LastColon(before, tok);
      LastField(["N"], Tokens(fmt, td, m, k - 1), tok);
    }
  }

  lemma TokensStep(fmt: Printer, td: TypeDef, m: Metric, k: nat)
    requires 0 < k <= |td.ds| <= MAX_DS
    ensures Tokens(fmt, td, m, k) == Tokens(fmt, td, m, k - 1) + [Token(fmt, td, m, k - 1)]
  {
  }

  lemma LastField(a: seq<string>, b: seq<string>, x: string)
    ensures (a + b) + [x] == a + (b + [x])
  {
  }

  lemma LastColon(before: string, tok: string)
    requires ':' !in tok
    ensures SplitColon(before + (":" + tok)) == SplitColon(before) + [tok]
  {
    var s := before + (":" + tok);
    assert s[|before|] == ':' && s[|before| + 1..] == tok && s[..|before|] == before;
    forall i | |before| < i < |s| ensures s[i] != ':' {
      assert s[i] == tok[i - |before| - 1];
    }
    assert LastIndexOf(s, ':', |s|) == Some(|before|);
  }

  // ---- directories ---------------------------------------------------------------

  /** The parent of `p` exists, or is the root or the working directory. */
  ghost predicate ParentExists(dirs: set<string>, p: string) {
    match LastIndexOf(p, '/', |p|)
    case None => true
    case Some(i) => i == 0 || p[..i] in dirs
  }

  /** mkdir: an existing directory or file (EEXIST) leaves the set as it is; `broken(p)`
      stands for every other error that is not a missing parent. */
  ghost function Mkdir(files: set<string>, dirs: set<string>, p: string, broken: string -> bool): set<string> {
    if broken(p) || p in files || !ParentExists(dirs, p) then dirs else dirs + {p}
  }

  /** Effect of the loop for separators before position `i`. */
  ghost function MkdirUpto(files: set<string>, dirs: set<string>, dir: string, i: nat, broken: string -> bool): set<string>
    requires i <= |dir|
  {
    if i <= 1 then dirs
    else
      var before := MkdirUpto(files, dirs, dir, i - 1, broken);
      if dir[i - 1] == '/' then Mkdir(files, before, dir[..i - 1], broken) else before
  }

  const BUF: nat := 4096

  ghost function MkdirP(files: set<string>, dirs: set<string>, dir: string, broken: string -> bool): set<string> {
    if dir == "" || |dir| >= BUF then dirs
    else Mkdir(files, MkdirUpto(files, dirs, dir, |dir|, broken), dir, broken)
  }

  /** `dir` and all its ancestors. */
  ghost predicate AllIn(dirs: set<string>, dir: string) {
    dir in dirs && forall j :: 1 <= j < |dir| && dir[j] == '/' ==> dir[..j] in dirs
  }

  ghost predicate NoneIn(files: set<string>, dir: string) {
    dir !in files && forall j :: 1 <= j < |dir| && dir[j] == '/' ==> dir[..j] !in files
  }

  /** With no other mkdir error and no file in the way, every ancestor named by the first
      i characters exists after the loop reached i; in particular the mkdir issued there
      finds its parent in place. */
  lemma {:induction false} AncestorsUpto(files: set<string>, dirs: set<string>, dir: string, i: nat, broken: string -> bool)
    requires i <= |dir| && (forall p :: !broken(p)) && NoneIn(files, dir)
    ensures dirs <= MkdirUpto(files, dirs, dir, i, broken)
    ensures forall j :: 1 <= j < i && dir[j] == '/' ==> dir[..j] in MkdirUpto(files, dirs, dir, i, broken)
    ensures ParentExists(MkdirUpto(files, dirs, dir, i, broken), dir[..i])
  {
    if i > 1 {
      AncestorsUpto(files, dirs, dir, i - 1, broken);
    }
    var last := LastIndexOf(dir[..i], '/', i);
    if last.Some? && last.value > 0 {
      var j := last.value;
      assert dir[..i][..j] == dir[..j];
    }
  }

  lemma {:induction false} MkdirKeepsDisjoint(files: set<string>, dirs: set<string>, dir: string, i: nat, broken: string -> bool)
    requires i <= |dir| && dirs !! files
    ensures dirs <= MkdirUpto(files, dirs, dir, i, broken) && MkdirUpto(files, dirs, dir, i, broken) !! files
  {
    if i > 1 {
      MkdirKeepsDisjoint(files, dirs, dir, i - 1, broken);
    }
  }

  /** If mkdir fails only with EEXIST, the directory step leaves the directory and all its
      ancestors in place exactly when none of them is the name of a file. */
  lemma AllAncestorsExist(files: set<string>, dirs: set<string>, dir: string, broken: string -> bool)
    requires 0 < |dir| < BUF && (forall p :: !broken(p)) && dirs !! files
    ensures dirs <= MkdirP(files, dirs, dir, broken)
    ensures MkdirP(files, dirs, dir, broken) !! files
    ensures AllIn(MkdirP(files, dirs, dir, broken), dir) <==> NoneIn(files, dir)
  {
    MkdirKeepsDisjoint(files, dirs, dir, |dir|, broken);
    if NoneIn(files, dir) {
      AncestorsUpto(files, dirs, dir, |dir|, broken);
      assert dir[..|dir|] == dir;
    }
  }

  // ---- one write, on values --------------------------------------------------

  datatype Via = Daemon | Direct

  /** One accepted update, and the route it took. */
  datatype Record = Record(path: string, values: string, via: Via)

  datatype Config = Config(datadir: string, host: string, rrdcached: string)

  /** Files with the arguments they were created with, directories, the accepted
      updates in order, and the number of requests sent to the daemon. */
  datatype Disk = Disk(files: map<string, seq<string>>, dirs: set<string>,
                       log: seq<Record>, daemonCalls: nat)

  /** How the outside world answers during one write. */
  datatype Env = Env(broken: string -> bool, createOk: bool,
                     connected: bool, connectOk: bool, daemonOk: bool, directOk: bool)

  const VALUES_MAX: nat := 256

  predicate DaemonReady(c: Config, env: Env) {
    c.rrdcached != "" && (env.connected || env.connectOk)
  }

  /** One update. Neither the daemon nor librrd accepts one for a path that is no file. */
  function Update(c: Config, d: Disk, path: string, values: string, env: Env): (Disk, int) {
    var connects := if c.rrdcached != "" && !env.connected then 1 else 0;
    var updates := if DaemonReady(c, env) then 1 else 0;
    var d' := d.(daemonCalls := d.daemonCalls + connects + updates);
    if path !in d.files then (d', -1)
    else if DaemonReady(c, env) && env.daemonOk then (d'.(log := d'.log + [Record(path, values, Daemon)]), 0)
    else if env.directOk then (d'.(log := d'.log + [Record(path, values, Direct)]), 0)
    else (d', -1)
  }

  /** Everything up to the last slash; the code makes it unless it is empty or too long. */
  ghost function MakeParents(files: set<string>, dirs: set<string>, path: string, broken: string -> bool): set<string> {
    match LastIndexOf(path, '/', |path|)
    case None => dirs
    case Some(i) => if i == 0 || i >= BUF then dirs else MkdirP(files, dirs, path[..i], broken)
  }

  /** access(path, F_OK). */
  predicate Exists(d: Disk, path: string) { path in d.files || path in d.dirs }

  predicate PathFits(c: Config, m: Metric) {
    |FullPath(c.datadir, c.host, m)| < BUF && |FileName(m)| < FILE_MAX
  }

  /** Steps 3 to 5 of a write, for a metric that matches its type and a path that fits. */
  ghost function Store(c: Config, d: Disk, td: TypeDef, m: Metric, env: Env, fmt: Printer): (Disk, int)
    requires |td.ds| <= MAX_DS
  {
    var path := FullPath(c.datadir, c.host, m);
    var d1 := d.(dirs := MakeParents(d.files.Keys, d.dirs, path, env.broken));
    if !Exists(d1, path) && !env.createOk then (d1, -1)
    else
      var d2 := if Exists(d1, path) then d1 else d1.(files := d.files[path := Rra.Lines(td)]);
      var values := ValueText(fmt, td, m, |td.ds|);
      if |values| >= VALUES_MAX then (d2, -1) else Update(c, d2, path, values, env)
  }

  ghost function Write(c: Config, d: Disk, m: Metric, env: Env, fmt: Printer): (Disk, int) {
    LookupWellFormed(m.typ);
    match Lookup(m.typ)
    case None => (d, -1)
    case Some(td) =>
      if |td.ds| != m.dsCount || !PathFits(c, m) then (d, -1)
      else Store(c, d, td, m, env, fmt)
  }

  /** A path the builder accepted always has a directory part that the length
      guards let through. */
  lemma GuardsNeverTrigger(c: Config, m: Metric)
    requires PathFits(c, m)
    ensures var p := FullPath(c.datadir, c.host, m);
            var s := LastIndexOf(p, '/', |p|);
            s.Some? && 0 < s.value < BUF
  {
    var d := DirPath(c.datadir, c.host, m);
    assert FullPath(c.datadir, c.host, m)[|d|] == '/';
    assert |d| > 0;
  }

  /** The directory part of a path. */
  function Parent(path: string): string {
    match LastIndexOf(path, '/', |path|) case None => "" case Some(i) => path[..i]
  }

  /** If mkdir fails only with EEXIST, a write of an accepted path leaves all directories
      of its file in place exactly when no file bears the name of one of them. */
  lemma WriteMakesAncestors(c: Config, files: set<string>, dirs: set<string>, m: Metric, broken: string -> bool)
    requires PathFits(c, m) && (forall p :: !broken(p)) && dirs !! files
    ensures var p := FullPath(c.datadir, c.host, m);
            AllIn(MakeParents(files, dirs, p, broken), Parent(p)) <==> NoneIn(files, Parent(p))
  {
    GuardsNeverTrigger(c, m);
    AllAncestorsExist(files, dirs, Parent(FullPath(c.datadir, c.host, m)), broken);
  }

  lemma MakeParentsKeepsDisjoint(files: set<string>, dirs: set<string>, path: string, broken: string -> bool)
    requires dirs !! files
    ensures dirs <= MakeParents(files, dirs, path, broken) && MakeParents(files, dirs, path, broken) !! files
  {
    var p := Parent(path);
    MkdirKeepsDisjoint(files, dirs, p, |p|, broken);
  }

  // ---- the writer object -------------------------------------------------------

  ghost predicate NulFree(s: string) { '\0' !in s }

  class RrdWriter {
    var datadir: string
    var host: string
    var rrdcached: string
    var files: map<string, seq<string>>
    var dirs: set<string>
    var log: seq<Record>
    var daemonCalls: nat

    ghost function Settings(): Config
      reads this
    {
      Config(datadir, host, rrdcached)
    }

    ghost function View(): Disk
      reads this
    {
      Disk(files, dirs, log, daemonCalls)
    }

    constructor (datadir: string, host: string, rrdcached: Option<string>)
      ensures Settings() == Config(Truncated(datadir, 4096), Truncated(host, 128), Truncated(OrEmpty(rrdcached), 256))
      ensures View() == Disk(map[], {}, [], 0)
    {
      this.datadir := Truncated(datadir, 4096);
      this.host := Truncated(host, 128);
      this.rrdcached := Truncated(OrEmpty(rrdcached), 256);
      files, dirs, log, daemonCalls := map[], {}, [], 0;
    }

    /** mkdir(2) under the fault model of Mkdir. */
    method MkdirCall(p: string, broken: string -> bool)
      modifies this`dirs
      ensures dirs == Mkdir(files.Keys, old(dirs), p, broken)
    {
      var parent := LastIndexOf(p, '/', |p|);
      if !broken(p) && p !in files && (parent.None? || parent.value == 0 || p[..parent.value] in dirs) {
        dirs := dirs + {p};
      }
    }

    /** mkdir -p: cuts the buffer at each separator in turn and puts it back. */
    method MakeDirs(dir: string, broken: string -> bool)
      requires NulFree(dir)
      modifies this`dirs
      ensures dirs == MkdirP(files.Keys, old(dirs), dir, broken)
    {
      if |dir| == 0 || |dir| >= BUF {
        return;
      }
      var tmp := new char[BUF];
      var _ := Snprintf(tmp, 0, dir);
      var i := 1;
      while i < |dir|
        invariant 1 <= i <= |dir| && HoldsAt(tmp, 0, dir)
        invariant dirs == MkdirUpto(files.Keys, old(dirs), dir, i, broken)
      {
        if tmp[i] == '/' {
          tmp[i] := '\0';
          assert tmp[0..i] == dir[..i];
          CStringHeld(tmp, 0, dir[..i]);
          MkdirCall(CStringAt(tmp, 0), broken);
          tmp[i] := '/';
          assert tmp[0..|dir|] == dir;
        }
        i := i + 1;
      }
      CStringHeld(tmp, 0, dir);
      MkdirCall(CStringAt(tmp, 0), broken);
    }

    method DaemonConnect(env: Env) returns (rc: int)
      modifies this`daemonCalls
      ensures rc == if rrdcached == "" || env.connected || env.connectOk then 0 else -1
      ensures daemonCalls == old(daemonCalls) + if rrdcached != "" && !env.connected then 1 else 0
    {
      if rrdcached == "" || env.connected {
        return 0;
      }
      daemonCalls := daemonCalls + 1;
      return if env.connectOk then 0 else -1;
    }

    method UpdateFile(path: string, values: string, env: Env) returns (rc: int)
      modifies this`log, this`daemonCalls
      ensures (View(), rc) == Update(Settings(), old(View()), path, values, env)
    {
      if rrdcached != "" {
        var connected := DaemonConnect(env);
        if connected == 0 {
          daemonCalls := daemonCalls + 1;
          if env.daemonOk && path in files {
            log := log + [Record(path, values, Daemon)];
            return 0;
          }
        }
      }
      if env.directOk && path in files {
        log := log + [Record(path, values, Direct)];
        return 0;
      }
      return -1;
    }

    /** rra_args and rrd_create_r: the file is created with the lines of its type. */
    method CreateFile(path: string, td: TypeDef, createOk: bool) returns (rc: int)
      requires WellFormedType(td)
      modifies this`files
      ensures rc == if createOk then 0 else -1
      ensures files == if createOk then old(files)[path := Rra.Lines(td)] else old(files)
    {
      var args := Rra.TypeArgs(td);
      if !createOk {
        return -1;
      }
      files := files[path := args];
      return 0;
    }

    /** Step 3: make the directory part of the path. */
    method MakeParentDirs(path: string, broken: string -> bool)
      requires NulFree(path)
      modifies this`dirs
      ensures dirs == MakeParents(files.Keys, old(dirs), path, broken)
    {
      var slash := LastIndexOf(path, '/', |path|);
      if slash.Some? && slash.value != 0 {
        if slash.value < BUF {
          MakeDirs(path[..slash.value], broken);
        }
      }
    }

    /** Step 5: print the values and update the file. */
    method SendValues(path: string, td: TypeDef, m: Metric, env: Env, fmt: Printer) returns (rc: int)
      requires 0 < |td.ds| <= MAX_DS && CleanPrinter(fmt) && |td.ds| == m.dsCount
      modifies this`log, this`daemonCalls
      ensures var values := ValueText(fmt, td, m, |td.ds|);
              (View(), rc) == if |values| >= VALUES_MAX then (old(View()), -1)
                              else Update(Settings(), old(View()), path, values, env)
    {
      var vbuf := new char[VALUES_MAX];
      var ok := FmtValues(vbuf, fmt, td, m);
      if ok != 0 {
        return -1;
      }
      ValueTextNulFree(fmt, td, m, |td.ds|);
      CStringHeld(vbuf, 0, ValueText(fmt, td, m, |td.ds|));
      rc := UpdateFile(path, CStringAt(vbuf, 0), env);
    }

    /** Steps 3 to 5. */
    method StoreMetric(path: string, td: TypeDef, m: Metric, env: Env, fmt: Printer) returns (rc: int)
      requires path == FullPath(datadir, host, m) && NulFree(path)
      requires WellFormedType(td) && CleanPrinter(fmt) && |td.ds| == m.dsCount
      modifies this
      ensures Settings() == old(Settings())
      ensures (View(), rc) == Store(Settings(), old(View()), td, m, env, fmt)
    {
      MakeParentDirs(path, env.broken);
      if path !in files && path !in dirs {
        var made := CreateFile(path, td, env.createOk);
        if made != 0 {
          return -1;
        }
      }
      rc := SendValues(path, td, m, env, fmt);
    }

    method WriteMetric(m: Metric, env: Env, fmt: Printer) returns (rc: int)
      requires NulFree(FullPath(datadir, host, m)) && CleanPrinter(fmt)
      modifies this
      ensures Settings() == old(Settings())
      ensures (View(), rc) == Write(Settings(), old(View()), m, env, fmt)
    {
      LookupWellFormed(m.typ);
      var td := Lookup(m.typ);
      if td.None? || |td.value.ds| != m.dsCount {
        return -1;
      }
      var buf := new char[BUF];
      var built := MetricToPath(buf, datadir, host, m);
      if built != 0 {
        return -1;
      }
      CStringHeld(buf, 0, FullPath(datadir, host, m));
      rc := StoreMetric(CStringAt(buf, 0), td.value, m, env, fmt);
    }
  }

  lemma {:induction false} ValueTextNulFree(fmt: Printer, td: TypeDef, m: Metric, k: nat)
    requires k <= |td.ds| <= MAX_DS && CleanPrinter(fmt)
    ensures NulFree(ValueText(fmt, td, m, k))
  {
    if k > 0 {
      ValueTextNulFree(fmt, td, m, k - 1);
      assert '\0' !in ":" && '\0' !in Token(fmt, td, m, k - 1);
    }
  }
}
