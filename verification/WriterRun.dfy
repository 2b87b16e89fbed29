/** Whole runs of the RRD writer from an empty data directory. */
module WriterRun {
  import opened CStrings
  import opened Metrics
  import opened Types
  import opened Path
  import opened Writer
  import Rra
  import Decimal

  /** One emitted metric and the answers of the outside world during its write. */
  datatype Event = Event(m: Metric, env: Env)

  const EMPTY := Disk(map[], {}, [], 0)

  ghost function After(c: Config, d: Disk, events: seq<Event>, fmt: Printer): Disk {
    if events == [] then d
    else
      var n := |events| - 1;
      Write(c, After(c, d, events[..n], fmt), events[n].m, events[n].env, fmt).0
  }

  /** How many of the creation arguments declare a data source. */
  function SourceCount(args: seq<string>): nat {
    if args == [] then 0
    else SourceCount(args[..|args| - 1]) + if "DS:" <= args[|args| - 1] then 1 else 0
  }

  lemma {:induction false} CountSources(args: seq<string>, n: nat)
    requires n <= |args|
    requires forall k :: 0 <= k < |args| ==> ("DS:" <= args[k] <==> k < n)
    ensures SourceCount(args) == n
  {
    if args != [] {
      var last := |args| - 1;
      CountSources(args[..last], if n == |args| then last else n);
    }
  }

  lemma DsLineStarts(d: DsDef)
    ensures "DS:" <= Rra.DsLine(d)
  {
  }

  lemma RraLineStarts(cf: string, a: Rra.Archive)
    ensures !("DS:" <= Rra.RraLine(cf, a))
  {
    assert Rra.RraLine(cf, a)[0] == 'R' && "DS:"[0] == 'D';
  }

  /** The data sources declared by the arguments of a type are those of the type. */
  lemma SourcesOfLines(td: TypeDef)
    ensures SourceCount(Rra.Lines(td)) == |td.ds|
  {
    var args := Rra.Lines(td);
    var archives := Rra.Archives(Rra.STEP, Rra.RRAROWS, Rra.TIMESPANS);
    forall k | 0 <= k < |args| ensures "DS:" <= args[k] <==> k < |td.ds| {
      if k < |td.ds| {
        DsLineStarts(td.ds[k]);
      } else {
        var j := k - |td.ds|;
        assert args[k] == Rra.RraLine(Rra.CFS[j % 3], archives[j / 3]);
        RraLineStarts(Rra.CFS[j % 3], archives[j / 3]);
      }
    }
    CountSources(args, |td.ds|);
  }

  /** The file at `path` was created with the arguments of the type the path names. */
  ghost predicate HasSchemaOfItsPath(files: map<string, seq<string>>, path: string)
    requires path in files
  {
    var td := Lookup(TypeOfPath(path));
    td.Some? && files[path] == Rra.Lines(td.value)
  }

  /** An accepted update targets a file and has one value per data source of it. */
  ghost predicate FitsItsFile(files: map<string, seq<string>>, r: Record) {
    r.path in files && |SplitColon(r.values)| == 1 + SourceCount(files[r.path])
  }

  ghost predicate SchemasMatch(files: map<string, seq<string>>) {
    forall p :: p in files ==> HasSchemaOfItsPath(files, p)
  }

  ghost predicate LogFits(files: map<string, seq<string>>, log: seq<Record>) {
    forall i :: 0 <= i < |log| ==> FitsItsFile(files, log[i])
  }

  ghost predicate Consistent(d: Disk) { SchemasMatch(d.files) && LogFits(d.files, d.log) }

  /** The update step: a record is appended exactly on success and exactly once, a
      failure means the direct update of the file failed too, and without an address the
      daemon is never called. */
  lemma UpdateExactlyOnce(c: Config, d: Disk, path: string, values: string, env: Env)
    ensures var (d', rc) := Update(c, d, path, values, env);
            && (rc == 0 <==> exists via :: d'.log == d.log + [Record(path, values, via)])
            && (rc != 0 <==> d'.log == d.log)
            && (rc != 0 ==> !env.directOk || path !in d.files)
            && (c.rrdcached == "" ==> d'.daemonCalls == d.daemonCalls
                                      && (rc == 0 ==> d'.log == d.log + [Record(path, values, Direct)]))
            && d'.files == d.files && d'.dirs == d.dirs
  {
    var (d', rc) := Update(c, d, path, values, env);
    assert |d'.log| == |d.log| + if rc == 0 then 1 else 0;
  }

  lemma LogFitsSnoc(files: map<string, seq<string>>, log: seq<Record>, r: Record)
    requires LogFits(files, log) && FitsItsFile(files, r)
    ensures LogFits(files, log + [r])
  {
    forall i | 0 <= i < |log + [r]| ensures FitsItsFile(files, (log + [r])[i]) {
      if i < |log| {
        assert FitsItsFile(files, log[i]);
      }
    }
  }

  lemma UpdateFits(c: Config, d: Disk, path: string, values: string, env: Env)
    requires LogFits(d.files, d.log)
    requires path in d.files ==> |SplitColon(values)| == 1 + SourceCount(d.files[path])
    ensures var d' := Update(c, d, path, values, env).0;
            d'.files == d.files && LogFits(d.files, d'.log)
  {
    if path in d.files {
      LogFitsSnoc(d.files, d.log, Record(path, values, Daemon));
      LogFitsSnoc(d.files, d.log, Record(path, values, Direct));
    }
  }

  lemma CreateKeepsLog(files: map<string, seq<string>>, log: seq<Record>, path: string, args: seq<string>)
    requires LogFits(files, log) && path !in files
    ensures LogFits(files[path := args], log)
  {
    forall i | 0 <= i < |log| ensures FitsItsFile(files[path := args], log[i]) {
      assert FitsItsFile(files, log[i]);
    }
  }

  // ---- one write --------------------------------------------------------------------------

  /** The metric gets past the checks that come before anything is touched. */
  ghost predicate Storable(c: Config, m: Metric) {
    Lookup(m.typ).Some? && |Lookup(m.typ).value.ds| == m.dsCount && PathFits(c, m)
  }

  function PathOf(c: Config, m: Metric): string { FullPath(c.datadir, c.host, m) }

  function SourcesOf(m: Metric): seq<DsDef> {
    var td := Lookup(m.typ); if td.Some? then td.value.ds else []
  }

  /** The update text of a metric of known type. */
  ghost function TextOf(m: Metric, fmt: Printer): string {
    LookupWellFormed(m.typ);
    match Lookup(m.typ)
    case None => ""
    case Some(td) => ValueText(fmt, td, m, |td.ds|)
  }

  lemma WriteIsStore(c: Config, d: Disk, e: Event, fmt: Printer)
    ensures !Storable(c, e.m) ==> Write(c, d, e.m, e.env, fmt) == (d, -1)
    ensures Storable(c, e.m) ==> WellFormedType(Lookup(e.m.typ).value)
                                 && Write(c, d, e.m, e.env, fmt) == Store(c, d, Lookup(e.m.typ).value, e.m, e.env, fmt)
  {
    LookupWellFormed(e.m.typ);
  }

  /** The disk with the directories made, and the disk with the file in place. */
  ghost function WithDirs(c: Config, d: Disk, e: Event): Disk {
    d.(dirs := MakeParents(d.files.Keys, d.dirs, PathOf(c, e.m), e.env.broken))
  }

  ghost function WithFile(c: Config, d: Disk, td: TypeDef, e: Event): Disk {
    var d1 := WithDirs(c, d, e);
    if Exists(d1, PathOf(c, e.m)) then d1 else d1.(files := d.files[PathOf(c, e.m) := Rra.Lines(td)])
  }

  /** How a store can end: before the file exists, before the update, or with it. */
  lemma StoreEnds(c: Config, d: Disk, td: TypeDef, e: Event, fmt: Printer)
    requires |td.ds| <= MAX_DS
    ensures var end, d2 := Store(c, d, td, e.m, e.env, fmt), WithFile(c, d, td, e);
            var values := ValueText(fmt, td, e.m, |td.ds|);
            || (end == (WithDirs(c, d, e), -1) && !Exists(WithDirs(c, d, e), PathOf(c, e.m)) && !e.env.createOk)
            || (end == (d2, -1) && |values| >= VALUES_MAX)
            || (end == Update(c, d2, PathOf(c, e.m), values, e.env) && |values| < VALUES_MAX)
  {
  }

  lemma UpdateKeepsFiles(c: Config, d: Disk, path: string, values: string, env: Env)
    ensures Update(c, d, path, values, env).0.files == d.files
  {
  }

  /** A write leaves every file as it was and adds at most the file of its own path. */
  lemma WriteFiles(c: Config, d: Disk, e: Event, fmt: Printer)
    ensures var files := Write(c, d, e.m, e.env, fmt).0.files;
            files == d.files ||
            (Storable(c, e.m) && PathOf(c, e.m) !in d.files
             && files == d.files[PathOf(c, e.m) := Rra.Lines(Lookup(e.m.typ).value)])
  {
    WriteIsStore(c, d, e, fmt);
    if Storable(c, e.m) {
      var td := Lookup(e.m.typ).value;
      StoreEnds(c, d, td, e, fmt);
      UpdateKeepsFiles(c, WithFile(c, d, td, e), PathOf(c, e.m), ValueText(fmt, td, e.m, |td.ds|), e.env);
    }
  }

  /** The log stays in step with the files when the file in place, if the update gets that
      far, has as many sources as the metric. */
  lemma WriteKeepsLogFits(c: Config, d: Disk, e: Event, fmt: Printer)
    requires CleanPrinter(fmt) && LogFits(d.files, d.log)
    requires Recordable(c, e.m, fmt) && PathOf(c, e.m) in d.files ==>
               SourceCount(d.files[PathOf(c, e.m)]) == |SourcesOf(e.m)|
    ensures var d' := Write(c, d, e.m, e.env, fmt).0; LogFits(d'.files, d'.log)
  {
    WriteIsStore(c, d, e, fmt);
    if Storable(c, e.m) {
      StoreKeepsLogFits(c, d, Lookup(e.m.typ).value, e, fmt);
    }
  }

  lemma StoreKeepsLogFits(c: Config, d: Disk, td: TypeDef, e: Event, fmt: Printer)
    requires CleanPrinter(fmt) && |td.ds| <= MAX_DS && LogFits(d.files, d.log)
    requires |ValueText(fmt, td, e.m, |td.ds|)| < VALUES_MAX && PathOf(c, e.m) in d.files ==>
               SourceCount(d.files[PathOf(c, e.m)]) == |td.ds|
    ensures var d' := Store(c, d, td, e.m, e.env, fmt).0; LogFits(d'.files, d'.log)
  {
    var path, values := PathOf(c, e.m), ValueText(fmt, td, e.m, |td.ds|);
    var d2 := WithFile(c, d, td, e);
    StoreEnds(c, d, td, e, fmt);
    if path !in d.files {
      CreateKeepsLog(d.files, d.log, path, Rra.Lines(td));
      SourcesOfLines(td);
    }
    ValuesRoundTrip(fmt, td, e.m, |td.ds|);
    if |values| < VALUES_MAX {
      UpdateFits(c, d2, path, values, e.env);
    }
  }

  /** Storable, and its update text fits the buffer. */
  ghost predicate Recordable(c: Config, m: Metric, fmt: Printer) {
    Storable(c, m) && |TextOf(m, fmt)| < VALUES_MAX
  }

  // ---- schemas --------------------------------------------------------------------------

  lemma TableNamesArePlain(name: string)
    requires IsWord(name)
    ensures Plain(name)
  {
  }

  lemma SameSourcesSameLines(a: TypeDef, b: TypeDef)
    requires a.ds == b.ds
    ensures Rra.Lines(a) == Rra.Lines(b)
  {
  }

  lemma DstNamesDiffer(a: Dst, b: Dst)
    requires Rra.DstName(a) == Rra.DstName(b)
    ensures a == b
  {
    assert Rra.DstName(Gauge)[0] == 'G' && Rra.DstName(Derive)[0] == 'D' && Rra.DstName(Counter)[0] == 'C';
  }

  /** ':'-terminated fields are equal if the texts are. */
  lemma FirstField(a: string, x: string, b: string, y: string)
    requires ':' !in a && ':' !in b && a + (":" + x) == b + (":" + y)
    ensures a == b && x == y
  {
    var s, t := a + (":" + x), b + (":" + y);
    FirstIs(s, ':', 0, |a|);
    FirstIs(t, ':', 0, |b|);
    assert s[..|a|] == a && t[..|b|] == b;
    assert s[|a| + 1..] == x && t[|b| + 1..] == y;
  }

  lemma DsLineInjective(a: DsDef, b: DsDef)
    requires IsWord(a.name) && IsWord(b.name) && Rra.DsLine(a) == Rra.DsLine(b)
    ensures a == b
  {
    var tail := ":" + (Decimal.Digits(2 * Rra.STEP) + ":U:U");
    DsLineFields(a, tail);
    DsLineFields(b, tail);
    var x, y := a.name + (":" + (Rra.DstName(a.dst) + tail)), b.name + (":" + (Rra.DstName(b.dst) + tail));
    assert ("DS:" + x)[3..] == x && ("DS:" + y)[3..] == y;
    FirstField(a.name, Rra.DstName(a.dst) + tail, b.name, Rra.DstName(b.dst) + tail);
    DstNameHasNoColon(a.dst);
    DstNameHasNoColon(b.dst);
    var rest := Decimal.Digits(2 * Rra.STEP) + ":U:U";
    FirstField(Rra.DstName(a.dst), rest, Rra.DstName(b.dst), rest);
    DstNamesDiffer(a.dst, b.dst);
  }

  lemma DstNameHasNoColon(d: Dst)
    ensures ':' !in Rra.DstName(d)
  {
  }

  lemma DsLineFields(a: DsDef, tail: string)
    requires tail == ":" + (Decimal.Digits(2 * Rra.STEP) + ":U:U")
    ensures Rra.DsLine(a) == "DS:" + (a.name + (":" + (Rra.DstName(a.dst) + tail)))
  {
  }

  /** Equal creation arguments mean equal sources. */
  lemma LinesInjective(a: TypeDef, b: TypeDef)
    requires WellFormedType(a) && WellFormedType(b) && Rra.Lines(a) == Rra.Lines(b)
    ensures a.ds == b.ds
  {
    assert |a.ds| + 9 == |Rra.Lines(a)| == |Rra.Lines(b)| == |b.ds| + 9;
    forall k | 0 <= k < |a.ds| ensures a.ds[k] == b.ds[k] {
      assert Rra.Lines(a)[k] == Rra.DsLine(a.ds[k]) && Rra.Lines(b)[k] == Rra.DsLine(b.ds[k]);
      DsLineInjective(a.ds[k], b.ds[k]);
    }
  }

  lemma LinesAgree(m: Metric, n: Metric)
    requires Lookup(m.typ).Some? && Lookup(n.typ).Some?
    ensures Rra.Lines(Lookup(m.typ).value) == Rra.Lines(Lookup(n.typ).value) <==> SourcesOf(m) == SourcesOf(n)
  {
    LookupWellFormed(m.typ);
    LookupWellFormed(n.typ);
    if SourcesOf(m) == SourcesOf(n) {
      SameSourcesSameLines(Lookup(m.typ).value, Lookup(n.typ).value);
    } else if Rra.Lines(Lookup(m.typ).value) == Rra.Lines(Lookup(n.typ).value) {
      LinesInjective(Lookup(m.typ).value, Lookup(n.typ).value);
    }
  }

  // ---- first question: does the path name the schema? --------------------------------------

  /** Checkable before a write: the type that the path names is known and has the sources of
      the metric's own type. */
  ghost predicate SchemaSurvives(m: Metric) {
    Lookup(NamedType(m)).Some? && Lookup(NamedType(m)).value.ds == SourcesOf(m)
  }

  lemma SchemaOfPath(c: Config, m: Metric)
    requires Lookup(m.typ).Some?
    ensures TypeOfPath(PathOf(c, m)) == NamedType(m)
    ensures SchemaSurvives(m) <==> Lookup(NamedType(m)).Some?
                                   && Rra.Lines(Lookup(NamedType(m)).value) == Rra.Lines(Lookup(m.typ).value)
  {
    LookupWellFormed(m.typ);
    LookupWellFormed(NamedType(m));
    TableNamesArePlain(m.typ);
    PathNamesType(c.datadir, c.host, m);
    if Lookup(NamedType(m)).Some? {
      LinesAgree(m.(typ := NamedType(m)), m);
    }
  }

  lemma SourcesOfFile(files: map<string, seq<string>>, path: string)
    requires path in files && HasSchemaOfItsPath(files, path)
    ensures SourceCount(files[path]) == |Lookup(TypeOfPath(path)).value.ds|
  {
    SourcesOfLines(Lookup(TypeOfPath(path)).value);
  }

  lemma CreateKeepsSchemas(files: map<string, seq<string>>, path: string, args: seq<string>)
    requires SchemasMatch(files) && Lookup(TypeOfPath(path)).Some? && args == Rra.Lines(Lookup(TypeOfPath(path)).value)
    ensures SchemasMatch(files[path := args])
  {
    var files' := files[path := args];
    forall p | p in files' ensures HasSchemaOfItsPath(files', p) {
      if p != path {
        assert HasSchemaOfItsPath(files, p);
      }
    }
  }

  /** The step: any write of a metric whose schema survives in its path keeps the
      invariant, whatever the outside world answers. */
  lemma WriteKeepsConsistent(c: Config, d: Disk, e: Event, fmt: Printer)
    requires Consistent(d) && CleanPrinter(fmt) && (Storable(c, e.m) ==> SchemaSurvives(e.m))
    ensures Consistent(Write(c, d, e.m, e.env, fmt).0)
  {
    var path := PathOf(c, e.m);
    if Storable(c, e.m) {
      SchemaOfPath(c, e.m);
      if path in d.files {
        assert HasSchemaOfItsPath(d.files, path);
        SourcesOfFile(d.files, path);
      } else {
        CreateKeepsSchemas(d.files, path, Rra.Lines(Lookup(e.m.typ).value));
      }
    }
    WriteFiles(c, d, e, fmt);
    WriteKeepsLogFits(c, d, e, fmt);
  }

  /** Over every run from an empty data directory, under any daemon, disk and mkdir
      failures, each file carries the schema of the type its path names, and every accepted
      update targets an existing file with exactly that schema's number of values. */
  lemma {:induction false} EveryRunIsConsistent(c: Config, events: seq<Event>, fmt: Printer)
    requires CleanPrinter(fmt)
    requires forall i :: 0 <= i < |events| && Storable(c, events[i].m) ==> SchemaSurvives(events[i].m)
    ensures Consistent(After(c, EMPTY, events, fmt))
  {
    if events != [] {
      var n := |events| - 1;
      EveryRunIsConsistent(c, events[..n], fmt);
      WriteKeepsConsistent(c, After(c, EMPTY, events[..n], fmt), events[n], fmt);
    }
  }

  /** Nothing fails. */
  const CALM := Env(_ => false, true, true, true, true, true)

  lemma StoreCreates(c: Config, d: Disk, td: TypeDef, e: Event, fmt: Printer)
    requires |td.ds| <= MAX_DS && !Exists(WithDirs(c, d, e), PathOf(c, e.m)) && e.env.createOk
    ensures Store(c, d, td, e.m, e.env, fmt).0.files == d.files[PathOf(c, e.m) := Rra.Lines(td)]
  {
    StoreEnds(c, d, td, e, fmt);
    UpdateKeepsFiles(c, WithFile(c, d, td, e), PathOf(c, e.m), ValueText(fmt, td, e.m, |td.ds|), e.env);
  }

  lemma FirstWriteCreates(c: Config, m: Metric, env: Env, fmt: Printer)
    requires Storable(c, m) && env.createOk
    ensures Write(c, EMPTY, m, env, fmt).0.files == map[PathOf(c, m) := Rra.Lines(Lookup(m.typ).value)]
  {
    var e, path := Event(m, env), PathOf(c, m);
    PathIsNoDirectory(c, m, env.broken);
    WriteIsStore(c, EMPTY, e, fmt);
    assert EMPTY.files.Keys == {};
    StoreCreates(c, EMPTY, Lookup(m.typ).value, e, fmt);
    var none: map<string, seq<string>> := map[];
    assert none[path := Rra.Lines(Lookup(m.typ).value)] == map[path := Rra.Lines(Lookup(m.typ).value)];
  }

  /** Making directories never makes the path itself: it is longer than all of them. */
  lemma {:induction false} MkdirMakesPrefixes(dirs: set<string>, dir: string, i: nat, broken: string -> bool, p: string)
    requires i <= |dir| && p !in dirs && |p| > |dir|
    ensures p !in MkdirUpto({}, dirs, dir, i, broken)
  {
    if i > 1 {
      MkdirMakesPrefixes(dirs, dir, i - 1, broken, p);
    }
  }

  lemma PathIsNoDirectory(c: Config, m: Metric, broken: string -> bool)
    ensures PathOf(c, m) !in MakeParents({}, {}, PathOf(c, m), broken)
  {
    var p := PathOf(c, m);
    var dir := Parent(p);
    if |dir| < |p| {
      MkdirMakesPrefixes({}, dir, |dir|, broken, p);
    }
  }

  /** And conversely: the first write of a metric whose schema does not survive, if the file
      can be created, leaves a file whose path names another schema. */
  lemma FirstWriteIsConsistentExactly(c: Config, m: Metric, env: Env, fmt: Printer)
    requires CleanPrinter(fmt) && Storable(c, m) && env.createOk
    ensures Consistent(Write(c, EMPTY, m, env, fmt).0) <==> SchemaSurvives(m)
  {
    var e := Event(m, env);
    if SchemaSurvives(m) {
      WriteKeepsConsistent(c, EMPTY, e, fmt);
    } else {
      FirstWriteCreates(c, m, env, fmt);
      SchemaOfPath(c, m);
      var files := Write(c, EMPTY, m, env, fmt).0.files;
      assert PathOf(c, m) in files && !HasSchemaOfItsPath(files, PathOf(c, m));
    }
  }

  /** All events are about metrics of a given set. */
  ghost predicate About(ms: iset<Metric>, events: seq<Event>) {
    forall i :: 0 <= i < |events| ==> events[i].m in ms
  }

  lemma OneEvent(c: Config, d: Disk, e: Event, fmt: Printer)
    ensures After(c, d, [e], fmt) == Write(c, d, e.m, e.env, fmt).0
  {
    assert [e][..0] == [];
    assert After(c, d, [e][..0], fmt) == d;
  }

  /** Exact condition: for any set of metrics, all runs over it are consistent if and only
      if every metric of it that is ever stored has a schema that survives in its path. */
  lemma ConsistentExactlyWhenSchemasSurvive(c: Config, ms: iset<Metric>, fmt: Printer)
    requires CleanPrinter(fmt)
    ensures (forall events :: About(ms, events) ==> Consistent(After(c, EMPTY, events, fmt)))
            <==> (forall m :: m in ms && Storable(c, m) ==> SchemaSurvives(m))
  {
    if forall m :: m in ms && Storable(c, m) ==> SchemaSurvives(m) {
      forall events | About(ms, events) ensures Consistent(After(c, EMPTY, events, fmt)) {
        EveryRunIsConsistent(c, events, fmt);
      }
    } else {
      var events := MisnamedRun(c, ms, fmt);
    }
  }

  lemma MisnamedRun(c: Config, ms: iset<Metric>, fmt: Printer) returns (events: seq<Event>)
    requires CleanPrinter(fmt) && !forall m :: m in ms && Storable(c, m) ==> SchemaSurvives(m)
    ensures About(ms, events) && !Consistent(After(c, EMPTY, events, fmt))
  {
    var m :| m in ms && Storable(c, m) && !SchemaSurvives(m);
    events := [Event(m, CALM)];
    OneEvent(c, EMPTY, events[0], fmt);
    FirstWriteIsConsistentExactly(c, m, CALM, fmt);
  }

  // ---- second question: do the metrics that share a file agree? -----------------------------

  /** Every file was created by a metric of the set. */
  ghost predicate FilesFrom(c: Config, ms: iset<Metric>, files: map<string, seq<string>>) {
    forall p :: p in files ==> CreatedFrom(c, ms, files, p)
  }

  ghost predicate CreatedFrom(c: Config, ms: iset<Metric>, files: map<string, seq<string>>, p: string)
    requires p in files
  {
    exists a :: a in ms && Storable(c, a) && PathOf(c, a) == p && files[p] == Rra.Lines(Lookup(a.typ).value)
  }

  lemma WriteKeepsFilesFrom(c: Config, ms: iset<Metric>, d: Disk, e: Event, fmt: Printer)
    requires FilesFrom(c, ms, d.files) && e.m in ms
    ensures FilesFrom(c, ms, Write(c, d, e.m, e.env, fmt).0.files)
  {
    WriteFiles(c, d, e, fmt);
    var files := Write(c, d, e.m, e.env, fmt).0.files;
    forall p | p in files ensures CreatedFrom(c, ms, files, p) {
      if p in d.files {
        assert CreatedFrom(c, ms, d.files, p);
      }
    }
  }

  lemma {:induction false} RunsCreateFrom(c: Config, ms: iset<Metric>, events: seq<Event>, fmt: Printer)
    requires About(ms, events)
    ensures FilesFrom(c, ms, After(c, EMPTY, events, fmt).files)
  {
    if events != [] {
      var n := |events| - 1;
      RunsCreateFrom(c, ms, events[..n], fmt);
      WriteKeepsFilesFrom(c, ms, After(c, EMPTY, events[..n], fmt), events[n], fmt);
    }
  }

  /** Stored metrics of the set that share a path have the same sources. */
  ghost predicate SchemasAgree(c: Config, ms: iset<Metric>) {
    forall a, b :: a in ms && b in ms ==> !SchemasClash(c, a, b)
  }

  ghost predicate SchemasClash(c: Config, a: Metric, b: Metric) {
    Storable(c, a) && Storable(c, b) && PathOf(c, a) == PathOf(c, b) && SourcesOf(a) != SourcesOf(b)
  }

  /** Every file has the schema of every stored metric of the set that maps to it. */
  ghost predicate OneSchemaPerFile(c: Config, ms: iset<Metric>, files: map<string, seq<string>>) {
    forall b :: b in ms && Storable(c, b) && PathOf(c, b) in files ==>
      files[PathOf(c, b)] == Rra.Lines(Lookup(b.typ).value)
  }

  /** Exact condition for unique schemas: in all runs over a set of metrics each file has the
      schema of every metric that maps to it, if and only if any two stored metrics of the set
      that share a path have the same sources. */
  lemma SchemaIsUnique(c: Config, ms: iset<Metric>, fmt: Printer)
    ensures (forall events :: About(ms, events) ==> OneSchemaPerFile(c, ms, After(c, EMPTY, events, fmt).files))
            <==> SchemasAgree(c, ms)
  {
    if SchemasAgree(c, ms) {
      forall events | About(ms, events) ensures OneSchemaPerFile(c, ms, After(c, EMPTY, events, fmt).files) {
        RunsCreateFrom(c, ms, events, fmt);
        AgreedFiles(c, ms, After(c, EMPTY, events, fmt).files);
      }
    } else {
      var events := TwoSchemasRun(c, ms, fmt);
    }
  }

  lemma TwoSchemasRun(c: Config, ms: iset<Metric>, fmt: Printer) returns (events: seq<Event>)
    requires !SchemasAgree(c, ms)
    ensures About(ms, events) && !OneSchemaPerFile(c, ms, After(c, EMPTY, events, fmt).files)
  {
    var a, b :| a in ms && b in ms && SchemasClash(c, a, b);
    events := [Event(a, CALM)];
    OneEvent(c, EMPTY, events[0], fmt);
    FirstWriteCreates(c, a, CALM, fmt);
    LinesAgree(a, b);
  }

  lemma AgreedFiles(c: Config, ms: iset<Metric>, files: map<string, seq<string>>)
    requires SchemasAgree(c, ms) && FilesFrom(c, ms, files)
    ensures OneSchemaPerFile(c, ms, files)
  {
    forall b | b in ms && Storable(c, b) && PathOf(c, b) in files
      ensures files[PathOf(c, b)] == Rra.Lines(Lookup(b.typ).value)
    {
      var p := PathOf(c, b);
      assert CreatedFrom(c, ms, files, p);
      var a :| a in ms && Storable(c, a) && PathOf(c, a) == p && files[p] == Rra.Lines(Lookup(a.typ).value);
      assert !SchemasClash(c, a, b);
      LinesAgree(a, b);
    }
  }

  /** Stored metrics and recorded metrics of the set that share a path have equally many
      sources. */
  ghost predicate CountsAgree(c: Config, ms: iset<Metric>, fmt: Printer) {
    forall a, b :: a in ms && b in ms ==> !CountsClash(c, a, b, fmt)
  }

  /** b's update would reach a file that a created for another number of values. */
  ghost predicate CountsClash(c: Config, a: Metric, b: Metric, fmt: Printer) {
    Storable(c, a) && Recordable(c, b, fmt) && PathOf(c, a) == PathOf(c, b) && |SourcesOf(a)| != |SourcesOf(b)|
  }

  ghost predicate UpdatesFit(d: Disk) { LogFits(d.files, d.log) }

  lemma {:induction false} AgreedRunsFit(c: Config, ms: iset<Metric>, events: seq<Event>, fmt: Printer)
    requires CleanPrinter(fmt) && About(ms, events) && CountsAgree(c, ms, fmt)
    ensures UpdatesFit(After(c, EMPTY, events, fmt))
  {
    if events != [] {
      var n := |events| - 1;
      var d, b := After(c, EMPTY, events[..n], fmt), events[n].m;
      AgreedRunsFit(c, ms, events[..n], fmt);
      RunsCreateFrom(c, ms, events[..n], fmt);
      if Recordable(c, b, fmt) && PathOf(c, b) in d.files {
        CountOfFile(c, ms, d.files, b, fmt);
      }
      WriteKeepsLogFits(c, d, events[n], fmt);
    }
  }

  lemma CountOfFile(c: Config, ms: iset<Metric>, files: map<string, seq<string>>, b: Metric, fmt: Printer)
    requires CountsAgree(c, ms, fmt) && FilesFrom(c, ms, files)
    requires b in ms && Recordable(c, b, fmt) && PathOf(c, b) in files
    ensures SourceCount(files[PathOf(c, b)]) == |SourcesOf(b)|
  {
    var p := PathOf(c, b);
    assert CreatedFrom(c, ms, files, p);
    var a :| a in ms && Storable(c, a) && PathOf(c, a) == p && files[p] == Rra.Lines(Lookup(a.typ).value);
    assert !CountsClash(c, a, b, fmt);
    SourcesOfLines(Lookup(a.typ).value);
  }

  /** An update that gets through to an existing file. */
  lemma CalmUpdate(c: Config, d: Disk, b: Metric, fmt: Printer)
    requires Recordable(c, b, fmt) && PathOf(c, b) in d.files
    ensures var d' := Write(c, d, b, CALM, fmt).0;
            && d'.files == d.files && |d'.log| == |d.log| + 1
            && d'.log[|d.log|].path == PathOf(c, b) && d'.log[|d.log|].values == TextOf(b, fmt)
  {
    var e := Event(b, CALM);
    WriteIsStore(c, d, e, fmt);
    StoreEnds(c, d, Lookup(b.typ).value, e, fmt);
  }

  lemma FieldsOfText(m: Metric, fmt: Printer)
    requires CleanPrinter(fmt) && Lookup(m.typ).Some?
    ensures |SplitColon(TextOf(m, fmt))| == 1 + |SourcesOf(m)|
  {
    LookupWellFormed(m.typ);
    ValuesRoundTrip(fmt, Lookup(m.typ).value, m, |SourcesOf(m)|);
  }

  lemma TwoCountsOneFile(c: Config, a: Metric, b: Metric, fmt: Printer) returns (events: seq<Event>)
    requires CleanPrinter(fmt) && CountsClash(c, a, b, fmt)
    ensures |events| == 2 && events[0].m == a && events[1].m == b
    ensures !UpdatesFit(After(c, EMPTY, events, fmt))
  {
    events := [Event(a, CALM), Event(b, CALM)];
    var d1 := Write(c, EMPTY, a, CALM, fmt).0;
    OneEvent(c, EMPTY, events[0], fmt);
    assert events[..1] == [events[0]];
    FirstWriteCreates(c, a, CALM, fmt);
    CalmUpdate(c, d1, b, fmt);
    var d2 := Write(c, d1, b, CALM, fmt).0;
    assert After(c, EMPTY, events, fmt) == d2;
    SourcesOfLines(Lookup(a.typ).value);
    FieldsOfText(b, fmt);
    assert !FitsItsFile(d2.files, d2.log[|d1.log|]);
  }

  /** Exact condition for the updates: in all runs over a set of metrics every accepted
      update has exactly its file's number of values, if and only if any stored and any
      recorded metric of the set that share a path have equally many sources. */
  lemma UpdatesFitExactlyWhenCountsAgree(c: Config, ms: iset<Metric>, fmt: Printer)
    requires CleanPrinter(fmt)
    ensures (forall events :: About(ms, events) ==> UpdatesFit(After(c, EMPTY, events, fmt))) <==> CountsAgree(c, ms, fmt)
  {
    if CountsAgree(c, ms, fmt) {
      forall events | About(ms, events) ensures UpdatesFit(After(c, EMPTY, events, fmt)) {
        AgreedRunsFit(c, ms, events, fmt);
      }
    } else {
      var events := MisfitRun(c, ms, fmt);
    }
  }

  lemma ClashIn(c: Config, ms: iset<Metric>, fmt: Printer) returns (a: Metric, b: Metric)
    requires !CountsAgree(c, ms, fmt)
    ensures a in ms && b in ms && CountsClash(c, a, b, fmt)
  {
    a, b :| a in ms && b in ms && CountsClash(c, a, b, fmt);
  }

  lemma MisfitRun(c: Config, ms: iset<Metric>, fmt: Printer) returns (events: seq<Event>)
    requires CleanPrinter(fmt) && !CountsAgree(c, ms, fmt)
    ensures About(ms, events) && !UpdatesFit(After(c, EMPTY, events, fmt))
  {
    var a, b := ClashIn(c, ms, fmt);
    events := TwoCountsOneFile(c, a, b, fmt);
    BothAbout(ms, events);
  }

  lemma BothAbout(ms: iset<Metric>, events: seq<Event>)
    requires |events| == 2 && events[0].m in ms && events[1].m in ms
    ensures About(ms, events)
  {
  }

  // ---- the log ----------------------------------------------------------------------------

  /** What one accepted update says. */
  datatype Sent = Sent(path: string, values: string)

  function Sents(log: seq<Record>): seq<Sent> {
    if log == [] then [] else Sents(log[..|log| - 1]) + [Sent(log[|log| - 1].path, log[|log| - 1].values)]
  }

  /** Path and values of the writes that reported success, in order. */
  ghost function SentBy(c: Config, d: Disk, events: seq<Event>, fmt: Printer): seq<Sent> {
    if events == [] then []
    else
      var n := |events| - 1;
      var e, before := events[n], SentBy(c, d, events[..n], fmt);
      if Write(c, After(c, d, events[..n], fmt), e.m, e.env, fmt).1 == 0
      then before + [Sent(PathOf(c, e.m), TextOf(e.m, fmt))] else before
  }

  /** What a write does to log and daemon. */
  ghost predicate LogsOnce(c: Config, d: Disk, e: Event, fmt: Printer, r: (Disk, int)) {
    && (r.1 == 0 ==> exists via :: r.0.log == d.log + [Record(PathOf(c, e.m), TextOf(e.m, fmt), via)])
    && (r.1 != 0 ==> r.0.log == d.log)
    && (c.rrdcached == "" ==> r.0.daemonCalls == d.daemonCalls)
  }

  lemma StoreLogs(c: Config, d: Disk, td: TypeDef, e: Event, fmt: Printer)
    requires Lookup(e.m.typ) == Some(td) && WellFormedType(td)
    ensures LogsOnce(c, d, e, fmt, Store(c, d, td, e.m, e.env, fmt))
  {
    var values := ValueText(fmt, td, e.m, |td.ds|);
    assert TextOf(e.m, fmt) == values;
    StoreEnds(c, d, td, e, fmt);
    UpdateExactlyOnce(c, WithFile(c, d, td, e), PathOf(c, e.m), values, e.env);
  }

  lemma WriteLogs(c: Config, d: Disk, e: Event, fmt: Printer)
    ensures LogsOnce(c, d, e, fmt, Write(c, d, e.m, e.env, fmt))
  {
    WriteIsStore(c, d, e, fmt);
    if Storable(c, e.m) {
      StoreLogs(c, d, Lookup(e.m.typ).value, e, fmt);
    }
  }

  lemma SentsSnoc(log: seq<Record>, r: Record)
    ensures Sents(log + [r]) == Sents(log) + [Sent(r.path, r.values)]
  {
    assert (log + [r])[..|log|] == log;
  }

  /** Conservation: over every run the accepted updates are, in order and with their paths and
      values, exactly those of the writes that reported success; and a run without an address
      never calls the daemon. */
  lemma {:induction false} EverySuccessIsRecordedOnce(c: Config, events: seq<Event>, fmt: Printer)
    ensures Sents(After(c, EMPTY, events, fmt).log) == SentBy(c, EMPTY, events, fmt)
    ensures c.rrdcached == "" ==> After(c, EMPTY, events, fmt).daemonCalls == 0
  {
    if events != [] {
      var n := |events| - 1;
      var d, e := After(c, EMPTY, events[..n], fmt), events[n];
      EverySuccessIsRecordedOnce(c, events[..n], fmt);
      WriteLogs(c, d, e, fmt);
      var r := Write(c, d, e.m, e.env, fmt);
      if r.1 == 0 {
        var via :| r.0.log == d.log + [Record(PathOf(c, e.m), TextOf(e.m, fmt), via)];
        SentsSnoc(d.log, Record(PathOf(c, e.m), TextOf(e.m, fmt), via));
      }
    }
  }

  /** Recorded updates are never lost or reordered by later writes. */
  lemma {:induction false} LogOnlyGrows(c: Config, events: seq<Event>, k: nat, fmt: Printer)
    requires k <= |events|
    ensures After(c, EMPTY, events[..k], fmt).log <= After(c, EMPTY, events, fmt).log
  {
    if k == |events| {
      assert events[..k] == events;
    } else {
      var n := |events| - 1;
      LogOnlyGrows(c, events[..n], k, fmt);
      assert events[..n][..k] == events[..k];
      WriteLogs(c, After(c, EMPTY, events[..n], fmt), events[n], fmt);
    }
  }

  /** No path is ever both a file and a directory. */
  lemma {:induction false} FilesAreNoDirectories(c: Config, events: seq<Event>, fmt: Printer)
    ensures After(c, EMPTY, events, fmt).dirs !! After(c, EMPTY, events, fmt).files.Keys
  {
    if events != [] {
      var n := |events| - 1;
      FilesAreNoDirectories(c, events[..n], fmt);
      WriteKeepsApart(c, After(c, EMPTY, events[..n], fmt), events[n], fmt);
    }
  }

  lemma WriteKeepsApart(c: Config, d: Disk, e: Event, fmt: Printer)
    requires d.dirs !! d.files.Keys
    ensures var d' := Write(c, d, e.m, e.env, fmt).0; d'.dirs !! d'.files.Keys
  {
    WriteIsStore(c, d, e, fmt);
    if Storable(c, e.m) {
      MakeParentsKeepsDisjoint(d.files.Keys, d.dirs, PathOf(c, e.m), e.env.broken);
      StoreEnds(c, d, Lookup(e.m.typ).value, e, fmt);
    }
  }

  // ---- two writes that do not agree -----------------------------------------------------------

  /** Gauges print in at most 80 characters ("%.17g" needs far fewer). */
  ghost predicate ShortGauges(fmt: Printer) { forall x :: |Printed(fmt, Gauge, x)| <= 80 }

  ghost predicate AllGauges(td: TypeDef) { forall k :: 0 <= k < |td.ds| ==> td.ds[k].dst == Gauge }

  lemma Percent()
    ensures Lookup("percent").Some? && |Lookup("percent").value.ds| == 1
  {
    LookupFinds(0);
  }

  lemma Load()
    ensures Lookup("load").Some? && |Lookup("load").value.ds| == 3
  {
    LoadEntry();
    LookupFinds(11);
  }

  lemma LoadEntry()
    ensures TABLE[11].name == "load" && |TABLE[11].ds| == 3 && TABLE[11].ds[0].dst == Gauge
  {
  }

  lemma LoadIsGauges()
    ensures Lookup("load").Some? && AllGauges(Lookup("load").value)
  {
    LoadEntry();
    LookupFinds(11);
    SourcesAreUniform();
  }

  /** The conditions are not empty words: these two metrics share a file, and writing them
      with nothing failing leaves a one-source file with a three-value update. */
  lemma SlashBreaksConsistency(c: Config, v: Values, fmt: Printer) returns (events: seq<Event>)
    requires CleanPrinter(fmt) && ShortGauges(fmt) && |c.datadir| + |c.host| < 4000
    ensures |events| == 2 && events[0].m == Metric("p", Some("x"), "percent", Some("a/load"), 1, v)
    ensures events[1].m == Metric("p", Some("x/percent-a"), "load", None, 3, v)
    ensures !UpdatesFit(After(c, EMPTY, events, fmt))
  {
    var a := Metric("p", Some("x"), "percent", Some("a/load"), 1, v);
    var b := Metric("p", Some("x/percent-a"), "load", None, 3, v);
    SlashClashes(c, v, fmt);
    events := TwoCountsOneFile(c, a, b, fmt);
  }

  lemma SlashClashes(c: Config, v: Values, fmt: Printer)
    requires |c.datadir| + |c.host| < 4000 && ShortGauges(fmt)
    ensures CountsClash(c, Metric("p", Some("x"), "percent", Some("a/load"), 1, v),
                           Metric("p", Some("x/percent-a"), "load", None, 3, v), fmt)
  {
    var a := Metric("p", Some("x"), "percent", Some("a/load"), 1, v);
    var b := Metric("p", Some("x/percent-a"), "load", None, 3, v);
    Percent();
    Load();
    LoadIsGauges();
    SlashInTypeInstanceCollides(c.datadir, c.host, v);
    SlashFits(c, v);
    ClashOf(c, Lookup("percent").value, Lookup("load").value, a, b, fmt);
  }

  lemma SlashFits(c: Config, v: Values)
    requires |c.datadir| + |c.host| < 4000
    ensures PathFits(c, Metric("p", Some("x"), "percent", Some("a/load"), 1, v))
    ensures PathFits(c, Metric("p", Some("x/percent-a"), "load", None, 3, v))
  {
  }

  lemma ClashOf(c: Config, ta: TypeDef, tb: TypeDef, a: Metric, b: Metric, fmt: Printer)
    requires Lookup(a.typ) == Some(ta) && |ta.ds| == a.dsCount == 1 && PathFits(c, a)
    requires Lookup(b.typ) == Some(tb) && |tb.ds| == b.dsCount == 3 && PathFits(c, b)
    requires PathOf(c, a) == PathOf(c, b) && ShortGauges(fmt) && AllGauges(tb)
    ensures CountsClash(c, a, b, fmt)
  {
    assert Storable(c, a);
    ShortIsRecordable(c, tb, b, fmt);
  }

  lemma ShortIsRecordable(c: Config, td: TypeDef, m: Metric, fmt: Printer)
    requires Lookup(m.typ) == Some(td) && |td.ds| == m.dsCount == 3 && PathFits(c, m)
    requires ShortGauges(fmt) && AllGauges(td)
    ensures Recordable(c, m, fmt)
  {
    ShortValues(fmt, td, m, 3);
    TextIs(td, m, fmt);
  }

  lemma TextIs(td: TypeDef, m: Metric, fmt: Printer)
    requires Lookup(m.typ) == Some(td) && |td.ds| <= MAX_DS
    ensures TextOf(m, fmt) == ValueText(fmt, td, m, |td.ds|)
  {
  }

  lemma {:induction false} ShortValues(fmt: Printer, td: TypeDef, m: Metric, k: nat)
    requires k <= |td.ds| <= MAX_DS && ShortGauges(fmt) && AllGauges(td)
    ensures |ValueText(fmt, td, m, k)| <= 1 + 81 * k
  {
    if k > 0 {
      ShortValues(fmt, td, m, k - 1);
      assert Token(fmt, td, m, k - 1) == Printed(fmt, Gauge, m.values[k - 1]);
    }
  }
}
