/** The collection loop (src/collect.c): which readers run, and how every metric they
    emit reaches both the RRD writer and the Prometheus snapshot. */
module Collect {
  import opened CStrings
  import opened Lists
  import opened Metrics
  import opened Writer
  import opened WriterRun
  import opened Emitters
  import opened Exposition
  import opened Grouping
  import opened Render
  import Config
  import Registry
  import P = Prom
  import Path

  const MAX_ENABLED: nat := 32

  // ---- which readers run ---------------------------------------------------------------

  function Requests(names: seq<string>): seq<Option<string>> {
    if names == [] then [] else Requests(names[..|names| - 1]) + [Some(names[|names| - 1])]
  }

  lemma {:induction false} RequestsLength(names: seq<string>)
    ensures |Requests(names)| == |names|
    decreases |names|
  {
    if names != [] {
      RequestsLength(names[..|names| - 1]);
    }
  }

  lemma RequestsStep(names: seq<string>, i: nat)
    requires i < |names|
    ensures Requests(names[..i + 1]) == Requests(names[..i]) + [Some(names[i])]
  {
    assert names[..i + 1][..i] == names[..i];
  }

  /** The readers a configuration enables: all of them, or the known ones among those it
      names, each once, in the order of their first mention. */
  function EnabledBy(names: seq<string>): seq<Registry.Reader> {
    if names == [] then Registry.Everything() else Registry.Dedup(Registry.KnownReaders(Requests(names)))
  }

  lemma {:induction false} KnownAreFewer(requests: seq<Option<string>>)
    ensures |Registry.KnownReaders(requests)| <= |requests|
    decreases |requests|
  {
    if requests != [] {
      KnownAreFewer(requests[..|requests| - 1]);
    }
  }

  lemma {:induction false} DedupIsShorter(rs: seq<Registry.Reader>)
    ensures |Registry.Dedup(rs)| <= |rs|
    decreases |rs|
  {
    if rs != [] {
      DedupIsShorter(rs[..|rs| - 1]);
    }
  }

  /** No configuration the parser accepts overflows the list of enabled readers. */
  lemma EnabledFits(names: seq<string>)
    requires |names| <= Config.MAX_READERS
    ensures |EnabledBy(names)| <= MAX_ENABLED
  {
    RequestsLength(names);
    KnownAreFewer(Requests(names));
    DedupIsShorter(Registry.KnownReaders(Requests(names)));
  }

  /** The start of collect_run: the pointer array has 16 entries and the list 32, and
      neither bound ever cuts anything off. */
  method Resolve(cfg: Config.CollectConfig) returns (enabled: seq<Registry.Reader>)
    requires |cfg.readers| <= Config.MAX_READERS
    ensures enabled == EnabledBy(cfg.readers)
  {
    var rptr: array<Option<string>> := new Option<string>[16](_ => None);
    var out := new Registry.Reader[MAX_ENABLED](_ => Registry.Cpu);
    var i := 0;
    while i < |cfg.readers| && i < 16
      invariant 0 <= i <= |cfg.readers| && rptr[..i] == Requests(cfg.readers[..i])
      modifies rptr
    {
      RequestsStep(cfg.readers, i);
      rptr[i] := Some(cfg.readers[i]);
      i := i + 1;
      assert rptr[..i] == rptr[..i - 1] + [Some(cfg.readers[i - 1])];
    }
    assert cfg.readers[..i] == cfg.readers;
    RequestsLength(cfg.readers);
    EnabledFits(cfg.readers);
    var n := Registry.BuildEnabled(rptr[..i], out, MAX_ENABLED);
    enabled := out[..n];
  }

  // ---- one cycle ---------------------------------------------------------------------------

  function Copies(events: seq<Event>): seq<SnapMetric> {
    if events == [] then [] else Copies(events[..|events| - 1]) + [CopyMetric(events[|events| - 1].m)]
  }

  lemma CopiesSnoc(events: seq<Event>, e: Event)
    ensures Copies(events + [e]) == Copies(events) + [CopyMetric(e.m)]
  {
    assert (events + [e])[..|events|] == events;
  }

  /** Every metric has a path without NUL: its parts are C strings. */
  ghost predicate CStringPaths(c: Writer.Config, events: seq<Event>) {
    forall i :: 0 <= i < |events| ==> NulFree(FullPathOf(c, events[i].m))
  }

  ghost function FullPathOf(c: Writer.Config, m: Metric): string { Path.FullPath(c.datadir, c.host, m) }

  /** The events of all enabled readers, reader by reader. */
  function Emissions(enabled: seq<Registry.Reader>, emits: Source): seq<Event> {
    if enabled == [] then []
    else Emissions(enabled[..|enabled| - 1], emits) + emits(enabled[|enabled| - 1])
  }

  // ---- runs, left abstract where the loops are verified ----------------------------------

  /** `disks(i)` and `lists(i)` are the disk and the staged list after i events. */
  ghost predicate DiskRun(disks: nat -> Disk, c: Writer.Config, events: seq<Event>, fmt: Printer) {
    forall i {:trigger DiskAfter(c, disks(i), events, i, fmt)} ::
      0 <= i < |events| ==> disks(i + 1) == DiskAfter(c, disks(i), events, i, fmt)
  }

  ghost function DiskAfter(c: Writer.Config, d: Disk, events: seq<Event>, i: nat, fmt: Printer): Disk {
    if i < |events| then Write(c, d, events[i].m, events[i].env, fmt).0 else d
  }

  ghost function DisksOf(c: Writer.Config, d: Disk, events: seq<Event>, fmt: Printer): nat -> Disk {
    (i: nat) => if i <= |events| then After(c, d, events[..i], fmt) else d
  }

  lemma AfterStep(c: Writer.Config, d: Disk, events: seq<Event>, i: nat, fmt: Printer)
    requires i < |events|
    ensures After(c, d, events[..i + 1], fmt) == DiskAfter(c, After(c, d, events[..i], fmt), events, i, fmt)
  {
    assert events[..i + 1][..i] == events[..i];
  }

  lemma DisksOfIsARun(c: Writer.Config, d: Disk, events: seq<Event>, fmt: Printer)
    ensures DiskRun(DisksOf(c, d, events, fmt), c, events, fmt)
  {
    forall i: nat | i < |events|
      ensures DisksOf(c, d, events, fmt)(i + 1) == DiskAfter(c, DisksOf(c, d, events, fmt)(i), events, i, fmt)
    {
      AfterStep(c, d, events, i, fmt);
    }
  }

  /** A run in two parts. */
  lemma {:induction false} AfterAppend(c: Writer.Config, d: Disk, a: seq<Event>, b: seq<Event>, fmt: Printer)
    ensures After(c, After(c, d, a, fmt), b, fmt) == After(c, d, a + b, fmt)
    decreases |b|
  {
    if b == [] {
      assert a + b == a;
    } else {
      var n := |b| - 1;
      AfterAppend(c, d, a, b[..n], fmt);
      assert (a + b)[..|a + b| - 1] == a + b[..n];
    }
  }

  lemma {:induction false} CopiesAppend(a: seq<Event>, b: seq<Event>)
    ensures Copies(a + b) == Copies(a) + Copies(b)
    decreases |b|
  {
    if b == [] {
      assert a + b == a;
    } else {
      var init, e := b[..|b| - 1], b[|b| - 1];
      assert b == init + [e] && a + b == (a + init) + [e];
      CopiesAppend(a, init);
      CopiesSnoc(init, e);
      CopiesSnoc(a + init, e);
    }
  }

  ghost predicate StagedRun(lists: nat -> seq<SnapMetric>, events: seq<Event>) {
    forall i {:trigger Appended(lists(i), events, i)} :: 0 <= i < |events| ==> lists(i + 1) == Appended(lists(i), events, i)
  }

  ghost function Appended(list: seq<SnapMetric>, events: seq<Event>, i: nat): seq<SnapMetric> {
    if i < |events| then list + [CopyMetric(events[i].m)] else list
  }

  ghost function ListsOf(staged: seq<SnapMetric>, events: seq<Event>): nat -> seq<SnapMetric> {
    (i: nat) => if i <= |events| then staged + Copies(events[..i]) else []
  }

  lemma ListsOfIsARun(staged: seq<SnapMetric>, events: seq<Event>)
    ensures StagedRun(ListsOf(staged, events), events)
  {
    forall i: nat | i < |events|
      ensures ListsOf(staged, events)(i + 1) == Appended(ListsOf(staged, events)(i), events, i)
    {
      ListStep(staged, events, i);
    }
  }

  lemma ListStep(staged: seq<SnapMetric>, events: seq<Event>, i: nat)
    requires i < |events|
    ensures staged + Copies(events[..i + 1]) == (staged + Copies(events[..i])) + [CopyMetric(events[i].m)]
  {
    assert events[..i + 1] == events[..i] + [events[i]];
    CopiesSnoc(events[..i], events[i]);
    AppendLast(staged, Copies(events[..i]), CopyMetric(events[i].m));
  }

  lemma AppendLast(a: seq<SnapMetric>, b: seq<SnapMetric>, x: SnapMetric)
    ensures a + (b + [x]) == (a + b) + [x]
  {
  }

  /** All metrics are of kinds that the readers emit. */
  ghost predicate FromReaders(events: seq<Event>) {
    forall i :: 0 <= i < |events| ==> Emittable(events[i].m)
  }

  lemma ReaderRunFits(c: Writer.Config, events: seq<Event>, fmt: Printer)
    requires CleanPrinter(fmt)
    ensures FromReaders(events) ==>
      var d := After(c, EMPTY, events, fmt); UpdatesFit(d) && OneSchemaPerFile(c, AllEmittable(), d.files)
  {
    if FromReaders(events) {
      EveryReaderRunFits(c, events, fmt);
    }
  }

  /** What the readers emit in one cycle. */
  type Source = Registry.Reader -> seq<Event>

  lemma {:induction false} EmissionsStep(enabled: seq<Registry.Reader>, emits: Source, i: nat)
    requires i < |enabled|
    ensures Emissions(enabled[..i + 1], emits) == Emissions(enabled[..i], emits) + emits(enabled[i])
  {
    assert enabled[..i + 1][..i] == enabled[..i];
  }

  /** One more reader: its events extend the run and the list. */
  lemma ReaderTurn(c: Writer.Config, d: Disk, enabled: seq<Registry.Reader>, emits: Source, i: nat, fmt: Printer)
    requires i < |enabled|
    ensures var done, more := Emissions(enabled[..i], emits), emits(enabled[i]);
            && After(c, d, Emissions(enabled[..i + 1], emits), fmt) == After(c, After(c, d, done, fmt), more, fmt)
            && Copies(Emissions(enabled[..i + 1], emits)) == Copies(done) + Copies(more)
  {
    EmissionsStep(enabled, emits, i);
    AfterAppend(c, d, Emissions(enabled[..i], emits), emits(enabled[i]), fmt);
    CopiesAppend(Emissions(enabled[..i], emits), emits(enabled[i]));
  }

  /** `disks(k)` and `lists(k)` are the disk and the complete list after k readers. */
  ghost predicate AreReaders(disks: nat -> Disk, lists: nat -> seq<SnapMetric>, c: Writer.Config, d: Disk,
                             enabled: seq<Registry.Reader>, emits: Source, fmt: Printer) {
    forall k {:trigger enabled[..k]} :: 0 <= k <= |enabled| ==>
      disks(k) == After(c, d, Emissions(enabled[..k], emits), fmt) && lists(k) == Copies(Emissions(enabled[..k], emits))
  }

  ghost function ReaderDisks(c: Writer.Config, d: Disk, enabled: seq<Registry.Reader>, emits: Source, fmt: Printer): nat -> Disk {
    (k: nat) => if k <= |enabled| then After(c, d, Emissions(enabled[..k], emits), fmt) else d
  }

  ghost function ReaderLists(enabled: seq<Registry.Reader>, emits: Source): nat -> seq<SnapMetric> {
    (k: nat) => if k <= |enabled| then Copies(Emissions(enabled[..k], emits)) else []
  }

  lemma ReadersOfACycle(c: Writer.Config, d: Disk, enabled: seq<Registry.Reader>, emits: Source, fmt: Printer)
    ensures AreReaders(ReaderDisks(c, d, enabled, emits, fmt), ReaderLists(enabled, emits), c, d, enabled, emits, fmt)
    ensures ReaderDisks(c, d, enabled, emits, fmt)(0) == d && ReaderLists(enabled, emits)(0) == []
    ensures ReaderDisks(c, d, enabled, emits, fmt)(|enabled|) == After(c, d, Emissions(enabled, emits), fmt)
    ensures ReaderLists(enabled, emits)(|enabled|) == Copies(Emissions(enabled, emits))
  {
    assert enabled[..|enabled|] == enabled && enabled[..0] == [];
  }

  /** Everything emitted over a run of cycles. */
  function History(enabled: seq<Registry.Reader>, cycles: seq<Source>): seq<Event> {
    if cycles == [] then []
    else History(enabled, cycles[..|cycles| - 1]) + Emissions(enabled, cycles[|cycles| - 1])
  }

  /** What was emitted in the last cycle. */
  function LastCycle(enabled: seq<Registry.Reader>, cycles: seq<Source>): seq<Event> {
    if cycles == [] then [] else Emissions(enabled, cycles[|cycles| - 1])
  }

  /** `disks(k)` and `lists(k)` are the disk and the published list after k cycles. */
  ghost predicate AreCycles(disks: nat -> Disk, lists: nat -> seq<SnapMetric>, c: Writer.Config,
                            enabled: seq<Registry.Reader>, cycles: seq<Source>, fmt: Printer) {
    && disks(0) == EMPTY && lists(0) == []
    && forall k {:trigger cycles[..k]} :: 0 <= k <= |cycles| ==>
         disks(k) == After(c, EMPTY, History(enabled, cycles[..k]), fmt) && lists(k) == Copies(LastCycle(enabled, cycles[..k]))
  }

  ghost function CycleDisks(c: Writer.Config, enabled: seq<Registry.Reader>, cycles: seq<Source>, fmt: Printer): nat -> Disk {
    (k: nat) => if k <= |cycles| then After(c, EMPTY, History(enabled, cycles[..k]), fmt) else EMPTY
  }

  ghost function CycleLists(enabled: seq<Registry.Reader>, cycles: seq<Source>): nat -> seq<SnapMetric> {
    (k: nat) => if k <= |cycles| then Copies(LastCycle(enabled, cycles[..k])) else []
  }

  lemma CyclesOfHistory(c: Writer.Config, enabled: seq<Registry.Reader>, cycles: seq<Source>, fmt: Printer)
    ensures AreCycles(CycleDisks(c, enabled, cycles, fmt), CycleLists(enabled, cycles), c, enabled, cycles, fmt)
    ensures CycleDisks(c, enabled, cycles, fmt)(|cycles|) == After(c, EMPTY, History(enabled, cycles), fmt)
    ensures CycleLists(enabled, cycles)(|cycles|) == Copies(LastCycle(enabled, cycles))
  {
    assert cycles[..|cycles|] == cycles && cycles[..0] == [];
  }

  lemma NothingToScrape(st: Style)
    ensures IsScrapeOf(st, "", [], [])
  {
    assert Known(st, [], 0) == [];
  }

  lemma CycleTurn(c: Writer.Config, d: Disk, enabled: seq<Registry.Reader>, cycles: seq<Source>, i: nat, fmt: Printer)
    requires i < |cycles|
    ensures After(c, d, History(enabled, cycles[..i + 1]), fmt)
         == After(c, After(c, d, History(enabled, cycles[..i]), fmt), Emissions(enabled, cycles[i]), fmt)
  {
    assert cycles[..i + 1][..i] == cycles[..i];
    AfterAppend(c, d, History(enabled, cycles[..i]), Emissions(enabled, cycles[i]), fmt);
  }

  class Collector {
    const writer: RrdWriter
    const store: P.Store

    ghost predicate Valid()
      reads this, store, store.staged, store.published
    {
      store.Valid() && writer !in store.Footprint()
    }

    ghost function Footprint(): set<object>
      reads this, store
    {
      {writer} + store.Footprint()
    }

    constructor (cfg: Config.CollectConfig)
      ensures Valid() && fresh(Footprint())
      ensures writer.View() == EMPTY && store.Published() == []
    {
      var w := new RrdWriter(cfg.datadir, cfg.host, Some(cfg.rrdcached));
      var s := new P.Store();
      writer, store := w, s;
    }

    /** emit_cb: the result is the writer's alone; the snapshot gets the metric even if
        the write failed, and loses it only if an allocation fails. */
    method EmitCb(e: Event, fmt: Printer, reliable: bool) returns (rc: int)
      requires Valid() && CleanPrinter(fmt) && NulFree(FullPathOf(writer.Settings(), e.m))
      modifies Footprint()
      ensures Valid() && fresh(Footprint() - old(Footprint())) && writer.Settings() == old(writer.Settings())
      ensures (writer.View(), rc) == Write(writer.Settings(), old(writer.View()), e.m, e.env, fmt)
      ensures store.Published() == old(store.Published()) && store.published == old(store.published)
      ensures store.Staged() == old(store.Staged()) + [CopyMetric(e.m)] || (store.Staged() == old(store.Staged()) && !reliable)
    {
      rc := writer.WriteMetric(e.m, e.env, fmt);
      var okBuf: bool, okArray: bool := *, *;
      store.Add(e.m, okBuf || reliable, okArray || reliable);
    }

    method EmitAt(events: seq<Event>, i: nat, fmt: Printer, reliable: bool,
                  ghost disks: nat -> Disk, ghost lists: nat -> seq<SnapMetric>)
      requires Valid() && CleanPrinter(fmt) && CStringPaths(writer.Settings(), events) && i < |events|
      requires DiskRun(disks, writer.Settings(), events, fmt) && writer.View() == disks(i)
      requires StagedRun(lists, events) && Portion(store.Staged(), lists(i), reliable)
      modifies Footprint()
      ensures Valid() && fresh(Footprint() - old(Footprint())) && writer.Settings() == old(writer.Settings())
      ensures writer.View() == disks(i + 1) && Portion(store.Staged(), lists(i + 1), reliable)
      ensures store.Published() == old(store.Published()) && store.published == old(store.published)
    {
      assert disks(i + 1) == DiskAfter(writer.Settings(), disks(i), events, i, fmt);
      assert lists(i + 1) == Appended(lists(i), events, i);
      ghost var staged := store.Staged();
      var _ := EmitCb(events[i], fmt, reliable);
      PortionGrows(staged, lists(i), store.Staged(), CopyMetric(events[i].m), reliable);
    }

    method RunEvents(events: seq<Event>, fmt: Printer, reliable: bool,
                     ghost disks: nat -> Disk, ghost lists: nat -> seq<SnapMetric>)
      requires Valid() && CleanPrinter(fmt) && CStringPaths(writer.Settings(), events)
      requires DiskRun(disks, writer.Settings(), events, fmt) && writer.View() == disks(0)
      requires StagedRun(lists, events) && Portion(store.Staged(), lists(0), reliable)
      modifies Footprint()
      ensures Valid() && fresh(Footprint() - old(Footprint())) && writer.Settings() == old(writer.Settings())
      ensures writer.View() == disks(|events|) && Portion(store.Staged(), lists(|events|), reliable)
    {
      ghost var c := writer.Settings();
      var i := 0;
      while i < |events|
        invariant 0 <= i <= |events| && Valid() && fresh(Footprint() - old(Footprint())) && writer.Settings() == c
        invariant writer.View() == disks(i) && Portion(store.Staged(), lists(i), reliable)
      {
        EmitAt(events, i, fmt, reliable, disks, lists);
        i := i + 1;
      }
    }

    /** One reader: each event it emits goes through emit_cb; `full` is what would be staged
        had no allocation failed. */
    method RunReader(events: seq<Event>, fmt: Printer, reliable: bool, ghost full: seq<SnapMetric>)
      requires Valid() && CleanPrinter(fmt) && CStringPaths(writer.Settings(), events)
      requires Portion(store.Staged(), full, reliable)
      modifies Footprint()
      ensures Valid() && fresh(Footprint() - old(Footprint())) && writer.Settings() == old(writer.Settings())
      ensures writer.View() == After(writer.Settings(), old(writer.View()), events, fmt)
      ensures Portion(store.Staged(), full + Copies(events), reliable)
    {
      ghost var c, d := writer.Settings(), writer.View();
      DisksOfIsARun(c, d, events, fmt);
      ListsOfIsARun(full, events);
      assert events[..|events|] == events && events[..0] == [] && full + [] == full;
      RunEvents(events, fmt, reliable, DisksOf(c, d, events, fmt), ListsOf(full, events));
    }

    method RunReaderAt(enabled: seq<Registry.Reader>, emits: Source, k: nat, fmt: Printer, reliable: bool,
                       ghost d: Disk, ghost disks: nat -> Disk, ghost lists: nat -> seq<SnapMetric>)
      requires Valid() && CleanPrinter(fmt) && k < |enabled| && forall r :: CStringPaths(writer.Settings(), emits(r))
      requires AreReaders(disks, lists, writer.Settings(), d, enabled, emits, fmt)
      requires writer.View() == disks(k) && Portion(store.Staged(), lists(k), reliable)
      modifies Footprint()
      ensures Valid() && fresh(Footprint() - old(Footprint())) && writer.Settings() == old(writer.Settings())
      ensures writer.View() == disks(k + 1) && Portion(store.Staged(), lists(k + 1), reliable)
    {
      assert enabled[..k + 1][..k] == enabled[..k];
      ReaderTurn(writer.Settings(), d, enabled, emits, k, fmt);
      RunReader(emits(enabled[k]), fmt, reliable, lists(k));
    }

    method RunEachReader(enabled: seq<Registry.Reader>, emits: Source, fmt: Printer, reliable: bool,
                         ghost d: Disk, ghost disks: nat -> Disk, ghost lists: nat -> seq<SnapMetric>)
      requires Valid() && CleanPrinter(fmt) && forall r :: CStringPaths(writer.Settings(), emits(r))
      requires AreReaders(disks, lists, writer.Settings(), d, enabled, emits, fmt)
      requires writer.View() == disks(0) && Portion(store.Staged(), lists(0), reliable)
      modifies Footprint()
      ensures Valid() && fresh(Footprint() - old(Footprint())) && writer.Settings() == old(writer.Settings())
      ensures writer.View() == disks(|enabled|) && Portion(store.Staged(), lists(|enabled|), reliable)
    {
      ghost var c := writer.Settings();
      var k := 0;
      while k < |enabled|
        invariant 0 <= k <= |enabled| && Valid() && fresh(Footprint() - old(Footprint())) && writer.Settings() == c
        invariant writer.View() == disks(k) && Portion(store.Staged(), lists(k), reliable)
      {
        RunReaderAt(enabled, emits, k, fmt, reliable, d, disks, lists);
        k := k + 1;
      }
    }

    method RunReaders(enabled: seq<Registry.Reader>, emits: Source, fmt: Printer, reliable: bool)
      requires Valid() && CleanPrinter(fmt) && forall r :: CStringPaths(writer.Settings(), emits(r))
      requires store.Staged() == []
      modifies Footprint()
      ensures Valid() && fresh(Footprint() - old(Footprint())) && writer.Settings() == old(writer.Settings())
      ensures writer.View() == After(writer.Settings(), old(writer.View()), Emissions(enabled, emits), fmt)
      ensures Portion(store.Staged(), Copies(Emissions(enabled, emits)), reliable)
    {
      ghost var c, d := writer.Settings(), writer.View();
      ReadersOfACycle(c, d, enabled, emits, fmt);
      RunEachReader(enabled, emits, fmt, reliable, d, ReaderDisks(c, d, enabled, emits, fmt), ReaderLists(enabled, emits));
    }

    /** One turn of the interval loop. Whatever the writes return, what is published are
        copies of the metrics emitted in this cycle, in order, and nothing else: all of them
        unless an allocation fails. The disk has seen every one of them. */
    method RunCycle(enabled: seq<Registry.Reader>, emits: Source, fmt: Printer, reliable: bool)
      requires Valid() && CleanPrinter(fmt) && forall r :: CStringPaths(writer.Settings(), emits(r))
      modifies Footprint()
      ensures Valid() && fresh(Footprint() - old(Footprint())) && writer.Settings() == old(writer.Settings())
      ensures writer.View() == After(writer.Settings(), old(writer.View()), Emissions(enabled, emits), fmt)
      ensures Portion(store.Published(), Copies(Emissions(enabled, emits)), reliable)
    {
      var ok: bool := *;
      store.Begin(ok || reliable);
      RunReaders(enabled, emits, fmt, reliable);
      store.Publish();
    }

    method RunCycleAt(enabled: seq<Registry.Reader>, cycles: seq<Source>, k: nat, fmt: Printer, reliable: bool,
                      ghost disks: nat -> Disk, ghost lists: nat -> seq<SnapMetric>)
      requires Valid() && CleanPrinter(fmt) && k < |cycles| && forall r :: CStringPaths(writer.Settings(), cycles[k](r))
      requires AreCycles(disks, lists, writer.Settings(), enabled, cycles, fmt) && writer.View() == disks(k)
      modifies Footprint()
      ensures Valid() && fresh(Footprint() - old(Footprint())) && writer.Settings() == old(writer.Settings())
      ensures writer.View() == disks(k + 1) && Portion(store.Published(), lists(k + 1), reliable)
    {
      assert cycles[..k + 1][..k] == cycles[..k];
      CycleTurn(writer.Settings(), EMPTY, enabled, cycles, k, fmt);
      RunCycle(enabled, cycles[k], fmt, reliable);
    }

    method RunCycles(enabled: seq<Registry.Reader>, cycles: seq<Source>, fmt: Printer, reliable: bool,
                     ghost disks: nat -> Disk, ghost lists: nat -> seq<SnapMetric>)
      requires Valid() && CleanPrinter(fmt) && writer.View() == EMPTY && store.Published() == []
      requires forall k, r :: 0 <= k < |cycles| ==> CStringPaths(writer.Settings(), cycles[k](r))
      requires AreCycles(disks, lists, writer.Settings(), enabled, cycles, fmt)
      modifies Footprint()
      ensures Valid() && fresh(Footprint() - old(Footprint())) && writer.Settings() == old(writer.Settings())
      ensures writer.View() == disks(|cycles|) && Portion(store.Published(), lists(|cycles|), reliable)
    {
      ghost var c := writer.Settings();
      var k := 0;
      while k < |cycles|
        invariant 0 <= k <= |cycles| && Valid() && fresh(Footprint() - old(Footprint())) && writer.Settings() == c
        invariant writer.View() == disks(k) && Portion(store.Published(), lists(k), reliable)
      {
        RunCycleAt(enabled, cycles, k, fmt, reliable, disks, lists);
        k := k + 1;
      }
    }

    /** collect_run, for as many cycles as the running flag allows: the disk has seen the whole
        history, the last cycle is published, and if all metrics are of kinds that the readers
        emit, every file has one schema and every update fits its file. */
    method Run(enabled: seq<Registry.Reader>, cycles: seq<Source>, fmt: Printer, reliable: bool)
      requires Valid() && CleanPrinter(fmt) && writer.View() == EMPTY && store.Published() == []
      requires forall k, r :: 0 <= k < |cycles| ==> CStringPaths(writer.Settings(), cycles[k](r))
      modifies Footprint()
      ensures Valid() && fresh(Footprint() - old(Footprint())) && writer.Settings() == old(writer.Settings())
      ensures writer.View() == After(writer.Settings(), EMPTY, History(enabled, cycles), fmt)
      ensures Portion(store.Published(), Copies(LastCycle(enabled, cycles)), reliable)
      ensures FromReaders(History(enabled, cycles)) ==>
        UpdatesFit(writer.View()) && OneSchemaPerFile(writer.Settings(), AllEmittable(), writer.View().files)
    {
      ghost var c := writer.Settings();
      CyclesOfHistory(c, enabled, cycles, fmt);
      RunCycles(enabled, cycles, fmt, reliable, CycleDisks(c, enabled, cycles, fmt), CycleLists(enabled, cycles));
      ReaderRunFits(c, History(enabled, cycles), fmt);
    }

    /** A scrape after a run: the text parses, with the built-in table, into family blocks that
        hold together exactly the samples of the known metrics of the last cycle. */
    method RunThenScrape(enabled: seq<Registry.Reader>, cycles: seq<Source>, fmt: Printer, show: real -> string)
      returns (out: string, ghost gs: seq<Block<Item>>)
      requires Valid() && CleanPrinter(fmt) && writer.View() == EMPTY && store.Published() == []
      requires forall k, r :: 0 <= k < |cycles| ==> CStringPaths(writer.Settings(), cycles[k](r))
      requires forall v :: IsToken(Shown(P.Builtin(show), v))
      modifies Footprint()
      ensures IsScrapeOf(P.Builtin(show), out, gs, Copies(LastCycle(enabled, cycles)))
    {
      Run(enabled, cycles, fmt, true);
      ghost var es;
      out, es := store.Render(show, true, true);
      ghost var ms := store.Published();
      if ms == [] {
        gs := [];
        NothingToScrape(P.Builtin(show));
      } else {
        var kept := P.PartialScrapeParses(show, ms, es, out, true);
        gs := P.ScrapeIsCorrect(show, ms, es);
      }
    }
  }
}
