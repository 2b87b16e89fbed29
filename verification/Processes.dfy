/** Per-name aggregation of processes (src/readers/processes.c): a bounded table filled
    first come first served, against a group-by over the samples. */
module Processes {
  import opened CStrings
  import opened Lists
  import opened Metrics
  import opened Stat
  import Decimal

  const MAX_COMMS: nat := 256

  /** What one readable /proc/[pid] contributes. */
  datatype Sample = Sample(comm: string, rss: nat, utime: nat, stime: nat, threads: nat)

  /** Sums over processes; `procs` counts them. */
  datatype Totals = Totals(rss: nat, utime: nat, stime: nat, procs: nat, threads: nat)

  const ZERO := Totals(0, 0, 0, 0, 0)

  function Plus(t: Totals, s: Sample): Totals {
    Totals(t.rss + s.rss, t.utime + s.utime, t.stime + s.stime, t.procs + 1, t.threads + s.threads)
  }

  datatype Slot = Slot(comm: string, totals: Totals)

  // ---- one pid -----------------------------------------------------------------------

  /** A directory entry under /proc and the contents of its files, where readable. */
  datatype Entry = Entry(name: string, comm: Option<string>, stat: Option<string>, statm: Option<string>)

  predicate IsNumeric(s: string) { s != "" && Decimal.AllDigits(s) }

  function Bytes(pages: nat, pageSize: nat): nat { pages * pageSize }

  /** The sample of an entry; any unreadable or malformed file skips the process. */
  function SampleOf(e: Entry, pageSize: nat): (r: Option<Sample>)
    ensures r.Some? ==> 0 < |r.value.comm| < COMM_LEN
  {
    if !IsNumeric(e.name) || e.comm.None? then None
    else
      match ReadComm(e.comm.value)
      case None => None
      case Some(comm) => if e.stat.None? || e.statm.None? then None else Combined(comm, ReadStat(e.stat.value), ReadStatm(e.statm.value), pageSize)
  }

  function Combined(comm: string, times: Option<Times>, pages: Option<nat>, pageSize: nat): (r: Option<Sample>)
    ensures r.Some? ==> r.value.comm == comm
  {
    if times.None? || pages.None? then None
    else Some(Sample(comm, Bytes(pages.value, pageSize), times.value.utime, times.value.stime, times.value.threads))
  }

  /** End to end for one process: from the three files as the kernel prints them, whatever
      its name, the sample holds its name without trailing line ends, its resident bytes, its
      times and its threads; a name of line ends alone skips the process. */
  lemma PrintedProcessIsSampled(pid: nat, comm: string, state: string, fs: seq<int>, statTail: string,
                                size: nat, resident: nat, statmTail: string, pageSize: nat)
    requires |comm| < COMM_LEN && '\n' !in comm
    requires IsState(state) && |fs| == 17 && PlainTail(statTail) && '\n' !in statTail
    requires |PrintStat(pid, comm, state, fs, statTail)| < 1023
    requires 0 <= fs[10] < ULONG && 0 <= fs[11] < ULONG && 0 <= fs[16] < ULONG
    requires resident < ULONG && PlainTail(statmTail) && '\n' !in statmTail
    requires |Decimal.Digits(size) + FieldsText([resident], statmTail)| < 255
    ensures SampleOf(Entry(Decimal.Digits(pid), Some(comm + "\n"),
                           Some(PrintStat(pid, comm, state, fs, statTail) + "\n"),
                           Some(Decimal.Digits(size) + FieldsText([resident], statmTail) + "\n")), pageSize)
         == if Strip(comm) == "" then None
            else Some(Sample(Strip(comm), Bytes(resident, pageSize), fs[10], fs[11], fs[16]))
  {
    ShortComm(comm);
    StatFileRoundTrip(pid, comm, state, fs, statTail);
    StatmRoundTrip(size, resident, statmTail);
  }

  function SamplesOf(dir: seq<Entry>, pageSize: nat): (r: seq<Sample>)
    ensures forall i :: 0 <= i < |r| ==> 0 < |r[i].comm| < COMM_LEN
  {
    if dir == [] then []
    else
      var n := |dir| - 1;
      var s := SampleOf(dir[n], pageSize);
      SamplesOf(dir[..n], pageSize) + if s.Some? then [s.value] else []
  }

  // ---- the table, on values ---------------------------------------------------------------

  /** Index of the slot for `comm`, or the number of slots. */
  function SlotOf(table: seq<Slot>, comm: string): (i: nat)
    ensures i <= |table| && (i < |table| ==> table[i].comm == comm)
    ensures forall j :: 0 <= j < i ==> table[j].comm != comm
  {
    if table == [] then 0
    else if table[0].comm == comm then 0
    else
      var i := SlotOf(table[1..], comm);
      assert forall j :: 1 <= j < i + 1 ==> table[j] == table[1..][j - 1];
      i + 1
  }

  /** Adds one sample: to its slot, to a fresh slot, or nowhere when the table is full. */
  function AddSample(table: seq<Slot>, s: Sample, cap: nat): seq<Slot> {
    var i := SlotOf(table, s.comm);
    if i < |table| then table[i := Slot(s.comm, Plus(table[i].totals, s))]
    else if |table| >= cap then table
    else table + [Slot(s.comm, Plus(ZERO, s))]
  }

  function Aggregate(samples: seq<Sample>, cap: nat): seq<Slot> {
    if samples == [] then []
    else AddSample(Aggregate(samples[..|samples| - 1], cap), samples[|samples| - 1], cap)
  }

  // ---- the reference: group by name ----------------------------------------------------------

  /** Sums over exactly the samples with this name. */
  function SumOf(samples: seq<Sample>, comm: string): Totals {
    if samples == [] then ZERO
    else
      var n := |samples| - 1;
      var before := SumOf(samples[..n], comm);
      if samples[n].comm == comm then Plus(before, samples[n]) else before
  }

  /** The distinct names in order of first appearance. */
  function Names(samples: seq<Sample>): seq<string> {
    if samples == [] then []
    else
      var n := |samples| - 1;
      var before := Names(samples[..n]);
      if samples[n].comm in before then before else before + [samples[n].comm]
  }

  /** The table holds, in order, one slot for each of the first `cap` names, with the sums
      over all samples of that name. */
  ghost predicate IsGroupBy(table: seq<Slot>, samples: seq<Sample>, cap: nat) {
    var names := Take(Names(samples), cap);
    && |table| == |names|
    && forall i :: 0 <= i < |table| ==> table[i] == Slot(names[i], SumOf(samples, names[i]))
  }

  lemma {:induction false} NamesFacts(samples: seq<Sample>)
    ensures forall c :: c in Names(samples) <==> exists i :: 0 <= i < |samples| && samples[i].comm == c
    ensures forall i, j :: 0 <= i < j < |Names(samples)| ==> Names(samples)[i] != Names(samples)[j]
    decreases |samples|
  {
    if samples != [] {
      var n := |samples| - 1;
      var init := samples[..n];
      NamesFacts(init);
      assert forall i :: 0 <= i < n ==> init[i] == samples[i];
      forall c ensures c in Names(samples) <==> exists i :: 0 <= i < |samples| && samples[i].comm == c {
        if c in Names(init) {
          var i :| 0 <= i < |init| && init[i].comm == c;
          assert samples[i].comm == c;
        } else if samples[n].comm == c {
          assert c in Names(samples);
        }
      }
    }
  }

  lemma {:induction false} NoSamplesNoSum(samples: seq<Sample>, comm: string)
    requires forall i :: 0 <= i < |samples| ==> samples[i].comm != comm
    ensures SumOf(samples, comm) == ZERO
    decreases |samples|
  {
    if samples != [] {
      NoSamplesNoSum(samples[..|samples| - 1], comm);
    }
  }

  lemma SumStep(samples: seq<Sample>, s: Sample, comm: string)
    ensures SumOf(samples + [s], comm) == if s.comm == comm then Plus(SumOf(samples, comm), s) else SumOf(samples, comm)
  {
    assert (samples + [s])[..|samples|] == samples;
  }

  lemma NamesStep(samples: seq<Sample>, s: Sample)
    ensures Names(samples + [s]) == if s.comm in Names(samples) then Names(samples) else Names(samples) + [s.comm]
  {
    assert (samples + [s])[..|samples|] == samples;
  }

  /** Slots found by name are the slots of that name's position. */
  lemma SlotOfName(table: seq<Slot>, names: seq<string>, comm: string)
    requires |table| == |names| && forall i :: 0 <= i < |table| ==> table[i].comm == names[i]
    ensures SlotOf(table, comm) < |table| <==> comm in names
  {
    var i := SlotOf(table, comm);
    assert forall j :: 0 <= j < |names| ==> names[j] == table[j].comm;
    if i < |table| {
      assert names[i] == comm;
    }
  }

  /** Adding a sample whose name has a slot. */
  lemma AddKnown(table: seq<Slot>, samples: seq<Sample>, s: Sample, cap: nat)
    requires IsGroupBy(table, samples, cap) && SlotOf(table, s.comm) < |table|
    ensures IsGroupBy(AddSample(table, s, cap), samples + [s], cap)
  {
    var names := Take(Names(samples), cap);
    var k := SlotOf(table, s.comm);
    NamesFacts(samples);
    NamesStep(samples, s);
    assert names[k] == s.comm && names[k] == Names(samples)[k];
    var table' := AddSample(table, s, cap);
    forall i | 0 <= i < |table'| ensures table'[i] == Slot(names[i], SumOf(samples + [s], names[i])) {
      SumStep(samples, s, names[i]);
      assert names[i] == Names(samples)[i];
    }
  }

  /** A name without a slot: a fresh slot if there is room, otherwise dropped; in both
      cases no other name is affected. */
  lemma AddUnknown(table: seq<Slot>, samples: seq<Sample>, s: Sample, cap: nat)
    requires IsGroupBy(table, samples, cap) && SlotOf(table, s.comm) == |table|
    ensures IsGroupBy(AddSample(table, s, cap), samples + [s], cap)
  {
    var all, names := Names(samples), Take(Names(samples), cap);
    SlotOfName(table, names, s.comm);
    NamesFacts(samples);
    NamesStep(samples, s);
    var table', names' := AddSample(table, s, cap), Take(Names(samples + [s]), cap);
    if |all| < cap {
      assert names == all && names' == all + [s.comm];
      forall i | 0 <= i < |table| ensures table'[i] == Slot(names'[i], SumOf(samples + [s], names'[i])) {
        SumStep(samples, s, names[i]);
      }
      SumStep(samples, s, s.comm);
      forall i | 0 <= i < |samples| ensures samples[i].comm != s.comm {
        assert samples[i].comm in all;
      }
      NoSamplesNoSum(samples, s.comm);
    } else {
      assert names' == names;
      forall i | 0 <= i < |table'| ensures table'[i] == Slot(names[i], SumOf(samples + [s], names[i])) {
        SumStep(samples, s, names[i]);
      }
    }
  }

  /** Main theorem: for every sequence of samples the table is the group-by of the first
      `cap` names; only samples of later names are dropped. */
  lemma {:induction false} AggregateIsGroupBy(samples: seq<Sample>, cap: nat)
    ensures IsGroupBy(Aggregate(samples, cap), samples, cap)
    decreases |samples|
  {
    if samples != [] {
      var n := |samples| - 1;
      var init, s := samples[..n], samples[n];
      AggregateIsGroupBy(init, cap);
      assert samples == init + [s];
      var table := Aggregate(init, cap);
      if SlotOf(table, s.comm) < |table| {
        AddKnown(table, init, s, cap);
      } else {
        AddUnknown(table, init, s, cap);
      }
    }
  }

  // ---- independence of directory order ----------------------------------------------------

  lemma PlusCommutes(t: Totals, a: Sample, b: Sample)
    ensures Plus(Plus(t, a), b) == Plus(Plus(t, b), a)
  {
  }

  lemma {:induction false} SumWithout(samples: seq<Sample>, i: nat, comm: string)
    requires i < |samples|
    ensures SumOf(samples, comm) ==
            if samples[i].comm == comm then Plus(SumOf(Without(samples, i), comm), samples[i]) else SumOf(Without(samples, i), comm)
    decreases |samples|
  {
    var n := |samples| - 1;
    var init, last := samples[..n], samples[n];
    if i == n {
      assert Without(samples, i) == init;
    } else {
      SumWithout(init, i, comm);
      assert Without(samples, i) == Without(init, i) + [last];
      SumStep(Without(init, i), last, comm);
      PlusCommutes(SumOf(Without(init, i), comm), samples[i], last);
    }
  }

  /** The sums of a name do not depend on the order of the samples. */
  lemma {:induction false} SumPermutes(a: seq<Sample>, b: seq<Sample>, comm: string)
    requires multiset(a) == multiset(b)
    ensures SumOf(a, comm) == SumOf(b, comm)
    decreases |a|
  {
    assert |a| == |multiset(a)| == |multiset(b)| == |b|;
    if a != [] {
      var n := |a| - 1;
      assert a[n] in multiset(b);
      var i :| 0 <= i < |b| && b[i] == a[n];
      WithoutMultiset(a, n);
      WithoutMultiset(b, i);
      SumPermutes(Without(a, n), Without(b, i), comm);
      SumWithout(a, n, comm);
      SumWithout(b, i, comm);
    }
  }

  lemma NamesPermute(a: seq<Sample>, b: seq<Sample>, c: string)
    requires multiset(a) == multiset(b) && c in Names(a)
    ensures c in Names(b)
  {
    NamesFacts(a);
    NamesFacts(b);
    var i :| 0 <= i < |a| && a[i].comm == c;
    assert a[i] in multiset(b);
    var j :| 0 <= j < |b| && b[j] == a[i];
    assert b[j].comm == c;
  }

  /** The same samples in another order have the same names. */
  lemma NamesPermuted(a: seq<Sample>, b: seq<Sample>)
    requires multiset(a) == multiset(b)
    ensures multiset(Names(a)) == multiset(Names(b)) && |Names(a)| == |Names(b)|
    ensures forall c :: c in Names(a) <==> c in Names(b)
  {
    forall c ensures c in Names(a) <==> c in Names(b) {
      if c in Names(a) {
        NamesPermute(a, b, c);
      }
      if c in Names(b) {
        NamesPermute(b, a, c);
      }
    }
    NamesFacts(a);
    NamesFacts(b);
    SameMembers(Names(a), Names(b));
  }

  /** With room for every name, the table's slots are exactly the groups. */
  lemma SlotsAreGroups(samples: seq<Sample>, cap: nat, x: Slot)
    requires |Names(samples)| <= cap
    ensures Distinct(Aggregate(samples, cap))
    ensures x in Aggregate(samples, cap) <==> x.comm in Names(samples) && x.totals == SumOf(samples, x.comm)
  {
    AggregateIsGroupBy(samples, cap);
    NamesFacts(samples);
    var table, names := Aggregate(samples, cap), Names(samples);
    if x.comm in names && x.totals == SumOf(samples, x.comm) {
      var i :| 0 <= i < |names| && names[i] == x.comm;
      assert table[i] == x;
    }
  }

  /** While the table has room for every name, the order in which /proc lists the
      processes does not matter: the slots are the same, up to their order. */
  lemma OrderDoesNotMatter(a: seq<Sample>, b: seq<Sample>, cap: nat)
    requires multiset(a) == multiset(b) && |Names(a)| <= cap
    ensures multiset(Aggregate(a, cap)) == multiset(Aggregate(b, cap))
  {
    NamesPermuted(a, b);
    forall x ensures x in Aggregate(a, cap) <==> x in Aggregate(b, cap) {
      SlotsAreGroups(a, cap, x);
      SlotsAreGroups(b, cap, x);
      SumPermutes(a, b, x.comm);
    }
    SlotsAreGroups(a, cap, Slot("", ZERO));
    SlotsAreGroups(b, cap, Slot("", ZERO));
    SameMembers(Aggregate(a, cap), Aggregate(b, cap));
  }

  lemma {:induction false} FirstName(samples: seq<Sample>)
    requires samples != []
    ensures Names(samples) != [] && Names(samples)[0] == samples[0].comm
    decreases |samples|
  {
    var n := |samples| - 1;
    if n > 0 {
      FirstName(samples[..n]);
    } else {
      assert Names(samples[..n]) == [];
    }
  }

  /** Moving a sample to the front keeps the samples and guarantees its name a slot. */
  lemma MovedToFront(samples: seq<Sample>, k: nat, cap: nat) returns (b: seq<Sample>)
    requires k < |samples| && cap > 0
    ensures multiset(b) == multiset(samples)
    ensures Aggregate(b, cap) != [] && Aggregate(b, cap)[0].comm == samples[k].comm
  {
    b := [samples[k]] + Without(samples, k);
    WithoutMultiset(samples, k);
    FirstName(b);
    AggregateIsGroupBy(b, cap);
  }

  ghost predicate OrderIndependent(samples: seq<Sample>, cap: nat) {
    forall b :: multiset(b) == multiset(samples) ==> multiset(Aggregate(b, cap)) == multiset(Aggregate(samples, cap))
  }

  /** And only then: as soon as one name is dropped, some other order keeps it. */
  lemma OrderMattersExactlyWhenFull(samples: seq<Sample>, cap: nat)
    requires cap > 0
    ensures OrderIndependent(samples, cap) <==> |Names(samples)| <= cap
  {
    if |Names(samples)| <= cap {
      forall b | multiset(b) == multiset(samples)
        ensures multiset(Aggregate(b, cap)) == multiset(Aggregate(samples, cap))
      {
        OrderDoesNotMatter(samples, b, cap);
      }
    } else {
      var table, c := Aggregate(samples, cap), Names(samples)[cap];
      NamesFacts(samples);
      AggregateIsGroupBy(samples, cap);
      assert c in Names(samples);
      var k :| 0 <= k < |samples| && samples[k].comm == c;
      var b := MovedToFront(samples, k, cap);
      var lost := Aggregate(b, cap)[0];
      assert lost in multiset(Aggregate(b, cap));
      assert lost !in table;
      assert lost !in multiset(table);
    }
  }

  // ---- the reader, in place ---------------------------------------------------------------

  /** Finds or opens the slot for `comm` among the first `count`; -1 when the table is full. */
  method AggLookup(ag: array<Slot>, count: nat, comm: string) returns (idx: int, count': nat)
    requires count <= ag.Length && |comm| < COMM_LEN
    modifies ag
    ensures count <= count' <= ag.Length && -1 <= idx < count'
    ensures var table, i := old(ag[..count]), SlotOf(old(ag[..count]), comm);
            if i < count then idx == i && ag[..count'] == table
            else if count == ag.Length then idx == -1 && ag[..count'] == table
            else idx == count && ag[..count'] == table + [Slot(comm, ZERO)]
  {
    var i := 0;
    while i < count
      invariant 0 <= i <= count
      invariant forall j :: 0 <= j < i ==> ag[j].comm != comm
      invariant ag[..] == old(ag[..])
    {
      if ag[i].comm == comm {
        assert SlotOf(ag[..count], comm) == i;
        return i, count;
      }
      i := i + 1;
    }
    assert SlotOf(ag[..count], comm) == count;
    if count >= ag.Length {
      return -1, count;
    }
    ag[count] := Slot(Truncated(comm, COMM_LEN), ZERO);
    assert ag[..count + 1] == old(ag[..count]) + [Slot(comm, ZERO)];
    return count, count + 1;
  }

  /** Sums one process into the table. */
  method AddProcess(ag: array<Slot>, count: nat, s: Sample) returns (count': nat)
    requires count <= ag.Length && |s.comm| < COMM_LEN
    modifies ag
    ensures count' <= ag.Length
    ensures ag[..count'] == AddSample(old(ag[..count]), s, ag.Length)
  {
    var idx;
    ghost var table := ag[..count];
    idx, count' := AggLookup(ag, count, s.comm);
    if idx < 0 {
      return;
    }
    ghost var found := ag[..count'];
    ag[idx] := Slot(ag[idx].comm, Plus(ag[idx].totals, s));
    assert ag[..count'] == found[idx := Slot(s.comm, Plus(found[idx].totals, s))];
  }

  lemma SamplesStep(dir: seq<Entry>, n: nat, pageSize: nat)
    requires n < |dir|
    ensures var s := SampleOf(dir[n], pageSize);
            SamplesOf(dir[..n + 1], pageSize) ==
            if s.Some? then SamplesOf(dir[..n], pageSize) + [s.value] else SamplesOf(dir[..n], pageSize)
  {
    assert dir[..n + 1][..n] == dir[..n];
  }

  lemma AggregateStep(samples: seq<Sample>, s: Sample, cap: nat)
    ensures Aggregate(samples + [s], cap) == AddSample(Aggregate(samples, cap), s, cap)
  {
    assert (samples + [s])[..|samples|] == samples;
  }

  /** The scan of the directory: unreadable processes are skipped, the others summed. */
  method Collect(dir: seq<Entry>, pageSize: nat, ag: array<Slot>) returns (count: nat)
    modifies ag
    ensures count <= ag.Length
    ensures ag[..count] == Aggregate(SamplesOf(dir, pageSize), ag.Length)
  {
    count := 0;
    var i := 0;
    while i < |dir|
      invariant 0 <= i <= |dir| && count <= ag.Length
      invariant ag[..count] == Aggregate(SamplesOf(dir[..i], pageSize), ag.Length)
    {
      count := CollectEntry(dir, i, pageSize, ag, count);
      i := i + 1;
    }
    assert dir[..i] == dir;
  }

  /** One turn of the scan. */
  method CollectEntry(dir: seq<Entry>, i: nat, pageSize: nat, ag: array<Slot>, count: nat) returns (count': nat)
    requires i < |dir| && count <= ag.Length && ag[..count] == Aggregate(SamplesOf(dir[..i], pageSize), ag.Length)
    modifies ag
    ensures count' <= ag.Length && ag[..count'] == Aggregate(SamplesOf(dir[..i + 1], pageSize), ag.Length)
  {
    SamplesStep(dir, i, pageSize);
    count' := count;
    var s := SampleOf(dir[i], pageSize);
    if s.Some? {
      AggregateStep(SamplesOf(dir[..i], pageSize), s.value, ag.Length);
      count' := AddProcess(ag, count, s.value);
    }
  }

  function PsMetric(comm: string, typ: string, live: nat, v0: real, v1: real): Metric {
    Metric("processes", Some(comm), typ, None, live, [v0, v1, 0.0, 0.0])
  }

  /** The three metrics of one name. */
  function SlotMetrics(x: Slot): seq<Metric> {
    [PsMetric(x.comm, "ps_rss", 1, x.totals.rss as real, 0.0),
     PsMetric(x.comm, "ps_cputime", 2, x.totals.utime as real, x.totals.stime as real),
     PsMetric(x.comm, "ps_count", 2, x.totals.procs as real, x.totals.threads as real)]
  }

  function TableMetrics(table: seq<Slot>): seq<Metric> {
    if table == [] then [] else TableMetrics(table[..|table| - 1]) + SlotMetrics(table[|table| - 1])
  }

  lemma TableMetricsStep(table: seq<Slot>, n: nat)
    requires n < |table|
    ensures TableMetrics(table[..n + 1]) == TableMetrics(table[..n]) + SlotMetrics(table[n])
  {
    assert table[..n + 1][..n] == table[..n];
  }

  ghost function SlotBag(x: Slot): multiset<Metric> { multiset(SlotMetrics(x)) }

  lemma {:induction false} TableMetricsGathered(table: seq<Slot>)
    ensures multiset(TableMetrics(table)) == Gathered(SlotBag, table)
    decreases |table|
  {
    if table != [] {
      TableMetricsGathered(table[..|table| - 1]);
    }
  }

  ghost function SampleBag(pageSize: nat): Entry -> multiset<Sample> {
    (e: Entry) => var s := SampleOf(e, pageSize); if s.Some? then multiset{s.value} else multiset{}
  }

  lemma {:induction false} SamplesGathered(dir: seq<Entry>, pageSize: nat)
    ensures multiset(SamplesOf(dir, pageSize)) == Gathered(SampleBag(pageSize), dir)
    decreases |dir|
  {
    if dir != [] {
      SamplesGathered(dir[..|dir| - 1], pageSize);
    }
  }

  /** What the reader emits for a directory, in order. */
  function EmissionsOf(dir: seq<Entry>, pageSize: nat, cap: nat): seq<Metric> {
    TableMetrics(Aggregate(SamplesOf(dir, pageSize), cap))
  }

  /** From directory to emitted metrics: as long as the names fit the table, listing the
      processes in another order emits the same metrics. */
  lemma DirectoryOrderDoesNotMatter(a: seq<Entry>, b: seq<Entry>, pageSize: nat, cap: nat)
    requires multiset(a) == multiset(b) && |Names(SamplesOf(a, pageSize))| <= cap
    ensures multiset(EmissionsOf(a, pageSize, cap)) == multiset(EmissionsOf(b, pageSize, cap))
  {
    GatheredPermutes(SampleBag(pageSize), a, b);
    SamplesGathered(a, pageSize);
    SamplesGathered(b, pageSize);
    OrderDoesNotMatter(SamplesOf(a, pageSize), SamplesOf(b, pageSize), cap);
    var ta, tb := Aggregate(SamplesOf(a, pageSize), cap), Aggregate(SamplesOf(b, pageSize), cap);
    GatheredPermutes(SlotBag, ta, tb);
    TableMetricsGathered(ta);
    TableMetricsGathered(tb);
  }

  function FrontSample(e: Entry, pageSize: nat): seq<Sample> {
    var s := SampleOf(e, pageSize); if s.Some? then [s.value] else []
  }

  lemma {:induction false} SamplesFront(e: Entry, dir: seq<Entry>, pageSize: nat)
    ensures SamplesOf([e] + dir, pageSize) == FrontSample(e, pageSize) + SamplesOf(dir, pageSize)
    decreases |dir|
  {
    if dir == [] {
      SamplesBack([], e, pageSize);
      assert [e] + dir == [] + [e];
    } else {
      var init, last := dir[..|dir| - 1], dir[|dir| - 1];
      SamplesFront(e, init, pageSize);
      SamplesBack([e] + init, last, pageSize);
      SamplesBack(init, last, pageSize);
      assert dir == init + [last] && [e] + dir == ([e] + init) + [last];
      SamplesAssociate(FrontSample(e, pageSize), SamplesOf(init, pageSize), FrontSample(last, pageSize));
    }
  }

  lemma SamplesAssociate(a: seq<Sample>, b: seq<Sample>, c: seq<Sample>)
    ensures (a + b) + c == a + (b + c)
  {
  }

  lemma SamplesBack(dir: seq<Entry>, e: Entry, pageSize: nat)
    ensures SamplesOf(dir + [e], pageSize) == SamplesOf(dir, pageSize) + FrontSample(e, pageSize)
  {
    assert (dir + [e])[..|dir|] == dir;
  }

  lemma {:induction false} EntryWithName(dir: seq<Entry>, pageSize: nat, c: string) returns (k: nat)
    requires c in Names(SamplesOf(dir, pageSize))
    ensures k < |dir| && SampleOf(dir[k], pageSize).Some? && SampleOf(dir[k], pageSize).value.comm == c
    decreases |dir|
  {
    var n := |dir| - 1;
    var init := dir[..n];
    SamplesStep(dir, n, pageSize);
    assert dir[..n + 1] == dir;
    var s := SampleOf(dir[n], pageSize);
    if s.Some? && s.value.comm == c {
      k := n;
    } else {
      if s.Some? {
        NamesStep(SamplesOf(init, pageSize), s.value);
      }
      k := EntryWithName(init, pageSize, c);
    }
  }

  lemma {:induction false} MetricsNameSlots(table: seq<Slot>, m: Metric)
    requires m in TableMetrics(table)
    ensures exists x :: x in table && m.pluginInstance == Some(x.comm)
    decreases |table|
  {
    var n := |table| - 1;
    if m in TableMetrics(table[..n]) {
      MetricsNameSlots(table[..n], m);
      var x :| x in table[..n] && m.pluginInstance == Some(x.comm);
      assert x in table;
    } else {
      assert m in SlotMetrics(table[n]);
      assert table[n] in table;
    }
  }

  lemma {:induction false} SlotIsEmitted(table: seq<Slot>, i: nat)
    requires i < |table|
    ensures SlotMetrics(table[i])[0] in TableMetrics(table)
    decreases |table|
  {
    var n := |table| - 1;
    if i < n {
      SlotIsEmitted(table[..n], i);
    }
  }

  /** A name that got no slot emits nothing. */
  lemma DroppedEmitsNothing(samples: seq<Sample>, cap: nat, m: Metric)
    requires |Names(samples)| > cap && m.pluginInstance == Some(Names(samples)[cap])
    ensures m !in TableMetrics(Aggregate(samples, cap))
  {
    var table, names := Aggregate(samples, cap), Names(samples);
    AggregateIsGroupBy(samples, cap);
    NamesFacts(samples);
    forall x | x in table ensures x.comm != names[cap] {
      var i :| 0 <= i < |table| && table[i] == x;
      assert names[i] != names[cap];
    }
    if m in TableMetrics(table) {
      MetricsNameSlots(table, m);
    }
  }

  /** Moving the entry of a dropped name to the front emits something new. */
  lemma FrontEntryIsEmitted(dir: seq<Entry>, pageSize: nat, k: nat, cap: nat) returns (b: seq<Entry>, m: Metric)
    requires k < |dir| && SampleOf(dir[k], pageSize).Some? && cap > 0
    ensures multiset(b) == multiset(dir)
    ensures m in EmissionsOf(b, pageSize, cap) && m.pluginInstance == Some(SampleOf(dir[k], pageSize).value.comm)
  {
    b := [dir[k]] + Without(dir, k);
    WithoutMultiset(dir, k);
    SamplesFront(dir[k], Without(dir, k), pageSize);
    var samples := SamplesOf(b, pageSize);
    FirstName(samples);
    AggregateIsGroupBy(samples, cap);
    SlotIsEmitted(Aggregate(samples, cap), 0);
    m := SlotMetrics(Aggregate(samples, cap)[0])[0];
  }

  ghost predicate DirectoryOrderIndependent(dir: seq<Entry>, pageSize: nat, cap: nat) {
    forall b :: multiset(b) == multiset(dir) ==> multiset(EmissionsOf(b, pageSize, cap)) == multiset(EmissionsOf(dir, pageSize, cap))
  }

  /** And only then: the emitted metrics are independent of the order of the directory if and
      only if the names of its processes fit the table. */
  lemma DirectoryOrderMattersExactlyWhenFull(dir: seq<Entry>, pageSize: nat, cap: nat)
    requires cap > 0
    ensures DirectoryOrderIndependent(dir, pageSize, cap) <==> |Names(SamplesOf(dir, pageSize))| <= cap
  {
    var samples := SamplesOf(dir, pageSize);
    if |Names(samples)| <= cap {
      forall b | multiset(b) == multiset(dir)
        ensures multiset(EmissionsOf(b, pageSize, cap)) == multiset(EmissionsOf(dir, pageSize, cap))
      {
        DirectoryOrderDoesNotMatter(dir, b, pageSize, cap);
      }
    } else {
      var k := EntryWithName(dir, pageSize, Names(samples)[cap]);
      var b, m := FrontEntryIsEmitted(dir, pageSize, k, cap);
      DroppedEmitsNothing(samples, cap, m);
      assert m in multiset(EmissionsOf(b, pageSize, cap));
      assert m !in multiset(EmissionsOf(dir, pageSize, cap));
    }
  }

  /** processes_read: everything handed to the emit callback, in order. */
  method ReadProcesses(dir: Option<seq<Entry>>, pageSize: int) returns (ok: bool, emitted: seq<Metric>)
    ensures ok == dir.Some?
    ensures emitted == if ok then TableMetrics(Aggregate(SamplesOf(dir.value, if pageSize <= 0 then 4096 else pageSize), MAX_COMMS)) else []
  {
    if dir.None? {
      return false, [];
    }
    var page: nat := if pageSize <= 0 then 4096 else pageSize;
    var ag := new Slot[MAX_COMMS](_ => Slot("", ZERO));
    var count := Collect(dir.value, page, ag);
    ghost var table := ag[..count];
    ok, emitted := true, [];
    var i := 0;
    while i < count
      invariant 0 <= i <= count
      invariant ag[..count] == table
      invariant emitted == TableMetrics(table[..i])
    {
      TableMetricsStep(table, i);
      assert ag[i] == table[i];
      emitted := emitted + SlotMetrics(ag[i]);
      i := i + 1;
    }
    assert table[..i] == table;
  }
}
