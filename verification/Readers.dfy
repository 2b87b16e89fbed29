/** The modelled readers plugged into the collection loop: what cpu and processes emit in a
    cycle, and what that means for the files and for a scrape. */
module Readers {
  import opened CStrings
  import opened Metrics
  import opened Writer
  import opened WriterRun
  import opened Emitters
  import Registry
  import Collect
  import Cpu
  import Processes

  /** What the kernel shows in one cycle, and how the outside world answers each write: the
      cpu counters and the processes, where readable. */
  datatype Input = Input(cpu: Option<Cpu.Counters>, dir: Option<seq<Processes.Entry>>, pageSize: int, envs: nat -> Env)

  function CpuMetric(pct: real): Metric {
    Metric("cpu", Some("total"), "percent", Some("active"), 1, [pct, 0.0, 0.0, 0.0])
  }

  function CpuMetrics(prev: Cpu.Prev, input: Input): seq<Metric> {
    var pct := Cpu.Read(prev, input.cpu).1;
    if pct.Some? then [CpuMetric(pct.value)] else []
  }

  function ProcessMetrics(input: Input): seq<Metric> {
    if input.dir.None? then [] else Processes.TableMetrics(TableOf(input.dir.value, input.pageSize))
  }

  function TableOf(dir: seq<Processes.Entry>, pageSize: int): seq<Processes.Slot> {
    Processes.Aggregate(Processes.SamplesOf(dir, if pageSize <= 0 then 4096 else pageSize), Processes.MAX_COMMS)
  }

  function Answered(ms: seq<Metric>, envs: nat -> Env): seq<Event> {
    if ms == [] then []
    else Answered(ms[..|ms| - 1], envs) + [Event(ms[|ms| - 1], envs(|ms| - 1))]
  }

  /** One cycle of the two readers; `prev` is the state the cpu reader is in. */
  function SourceOf(prev: Cpu.Prev, input: Input): Collect.Source {
    (r: Registry.Reader) =>
      if r.Cpu? then Answered(CpuMetrics(prev, input), input.envs)
      else if r.Processes? then Answered(ProcessMetrics(input), input.envs)
      else []
  }

  /** The cycles of a run; the cpu reader carries its state from one to the next. */
  function SourcesOf(inputs: seq<Input>): seq<Collect.Source> {
    if inputs == [] then []
    else
      var n := |inputs| - 1;
      SourcesOf(inputs[..n]) + [SourceOf(Cpu.After(CpuReadings(inputs[..n])), inputs[n])]
  }

  function CpuReadings(inputs: seq<Input>): seq<Option<Cpu.Counters>> {
    if inputs == [] then [] else CpuReadings(inputs[..|inputs| - 1]) + [inputs[|inputs| - 1].cpu]
  }

  lemma {:induction false} AnsweredMetrics(ms: seq<Metric>, envs: nat -> Env)
    ensures |Answered(ms, envs)| == |ms| && forall i :: 0 <= i < |ms| ==> Answered(ms, envs)[i].m == ms[i]
    decreases |ms|
  {
    if ms != [] {
      AnsweredMetrics(ms[..|ms| - 1], envs);
    }
  }

  lemma SlotMetricsAreEmittable(x: Processes.Slot)
    ensures forall i :: 0 <= i < 3 ==> Emittable(Processes.SlotMetrics(x)[i])
  {
    var ms := Processes.SlotMetrics(x);
    assert EmittedAs(ms[0], 12) && EmittedAs(ms[1], 13) && EmittedAs(ms[2], 14);
  }

  lemma {:induction false} TableMetricsAreEmittable(table: seq<Processes.Slot>)
    ensures forall i :: 0 <= i < |Processes.TableMetrics(table)| ==> Emittable(Processes.TableMetrics(table)[i])
    decreases |table|
  {
    if table != [] {
      TableMetricsAreEmittable(table[..|table| - 1]);
      SlotMetricsAreEmittable(table[|table| - 1]);
    }
  }

  lemma SourceIsFromReaders(prev: Cpu.Prev, input: Input, r: Registry.Reader)
    ensures Collect.FromReaders(SourceOf(prev, input)(r))
  {
    if r.Cpu? {
      var ms := CpuMetrics(prev, input);
      AnsweredMetrics(ms, input.envs);
      assert forall i :: 0 <= i < |ms| ==> EmittedAs(ms[i], 0);
    } else if r.Processes? {
      var ms := ProcessMetrics(input);
      AnsweredMetrics(ms, input.envs);
      if input.dir.Some? {
        TableMetricsAreEmittable(TableOf(input.dir.value, input.pageSize));
      }
    }
  }

  lemma {:induction false} EmissionsAreFromReaders(enabled: seq<Registry.Reader>, prev: Cpu.Prev, input: Input)
    ensures Collect.FromReaders(Collect.Emissions(enabled, SourceOf(prev, input)))
    decreases |enabled|
  {
    if enabled != [] {
      EmissionsAreFromReaders(enabled[..|enabled| - 1], prev, input);
      SourceIsFromReaders(prev, input, enabled[|enabled| - 1]);
    }
  }

  lemma {:induction false} HistoryIsFromReaders(enabled: seq<Registry.Reader>, inputs: seq<Input>)
    ensures Collect.FromReaders(Collect.History(enabled, SourcesOf(inputs)))
    decreases |inputs|
  {
    if inputs != [] {
      var n := |inputs| - 1;
      var prev := Cpu.After(CpuReadings(inputs[..n]));
      HistoryIsFromReaders(enabled, inputs[..n]);
      EmissionsAreFromReaders(enabled, prev, inputs[n]);
      HistorySnoc(enabled, SourcesOf(inputs[..n]), SourceOf(prev, inputs[n]));
    }
  }

  lemma HistorySnoc(enabled: seq<Registry.Reader>, cycles: seq<Collect.Source>, s: Collect.Source)
    requires Collect.FromReaders(Collect.History(enabled, cycles)) && Collect.FromReaders(Collect.Emissions(enabled, s))
    ensures Collect.FromReaders(Collect.History(enabled, cycles + [s]))
  {
    assert (cycles + [s])[..|cycles|] == cycles;
  }

  /** Whatever the kernel shows and whatever fails, a collection run of these readers leaves
      every file with one schema and every update fitting its file. */
  lemma ModelledRunsFit(c: Config, enabled: seq<Registry.Reader>, inputs: seq<Input>, fmt: Printer)
    requires CleanPrinter(fmt)
    ensures var d := After(c, EMPTY, Collect.History(enabled, SourcesOf(inputs)), fmt);
            UpdatesFit(d) && OneSchemaPerFile(c, AllEmittable(), d.files)
  {
    HistoryIsFromReaders(enabled, inputs);
    EveryReaderRunFits(c, Collect.History(enabled, SourcesOf(inputs)), fmt);
  }
}
