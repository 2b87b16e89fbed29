/** The CPU reader's delta state machine (src/readers/cpu.c). */
module Cpu {
  import opened CStrings

  /** The ten counters of the aggregate line. */
  datatype Counters = Counters(user: int, nice: int, system: int, idle: int, iowait: int,
                               irq: int, softirq: int, steal: int, guest: int, gnice: int)

  function Total(c: Counters): int {
    c.user + c.nice + c.system + c.idle + c.iowait + c.irq + c.softirq + c.steal + c.guest + c.gnice
  }

  function Busy(c: Counters): int { Total(c) - c.idle - c.iowait }

  /** Previous sample; -1 before the first. */
  datatype Prev = Prev(busy: int, total: int)

  const START := Prev(-1, -1)

  /** One read: a sample, or None when the file or its aggregate line is missing. Returns
      the new state and the percentage emitted, if any. */
  function Read(p: Prev, sample: Option<Counters>): (Prev, Option<real>) {
    match sample
    case None => (p, None)
    case Some(c) =>
      (Prev(Busy(c), Total(c)),
       if p.busy >= 0 && Total(c) - p.total > 0
       then Some(100.0 * (Busy(c) - p.busy) as real / (Total(c) - p.total) as real) else None)
  }

  /** The static state of the reader. */
  class CpuReader {
    var prevBusy: int
    var prevTotal: int

    function View(): Prev
      reads this
    {
      Prev(prevBusy, prevTotal)
    }

    constructor ()
      ensures View() == START
    {
      prevBusy, prevTotal := -1, -1;
    }

    method ReadSample(sample: Option<Counters>) returns (rc: int, pct: Option<real>)
      modifies this
      ensures rc == if sample.None? then -1 else 0
      ensures (View(), pct) == Read(old(View()), sample)
    {
      pct := None;
      if sample.None? {
        return -1, None;
      }
      var c := sample.value;
      var total := c.user + c.nice + c.system + c.idle + c.iowait + c.irq + c.softirq + c.steal + c.guest + c.gnice;
      var busy := total - c.idle - c.iowait;
      if prevBusy >= 0 && total - prevTotal > 0 {
        pct := Some(100.0 * (busy - prevBusy) as real / (total - prevTotal) as real);
      }
      prevBusy := busy;
      prevTotal := total;
      rc := 0;
    }
  }

  // ---- whole runs ------------------------------------------------------------------

  predicate NonNegative(c: Counters) {
    && c.user >= 0 && c.nice >= 0 && c.system >= 0 && c.idle >= 0 && c.iowait >= 0
    && c.irq >= 0 && c.softirq >= 0 && c.steal >= 0 && c.guest >= 0 && c.gnice >= 0
  }

  /** Component-wise non-decreasing. */
  predicate Below(a: Counters, b: Counters) {
    && a.user <= b.user && a.nice <= b.nice && a.system <= b.system && a.idle <= b.idle && a.iowait <= b.iowait
    && a.irq <= b.irq && a.softirq <= b.softirq && a.steal <= b.steal && a.guest <= b.guest && a.gnice <= b.gnice
  }

  /** Non-negative counters that never run backwards; failed reads may come in between. */
  ghost predicate Monotone(run: seq<Option<Counters>>) {
    && (forall i :: 0 <= i < |run| && run[i].Some? ==> NonNegative(run[i].value))
    && (forall i, j :: 0 <= i < j < |run| && run[i].Some? && run[j].Some? ==> Below(run[i].value, run[j].value))
  }

  /** The last sample of a run, if any. */
  function Last(run: seq<Option<Counters>>): Option<Counters> {
    if run == [] then None
    else if run[|run| - 1].Some? then run[|run| - 1] else Last(run[..|run| - 1])
  }

  function First(run: seq<Option<Counters>>): Option<Counters> {
    if run == [] then None else if run[0].Some? then run[0] else First(run[1..])
  }

  /** State after a run. */
  function After(run: seq<Option<Counters>>): Prev {
    if run == [] then START else Read(After(run[..|run| - 1]), run[|run| - 1]).0
  }

  /** What the last read of a non-empty run emits. */
  function Emitted(run: seq<Option<Counters>>): Option<real>
    requires run != []
  {
    Read(After(run[..|run| - 1]), run[|run| - 1]).1
  }

  lemma {:induction false} LastIsSample(run: seq<Option<Counters>>)
    ensures Last(run).Some? ==> exists i :: 0 <= i < |run| && run[i] == Last(run)
    ensures Last(run).None? ==> forall i :: 0 <= i < |run| ==> run[i].None?
    decreases |run|
  {
    if run != [] && run[|run| - 1].None? {
      LastIsSample(run[..|run| - 1]);
    }
  }

  /** The static variables hold the last successful sample. */
  lemma {:induction false} StateIsLastSample(run: seq<Option<Counters>>)
    ensures After(run) == match Last(run) case None => START case Some(c) => Prev(Busy(c), Total(c))
    decreases |run|
  {
    if run != [] {
      StateIsLastSample(run[..|run| - 1]);
    }
  }

  lemma DeltasAreOrdered(a: Counters, b: Counters)
    requires Below(a, b)
    ensures 0 <= Busy(b) - Busy(a) <= Total(b) - Total(a)
  {
  }

  lemma PercentageInRange(busy: int, total: int)
    requires 0 <= busy <= total && total > 0
    ensures 0.0 <= 100.0 * busy as real / total as real <= 100.0
    ensures (100.0 * busy as real / total as real) * total as real == 100.0 * busy as real
  {
    var b, t := busy as real, total as real;
    var q := 100.0 * b / t;
    assert q * t == 100.0 * b;
    assert q < 0.0 ==> q * t < 0.0;
    assert q > 100.0 ==> q * t > 100.0 * t;
  }

  /** A quotient of integers lies between 0 and 100 percent exactly when its parts do. */
  lemma QuotientInRange(busy: int, total: int)
    requires total > 0
    ensures var q := 100.0 * busy as real / total as real;
            && (q < 0.0 <==> busy < 0)
            && (q > 100.0 <==> busy > total)
  {
    var b, t := busy as real, total as real;
    var q := 100.0 * b / t;
    assert q * t == 100.0 * b;
    if q < 0.0 {
      assert q * t < 0.0;
    } else {
      assert q * t >= 0.0;
    }
    if q > 100.0 {
      assert q * t > 100.0 * t;
    } else {
      assert q * t <= 100.0 * t;
    }
  }

  /** Time not busy. */
  function Idle(c: Counters): int { c.idle + c.iowait }

  /** What a second sample emits, for any counters: it is negative exactly when the busy
      time ran backwards and above 100 exactly when idle plus iowait did. The single
      counters do not matter. */
  lemma RangeExactly(a: Counters, b: Counters)
    requires Busy(a) >= 0 && Total(b) > Total(a)
    ensures var pct := Read(Prev(Busy(a), Total(a)), Some(b)).1;
            && pct.Some?
            && (pct.value < 0.0 <==> Busy(b) < Busy(a))
            && (pct.value > 100.0 <==> Idle(b) < Idle(a))
  {
    QuotientInRange(Busy(b) - Busy(a), Total(b) - Total(a));
  }

  /** In any run, a read emits exactly when an earlier sample with non-negative busy time
      exists and the total advanced, and what it emits lies between 0 and 100 exactly when
      neither the busy time nor idle plus iowait ran backwards since that sample. */
  lemma EmitsExactly(run: seq<Option<Counters>>)
    requires run != []
    ensures var prev, now := Last(run[..|run| - 1]), run[|run| - 1];
            && (Emitted(run).Some? <==>
                  now.Some? && prev.Some? && Busy(prev.value) >= 0 && Total(now.value) > Total(prev.value))
            && (Emitted(run).Some? ==>
                  (0.0 <= Emitted(run).value <= 100.0 <==>
                   Busy(prev.value) <= Busy(now.value) && Idle(prev.value) <= Idle(now.value)))
  {
    var n := |run| - 1;
    StateIsLastSample(run[..n]);
    var prev, now := Last(run[..n]), run[n];
    if prev.Some? && now.Some? && Busy(prev.value) >= 0 && Total(now.value) > Total(prev.value) {
      RangeExactly(prev.value, now.value);
    }
  }

  /** Counters that never run backwards are enough: every read after the first that
      advances the total emits a value between 0 and 100. */
  lemma MonotoneRunsStayInRange(run: seq<Option<Counters>>)
    requires run != [] && Monotone(run)
    ensures var prev, now := Last(run[..|run| - 1]), run[|run| - 1];
            && (Emitted(run).Some? <==> now.Some? && prev.Some? && Total(now.value) > Total(prev.value))
            && (Emitted(run).Some? ==> 0.0 <= Emitted(run).value <= 100.0)
  {
    var n := |run| - 1;
    var init := run[..n];
    LastIsSample(init);
    EmitsExactly(run);
    var prev, now := Last(init), run[n];
    if prev.Some? && now.Some? {
      var i :| 0 <= i < |init| && init[i] == prev;
      assert run[i] == prev && NonNegative(run[i].value) && Below(run[i].value, run[n].value);
    }
  }

  /** The percentage a read emits, weighted by the total it covers. */
  function Weight(p: Prev, sample: Option<Counters>): real {
    var pct := Read(p, sample).1;
    if pct.Some? then pct.value * (Total(sample.value) - p.total) as real else 0.0
  }

  function Weighted(run: seq<Option<Counters>>): real {
    if run == [] then 0.0 else Weighted(run[..|run| - 1]) + Weight(After(run[..|run| - 1]), run[|run| - 1])
  }

  /** A read adds 100 times its busy delta, whether or not it emits. */
  lemma WeightIsBusyDelta(a: Counters, b: Counters)
    requires NonNegative(a) && Below(a, b)
    ensures Weight(Prev(Busy(a), Total(a)), Some(b)) == 100.0 * (Busy(b) - Busy(a)) as real
  {
    DeltasAreOrdered(a, b);
    if Total(b) > Total(a) {
      PercentageInRange(Busy(b) - Busy(a), Total(b) - Total(a));
    }
  }

  lemma {:induction false} FirstOfPrefix(run: seq<Option<Counters>>, n: nat)
    requires n < |run|
    ensures First(run[..n]).Some? ==> First(run) == First(run[..n])
    ensures First(run[..n]).None? <==> Last(run[..n]).None?
    ensures First(run[..n]).None? && n == |run| - 1 ==> First(run) == run[n]
    decreases |run|
  {
    if n > 0 {
      var t := run[1..];
      FirstOfPrefix(t, n - 1);
      assert run[..n][1..] == t[..n - 1];
      if run[0].None? {
        LastOfTail(run[..n]);
      } else {
        LastIsSample(run[..n]);
      }
    } else {
      assert run[..0] == [];
      if |run| == 1 {
        assert First(run[1..]) == None;
      }
    }
  }

  lemma {:induction false} LastOfTail(run: seq<Option<Counters>>)
    requires run != [] && run[0].None?
    ensures Last(run) == Last(run[1..])
    decreases |run|
  {
    var n := |run| - 1;
    if n > 0 && run[n].None? {
      LastOfTail(run[..n]);
      assert run[..n][1..] == run[1..][..n - 1];
    }
  }

  /** 100 times the busy time between two samples. */
  function BusyBetween(a: Option<Counters>, b: Option<Counters>): real {
    if a.Some? && b.Some? then 100.0 * (Busy(b.value) - Busy(a.value)) as real else 0.0
  }

  lemma LastWeight(run: seq<Option<Counters>>)
    requires run != [] && Monotone(run)
    ensures var n := |run| - 1;
            Weight(After(run[..n]), run[n]) == BusyBetween(Last(run[..n]), run[n])
  {
    var n := |run| - 1;
    var init, prev := run[..n], Last(run[..n]);
    StateIsLastSample(init);
    LastIsSample(init);
    if prev.Some? && run[n].Some? {
      var i :| 0 <= i < |init| && init[i] == prev;
      assert run[i] == prev && NonNegative(run[i].value) && Below(run[i].value, run[n].value);
      WeightIsBusyDelta(prev.value, run[n].value);
    }
  }

  /** The weighted percentages telescope to 100 times the busy time of the whole run. */
  lemma {:induction false} PercentagesTelescope(run: seq<Option<Counters>>)
    requires Monotone(run)
    ensures Weighted(run) == BusyBetween(First(run), Last(run))
    decreases |run|
  {
    if run != [] {
      var n := |run| - 1;
      var init := run[..n];
      LastWeight(run);
      FirstOfPrefix(run, n);
      PercentagesTelescope(init);
      Chain(First(init), Last(init), First(run), run[n]);
    }
  }

  lemma Chain(first: Option<Counters>, last: Option<Counters>, first': Option<Counters>, now: Option<Counters>)
    requires if first.Some? then first' == first && last.Some? else first' == now && last.None?
    ensures BusyBetween(first, last) + BusyBetween(last, now) == BusyBetween(first', if now.Some? then now else last)
  {
  }

  /** A pair of the kind RangeExactly puts above 100: iowait runs backwards further than
      idle advances. */
  lemma BackwardsIowaitOverflows()
    ensures var a := Counters(0, 0, 0, 0, 10, 0, 0, 0, 0, 0);
            var b := Counters(20, 0, 0, 0, 5, 0, 0, 0, 0, 0);
            var pct := Read(Read(START, Some(a)).0, Some(b)).1;
            pct.Some? && pct.value > 100.0
  {
    var b := Counters(20, 0, 0, 0, 5, 0, 0, 0, 0, 0);
    assert Total(b) == 25 && Busy(b) == 20;
    assert Read(START, Some(Counters(0, 0, 0, 0, 10, 0, 0, 0, 0, 0))).0 == Prev(0, 10);
    var q := 100.0 * 20 as real / 15 as real;
    assert q > 100.0;
    assert Read(Prev(0, 10), Some(b)).1 == Some(q);
  }
}
