/** The whole endpoint: what a scraper reads in any interleaving of the collection thread and
    the HTTP threads, in terms of what the collector did before the scrape. */
module Scrapes {
  import opened CStrings
  import opened Metrics
  import opened Snapshot
  import opened SnapshotRuns
  import opened Exposition
  import opened Grouping
  import opened Render
  import P = Prom

  /** What the adds of the last published cycle before step k stored, read off the steps
      alone; nothing before the first publish. */
  function PublishedBefore(steps: seq<Step>, k: nat): seq<SnapMetric>
    requires k <= |steps|
  {
    if k == 0 then []
    else if steps[k - 1].PublishSet? then AcceptedSince(steps, k - 1)
    else PublishedBefore(steps, k - 1)
  }

  lemma {:induction false} HistoryFollowsSteps(states: seq<State>, steps: seq<Step>, k: nat)
    requires IsRun(states, steps) && k < |states|
    ensures At(states[k].history, |states[k].history|) == PublishedBefore(steps, k)
    decreases k
  {
    if k == 0 {
      assert states[0].history == [];
    } else {
      var h := k - 1;
      HistoryFollowsSteps(states, steps, h);
      LastCycleAfter(states, steps, h, k);
      PublishedStep(steps, h, k);
    }
  }

  lemma PublishedStep(steps: seq<Step>, h: nat, k: nat)
    requires k == h + 1 <= |steps|
    ensures PublishedBefore(steps, k) == if steps[h].PublishSet? then AcceptedSince(steps, h) else PublishedBefore(steps, h)
  {
  }

  /** A step leaves the last published snapshot alone unless it publishes. */
  lemma LastCycleAfter(states: seq<State>, steps: seq<Step>, h: nat, k: nat)
    requires IsRun(states, steps) && k == h + 1 <= |steps|
    ensures At(states[k].history, |states[k].history|) ==
            if steps[h].PublishSet? then AcceptedSince(steps, h) else At(states[h].history, |states[h].history|)
  {
    assert Moves(states[h], steps[h], states[k]);
    StepMovesHistory(states[h], steps[h]);
    if steps[h].PublishSet? {
      AcceptedFollowsSteps(states, steps, h);
      AtLast(states[h].history, states[h].open);
    }
  }

  lemma AtLast(history: seq<Cycle>, c: Cycle)
    ensures At(history + [c], |history + [c]|) == c.items
  {
  }

  /** Main theorem: in every interleaving of the collector with any number of renders, the text
      rendered from the copy of a finished render, in any order qsort may leave, parses into
      family blocks in strictly increasing order, each headed once, whose samples are exactly
      those of the metrics stored in the last cycle published before the render locked. */
  lemma EveryScrapeIsCorrect(states: seq<State>, steps: seq<Step>, i: nat, j: nat, r: nat,
                             fmt: real -> string, es: seq<Entry>) returns (gs: seq<Block<Item>>)
    requires IsRun(states, steps) && Finished(states, steps, i, j, r)
    requires forall v :: IsToken(Shown(P.Builtin(fmt), v))
    requires QsortResult(P.Builtin(fmt), states[j].renderers[r].copy, es)
    ensures IsScrapeOf(P.Builtin(fmt), Text(P.Builtin(fmt), states[j].renderers[r].copy, es), gs, PublishedBefore(steps, i))
  {
    RenderReturnsOneCycle(states, steps, i, j, r);
    HistoryFollowsSteps(states, steps, i);
    gs := P.ScrapeIsCorrect(fmt, states[j].renderers[r].copy, es);
  }
}
