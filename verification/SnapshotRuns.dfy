/** Whole interleavings of the snapshot protocol. */
module SnapshotRuns {
  import opened CStrings
  import opened Lists
  import opened Metrics
  import opened Snapshot

  /** An execution: states joined by enabled steps of any thread, in any order. */
  ghost predicate IsRun(states: seq<State>, steps: seq<Step>) {
    && |states| == |steps| + 1
    && Init(states[0])
    && forall k :: 0 <= k < |steps| ==> Moves(states[k], steps[k], states[k + 1])
  }

  ghost predicate Moves(s: State, step: Step, s': State) { Enabled(s, step) && s' == Apply(s, step) }

  /** The invariant holds in every state of every interleaving. */
  lemma {:induction false} EveryStateIsSafe(states: seq<State>, steps: seq<Step>, k: nat)
    requires IsRun(states, steps) && k < |states|
    ensures Inv(states[k])
    decreases k
  {
    if k == 0 {
      InitInv(states[0]);
    } else {
      EveryStateIsSafe(states, steps, k - 1);
      assert Moves(states[k - 1], steps[k - 1], states[k]);
      StepKeepsInv(states[k - 1], steps[k - 1]);
    }
  }

  /** Staging and published never name the same buffer outside the locked swap, and no
      more than two buffers are ever allocated, whatever allocations fail. */
  lemma NeverAliasedAndAtMostTwo(states: seq<State>, steps: seq<Step>, k: nat)
    requires IsRun(states, steps) && k < |states|
    ensures |states[k].heap| <= 2
    ensures !states[k].lock.ByCollector? ==> NoAlias(states[k].staged, states[k].published)
    ensures forall r :: 0 <= r < |states[k].renderers| && states[k].renderers[r].Copying? ==>
      NoAlias(states[k].staged, Some(states[k].renderers[r].b))
  {
    EveryStateIsSafe(states, steps, k);
    var s := states[k];
    forall r | 0 <= r < |s.renderers| && s.renderers[r].Copying? ensures NoAlias(s.staged, Some(s.renderers[r].b)) {
      assert RendererOk(s, r);
    }
  }

  /** At most one thread is inside its critical section. */
  lemma MutualExclusion(states: seq<State>, steps: seq<Step>, k: nat, q: nat, r: nat)
    requires IsRun(states, steps) && k < |states| && q < |states[k].renderers| && r < |states[k].renderers|
    requires InCritical(states[k].renderers[q])
    ensures !InPublish(states[k].collector)
    ensures InCritical(states[k].renderers[r]) ==> q == r
  {
    EveryStateIsSafe(states, steps, k);
    assert RendererOk(states[k], q) && RendererOk(states[k], r);
  }

  /** No access is ever out of bounds: at each program point that touches a buffer the
      access it is about to make is valid. */
  lemma EveryAccessIsValid(states: seq<State>, steps: seq<Step>, k: nat, r: nat)
    requires IsRun(states, steps) && k < |states| && r < |states[k].renderers|
    ensures states[k].collector.Tearing? || states[k].collector.Writing? || states[k].collector.Bumping? ==>
      StagedOk(states[k])
      && states[k].heap[states[k].staged.value].count < |states[k].heap[states[k].staged.value].items|
    ensures states[k].renderers[r].Copying? ==>
      var pc := states[k].renderers[r];
      pc.b < |states[k].heap| && |pc.dst| <= states[k].heap[pc.b].count <= |states[k].heap[pc.b].items|
  {
    EveryStateIsSafe(states, steps, k);
    assert RendererOk(states[k], r);
  }

  lemma StepExtendsHistory(s: State, step: Step)
    requires Enabled(s, step)
    ensures s.history <= Apply(s, step).history
    ensures |Apply(s, step).renderers| == |s.renderers|
  {
  }

  /** Published cycles are never forgotten or rewritten. */
  lemma {:induction false} HistoryGrows(states: seq<State>, steps: seq<Step>, i: nat, j: nat)
    requires IsRun(states, steps) && i <= j < |states|
    ensures states[i].history <= states[j].history
    ensures |states[i].renderers| == |states[j].renderers|
    decreases j - i
  {
    if i < j {
      HistoryGrows(states, steps, i, j - 1);
      assert Moves(states[j - 1], steps[j - 1], states[j]);
      StepExtendsHistory(states[j - 1], steps[j - 1]);
    }
  }

  /** A renderer that has locked keeps the cycle it saw until it locks again. */
  ghost predicate Rendering(s: State, r: nat, cycle: nat) {
    r < |s.renderers| && !s.renderers[r].Away? && s.renderers[r].cycle == cycle
  }

  lemma StepKeepsCycle(s: State, step: Step, r: nat, cycle: nat)
    requires Enabled(s, step) && Rendering(s, r, cycle) && step != RenderLock(r)
    ensures Rendering(Apply(s, step), r, cycle)
  {
  }

  lemma {:induction false} CycleIsKept(states: seq<State>, steps: seq<Step>, i: nat, j: nat, r: nat)
    requires IsRun(states, steps) && i < j < |states| && steps[i] == RenderLock(r)
    requires forall k :: i < k < j ==> steps[k] != RenderLock(r)
    ensures Rendering(states[j], r, |states[i].history|)
    decreases j - i
  {
    assert Moves(states[j - 1], steps[j - 1], states[j]);
    if i + 1 < j {
      CycleIsKept(states, steps, i, j - 1, r);
      StepKeepsCycle(states[j - 1], steps[j - 1], r, |states[i].history|);
    }
  }

  /** Main theorem: in every interleaving, a render that took the lock at step i and has
      finished at state j returns exactly the snapshot of the latest cycle published
      when it took the lock (or nothing, if its own allocation failed): never a mixture,
      never a partly written metric, never an older cycle. */
  lemma RenderReturnsOneCycle(states: seq<State>, steps: seq<Step>, i: nat, j: nat, r: nat)
    requires IsRun(states, steps) && i < j < |states| && steps[i] == RenderLock(r)
    requires forall k :: i < k < j ==> steps[k] != RenderLock(r)
    requires r < |states[j].renderers| && states[j].renderers[r].Done?
    ensures var pc := states[j].renderers[r];
            pc.copy == if pc.failed then [] else At(states[i].history, |states[i].history|)
  {
    CycleIsKept(states, steps, i, j, r);
    HistoryGrows(states, steps, i, j);
    EveryStateIsSafe(states, steps, j);
    assert RendererOk(states[j], r);
  }

  /** A render of renderer r that locks at step i and has finished, without an allocation
      failure, at state j. */
  ghost predicate Finished(states: seq<State>, steps: seq<Step>, i: nat, j: nat, r: nat) {
    && i < j < |states| == |steps| + 1 && steps[i] == RenderLock(r)
    && (forall k :: i < k < j ==> steps[k] != RenderLock(r))
    && r < |states[j].renderers| && states[j].renderers[r].Done? && !states[j].renderers[r].failed
  }

  /** Later renders never see an older cycle: in one and the same history the two copies
      returned are the snapshots after n and after n' cycles, and n <= n' if the second
      render locked no earlier than the first. */
  lemma RendersNeverGoBack(states: seq<State>, steps: seq<Step>, i: nat, j: nat, r: nat, i': nat, j': nat, r': nat)
    returns (history: seq<Cycle>, n: nat, n': nat)
    requires IsRun(states, steps) && i <= i'
    requires Finished(states, steps, i, j, r) && Finished(states, steps, i', j', r')
    ensures history == states[|steps|].history && n <= n' <= |history|
    ensures states[j].renderers[r].copy == At(history, n)
    ensures states[j'].renderers[r'].copy == At(history, n')
  {
    history, n, n' := states[|steps|].history, |states[i].history|, |states[i'].history|;
    HistoryGrows(states, steps, i, i');
    HistoryGrows(states, steps, i', |steps|);
    RenderReturnsOneCycle(states, steps, i, j, r);
    RenderReturnsOneCycle(states, steps, i', j', r');
  }

  // ---- what a cycle contains ---------------------------------------------------------------

  /** Copies of the metrics emitted since the last begin, read off the steps alone. */
  function EmittedSince(steps: seq<Step>, k: nat): seq<SnapMetric>
    requires k <= |steps|
  {
    if k == 0 then []
    else if steps[k - 1].BeginReset? then []
    else if steps[k - 1].AddCall? then EmittedSince(steps, k - 1) + [CopyMetric(steps[k - 1].m)]
    else EmittedSince(steps, k - 1)
  }

  lemma StepEmits(s: State, step: Step)
    requires Enabled(s, step)
    ensures Apply(s, step).open.emitted ==
            if step.BeginReset? then []
            else if step.AddCall? then s.open.emitted + [CopyMetric(step.m)] else s.open.emitted
  {
  }

  lemma {:induction false} OpenCycleFollowsSteps(states: seq<State>, steps: seq<Step>, k: nat)
    requires IsRun(states, steps) && k < |states|
    ensures states[k].open.emitted == EmittedSince(steps, k)
    decreases k
  {
    if k > 0 {
      OpenCycleFollowsSteps(states, steps, k - 1);
      assert Moves(states[k - 1], steps[k - 1], states[k]);
      StepEmits(states[k - 1], steps[k - 1]);
    }
  }

  /** The copy made by the last call of add, read off the steps alone. */
  function LastCall(steps: seq<Step>, k: nat): Option<SnapMetric>
    requires k <= |steps|
  {
    if k == 0 then None
    else if steps[k - 1].AddCall? then Some(CopyMetric(steps[k - 1].m))
    else LastCall(steps, k - 1)
  }

  /** What the adds since the last begin have stored, read off the steps alone: an add that
      reaches its count increment stores the copy it was called with. */
  function AcceptedSince(steps: seq<Step>, k: nat): seq<SnapMetric>
    requires k <= |steps|
  {
    if k == 0 then []
    else if steps[k - 1].BeginReset? then []
    else if steps[k - 1].AddBump? && LastCall(steps, k - 1).Some?
    then AcceptedSince(steps, k - 1) + [LastCall(steps, k - 1).value]
    else AcceptedSince(steps, k - 1)
  }

  /** Every cycle holds part of what was emitted in it, in order. */
  ghost predicate PartsOfEmitted(s: State) {
    && Sublist(s.open.items, Taken(s))
    && forall c :: 0 <= c < |s.history| ==> Sublist(s.history[c].items, s.history[c].emitted)
  }

  lemma StepAccepts(s: State, step: Step)
    requires Enabled(s, step)
    ensures Apply(s, step).open.items ==
            if step.BeginReset? then []
            else if step.AddBump? then s.open.items + [s.collector.v] else s.open.items
    ensures step.AddBump? ==> HasPending(s.collector)
    ensures HasPending(Apply(s, step).collector) ==>
              if step.AddCall? then Apply(s, step).collector.v == CopyMetric(step.m)
              else HasPending(s.collector) && Apply(s, step).collector.v == s.collector.v
  {
  }

  lemma {:induction false} AcceptedFollowsSteps(states: seq<State>, steps: seq<Step>, k: nat)
    requires IsRun(states, steps) && k < |states|
    ensures states[k].open.items == AcceptedSince(steps, k)
    ensures HasPending(states[k].collector) ==> LastCall(steps, k) == Some(states[k].collector.v)
    decreases k
  {
    if k > 0 {
      AcceptedFollowsSteps(states, steps, k - 1);
      assert Moves(states[k - 1], steps[k - 1], states[k]);
      StepAccepts(states[k - 1], steps[k - 1]);
    }
  }

  /** How a step can change the open cycle: not at all, one add more stored, one dropped, or
      all forgotten. */
  ghost predicate OpenMoves(items: seq<SnapMetric>, taken: seq<SnapMetric>, items': seq<SnapMetric>, taken': seq<SnapMetric>) {
    || (items' == items && taken' == taken)
    || (items' == [] && taken' == [])
    || (taken' != [] && taken' == taken + [taken'[|taken'| - 1]]
        && (items' == items || items' == items + [taken'[|taken'| - 1]]))
  }

  lemma OpenMovesKeepParts(items: seq<SnapMetric>, taken: seq<SnapMetric>, items': seq<SnapMetric>, taken': seq<SnapMetric>)
    requires Sublist(items, taken) && OpenMoves(items, taken, items', taken')
    ensures Sublist(items', taken')
  {
    if taken' != [] {
      SublistKeep(items, taken, taken'[|taken'| - 1]);
      SublistDrop(items, taken, taken'[|taken'| - 1]);
    }
  }

  /** The step that ends an add, by storing or by dropping, completes what was taken. */
  lemma PendingEnds(s: State, s': State)
    requires PendingOk(s) && HasPending(s.collector) && !HasPending(s'.collector) && s'.open.emitted == s.open.emitted
    ensures Taken(s') == Taken(s) + [s.collector.v]
  {
    assert s.open.emitted == s.open.emitted[..|s.open.emitted| - 1] + [s.collector.v];
  }

  /** When an add is under way before and after a step. */
  lemma StepPends(s: State, step: Step)
    requires Enabled(s, step)
    ensures var before, after := HasPending(s.collector), HasPending(Apply(s, step).collector);
            && (step.AddCall? ==> !before && after)
            && (step.BeginReset? ==> !before && !after)
            && (step.AddBump? ==> before && !after)
            && (!step.AddCall? ==> (after ==> before))
  {
  }

  lemma StepMovesOpen(s: State, step: Step)
    requires PendingOk(s) && Enabled(s, step)
    ensures var s' := Apply(s, step); OpenMoves(s.open.items, Taken(s), s'.open.items, Taken(s'))
  {
    StepPends(s, step);
    StepAccepts(s, step);
    StepEmits(s, step);
    OpenMovesFrom(s, Apply(s, step), step.BeginReset?, step.AddCall?, step.AddBump?);
  }

  lemma OpenMovesFrom(s: State, s': State, reset: bool, call: bool, bump: bool)
    requires PendingOk(s) && (bump ==> HasPending(s.collector))
    requires s'.open.items == if reset then [] else if bump then s.open.items + [s.collector.v] else s.open.items
    requires if reset then s'.open.emitted == []
             else if call then s'.open.emitted != [] && s'.open.emitted[..|s'.open.emitted| - 1] == s.open.emitted
             else s'.open.emitted == s.open.emitted
    requires var before, after := HasPending(s.collector), HasPending(s'.collector);
             && (call ==> !before && after) && (reset ==> !before && !after && !bump)
             && (bump ==> !after) && (!call ==> (after ==> before))
    ensures OpenMoves(s.open.items, Taken(s), s'.open.items, Taken(s'))
  {
    if HasPending(s.collector) && !HasPending(s'.collector) {
      PendingEnds(s, s');
    }
  }

  lemma StepMovesHistory(s: State, step: Step)
    requires Enabled(s, step)
    ensures Apply(s, step).history == if step.PublishSet? then s.history + [s.open] else s.history
    ensures step.PublishSet? ==> Taken(s) == s.open.emitted
  {
  }

  lemma StepKeepsParts(s: State, step: Step)
    requires PendingOk(s) && Enabled(s, step) && PartsOfEmitted(s)
    ensures PartsOfEmitted(Apply(s, step))
  {
    var s' := Apply(s, step);
    StepMovesOpen(s, step);
    OpenMovesKeepParts(s.open.items, Taken(s), s'.open.items, Taken(s'));
    StepMovesHistory(s, step);
  }

  lemma {:induction false} EveryCycleIsPartOfEmitted(states: seq<State>, steps: seq<Step>, k: nat)
    requires IsRun(states, steps) && k < |states|
    ensures PartsOfEmitted(states[k])
    decreases k
  {
    if k > 0 {
      EveryCycleIsPartOfEmitted(states, steps, k - 1);
      EveryStateIsSafe(states, steps, k - 1);
      assert Moves(states[k - 1], steps[k - 1], states[k]);
      StepKeepsParts(states[k - 1], steps[k - 1]);
    }
  }

  /** Publishing at step j adds one cycle, whatever allocations failed: exactly the copies
      that the adds since the last begin have stored. They are the copies of the metrics
      emitted since then, in order, without those whose add was dropped for lack of memory;
      if none was, all of them. */
  lemma PublishAddsTheCycle(states: seq<State>, steps: seq<Step>, j: nat)
    requires IsRun(states, steps) && j < |steps| && steps[j] == PublishSet
    ensures |states[j + 1].history| == |states[j].history| + 1
    ensures var c := states[j + 1].history[|states[j].history|];
            && c.emitted == EmittedSince(steps, j) && c.items == AcceptedSince(steps, j)
            && Sublist(c.items, c.emitted) && (!c.lossy ==> c.items == c.emitted)
  {
    EveryStateIsSafe(states, steps, j + 1);
    EveryCycleIsPartOfEmitted(states, steps, j + 1);
    OpenCycleFollowsSteps(states, steps, j);
    AcceptedFollowsSteps(states, steps, j);
    assert Moves(states[j], steps[j], states[j + 1]);
  }

  /** The allocator refused a request of the collector at this step. */
  predicate FailedAllocation(step: Step) {
    step == BeginAlloc(false) || step == AddAlloc(false) || step == AddReserve(false)
  }

  ghost predicate NothingLost(s: State) {
    && !s.open.lossy
    && (s.collector.Reserving? ==> s.staged.Some?)
    && forall c :: 0 <= c < |s.history| ==> !s.history[c].lossy
  }

  lemma StepLosesNothing(s: State, step: Step)
    requires Enabled(s, step) && NothingLost(s) && !FailedAllocation(step)
    ensures NothingLost(Apply(s, step))
  {
  }

  /** Without a failed allocation no cycle is lossy. */
  lemma {:induction false} OnlyFailuresLose(states: seq<State>, steps: seq<Step>, k: nat)
    requires IsRun(states, steps) && k < |states|
    requires forall i :: 0 <= i < k ==> !FailedAllocation(steps[i])
    ensures NothingLost(states[k])
    decreases k
  {
    if k > 0 {
      OnlyFailuresLose(states, steps, k - 1);
      assert Moves(states[k - 1], steps[k - 1], states[k]);
      StepLosesNothing(states[k - 1], steps[k - 1]);
    }
  }
}
