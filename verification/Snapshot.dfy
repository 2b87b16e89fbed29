/** The snapshot protocol between the collection thread and the HTTP thread
    (prom_snapshot_begin/add/publish and prom_render in src/prom.c, driven by the cycle
    of src/collect.c), as interleaved steps. Shared memory is a heap of buffers; the
    collector fills the staging buffer without a lock, in torn writes, and swaps the two
    pointers one assignment at a time under the lock; renderers copy the published
    buffer element by element under the lock. Any number of renderers may run. */
module Snapshot {
  import opened CStrings
  import opened Metrics
  import D = DString
  import SnapArray

  /** snap_buf_t: the capacity is |items|. */
  datatype Buf = Buf(items: seq<SnapMetric>, count: nat)

  type Ref = Option<nat>

  /** Where the collection thread is; `v` is the copy that the add under way will store. */
  datatype Collector =
    | Idle                    // before prom_snapshot_begin
    | Resetting               // begin, after the NULL check
    | Collecting              // readers run; between two adds
    | Adding(v: SnapMetric)       // add, before the NULL check
    | Reserving(v: SnapMetric)    // add, before sb_reserve
    | Tearing(v: SnapMetric)      // copy_metric about to write items[count]
    | Writing(v: SnapMetric)      // items[count] partly written
    | Bumping(v: SnapMetric)      // items[count] written, count not yet raised
    | PubLocked               // publish, lock held
    | PubRead(tmp: Ref)       // tmp = g_published
    | PubSwapped(tmp: Ref)    // g_published = g_staged
    | PubDone                 // g_staged = tmp, lock still held

  /** Where a renderer is; `cycle` is the number of cycles published when it locked. */
  datatype Renderer =
    | Away
    | Locked(cycle: nat)
    | HasRef(p: Ref, cycle: nat)
    | Copying(b: nat, dst: seq<SnapMetric>, cycle: nat)
    | Unlocking(dst: seq<SnapMetric>, failed: bool, cycle: nat)
    | Done(copy: seq<SnapMetric>, failed: bool, cycle: nat)

  datatype Owner = Free | ByCollector | ByRenderer(r: nat)

  /** History of one cycle: what was staged, the copies of what the readers emitted, and
      whether an add was dropped for lack of memory. */
  datatype Cycle = Cycle(items: seq<SnapMetric>, emitted: seq<SnapMetric>, lossy: bool)

  datatype State = State(
    heap: seq<Buf>, staged: Ref, published: Ref, lock: Owner,
    collector: Collector, renderers: seq<Renderer>,
    open: Cycle, history: seq<Cycle>)

  // ---- steps -----------------------------------------------------------------------

  datatype Step =
    | BeginAlloc(ok: bool)
    | BeginReset
    | AddCall(m: Metric)
    | AddAlloc(ok: bool)
    | AddReserve(ok: bool)
    | AddTear(junk: SnapMetric)
    | AddWrite
    | AddBump
    | PublishLock
    | PublishRead
    | PublishSet
    | PublishRestage
    | PublishUnlock
    | RenderLock(r: nat)
    | RenderRead(r: nat)
    | RenderDecide(r: nat, mallocOk: bool)
    | RenderCopyOne(r: nat)
    | RenderCopyEnd(r: nat)
    | RenderUnlock(r: nat)

  function Alloc(s: State, ok: bool): State {
    if s.staged.Some? || !ok then s
    else s.(heap := s.heap + [Buf([], 0)], staged := Some(|s.heap|))
  }

  function SetBuf(s: State, b: Buf): State
    requires s.staged.Some? && s.staged.value < |s.heap|
  {
    s.(heap := s.heap[s.staged.value := b])
  }

  predicate StagedOk(s: State) { s.staged.Some? && s.staged.value < |s.heap| }

  predicate InPc(s: State, r: nat) { r < |s.renderers| }

  function Pc(s: State, r: nat, pc: Renderer): State
    requires InPc(s, r)
  {
    s.(renderers := s.renderers[r := pc])
  }

  /** sb_reserve for one more element; new slots hold unspecified values. */
  function Reserved(b: Buf, ok: bool): (r: Buf)
    ensures r.count == b.count && b.items <= r.items
  {
    if b.count < |b.items| || !ok then b
    else
      var cap := D.Grown(|b.items|, SnapArray.FIRST_CAP, b.count + 1);
      b.(items := b.items + seq(cap - |b.items|, i => SnapMetric("", "", "", "", [])))
  }

  predicate Enabled(s: State, step: Step) {
    match step
    case BeginAlloc(_) => s.collector.Idle?
    case BeginReset => s.collector.Resetting? && (s.staged.Some? ==> StagedOk(s))
    case AddCall(_) => s.collector.Collecting?
    case AddAlloc(_) => s.collector.Adding?
    case AddReserve(_) => s.collector.Reserving? && (s.staged.Some? ==> StagedOk(s))
    case AddTear(_) => s.collector.Tearing? && StagedOk(s) && s.heap[s.staged.value].count < |s.heap[s.staged.value].items|
    case AddWrite => s.collector.Writing? && StagedOk(s) && s.heap[s.staged.value].count < |s.heap[s.staged.value].items|
    case AddBump => s.collector.Bumping? && StagedOk(s)
    case PublishLock => s.collector.Collecting? && s.lock.Free?
    case PublishRead => s.collector.PubLocked?
    case PublishSet => s.collector.PubRead?
    case PublishRestage => s.collector.PubSwapped?
    case PublishUnlock => s.collector.PubDone?
    case RenderLock(r) => InPc(s, r) && (s.renderers[r].Away? || s.renderers[r].Done?) && s.lock.Free?
    case RenderRead(r) => InPc(s, r) && s.renderers[r].Locked?
    case RenderDecide(r, _) => InPc(s, r) && s.renderers[r].HasRef? && (s.renderers[r].p.Some? ==> s.renderers[r].p.value < |s.heap|)
    case RenderCopyOne(r) =>
      && InPc(s, r) && s.renderers[r].Copying? && s.renderers[r].b < |s.heap|
      && |s.renderers[r].dst| < s.heap[s.renderers[r].b].count
      && |s.renderers[r].dst| < |s.heap[s.renderers[r].b].items|
    case RenderCopyEnd(r) =>
      && InPc(s, r) && s.renderers[r].Copying? && s.renderers[r].b < |s.heap|
      && |s.renderers[r].dst| >= s.heap[s.renderers[r].b].count
    case RenderUnlock(r) => InPc(s, r) && s.renderers[r].Unlocking?
  }

  function Apply(s: State, step: Step): State
    requires Enabled(s, step)
  {
    match step
    case BeginAlloc(ok) => Alloc(s, ok).(collector := Resetting)
    case BeginReset =>
      var s' := if s.staged.Some? then SetBuf(s, s.heap[s.staged.value].(count := 0)) else s;
      s'.(collector := Collecting, open := Cycle([], [], false))
    case AddCall(m) =>
      s.(collector := Adding(CopyMetric(m)), open := s.open.(emitted := s.open.emitted + [CopyMetric(m)]))
    case AddAlloc(ok) => Alloc(s, ok).(collector := Reserving(s.collector.v))
    case AddReserve(ok) =>
      if s.staged.None? then Dropped(s)
      else
        var b := Reserved(s.heap[s.staged.value], ok);
        if b.count < |b.items| then SetBuf(s, b).(collector := Tearing(s.collector.v))
        else Dropped(SetBuf(s, b))
    case AddTear(junk) =>
      var b := s.heap[s.staged.value];
      SetBuf(s, b.(items := b.items[b.count := junk])).(collector := Writing(s.collector.v))
    case AddWrite =>
      var b := s.heap[s.staged.value];
      SetBuf(s, b.(items := b.items[b.count := s.collector.v])).(collector := Bumping(s.collector.v))
    case AddBump =>
      var b := s.heap[s.staged.value];
      SetBuf(s, b.(count := b.count + 1))
      .(collector := Collecting, open := s.open.(items := s.open.items + [s.collector.v]))
    case PublishLock => s.(lock := ByCollector, collector := PubLocked)
    case PublishRead => s.(collector := PubRead(s.published))
    case PublishSet =>
      s.(published := s.staged, collector := PubSwapped(s.collector.tmp), history := s.history + [s.open])
    case PublishRestage => s.(staged := s.collector.tmp, collector := PubDone)
    case PublishUnlock => s.(lock := Free, collector := Idle)
    case RenderLock(r) => Pc(s, r, Locked(|s.history|)).(lock := ByRenderer(r))
    case RenderRead(r) => Pc(s, r, HasRef(s.published, s.renderers[r].cycle))
    case RenderDecide(r, mallocOk) =>
      var pc := s.renderers[r];
      if pc.p.None? || s.heap[pc.p.value].count == 0 then Pc(s, r, Unlocking([], false, pc.cycle))
      else if !mallocOk then Pc(s, r, Unlocking([], true, pc.cycle))
      else Pc(s, r, Copying(pc.p.value, [], pc.cycle))
    case RenderCopyOne(r) =>
      var pc := s.renderers[r];
      Pc(s, r, Copying(pc.b, pc.dst + [s.heap[pc.b].items[|pc.dst|]], pc.cycle))
    case RenderCopyEnd(r) => Pc(s, r, Unlocking(s.renderers[r].dst, false, s.renderers[r].cycle))
    case RenderUnlock(r) =>
      var pc := s.renderers[r];
      Pc(s, r, Done(pc.dst, pc.failed, pc.cycle)).(lock := Free)
  }

  function Dropped(s: State): State {
    s.(collector := Collecting, open := s.open.(lossy := true))
  }

  ghost predicate Init(s: State) {
    && s.heap == [] && s.staged.None? && s.published.None? && s.lock.Free?
    && s.collector.Idle? && s.history == [] && s.open == Cycle([], [], false)
    && forall r :: 0 <= r < |s.renderers| ==> s.renderers[r].Away?
  }

  // ---- the inductive invariant ---------------------------------------------------------

  ghost predicate ValidRef(s: State, p: Ref) { p.Some? ==> p.value < |s.heap| }

  ghost predicate NoAlias(p: Ref, q: Ref) { p.Some? && q.Some? ==> p.value != q.value }

  function Count(p: Ref): nat { if p.Some? then 1 else 0 }

  /** The metrics a buffer reference stands for; NULL stands for none. */
  function Contents(s: State, p: Ref): seq<SnapMetric>
    requires p.Some? ==> p.value < |s.heap| && s.heap[p.value].count <= |s.heap[p.value].items|
  {
    if p.None? then [] else s.heap[p.value].items[..s.heap[p.value].count]
  }

  /** The snapshot after `cycle` cycles: nothing before the first. */
  function At(history: seq<Cycle>, cycle: nat): seq<SnapMetric>
    requires cycle <= |history|
  {
    if cycle == 0 then [] else history[cycle - 1].items
  }

  /** The reference that is neither published nor about to be: staging, or `tmp` while
      the swap is half done. */
  function Spare(s: State): Ref {
    if s.collector.PubSwapped? then s.collector.tmp else s.staged
  }

  /** Two references own the whole heap and never alias; mid-swap both pointers may name
      the published buffer, but only while the collector holds the lock. */
  ghost predicate BuffersOk(s: State) {
    && ValidRef(s, s.staged) && ValidRef(s, s.published) && ValidRef(s, Spare(s))
    && NoAlias(Spare(s), s.published)
    && |s.heap| == Count(Spare(s)) + Count(s.published)
    && (forall b :: 0 <= b < |s.heap| ==> s.heap[b].count <= |s.heap[b].items|)
    && (s.collector.PubRead? ==> s.collector.tmp == s.published)
    && (s.collector.PubSwapped? ==> s.staged == s.published)
  }

  ghost predicate InPublish(c: Collector) { c.PubLocked? || c.PubRead? || c.PubSwapped? || c.PubDone? }

  ghost predicate InCycle(c: Collector) {
    c.Collecting? || c.Adding? || c.Reserving? || c.Tearing? || c.Writing? || c.Bumping? || c.PubLocked? || c.PubRead?
  }

  predicate HasPending(c: Collector) { c.Adding? || c.Reserving? || c.Tearing? || c.Writing? || c.Bumping? }

  /** While an add is under way its metric is the last one emitted, and there is room for
      it once the reservation went through. */
  ghost predicate PendingOk(s: State) {
    var c := s.collector;
    && (HasPending(c) ==> s.open.emitted != [] && s.open.emitted[|s.open.emitted| - 1] == c.v)
    && (c.Tearing? || c.Writing? || c.Bumping? ==>
          StagedOk(s) && s.heap[s.staged.value].count < |s.heap[s.staged.value].items|)
    && (c.Bumping? ==> s.heap[s.staged.value].items[s.heap[s.staged.value].count] == c.v)
  }

  /** What was accepted in the open cycle: everything, unless an add was dropped. */
  ghost predicate AcceptedOk(open: Cycle, taken: seq<SnapMetric>) {
    !open.lossy ==> open.items == taken
  }

  /** Collector side: within a cycle the staging buffer holds exactly what was accepted. */
  ghost predicate CollectorOk(s: State)
    requires BuffersOk(s)
  {
    && (s.lock.ByCollector? <==> InPublish(s.collector))
    && (InCycle(s.collector) ==> Contents(s, s.staged) == s.open.items && AcceptedOk(s.open, Taken(s)))
    && PendingOk(s)
  }

  /** The emitted metrics whose add has returned. */
  function Taken(s: State): seq<SnapMetric> {
    if HasPending(s.collector) && s.open.emitted != []
    then s.open.emitted[..|s.open.emitted| - 1] else s.open.emitted
  }

  ghost predicate HistoryOk(s: State)
    requires BuffersOk(s)
  {
    && Contents(s, s.published) == At(s.history, |s.history|)
    && (forall k :: 0 <= k < |s.history| && !s.history[k].lossy ==> s.history[k].items == s.history[k].emitted)
  }

  ghost predicate InCritical(pc: Renderer) { pc.Locked? || pc.HasRef? || pc.Copying? || pc.Unlocking? }

  /** One renderer: its reference is the published one and its partial copy a prefix of
      the snapshot of its cycle; a finished copy is that whole snapshot. */
  ghost predicate RendererOk(s: State, r: nat)
    requires r < |s.renderers|
  {
    var pc := s.renderers[r];
    && (InCritical(pc) <==> s.lock == ByRenderer(r))
    && (pc.Locked? || pc.HasRef? || pc.Copying? ==> pc.cycle == |s.history|)
    && (pc.HasRef? ==> pc.p == s.published)
    && (pc.Copying? ==> s.published == Some(pc.b) && pc.b < |s.heap| && s.heap[pc.b].count <= |s.heap[pc.b].items|
                        && |pc.dst| <= s.heap[pc.b].count && pc.dst == s.heap[pc.b].items[..|pc.dst|])
    && (pc.Unlocking? ==> pc.cycle <= |s.history| && pc.dst == if pc.failed then [] else At(s.history, pc.cycle))
    && (pc.Done? ==> pc.cycle <= |s.history| && pc.copy == if pc.failed then [] else At(s.history, pc.cycle))
  }

  ghost predicate RenderersOk(s: State) {
    && (s.lock.ByRenderer? ==> s.lock.r < |s.renderers|)
    && forall r :: 0 <= r < |s.renderers| ==> RendererOk(s, r)
  }

  ghost predicate Inv(s: State) {
    BuffersOk(s) && CollectorOk(s) && HistoryOk(s) && RenderersOk(s)
  }

  lemma InitInv(s: State)
    requires Init(s)
    ensures Inv(s)
  {
  }

  predicate IsRenderStep(step: Step) {
    step.RenderLock? || step.RenderRead? || step.RenderDecide? || step.RenderCopyOne? || step.RenderCopyEnd? || step.RenderUnlock?
  }

  ghost predicate FreeOrMine(lock: Owner, r: nat) { lock.Free? || lock == ByRenderer(r) }

  /** A renderer's step touches only its own state and the lock. */
  lemma RenderFrame(s: State, s': State, r: nat)
    requires Inv(s) && r < |s.renderers| == |s'.renderers| && s' == s.(renderers := s'.renderers, lock := s'.lock)
    requires s'.renderers == s.renderers[r := s'.renderers[r]]
    requires FreeOrMine(s.lock, r) && FreeOrMine(s'.lock, r) && RendererOk(s', r)
    ensures Inv(s')
  {
    forall q | 0 <= q < |s'.renderers| ensures RendererOk(s', q) {
      assert RendererOk(s, q);
    }
    assert Contents(s', s'.staged) == Contents(s, s.staged);
    assert Contents(s', s'.published) == Contents(s, s.published);
    assert Taken(s') == Taken(s);
  }

  lemma RenderStepKeepsInv(s: State, step: Step)
    requires Inv(s) && Enabled(s, step) && IsRenderStep(step)
    ensures Inv(Apply(s, step))
  {
    var s' := Apply(s, step);
    assert RendererOk(s, step.r);
    RenderStepOwn(s, step);
    RenderFrame(s, s', step.r);
  }

  lemma RenderStepOwn(s: State, step: Step)
    requires Inv(s) && Enabled(s, step) && IsRenderStep(step)
    ensures var s' := Apply(s, step);
            && s' == s.(renderers := s'.renderers, lock := s'.lock)
            && step.r < |s.renderers| == |s'.renderers|
            && s'.renderers == s.renderers[step.r := s'.renderers[step.r]]
            && FreeOrMine(s.lock, step.r) && FreeOrMine(s'.lock, step.r) && RendererOk(s', step.r)
  {
    assert RendererOk(s, step.r);
  }

  /** Steps of the collector that neither touch the published buffer nor the lock. */
  lemma StagingKeepsOthers(s: State, s': State)
    requires Inv(s) && BuffersOk(s')
    requires s'.published == s.published && s'.lock == s.lock && s'.history == s.history && s'.renderers == s.renderers
    requires |s.heap| <= |s'.heap|
    requires s.published.Some? ==> s'.heap[s.published.value] == s.heap[s.published.value]
    ensures HistoryOk(s') && RenderersOk(s')
  {
    forall q | 0 <= q < |s'.renderers| ensures RendererOk(s', q) {
      assert RendererOk(s, q);
    }
  }

  // ---- collector steps -------------------------------------------------------------------

  lemma AllocKeeps(s: State, ok: bool)
    requires Inv(s) && !InPublish(s.collector)
    ensures var s' := Alloc(s, ok);
            && BuffersOk(s')
            && (s.published.Some? ==> s'.heap[s.published.value] == s.heap[s.published.value])
            && (s.staged.None? ==> Contents(s', s'.staged) == [])
            && (s.staged.Some? ==> s' == s)
            && Contents(s', s'.published) == Contents(s, s.published)
  {
  }

  lemma BeginAllocKeepsInv(s: State, ok: bool)
    requires Inv(s) && Enabled(s, BeginAlloc(ok))
    ensures Inv(Apply(s, BeginAlloc(ok)))
  {
    AllocKeeps(s, ok);
    StagingKeepsOthers(s, Apply(s, BeginAlloc(ok)));
  }

  lemma AddAllocKeepsInv(s: State, ok: bool)
    requires Inv(s) && Enabled(s, AddAlloc(ok))
    ensures Inv(Apply(s, AddAlloc(ok)))
  {
    var s' := Apply(s, AddAlloc(ok));
    AllocKeeps(s, ok);
    assert BuffersOk(s') && Contents(s', s'.staged) == Contents(s, s.staged) && Taken(s') == Taken(s);
    StagingKeepsOthers(s, s');
  }

  /** Rewriting the staging buffer leaves everything published alone. */
  lemma SetBufKeeps(s: State, b: Buf, c: Collector, open: Cycle)
    requires Inv(s) && !InPublish(s.collector) && !InPublish(c) && StagedOk(s) && b.count <= |b.items|
    ensures var s' := SetBuf(s, b).(collector := c, open := open);
            && BuffersOk(s') && HistoryOk(s') && RenderersOk(s')
            && Contents(s', s'.staged) == b.items[..b.count]
  {
    var s' := SetBuf(s, b).(collector := c, open := open);
    assert BuffersOk(s');
    StagingKeepsOthers(s, s');
  }

  lemma BeginResetKeepsInv(s: State)
    requires Inv(s) && Enabled(s, BeginReset)
    ensures Inv(Apply(s, BeginReset))
  {
    var s' := Apply(s, BeginReset);
    if s.staged.Some? {
      SetBufKeeps(s, s.heap[s.staged.value].(count := 0), Collecting, Cycle([], [], false));
    } else {
      StagingKeepsOthers(s, s');
    }
  }

  lemma AddCallKeepsInv(s: State, m: Metric)
    requires Inv(s) && Enabled(s, AddCall(m))
    ensures Inv(Apply(s, AddCall(m)))
  {
    var s' := Apply(s, AddCall(m));
    assert Taken(s') == s.open.emitted;
    StagingKeepsOthers(s, s');
  }

  lemma AddReserveKeepsInv(s: State, ok: bool)
    requires Inv(s) && Enabled(s, AddReserve(ok))
    ensures Inv(Apply(s, AddReserve(ok)))
  {
    var s' := Apply(s, AddReserve(ok));
    if s.staged.None? {
      StagingKeepsOthers(s, s');
    } else {
      var b := s.heap[s.staged.value];
      var b' := Reserved(b, ok);
      assert b'.items[..b'.count] == b.items[..b.count];
      SetBufKeeps(s, b', s'.collector, s'.open);
      assert PendingOk(s');
    }
  }

  lemma AddTearKeepsInv(s: State, junk: SnapMetric)
    requires Inv(s) && Enabled(s, AddTear(junk))
    ensures Inv(Apply(s, AddTear(junk)))
  {
    var s' := Apply(s, AddTear(junk));
    var b := s.heap[s.staged.value];
    assert b.items[b.count := junk][..b.count] == b.items[..b.count];
    SetBufKeeps(s, b.(items := b.items[b.count := junk]), s'.collector, s'.open);
  }

  lemma AddWriteKeepsInv(s: State)
    requires Inv(s) && Enabled(s, AddWrite)
    ensures Inv(Apply(s, AddWrite))
  {
    var s' := Apply(s, AddWrite);
    var b, v := s.heap[s.staged.value], s.collector.v;
    assert b.items[b.count := v][..b.count] == b.items[..b.count];
    SetBufKeeps(s, b.(items := b.items[b.count := v]), s'.collector, s'.open);
  }

  /** The staging buffer with one more metric in use. */
  lemma BumpedContents(s: State, s': State)
    requires Inv(s) && s.collector.Bumping? && StagedOk(s)
    requires var b := s.heap[s.staged.value];
             s' == SetBuf(s, b.(count := b.count + 1)).(collector := Collecting, open := s.open.(items := s.open.items + [s.collector.v]))
    ensures BuffersOk(s') && HistoryOk(s') && RenderersOk(s') && Contents(s', s'.staged) == s'.open.items
  {
    var b := s.heap[s.staged.value];
    assert b.items[..b.count + 1] == b.items[..b.count] + [b.items[b.count]];
    SetBufKeeps(s, b.(count := b.count + 1), s'.collector, s'.open);
  }

  lemma AddBumpKeepsInv(s: State)
    requires Inv(s) && Enabled(s, AddBump)
    ensures Inv(Apply(s, AddBump))
  {
    var s' := Apply(s, AddBump);
    BumpedContents(s, s');
    AcceptedSnoc(s.open, s.collector.v);
    BetweenAddsOk(s');
  }

  lemma BetweenAddsOk(s: State)
    requires BuffersOk(s) && s.collector.Collecting? && !s.lock.ByCollector?
    requires Contents(s, s.staged) == s.open.items && AcceptedOk(s.open, s.open.emitted)
    ensures CollectorOk(s)
  {
  }

  /** The add that ends was the last one emitted. */
  lemma AcceptedSnoc(open: Cycle, v: SnapMetric)
    requires open.emitted != [] && open.emitted[|open.emitted| - 1] == v
    requires AcceptedOk(open, open.emitted[..|open.emitted| - 1])
    ensures AcceptedOk(open.(items := open.items + [v]), open.emitted)
  {
    assert open.emitted == open.emitted[..|open.emitted| - 1] + [v];
  }

  predicate IsPublishStep(step: Step) {
    step.PublishLock? || step.PublishRead? || step.PublishSet? || step.PublishRestage? || step.PublishUnlock?
  }

  /** Renderers outside the critical section are indifferent to a longer history. */
  lemma PublishKeepsRenderers(s: State, s': State)
    requires Inv(s) && (s.lock.Free? || s.lock.ByCollector?) && (s'.lock.Free? || s'.lock.ByCollector?)
    requires s'.renderers == s.renderers && s.history <= s'.history
    ensures RenderersOk(s')
  {
    forall q | 0 <= q < |s'.renderers| ensures RendererOk(s', q) {
      assert RendererOk(s, q);
    }
  }

  lemma PublishSetKeepsInv(s: State)
    requires Inv(s) && Enabled(s, PublishSet)
    ensures Inv(Apply(s, PublishSet))
  {
    var s' := Apply(s, PublishSet);
    PublishKeepsRenderers(s, s');
    assert BuffersOk(s');
    assert Contents(s', s'.published) == Contents(s, s.staged) == s.open.items;
    assert Taken(s) == s.open.emitted;
  }

  lemma PublishStepKeepsInv(s: State, step: Step)
    requires Inv(s) && Enabled(s, step) && IsPublishStep(step) && !step.PublishSet?
    ensures Inv(Apply(s, step))
  {
    var s' := Apply(s, step);
    PublishKeepsRenderers(s, s');
    assert BuffersOk(s');
    assert Contents(s', s'.published) == Contents(s, s.published);
    assert InCycle(s'.collector) ==> Contents(s', s'.staged) == Contents(s, s.staged) && Taken(s') == Taken(s);
  }

  /** Every step of every thread keeps the invariant. */
  lemma StepKeepsInv(s: State, step: Step)
    requires Inv(s) && Enabled(s, step)
    ensures Inv(Apply(s, step))
  {
    if IsRenderStep(step) {
      RenderStepKeepsInv(s, step);
    } else if step.PublishSet? {
      PublishSetKeepsInv(s);
    } else if IsPublishStep(step) {
      PublishStepKeepsInv(s, step);
    } else {
      match step
      case BeginAlloc(ok) => BeginAllocKeepsInv(s, ok);
      case BeginReset => BeginResetKeepsInv(s);
      case AddCall(m) => AddCallKeepsInv(s, m);
      case AddAlloc(ok) => AddAllocKeepsInv(s, ok);
      case AddReserve(ok) => AddReserveKeepsInv(s, ok);
      case AddTear(junk) => AddTearKeepsInv(s, junk);
      case AddWrite => AddWriteKeepsInv(s);
      case AddBump => AddBumpKeepsInv(s);
    }
  }
}
