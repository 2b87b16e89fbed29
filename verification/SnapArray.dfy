/** The growable array of snapshot metrics (snap_buf_t and sb_reserve in src/prom.c), on
    sizes alone: how capacity and copying relate to what the array ever held. */
module SnapArray {
  import D = DString

  const FIRST_CAP: nat := 32

  /** Elements in use, capacity, and the elements that reallocations have copied so far. */
  datatype Size = Size(count: nat, cap: nat, moved: nat)

  const EMPTY := Size(0, 0, 0)

  /** sb_reserve for one more element. */
  function Reserve(a: Size, ok: bool): (r: Size)
    ensures r.count == a.count && r.cap >= a.cap
    ensures r.cap > a.count <==> a.cap > a.count || ok
  {
    if a.count < a.cap || !ok then a
    else Size(a.count, D.Grown(a.cap, FIRST_CAP, a.count + 1), a.moved + a.cap)
  }

  /** The append of prom_snapshot_add. */
  function Add(a: Size, ok: bool): Size {
    var r := Reserve(a, ok);
    if r.count < r.cap then r.(count := r.count + 1) else r
  }

  /** What happens to an array: one metric is added, or a new cycle empties it. */
  datatype Request = Append(ok: bool) | Clear

  function Apply(a: Size, q: Request): Size {
    match q
    case Append(ok) => Add(a, ok)
    case Clear => a.(count := 0)
  }

  function Run(qs: seq<Request>): Size {
    if qs == [] then EMPTY else Apply(Run(qs[..|qs| - 1]), qs[|qs| - 1])
  }

  /** The largest number of elements the array has held. */
  function Peak(qs: seq<Request>): nat {
    if qs == [] then 0
    else
      var before, now := Peak(qs[..|qs| - 1]), Run(qs).count;
      if before < now then now else before
  }

  ghost predicate Bounded(a: Size, peak: nat) {
    && a.count <= a.cap && a.count <= peak
    && (a.cap <= FIRST_CAP || a.cap <= 2 * peak)
    && a.moved <= a.cap
  }

  lemma AddKeepsBounded(a: Size, ok: bool, peak: nat)
    requires Bounded(a, peak)
    ensures var b := Add(a, ok); Bounded(b, if peak < b.count then b.count else peak)
  {
    if a.count == a.cap && a.cap > 0 {
      D.GrowthDoubles(a.cap, FIRST_CAP, a.count + 1);
    }
  }

  /** Over any adds and cycles with any reallocation failures, the capacity stays within 32
      or twice the most the array ever held, and all copying together within the capacity. */
  lemma {:induction false} RunIsBounded(qs: seq<Request>)
    ensures Bounded(Run(qs), Peak(qs))
    decreases |qs|
  {
    if qs != [] {
      var n := |qs| - 1;
      RunIsBounded(qs[..n]);
      if qs[n].Append? {
        AddKeepsBounded(Run(qs[..n]), qs[n].ok, Peak(qs[..n]));
      }
    }
  }

  /** An add is dropped exactly when the array is full and cannot grow. */
  lemma AddIsAllOrNothing(a: Size, ok: bool)
    requires a.count <= a.cap
    ensures Add(a, ok).count == if a.count == a.cap && !ok then a.count else a.count + 1
  {
  }
}
