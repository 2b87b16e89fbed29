/** The growable string of the renderer (dstring_t in src/prom.c) and the doubling
    rule it shares with the snapshot array. */
module DString {
  import opened CStrings
  import opened Lists

  // ---- doubling --------------------------------------------------------------

  /** The doubling loop: the smallest capacity of the form cap * 2^k that holds `need`. */
  function Doubled(cap: nat, need: nat): (r: nat)
    requires cap > 0
    ensures r >= need && r >= cap
    ensures r == cap || r < 2 * need
    decreases if cap < need then need - cap else 0
  {
    if cap < need then Doubled(2 * cap, need) else cap
  }

  /** The capacity after a successful growth; `initial` is used for an empty buffer. */
  function Grown(cap: nat, initial: nat, need: nat): (r: nat)
    requires initial > 0
    ensures r >= need
  {
    Doubled(if cap == 0 then initial else cap, need)
  }

  method DoublingLoop(cap: nat, initial: nat, need: nat) returns (nc: nat)
    requires initial > 0
    ensures nc == Grown(cap, initial, need)
  {
    nc := if cap == 0 then initial else cap;
    while nc < need
      invariant nc > 0 && Doubled(nc, need) == Grown(cap, initial, need)
      decreases need - nc
    {
      nc := 2 * nc;
    }
  }

  /** Growth at least doubles a non-empty buffer. */
  lemma GrowthDoubles(cap: nat, initial: nat, need: nat)
    requires initial > 0 && cap > 0 && need > cap
    ensures Grown(cap, initial, need) >= 2 * cap
  {
  }

  // ---- the string, on values -----------------------------------------------------

  const INITIAL: nat := 512

  /** Text, capacity, and the bytes that reallocations have copied so far. */
  datatype Ds = Ds(text: string, cap: nat, moved: nat)

  const EMPTY := Ds("", 0, 0)

  function Reserve(d: Ds, extra: nat, ok: bool): Ds {
    if |d.text| + extra + 1 <= d.cap || !ok then d
    else Ds(d.text, Grown(d.cap, INITIAL, |d.text| + extra + 1), d.moved + d.cap)
  }

  /** The append goes through: it fits already, or the reallocation succeeds. */
  predicate Accepted(d: Ds, s: string, ok: bool) {
    |d.text| + |s| + 1 <= d.cap || ok
  }

  function Append(d: Ds, s: string, ok: bool): Ds {
    var d' := Reserve(d, |s|, ok);
    if |d'.text| + |s| + 1 > d'.cap then d' else d'.(text := d'.text + s)
  }

  /** An append is all or nothing, and goes through exactly when it is accepted. */
  lemma AppendAllOrNothing(d: Ds, s: string, ok: bool)
    ensures Append(d, s, ok).text == if Accepted(d, s, ok) then d.text + s else d.text
    ensures !Accepted(d, s, ok) ==> Append(d, s, ok) == d
  {
  }

  /** One request and whether the allocator would grant a growth at that moment. */
  datatype Request = Request(s: string, ok: bool)

  function Run(d: Ds, reqs: seq<Request>): Ds {
    if reqs == [] then d
    else
      var n := |reqs| - 1;
      Append(Run(d, reqs[..n]), reqs[n].s, reqs[n].ok)
  }

  /** The requests that went through, in order. */
  function AcceptedPieces(d: Ds, reqs: seq<Request>): seq<string> {
    if reqs == [] then []
    else
      var n := |reqs| - 1;
      AcceptedPieces(d, reqs[..n])
      + if Accepted(Run(d, reqs[..n]), reqs[n].s, reqs[n].ok) then [reqs[n].s] else []
  }

  /** Capacity is within a factor of two of the text, room for the terminator is
      there, and all copying together stays below the capacity. */
  ghost predicate Bounded(d: Ds) {
    && d.cap <= (if 2 * (|d.text| + 1) > INITIAL then 2 * (|d.text| + 1) else INITIAL)
    && d.moved <= d.cap
    && (d.cap > 0 ==> |d.text| < d.cap)
    && (d.cap == 0 ==> d.text == "")
  }

  lemma AppendKeepsBounded(d: Ds, s: string, ok: bool)
    requires Bounded(d)
    ensures Bounded(Append(d, s, ok))
  {
    var need := |d.text| + |s| + 1;
    if d.cap > 0 && need > d.cap {
      GrowthDoubles(d.cap, INITIAL, need);
    }
  }

  /** In any sequence of appends with any reallocation failures, the contents are
      the concatenation of the accepted pieces and the buffer stays bounded. */
  lemma {:induction false} RefinesConcatenation(reqs: seq<Request>)
    ensures Run(EMPTY, reqs).text == Flatten(AcceptedPieces(EMPTY, reqs))
    ensures Bounded(Run(EMPTY, reqs))
  {
    if reqs != [] {
      var n := |reqs| - 1;
      RefinesConcatenation(reqs[..n]);
      var d := Run(EMPTY, reqs[..n]);
      AppendAllOrNothing(d, reqs[n].s, reqs[n].ok);
      AppendKeepsBounded(d, reqs[n].s, reqs[n].ok);
      var pieces := AcceptedPieces(EMPTY, reqs[..n]);
      FlattenSnoc(pieces, reqs[n].s);
      assert pieces + [] == pieces;
    }
  }

  /** Appends after a failed growth are not no-ops in general: a shorter piece that
      still fits is accepted even if the allocator keeps failing. */
  lemma AppendsResumeAfterFailure(long: string)
    requires |long| >= INITIAL
    ensures Run(EMPTY, [Request("a", true), Request(long, false), Request("b", false)]).text == "ab"
  {
    RunThree(EMPTY, Request("a", true), Request(long, false), Request("b", false));
    FirstAppend();
    RefusedAppend(Append(EMPTY, "a", true), long);
  }

  lemma RunThree(d: Ds, a: Request, b: Request, c: Request)
    ensures Run(d, [a, b, c]) == Append(Append(Append(d, a.s, a.ok), b.s, b.ok), c.s, c.ok)
  {
    RunStep(d, [], a);
    RunStep(d, [a], b);
    RunStep(d, [a, b], c);
    assert [] + [a] == [a] && [a] + [b] == [a, b] && [a, b] + [c] == [a, b, c];
  }

  lemma FirstAppend()
    ensures Append(EMPTY, "a", true) == Ds("a", INITIAL, 0)
  {
  }

  lemma RefusedAppend(d: Ds, long: string)
    requires |long| >= INITIAL && d == Ds("a", INITIAL, 0)
    ensures Append(d, long, false) == d && Append(d, "b", false).text == "ab"
  {
  }

  lemma RunStep(d: Ds, reqs: seq<Request>, r: Request)
    ensures Run(d, reqs + [r]) == Append(Run(d, reqs), r.s, r.ok)
  {
    assert (reqs + [r])[..|reqs|] == reqs;
  }

  // ---- what survives when appends are dropped ---------------------------------------

  /** The texts of the elements, one after the other. */
  function Spelled<A>(f: A -> string, xs: seq<A>): string {
    if xs == [] then "" else Spelled(f, xs[..|xs| - 1]) + f(xs[|xs| - 1])
  }

  lemma SpelledSnoc<A>(f: A -> string, xs: seq<A>, x: A)
    ensures Spelled(f, xs + [x]) == Spelled(f, xs) + f(x)
  {
    assert (xs + [x])[..|xs|] == xs;
  }

  lemma {:induction false} SpelledAppend<A>(f: A -> string, xs: seq<A>, ys: seq<A>)
    ensures Spelled(f, xs + ys) == Spelled(f, xs) + Spelled(f, ys)
    decreases |ys|
  {
    if ys == [] {
      assert xs + ys == xs;
    } else {
      var init, y := ys[..|ys| - 1], ys[|ys| - 1];
      assert xs + ys == (xs + init) + [y] && ys == init + [y];
      SpelledAppend(f, xs, init);
      SpelledSnoc(f, xs + init, y);
      SpelledSnoc(f, init, y);
    }
  }

  /** From t to u: the texts of the elements of xs were appended one by one, each as a whole
      or not at all; none was left out if `all`. */
  ghost predicate Kept<A(!new)>(f: A -> string, t: string, u: string, xs: seq<A>, all: bool) {
    exists kept :: Sublist(kept, xs) && (all ==> kept == xs) && u == t + Spelled(f, kept)
  }

  lemma KeptBy<A(!new)>(f: A -> string, t: string, u: string, xs: seq<A>, all: bool, kept: seq<A>)
    requires Sublist(kept, xs) && (all ==> kept == xs) && u == t + Spelled(f, kept)
    ensures Kept(f, t, u, xs, all)
  {
  }

  /** Nothing was to be appended, or nothing was. */
  lemma KeptNothing<A(!new)>(f: A -> string, t: string, xs: seq<A>, all: bool)
    requires all ==> xs == []
    ensures Kept(f, t, t, xs, all)
  {
    KeptBy(f, t, t, xs, all, []);
  }

  lemma KeptOne<A(!new)>(f: A -> string, t: string, u: string, x: A, all: bool)
    requires u == t + f(x) || (u == t && !all)
    ensures Kept(f, t, u, [x], all)
  {
    if u == t + f(x) {
      SublistSelf([x]);
      SpelledSnoc(f, [], x);
      assert [] + [x] == [x];
      KeptBy(f, t, u, [x], all, [x]);
    } else {
      KeptNothing(f, t, [x], all);
    }
  }

  lemma KeptThen<A(!new)>(f: A -> string, t: string, u: string, v: string, xs: seq<A>, ys: seq<A>, all: bool)
    requires Kept(f, t, u, xs, all) && Kept(f, u, v, ys, all)
    ensures Kept(f, t, v, xs + ys, all)
  {
    var a :| Sublist(a, xs) && (all ==> a == xs) && u == t + Spelled(f, a);
    var b :| Sublist(b, ys) && (all ==> b == ys) && v == u + Spelled(f, b);
    SublistAppend(a, xs, b, ys);
    SpelledAppend(f, a, b);
    KeptBy(f, t, v, xs + ys, all, a + b);
  }

  lemma KeptAll<A(!new)>(f: A -> string, t: string, u: string, xs: seq<A>)
    requires Kept(f, t, u, xs, true)
    ensures u == t + Spelled(f, xs)
  {
  }

  function Same(s: string): string { s }

  function Texts<A>(f: A -> string, xs: seq<A>): (r: seq<string>)
    ensures |r| == |xs|
  {
    if xs == [] then [] else Texts(f, xs[..|xs| - 1]) + [f(xs[|xs| - 1])]
  }

  lemma TextsSnoc<A>(f: A -> string, xs: seq<A>, x: A)
    ensures Texts(f, xs + [x]) == Texts(f, xs) + [f(x)]
  {
    assert (xs + [x])[..|xs|] == xs;
  }

  lemma TextsLast<A>(f: A -> string, texts: seq<string>, xs: seq<A>, n: nat)
    requires |texts| == |xs| == n + 1 && texts[..n] == Texts(f, xs[..n]) && texts[n] == f(xs[n])
    ensures texts == Texts(f, xs)
  {
    assert texts == texts[..n] + [texts[n]];
  }

  /** Some of the texts of the elements are the texts of some of the elements. */
  lemma {:induction false} SublistOfTexts<A>(f: A -> string, kept: seq<string>, xs: seq<A>) returns (left: seq<A>)
    requires Sublist(kept, Texts(f, xs))
    ensures Sublist(left, xs) && Texts(f, left) == kept
    ensures kept == Texts(f, xs) ==> left == xs
    decreases |xs|
  {
    if kept == [] {
      left := [];
    } else {
      var init, x := xs[..|xs| - 1], xs[|xs| - 1];
      assert xs == init + [x];
      TextsSnoc(f, init, x);
      var texts := Texts(f, init);
      assert (texts + [f(x)])[..|texts|] == texts;
      if Sublist(kept, texts) {
        SublistLength(kept, texts);
        left := SublistOfTexts(f, kept, init);
        SublistDrop(left, init, x);
      } else {
        var k0 := kept[..|kept| - 1];
        assert kept == k0 + [f(x)];
        var before := SublistOfTexts(f, k0, init);
        left := before + [x];
        SublistKeep(before, init, x);
        TextsSnoc(f, before, x);
      }
    }
  }

  lemma {:induction false} TextsSpell<A>(f: A -> string, xs: seq<A>)
    ensures Spelled(Same, Texts(f, xs)) == Spelled(f, xs)
    decreases |xs|
  {
    if xs != [] {
      var init, x := xs[..|xs| - 1], xs[|xs| - 1];
      TextsSpell(f, init);
      SpelledSnoc(Same, Texts(f, init), f(x));
    }
  }

  /** Appending texts of elements is appending the elements. */
  lemma KeptTexts<A(!new)>(f: A -> string, t: string, u: string, xs: seq<A>, all: bool)
    requires Kept(Same, t, u, Texts(f, xs), all)
    ensures Kept(f, t, u, xs, all)
  {
    var kept :| Sublist(kept, Texts(f, xs)) && (all ==> kept == Texts(f, xs)) && u == t + Spelled(Same, kept);
    var left := SublistOfTexts(f, kept, xs);
    TextsSpell(f, left);
    KeptBy(f, t, u, xs, all, left);
  }

  // ---- the object ------------------------------------------------------------------

  /** dstring_t: `buf` is the allocation, of which `len` bytes and a terminator are text. */
  class Text {
    /** An allocator that never fails; otherwise each reallocation may. */
    const reliable: bool
    var buf: string
    var len: nat
    /** What the buffer holds before its terminator. */
    ghost var text: string
    ghost var moved: nat

    ghost predicate Valid()
      reads this
    {
      && len == |text| <= |buf| && buf[..len] == text
      && (len > 0 ==> len < |buf| && buf[len] == '\0')
      && Bounded(View())
    }

    ghost function View(): Ds
      reads this
    {
      Ds(text, |buf|, moved)
    }

    constructor (reliable: bool)
      ensures Valid() && View() == EMPTY && this.reliable == reliable
    {
      this.reliable := reliable;
      buf, len, text, moved := "", 0, "", 0;
    }

    /** ds_reserve: the allocator's answer `ok` is drawn freely; realloc keeps the old
        bytes and leaves the new ones unspecified. */
    method ReserveRoom(extra: nat) returns (ghost ok: bool)
      requires Valid()
      modifies this`buf, this`moved
      ensures len <= |buf| && buf[..len] == text && (len > 0 ==> len < |buf| && buf[len] == '\0')
      ensures View() == Reserve(old(View()), extra, ok) && (reliable ==> ok)
    {
      ok := true;
      if len + extra + 1 <= |buf| {
        return;
      }
      var nc := DoublingLoop(|buf|, INITIAL, len + extra + 1);
      var failed: bool := *;
      if failed && !reliable {
        ok := false;
        return;
      }
      var junk := new char[nc - |buf|];
      moved := moved + |buf|;
      buf := buf + junk[..];
    }

    /** The copy into reserved room, with its terminator. */
    method Put(s: string)
      requires len == |text| && len + |s| + 1 <= |buf| && buf[..len] == text
      modifies this`len, this`buf, this`text
      ensures |buf| == old(|buf|) && text == old(text) + s
      ensures len == |text| < |buf| && buf[..len] == text && buf[len] == '\0'
    {
      buf := buf[..len] + s + "\0" + buf[len + |s| + 1..];
      len := len + |s|;
      text := text + s;
    }

    /** ds_append and ds_appendf: one all-or-nothing append of the formatted text. */
    method Add(s: string) returns (ghost ok: bool)
      requires Valid()
      modifies this
      ensures Valid()
      ensures View() == Append(old(View()), s, ok) && (reliable ==> ok)
    {
      ghost var d0 := View();
      ok := ReserveRoom(|s|);
      if len + |s| + 1 <= |buf| {
        Put(s);
      }
      AppendKeepsBounded(d0, s, ok);
    }

    /** Add, as the renderer relies on it: all or nothing, and all if no growth fails. */
    method Emit(s: string)
      requires Valid()
      modifies this
      ensures Valid()
      ensures text == old(text) + s || (text == old(text) && !reliable)
    {
      ghost var d0 := View();
      ghost var ok := Add(s);
      AppendAllOrNothing(d0, s, ok);
    }
  }
}
