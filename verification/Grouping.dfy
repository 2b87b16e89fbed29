/** Grouping a family-sorted list into blocks, as the rendering loop of src/prom.c does
    with its `cur_family` variable: the head of a family is written when the family
    changes. Stated for any kind of line T. */
module Grouping {
  import opened CStrings
  import opened Lists

  /** A family, the lines that head it, and its sample lines. */
  datatype Block<T> = Block(family: string, head: seq<T>, samples: seq<T>)

  predicate Starts<T>(parts: seq<Block<T>>, k: nat)
    requires k < |parts|
  {
    k == 0 || parts[k - 1].family != parts[k].family
  }

  /** What the loop writes for one part. */
  function PartLines<T>(p: Block<T>, starts: bool): seq<T> {
    if starts then p.head + p.samples else p.samples
  }

  /** What the loop writes for all parts. */
  function Written<T>(parts: seq<Block<T>>): seq<T> {
    if parts == [] then []
    else
      var n := |parts| - 1;
      Written(parts[..n]) + PartLines(parts[n], Starts(parts, n))
  }

  function Extend<T>(gs: seq<Block<T>>, p: Block<T>, starts: bool): (r: seq<Block<T>>)
    requires !starts ==> gs != []
    ensures r != [] && |r| == |gs| + (if starts then 1 else 0)
  {
    if starts then gs + [p]
    else
      var last := gs[|gs| - 1];
      gs[..|gs| - 1] + [Block(last.family, last.head, last.samples + p.samples)]
  }

  /** Block after block: head, then samples. */
  function Concatenated<T>(gs: seq<Block<T>>): seq<T> {
    if gs == [] then []
    else Concatenated(gs[..|gs| - 1]) + (gs[|gs| - 1].head + gs[|gs| - 1].samples)
  }

  lemma ExtendConcatenated<T>(gs: seq<Block<T>>, p: Block<T>, starts: bool)
    requires !starts ==> gs != []
    ensures Concatenated(Extend(gs, p, starts)) == Concatenated(gs) + PartLines(p, starts)
  {
    if starts {
      ConcatenatedSnoc(gs, p);
    } else {
      var init, last := gs[..|gs| - 1], gs[|gs| - 1];
      assert gs == init + [last];
      ConcatenatedSnoc(init, last);
      ConcatenatedSnoc(init, Block(last.family, last.head, last.samples + p.samples));
      Regroup(Concatenated(init), last.head, last.samples, p.samples);
    }
  }

  lemma ConcatenatedSnoc<T>(gs: seq<Block<T>>, p: Block<T>)
    ensures Concatenated(gs + [p]) == Concatenated(gs) + (p.head + p.samples)
  {
    assert (gs + [p])[..|gs|] == gs;
  }

  lemma Regroup<T>(a: seq<T>, b: seq<T>, c: seq<T>, d: seq<T>)
    ensures a + (b + (c + d)) == (a + (b + c)) + d
  {
  }

  // ---- families strictly increase ------------------------------------------------------

  ghost predicate Sorted<T>(parts: seq<Block<T>>) {
    forall a, b :: 0 <= a < b < |parts| ==> Leq(parts[a].family, parts[b].family)
  }

  ghost predicate Before(f: string, g: string) { Leq(f, g) && f != g }

  ghost predicate Increasing<T>(gs: seq<Block<T>>) {
    forall a, b :: 0 <= a < b < |gs| ==> Before(gs[a].family, gs[b].family)
  }

  lemma BeforeTransitive(f: string, g: string, h: string)
    requires Before(f, g) && Before(g, h)
    ensures Before(f, h)
  {
    LeqTransitive(f, g, h);
    if f == h {
      LeqAntisymmetric(f, g);
    }
  }

  lemma IncreasingSnoc<T>(gs: seq<Block<T>>, p: Block<T>)
    requires Increasing(gs) && (gs != [] ==> Before(gs[|gs| - 1].family, p.family))
    ensures Increasing(gs + [p])
  {
    forall a | 0 <= a < |gs| ensures Before(gs[a].family, p.family) {
      if a < |gs| - 1 {
        BeforeTransitive(gs[a].family, gs[|gs| - 1].family, p.family);
      }
    }
  }

  lemma ExtendIncreasing<T>(gs: seq<Block<T>>, p: Block<T>, starts: bool)
    requires Increasing(gs) && (!starts ==> gs != [])
    requires starts && gs != [] ==> Before(gs[|gs| - 1].family, p.family)
    ensures Increasing(Extend(gs, p, starts))
  {
    if starts {
      IncreasingSnoc(gs, p);
    } else {
      var r := Extend(gs, p, starts);
      assert forall a :: 0 <= a < |gs| ==> r[a].family == gs[a].family;
    }
  }

  // ---- nothing is lost, added or moved to another family --------------------------------

  /** The samples of one part that count towards `family` (all of them for None). */
  ghost function Share<T>(p: Block<T>, family: Option<string>): multiset<T> {
    if family.None? || family.value == p.family then multiset(p.samples) else multiset{}
  }

  /** All samples of the parts, as a multiset; with a family given, only its samples. */
  ghost function Bag<T>(parts: seq<Block<T>>, family: Option<string>): multiset<T> {
    if parts == [] then multiset{}
    else Bag(parts[..|parts| - 1], family) + Share(parts[|parts| - 1], family)
  }

  lemma BagSnoc<T>(parts: seq<Block<T>>, p: Block<T>, family: Option<string>)
    ensures Bag(parts + [p], family) == Bag(parts, family) + Share(p, family)
  {
    assert (parts + [p])[..|parts|] == parts;
  }

  lemma ExtendBag<T>(gs: seq<Block<T>>, p: Block<T>, starts: bool, family: Option<string>)
    requires !starts ==> gs != [] && gs[|gs| - 1].family == p.family
    ensures Bag(Extend(gs, p, starts), family) == Bag(gs, family) + Share(p, family)
  {
    BagSnoc(gs, p, family);
    if !starts {
      var init, last := gs[..|gs| - 1], gs[|gs| - 1];
      assert gs == init + [last];
      BagSnoc(init, last, family);
      BagSnoc(init, Block(last.family, last.head, last.samples + p.samples), family);
    }
  }

  lemma {:induction false} BagRemove<T>(b: seq<Block<T>>, i: nat, family: Option<string>)
    requires i < |b|
    ensures Bag(b, family) == Bag(Without(b, i), family) + Share(b[i], family)
    decreases |b|
  {
    var n := |b| - 1;
    var init, last := b[..n], b[n];
    if i == n {
      assert Without(b, i) == init;
    } else {
      var rest := Without(init, i);
      assert Without(b, i) == rest + [last];
      assert b == init + [last];
      BagSnoc(init, last, family);
      BagSnoc(rest, last, family);
      BagRemove(init, i, family);
      AddSwap(Bag(rest, family), Share(b[i], family), Share(last, family));
    }
  }

  function Mapped<A, B>(f: A -> B, s: seq<A>): (r: seq<B>)
    ensures |r| == |s| && forall i :: 0 <= i < |s| ==> r[i] == f(s[i])
  {
    seq(|s|, i requires 0 <= i < |s| => f(s[i]))
  }

  lemma MappedWithout<A, B>(f: A -> B, s: seq<A>, i: nat)
    requires i < |s|
    ensures multiset(Mapped(f, s)) == multiset(Mapped(f, Without(s, i))) + multiset{f(s[i])}
  {
    var r := Mapped(f, s);
    assert Mapped(f, Without(s, i)) == Without(r, i);
    WithoutMultiset(r, i);
    assert r[i] in multiset(r);
  }

  /** Mapping keeps permutations. */
  lemma {:induction false} MappedPermutes<A, B>(f: A -> B, a: seq<A>, b: seq<A>)
    requires multiset(a) == multiset(b)
    ensures multiset(Mapped(f, a)) == multiset(Mapped(f, b))
    decreases |a|
  {
    assert |a| == |multiset(a)| == |multiset(b)| == |b|;
    if a != [] {
      var n := |a| - 1;
      assert a[n] in multiset(b);
      var i :| 0 <= i < |b| && b[i] == a[n];
      WithoutMultiset(a, n);
      WithoutMultiset(b, i);
      MappedPermutes(f, Without(a, n), Without(b, i));
      MappedWithout(f, a, n);
      MappedWithout(f, b, i);
    }
  }

  /** The bag does not depend on the order of the parts. */
  lemma {:induction false} BagPermutes<T>(a: seq<Block<T>>, b: seq<Block<T>>, family: Option<string>)
    requires multiset(a) == multiset(b)
    ensures Bag(a, family) == Bag(b, family)
    decreases |a|
  {
    assert |a| == |multiset(a)| == |multiset(b)| == |b|;
    if a != [] {
      var n := |a| - 1;
      assert a[n] in multiset(b);
      var i :| 0 <= i < |b| && b[i] == a[n];
      WithoutMultiset(a, n);
      WithoutMultiset(b, i);
      assert Without(a, n) == a[..n];
      BagPermutes(a[..n], Without(b, i), family);
      BagRemove(b, i, family);
    }
  }

  /** In an increasing list the bag of a block's family is that block's samples. */
  lemma {:induction false} BagOfBlock<T>(gs: seq<Block<T>>, a: nat)
    requires Increasing(gs) && a < |gs|
    ensures Bag(gs, Some(gs[a].family)) == multiset(gs[a].samples)
    decreases |gs|
  {
    var n := |gs| - 1;
    if a < n {
      assert Before(gs[a].family, gs[n].family);
      BagOfBlock(gs[..n], a);
    } else {
      NoBag(gs[..n], gs[a].family);
    }
  }

  lemma {:induction false} NoBag<T>(gs: seq<Block<T>>, f: string)
    requires forall a :: 0 <= a < |gs| ==> Before(gs[a].family, f)
    ensures Bag(gs, Some(f)) == multiset{}
    decreases |gs|
  {
    if gs != [] {
      assert Before(gs[|gs| - 1].family, f);
      NoBag(gs[..|gs| - 1], f);
    }
  }

  // ---- the blocks of a sorted list -------------------------------------------------------

  ghost predicate SameHead<T>(p: Block<T>, q: Block<T>) { p.family == q.family && p.head == q.head }

  ghost predicate HasBlock<T>(gs: seq<Block<T>>, f: string) {
    exists a :: 0 <= a < |gs| && gs[a].family == f
  }

  ghost predicate HeadIn<T>(parts: seq<Block<T>>, g: Block<T>) {
    exists j :: 0 <= j < |parts| && SameHead(parts[j], g)
  }

  /** Every block's head comes from a part of its family, and every family has a block. */
  ghost predicate Covers<T>(gs: seq<Block<T>>, parts: seq<Block<T>>) {
    && (forall a :: 0 <= a < |gs| ==> HeadIn(parts, gs[a]))
    && (forall j :: 0 <= j < |parts| ==> HasBlock(gs, parts[j].family))
  }

  lemma ExtendCovers<T>(gs: seq<Block<T>>, parts: seq<Block<T>>, p: Block<T>, starts: bool)
    requires Covers(gs, parts) && (!starts ==> gs != [] && gs[|gs| - 1].family == p.family)
    ensures Covers(Extend(gs, p, starts), parts + [p])
  {
    var r, qs := Extend(gs, p, starts), parts + [p];
    forall a | 0 <= a < |r| ensures HeadIn(qs, r[a]) {
      if a < |gs| {
        assert HeadIn(parts, gs[a]);
        var j :| 0 <= j < |parts| && SameHead(parts[j], gs[a]);
        assert SameHead(qs[j], r[a]);
      } else {
        assert SameHead(qs[|parts|], r[a]);
      }
    }
    forall j | 0 <= j < |qs| ensures HasBlock(r, qs[j].family) {
      if j < |parts| {
        assert HasBlock(gs, parts[j].family);
        var a :| 0 <= a < |gs| && gs[a].family == parts[j].family;
        assert r[a].family == qs[j].family;
      } else {
        assert r[|r| - 1].family == qs[j].family;
      }
    }
  }

  /** `gs` is the block structure of what the loop writes: block after block with each
      head once and first, families strictly increasing, heads and families those of
      the parts, and in every block exactly the samples of its family. */
  ghost predicate GroupingOf<T(!new)>(parts: seq<Block<T>>, gs: seq<Block<T>>) {
    && Written(parts) == Concatenated(gs)
    && Increasing(gs)
    && Covers(gs, parts)
    && (forall f :: Bag(gs, f) == Bag(parts, f))
  }

  lemma WrittenSnoc<T>(parts: seq<Block<T>>, p: Block<T>)
    ensures Written(parts + [p]) == Written(parts) + PartLines(p, parts == [] || parts[|parts| - 1].family != p.family)
  {
    var starts := parts == [] || parts[|parts| - 1].family != p.family;
    StartsSnoc(parts, p, starts);
    WrittenIs(parts + [p], parts, p, starts);
  }

  lemma StartsSnoc<T>(parts: seq<Block<T>>, p: Block<T>, starts: bool)
    requires starts == (parts == [] || parts[|parts| - 1].family != p.family)
    ensures (parts + [p])[..|parts|] == parts && (parts + [p])[|parts|] == p && Starts(parts + [p], |parts|) == starts
  {
  }

  lemma WrittenIs<T>(all: seq<Block<T>>, parts: seq<Block<T>>, p: Block<T>, starts: bool)
    requires |all| == |parts| + 1 && all[..|parts|] == parts && all[|parts|] == p && Starts(all, |parts|) == starts
    ensures Written(all) == Written(parts) + PartLines(p, starts)
  {
    WrittenLast(all, |parts|);
  }

  lemma WrittenLast<T>(parts: seq<Block<T>>, n: nat)
    requires n + 1 == |parts|
    ensures Written(parts) == Written(parts[..n]) + PartLines(parts[n], Starts(parts, n))
  {
  }

  lemma GroupingStep<T(!new)>(parts: seq<Block<T>>, gs: seq<Block<T>>, p: Block<T>, starts: bool)
    requires GroupingOf(parts, gs)
    requires starts == (parts == [] || parts[|parts| - 1].family != p.family)
    requires if parts == [] then gs == [] else gs != [] && gs[|gs| - 1].family == parts[|parts| - 1].family
    requires parts != [] ==> Leq(parts[|parts| - 1].family, p.family)
    ensures GroupingOf(parts + [p], Extend(gs, p, starts))
    ensures var r := Extend(gs, p, starts); r[|r| - 1].family == p.family
  {
    var r := Extend(gs, p, starts);
    assert Written(parts + [p]) == Concatenated(r) by {
      WrittenSnoc(parts, p);
      ExtendConcatenated(gs, p, starts);
    }
    ExtendIncreasing(gs, p, starts);
    ExtendCovers(gs, parts, p, starts);
    forall f ensures Bag(r, f) == Bag(parts + [p], f) {
      ExtendBag(gs, p, starts, f);
      BagSnoc(parts, p, f);
    }
  }

  /** What the loop writes for a sorted list always has such a structure. */
  lemma {:induction false} GroupingExists<T(!new)>(parts: seq<Block<T>>) returns (gs: seq<Block<T>>)
    requires Sorted(parts)
    ensures GroupingOf(parts, gs)
    ensures if parts == [] then gs == [] else gs != [] && gs[|gs| - 1].family == parts[|parts| - 1].family
    decreases |parts|
  {
    if parts == [] {
      gs := [];
      NothingToGroup<T>();
    } else {
      var n := |parts| - 1;
      var init, p, starts := parts[..n], parts[n], Starts(parts, n);
      assert parts == init + [p];
      assert Sorted(init);
      assert starts == (init == [] || init[|init| - 1].family != p.family);
      var before := GroupingExists(init);
      GroupingStep(init, before, p, starts);
      gs := Extend(before, p, starts);
    }
  }

  lemma NothingToGroup<T(!new)>()
    ensures GroupingOf<T>([], [])
  {
  }

  // ---- the order of equal families does not matter ---------------------------------------

  /** Parts of one family have one head. */
  ghost predicate HeadsAgree<T>(parts: seq<Block<T>>) {
    forall a, b :: 0 <= a < |parts| && 0 <= b < |parts| && parts[a].family == parts[b].family ==>
      parts[a].head == parts[b].head
  }

  ghost predicate FamiliesWithin<T>(gs: seq<Block<T>>, hs: seq<Block<T>>) {
    forall a :: 0 <= a < |gs| ==> HasBlock(hs, gs[a].family)
  }

  lemma LastFamily<T>(gs: seq<Block<T>>, hs: seq<Block<T>>)
    requires Increasing(hs) && FamiliesWithin(gs, hs) && gs != []
    ensures hs != [] && Leq(gs[|gs| - 1].family, hs[|hs| - 1].family)
  {
    var f := gs[|gs| - 1].family;
    assert HasBlock(hs, f);
    var b :| 0 <= b < |hs| && hs[b].family == f;
    if b < |hs| - 1 {
      assert Before(hs[b].family, hs[|hs| - 1].family);
    } else {
      LeqTotal(f, f);
    }
  }

  lemma DropLast<T>(gs: seq<Block<T>>, hs: seq<Block<T>>)
    requires Increasing(gs) && FamiliesWithin(gs, hs) && gs != [] && hs != []
    requires gs[|gs| - 1].family == hs[|hs| - 1].family
    ensures FamiliesWithin(gs[..|gs| - 1], hs[..|hs| - 1])
  {
    var m, n := |gs| - 1, |hs| - 1;
    var g, h := gs[..m], hs[..n];
    forall a | 0 <= a < |g| ensures HasBlock(h, g[a].family) {
      assert Before(gs[a].family, gs[m].family);
      assert HasBlock(hs, gs[a].family);
      var b :| 0 <= b < |hs| && hs[b].family == gs[a].family;
      assert h[b].family == g[a].family;
    }
  }

  /** Two strictly increasing lists over the same families agree position by position. */
  lemma {:induction false} IncreasingIsUnique<T>(gs: seq<Block<T>>, hs: seq<Block<T>>)
    requires Increasing(gs) && Increasing(hs) && FamiliesWithin(gs, hs) && FamiliesWithin(hs, gs)
    ensures SameFamilies(gs, hs)
    decreases |gs|
  {
    if gs == [] {
      if hs != [] {
        LastFamily(hs, gs);
      }
    } else {
      LastFamily(gs, hs);
      LastFamily(hs, gs);
      var m, n := |gs| - 1, |hs| - 1;
      LeqAntisymmetric(gs[m].family, hs[n].family);
      DropLast(gs, hs);
      DropLast(hs, gs);
      IncreasingIsUnique(gs[..m], hs[..n]);
      SameFamiliesSnoc(gs, hs, m);
    }
  }

  ghost predicate SameFamilies<T>(gs: seq<Block<T>>, hs: seq<Block<T>>) {
    |gs| == |hs| && forall a :: 0 <= a < |gs| ==> gs[a].family == hs[a].family
  }

  lemma SameFamiliesSnoc<T>(gs: seq<Block<T>>, hs: seq<Block<T>>, m: nat)
    requires |gs| == |hs| == m + 1 && SameFamilies(gs[..m], hs[..m]) && gs[m].family == hs[m].family
    ensures SameFamilies(gs, hs)
  {
    forall a | 0 <= a < |gs| ensures gs[a].family == hs[a].family {
      if a < m {
        assert gs[..m][a].family == hs[..m][a].family;
      }
    }
  }

  lemma CoversWithin<T>(gs: seq<Block<T>>, hs: seq<Block<T>>, ps: seq<Block<T>>, qs: seq<Block<T>>)
    requires Covers(gs, ps) && Covers(hs, qs) && multiset(ps) == multiset(qs)
    ensures FamiliesWithin(gs, hs)
  {
    forall a | 0 <= a < |gs| ensures HasBlock(hs, gs[a].family) {
      assert HeadIn(ps, gs[a]);
      var j :| 0 <= j < |ps| && SameHead(ps[j], gs[a]);
      assert ps[j] in multiset(qs);
      var i :| 0 <= i < |qs| && qs[i] == ps[j];
      assert HasBlock(hs, qs[i].family);
    }
  }

  lemma HeadOfFamily<T>(gs: seq<Block<T>>, ps: seq<Block<T>>, qs: seq<Block<T>>, a: nat)
    requires Covers(gs, ps) && multiset(ps) == multiset(qs) && a < |gs|
    ensures exists i :: 0 <= i < |qs| && SameHead(qs[i], gs[a])
  {
    assert HeadIn(ps, gs[a]);
    var j :| 0 <= j < |ps| && SameHead(ps[j], gs[a]);
    assert ps[j] in multiset(qs);
    var i :| 0 <= i < |qs| && qs[i] == ps[j];
    assert SameHead(qs[i], gs[a]);
  }

  /** Same blocks: same families and heads in the same order, same samples per block. */
  ghost predicate Equivalent<T>(gs: seq<Block<T>>, hs: seq<Block<T>>) {
    && |gs| == |hs|
    && forall a :: 0 <= a < |gs| ==> SameHead(gs[a], hs[a]) && multiset(gs[a].samples) == multiset(hs[a].samples)
  }

  /** Whatever order an unstable sort leaves equal families in, the blocks are the same:
      only the order of samples inside a block can differ. */
  lemma OrderDoesNotMatter<T(!new)>(ps: seq<Block<T>>, gs: seq<Block<T>>, qs: seq<Block<T>>, hs: seq<Block<T>>)
    requires multiset(ps) == multiset(qs) && HeadsAgree(qs)
    requires GroupingOf(ps, gs) && GroupingOf(qs, hs)
    ensures Equivalent(gs, hs)
  {
    CoversWithin(gs, hs, ps, qs);
    CoversWithin(hs, gs, qs, ps);
    IncreasingIsUnique(gs, hs);
    forall a | 0 <= a < |gs| ensures SameHead(gs[a], hs[a]) && multiset(gs[a].samples) == multiset(hs[a].samples) {
      HeadOfFamily(gs, ps, qs, a);
      assert HeadIn(qs, hs[a]);
      BagOfBlock(gs, a);
      BagOfBlock(hs, a);
      BagPermutes(ps, qs, Some(gs[a].family));
    }
  }

  /** A sample counted for a family comes from a part of that family. */
  lemma {:induction false} BagElement<T>(parts: seq<Block<T>>, f: string, x: T)
    requires x in Bag(parts, Some(f))
    ensures exists j :: 0 <= j < |parts| && parts[j].family == f && x in parts[j].samples
    decreases |parts|
  {
    var n := |parts| - 1;
    if x in Share(parts[n], Some(f)) {
      assert x in parts[n].samples;
    } else {
      BagElement(parts[..n], f, x);
      var j :| 0 <= j < n && parts[..n][j].family == f && x in parts[..n][j].samples;
      assert parts[j].family == f;
    }
  }
}
