/** Sequences as lists: prefixes, removal of one element, and permutations. */
module Lists {

  function Take<A>(s: seq<A>, k: nat): seq<A> { if k < |s| then s[..k] else s }

  function Without<A>(s: seq<A>, i: nat): seq<A>
    requires i < |s|
  {
    s[..i] + s[i + 1..]
  }

  lemma WithoutMultiset<A>(s: seq<A>, i: nat)
    requires i < |s|
    ensures multiset(Without(s, i)) == multiset(s) - multiset{s[i]}
  {
    assert s == s[..i] + ([s[i]] + s[i + 1..]);
  }

  lemma AddSwap<A>(a: multiset<A>, b: multiset<A>, c: multiset<A>)
    ensures (a + b) + c == (a + c) + b
  {
  }

  ghost predicate Distinct<A>(s: seq<A>) { forall i, j :: 0 <= i < j < |s| ==> s[i] != s[j] }

  lemma {:induction false} DistinctCounts<A>(s: seq<A>, x: A)
    requires Distinct(s)
    ensures multiset(s)[x] == if x in s then 1 else 0
    decreases |s|
  {
    if s != [] {
      var n := |s| - 1;
      assert s == s[..n] + [s[n]];
      DistinctCounts(s[..n], x);
    }
  }

  /** Two repetition-free lists with the same members are permutations of each other. */
  lemma SameMembers<A(!new)>(a: seq<A>, b: seq<A>)
    requires Distinct(a) && Distinct(b) && forall x :: x in a <==> x in b
    ensures multiset(a) == multiset(b) && |a| == |b|
  {
    forall x ensures multiset(a)[x] == multiset(b)[x] {
      DistinctCounts(a, x);
      DistinctCounts(b, x);
    }
    assert multiset(a) == multiset(b);
    assert |a| == |multiset(a)| == |multiset(b)| == |b|;
  }

  // ---- what is left of a list after some of its elements are dropped -------------------

  /** `a` is `b` without some of its elements; the others keep their order. */
  ghost predicate Sublist<A>(a: seq<A>, b: seq<A>)
    decreases |b|
  {
    || a == []
    || (b != [] && Sublist(a, b[..|b| - 1]))
    || (b != [] && a[|a| - 1] == b[|b| - 1] && Sublist(a[..|a| - 1], b[..|b| - 1]))
  }

  lemma {:induction false} SublistSelf<A>(a: seq<A>)
    ensures Sublist(a, a)
    decreases |a|
  {
    if a != [] {
      SublistSelf(a[..|a| - 1]);
    }
  }

  lemma SublistKeep<A>(a: seq<A>, b: seq<A>, x: A)
    requires Sublist(a, b)
    ensures Sublist(a + [x], b + [x])
  {
    assert (a + [x])[..|a|] == a && (b + [x])[..|b|] == b;
  }

  lemma SublistDrop<A>(a: seq<A>, b: seq<A>, x: A)
    requires Sublist(a, b)
    ensures Sublist(a, b + [x])
  {
    assert (b + [x])[..|b|] == b;
  }

  lemma {:induction false} SublistAppend<A>(a: seq<A>, b: seq<A>, c: seq<A>, d: seq<A>)
    requires Sublist(a, b) && Sublist(c, d)
    ensures Sublist(a + c, b + d)
    decreases |d|
  {
    if d == [] {
      assert a + c == a && b + d == b;
    } else {
      var init, x := d[..|d| - 1], d[|d| - 1];
      assert b + d == (b + init) + [x];
      if c == [] || Sublist(c, init) {
        if c == [] {
          assert Sublist(c, init);
        }
        SublistAppend(a, b, c, init);
        SublistDrop(a + c, b + init, x);
      } else {
        var c0 := c[..|c| - 1];
        SublistAppend(a, b, c0, init);
        assert a + c == (a + c0) + [x];
        SublistKeep(a + c0, b + init, x);
      }
    }
  }

  lemma {:induction false} SublistLength<A>(a: seq<A>, b: seq<A>)
    requires Sublist(a, b)
    ensures |a| <= |b|
    ensures |a| == |b| ==> a == b
    decreases |b|
  {
    if a != [] {
      var init := b[..|b| - 1];
      if Sublist(a, init) {
        SublistLength(a, init);
      } else {
        SublistLength(a[..|a| - 1], init);
        assert a == a[..|a| - 1] + [a[|a| - 1]] && b == init + [b[|b| - 1]];
      }
    }
  }

  lemma {:induction false} SublistMembers<A>(a: seq<A>, b: seq<A>)
    requires Sublist(a, b)
    ensures forall x :: x in a ==> x in b
    decreases |b|
  {
    if a != [] {
      var init := b[..|b| - 1];
      if Sublist(a, init) {
        SublistMembers(a, init);
      } else {
        SublistMembers(a[..|a| - 1], init);
        assert a == a[..|a| - 1] + [a[|a| - 1]] && b == init + [b[|b| - 1]];
      }
    }
  }

  ghost predicate All<A(!new)>(s: seq<A>, p: A -> bool) { forall i :: 0 <= i < |s| ==> p(s[i]) }

  lemma AllAppend<A(!new)>(a: seq<A>, b: seq<A>, p: A -> bool)
    requires All(a, p) && All(b, p)
    ensures All(a + b, p)
  {
  }

  lemma SublistAll<A(!new)>(a: seq<A>, b: seq<A>, p: A -> bool)
    requires Sublist(a, b) && All(b, p)
    ensures All(a, p)
  {
    SublistMembers(a, b);
    forall i | 0 <= i < |a| ensures p(a[i]) {
      assert a[i] in b;
    }
  }

  /** Every two elements are in the relation, the earlier one first. */
  ghost predicate Pairwise<A(!new)>(s: seq<A>, r: (A, A) -> bool) {
    forall i, j :: 0 <= i < j < |s| ==> r(s[i], s[j])
  }

  lemma {:induction false} SublistPairwise<A(!new)>(a: seq<A>, b: seq<A>, r: (A, A) -> bool)
    requires Sublist(a, b) && Pairwise(b, r)
    ensures Pairwise(a, r)
    decreases |b|
  {
    if a != [] {
      var init, front := b[..|b| - 1], a[..|a| - 1];
      if Sublist(a, init) {
        SublistPairwise(a, init, r);
      } else {
        SublistPairwise(front, init, r);
        SublistMembers(front, init);
        forall i, j | 0 <= i < j < |a| ensures r(a[i], a[j]) {
          assert a[i] == front[i];
          if j < |front| {
            assert a[j] == front[j];
          } else {
            assert front[i] in init;
            var k :| 0 <= k < |init| && init[k] == front[i];
            assert r(b[k], b[|b| - 1]);
          }
        }
      }
    }
  }

  /** Part of a list, all of it if `all`. */
  ghost predicate Portion<A>(a: seq<A>, b: seq<A>, all: bool) { Sublist(a, b) && (all ==> a == b) }

  lemma PortionGrows<A>(a: seq<A>, b: seq<A>, a': seq<A>, x: A, all: bool)
    requires Portion(a, b, all) && (a' == a + [x] || (a' == a && !all))
    ensures Portion(a', b + [x], all)
  {
    SublistKeep(a, b, x);
    SublistDrop(a, b, x);
  }

  // ---- what a list contributes, element by element, as a multiset ------------------------

  ghost function Gathered<A, B>(f: A -> multiset<B>, s: seq<A>): multiset<B> {
    if s == [] then multiset{} else Gathered(f, s[..|s| - 1]) + f(s[|s| - 1])
  }

  lemma GatheredSnoc<A, B>(f: A -> multiset<B>, s: seq<A>, x: A)
    ensures Gathered(f, s + [x]) == Gathered(f, s) + f(x)
  {
    assert (s + [x])[..|s|] == s;
  }

  lemma {:induction false} GatheredWithout<A, B>(f: A -> multiset<B>, s: seq<A>, i: nat)
    requires i < |s|
    ensures Gathered(f, s) == Gathered(f, Without(s, i)) + f(s[i])
    decreases |s|
  {
    var n := |s| - 1;
    var init, last := s[..n], s[n];
    assert s == init + [last];
    if i == n {
      assert Without(s, i) == init;
    } else {
      var rest := Without(init, i);
      assert Without(s, i) == rest + [last];
      GatheredSnoc(f, init, last);
      GatheredSnoc(f, rest, last);
      GatheredWithout(f, init, i);
      AddSwap(Gathered(f, rest), f(s[i]), f(last));
    }
  }

  /** The order of the elements makes no difference to what they contribute. */
  lemma {:induction false} GatheredPermutes<A, B>(f: A -> multiset<B>, a: seq<A>, b: seq<A>)
    requires multiset(a) == multiset(b)
    ensures Gathered(f, a) == Gathered(f, b)
    decreases |a|
  {
    assert |a| == |multiset(a)| == |multiset(b)| == |b|;
    if a != [] {
      var n := |a| - 1;
      assert a[n] in multiset(b);
      var i :| 0 <= i < |b| && b[i] == a[n];
      WithoutMultiset(a, n);
      WithoutMultiset(b, i);
      GatheredPermutes(f, Without(a, n), Without(b, i));
      GatheredWithout(f, a, n);
      GatheredWithout(f, b, i);
    }
  }
}
