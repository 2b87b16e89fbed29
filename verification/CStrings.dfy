/** C library string searches on NUL-free sequences: strchr, strrchr, strstr,
    strcmp, and the copy that truncates to a field of fixed size. */
module CStrings {

  datatype Option<+T> = None | Some(value: T)

  /** strchr(s + from, c): the first occurrence at or after `from`. */
  function IndexOf(s: string, c: char, from: nat): (r: Option<nat>)
    ensures r.Some? ==> from <= r.value < |s| && s[r.value] == c
    decreases |s| - from
  {
    if from >= |s| then None
    else if s[from] == c then Some(from)
    else IndexOf(s, c, from + 1)
  }

  /** The first occurrence behind a found position; nothing if there was none. */
  function NextOf(s: string, c: char, a: Option<nat>): (r: Option<nat>)
    ensures r.Some? ==> a.Some? && a.value < r.value < |s|
  {
    if a.Some? then IndexOf(s, c, a.value + 1) else None
  }

  /** The result is the first occurrence: an occurrence with none before it is found. */
  lemma {:induction false} FirstIs(s: string, c: char, from: nat, i: nat)
    requires from <= i < |s| && s[i] == c && forall k :: from <= k < i ==> s[k] != c
    ensures IndexOf(s, c, from) == Some(i)
    decreases i - from
  {
    if from < i {
      FirstIs(s, c, from + 1, i);
    }
  }

  /** Any occurrence bounds the first one. */
  lemma {:induction false} FoundBefore(s: string, c: char, from: nat, i: nat)
    requires from <= i < |s| && s[i] == c
    ensures IndexOf(s, c, from).Some? && IndexOf(s, c, from).value <= i
    decreases i - from
  {
    if from < i && s[from] != c {
      FoundBefore(s, c, from + 1, i);
    }
  }

  /** No occurrence comes before the first one. */
  lemma {:induction false} NoneBefore(s: string, c: char, from: nat, k: nat)
    requires IndexOf(s, c, from).Some? && from <= k < IndexOf(s, c, from).value
    ensures s[k] != c
    decreases k - from
  {
    if from < k {
      NoneBefore(s, c, from + 1, k);
    }
  }

  lemma {:induction false} NotFound(s: string, c: char, from: nat)
    requires forall k :: from <= k < |s| ==> s[k] != c
    ensures IndexOf(s, c, from) == None
    decreases |s| - from
  {
    if from < |s| {
      NotFound(s, c, from + 1);
    }
  }

  /** strrchr(s[..end], c): the last occurrence before `end`. */
  function LastIndexOf(s: string, c: char, end: nat): (r: Option<nat>)
    requires end <= |s|
    ensures r.Some? ==> r.value < end && s[r.value] == c
                        && forall i :: r.value < i < end ==> s[i] != c
    ensures r.None? ==> forall i :: 0 <= i < end ==> s[i] != c
  {
    if end == 0 then None
    else if s[end - 1] == c then Some(end - 1)
    else LastIndexOf(s, c, end - 1)
  }

  predicate MatchAt(s: string, pat: string, i: nat) {
    i + |pat| <= |s| && s[i..i + |pat|] == pat
  }

  /** strstr(s + from, pat): the first match at or after `from`. */
  function FindSub(s: string, pat: string, from: nat): (r: Option<nat>)
    ensures r.Some? ==> from <= r.value && r.value + |pat| <= |s|
    decreases |s| - from
  {
    if from + |pat| > |s| then None
    else if MatchAt(s, pat, from) then Some(from)
    else FindSub(s, pat, from + 1)
  }

  lemma {:induction false} FirstMatchIs(s: string, pat: string, from: nat, i: nat)
    requires from <= i && MatchAt(s, pat, i) && forall k :: from <= k < i ==> !MatchAt(s, pat, k)
    ensures FindSub(s, pat, from) == Some(i)
    decreases i - from
  {
    if from < i {
      FirstMatchIs(s, pat, from + 1, i);
    }
  }

  lemma {:induction false} NoMatch(s: string, pat: string, from: nat)
    requires forall k :: from <= k ==> !MatchAt(s, pat, k)
    ensures FindSub(s, pat, from) == None
    decreases |s| - from
  {
    if from + |pat| <= |s| {
      NoMatch(s, pat, from + 1);
    }
  }

  /** strcmp(a, b) <= 0. */
  predicate Leq(a: string, b: string) {
    a == "" || (b != "" && (a[0] < b[0] || (a[0] == b[0] && Leq(a[1..], b[1..]))))
  }

  lemma {:induction false} LeqTotal(a: string, b: string)
    ensures Leq(a, b) || Leq(b, a)
  {
    if a != "" && b != "" && a[0] == b[0] {
      LeqTotal(a[1..], b[1..]);
    }
  }

  lemma {:induction false} LeqAntisymmetric(a: string, b: string)
    requires Leq(a, b) && Leq(b, a)
    ensures a == b
  {
    if a != "" {
      LeqAntisymmetric(a[1..], b[1..]);
      assert a == [a[0]] + a[1..] && b == [b[0]] + b[1..];
    }
  }

  lemma {:induction false} LeqTransitive(a: string, b: string, c: string)
    requires Leq(a, b) && Leq(b, c)
    ensures Leq(a, c)
  {
    if a != "" && a[0] == b[0] == c[0] {
      LeqTransitive(a[1..], b[1..], c[1..]);
    }
  }

  /** What a copy into a field of `size` bytes keeps: one byte goes to the terminator. */
  function Truncated(s: string, size: nat): (r: string)
    requires size > 0
    ensures |r| < size
    ensures |s| < size ==> r == s
    ensures |s| >= size ==> |r| == size - 1
  {
    if |s| < size then s else s[..size - 1]
  }

  /** Concatenation of a list of pieces. */
  function Flatten(pieces: seq<string>): string {
    if pieces == [] then "" else pieces[0] + Flatten(pieces[1..])
  }

  lemma {:induction false} FlattenAppend(a: seq<string>, b: seq<string>)
    ensures Flatten(a + b) == Flatten(a) + Flatten(b)
  {
    if a == [] {
      assert a + b == b;
    } else {
      calc {
        Flatten(a + b);
      ==  { assert (a + b)[0] == a[0] && (a + b)[1..] == a[1..] + b; }
        a[0] + Flatten(a[1..] + b);
      ==  { FlattenAppend(a[1..], b); }
        a[0] + (Flatten(a[1..]) + Flatten(b));
      ==
        Flatten(a) + Flatten(b);
      }
    }
  }

  lemma FlattenSnoc(a: seq<string>, s: string)
    ensures Flatten(a + [s]) == Flatten(a) + s
  {
    FlattenAppend(a, [s]);
    assert Flatten([s]) == s + Flatten([]);
  }
}
