/** Text cut at its double quotes: what a substring search for a quoted key can hit.
    This is the alignment argument behind the key searches of src/config.c. */
module Quoted {
  import opened CStrings

  /** The pieces with a double quote between each two. */
  function Joined(ps: seq<string>): string
    requires ps != []
  {
    if |ps| == 1 then ps[0] else ps[0] + ("\"" + Joined(ps[1..]))
  }

  ghost predicate QuoteFree(ps: seq<string>) {
    forall i :: 0 <= i < |ps| ==> '"' !in ps[i]
  }

  /** Where piece i starts in the joined text. */
  function Offset(ps: seq<string>, i: nat): nat
    requires i <= |ps|
  {
    if i == 0 then 0 else Offset(ps, i - 1) + |ps[i - 1]| + 1
  }

  lemma {:induction false} OffsetTail(ps: seq<string>, i: nat)
    requires 1 <= i <= |ps|
    ensures Offset(ps, i) == |ps[0]| + 1 + Offset(ps[1..], i - 1)
    decreases i
  {
    if i > 1 {
      OffsetTail(ps, i - 1);
      assert ps[1..][i - 2] == ps[i - 1];
    }
  }

  /** t has p at position o, followed by a quote, or by the end if it is the last piece. */
  ghost predicate HasPiece(t: string, o: nat, p: string, last: bool) {
    && o + |p| <= |t| && t[o..o + |p|] == p
    && (last ==> o + |p| == |t|)
    && (!last ==> o + |p| < |t| && t[o + |p|] == '"')
  }

  lemma ShiftPiece(head: string, u: string, o: nat, p: string, last: bool)
    requires HasPiece(u, o, p, last)
    ensures HasPiece(head + u, |head| + o, p, last)
  {
    var t := head + u;
    assert t[|head| + o..|head| + o + |p|] == u[o..o + |p|];
  }

  /** Piece i sits at its offset, and a quote follows unless it is the last. */
  lemma {:induction false} PieceAt(ps: seq<string>, i: nat)
    requires i < |ps|
    ensures HasPiece(Joined(ps), Offset(ps, i), ps[i], i == |ps| - 1)
    decreases |ps|
  {
    if i > 0 {
      PieceAt(ps[1..], i - 1);
      OffsetTail(ps, i);
      var head, u := ps[0] + "\"", Joined(ps[1..]);
      ShiftPiece(head, u, Offset(ps[1..], i - 1), ps[i], i == |ps| - 1);
      assert Joined(ps) == head + u;
    } else if |ps| > 1 {
      var t := Joined(ps);
      assert t[0..|ps[0]|] == ps[0];
    }
  }

  lemma PieceChars(t: string, o: nat, p: string, last: bool)
    requires HasPiece(t, o, p, last)
    ensures forall k :: o <= k < o + |p| ==> t[k] == p[k - o]
  {
    forall k | o <= k < o + |p| ensures t[k] == p[k - o] {
      assert t[k] == t[o..o + |p|][k - o];
    }
  }

  /** From anywhere in a quote-free piece the next quote is the one behind it. */
  lemma QuoteEnds(t: string, o: nat, p: string, pos: nat)
    requires HasPiece(t, o, p, false) && '"' !in p && o <= pos <= o + |p|
    ensures IndexOf(t, '"', pos) == Some(o + |p|)
  {
    PieceChars(t, o, p, false);
    FirstIs(t, '"', pos, o + |p|);
  }

  lemma QuoteAfter(t: string, o: nat, p: string, pos: nat, q: nat)
    requires HasPiece(t, o, p, false) && '"' !in p && o <= pos + 1 <= o + |p| && q == o + |p|
    ensures NextOf(t, '"', Some(pos)) == Some(q)
  {
    QuoteEnds(t, o, p, pos + 1);
  }

  /** From anywhere in piece i the next quote is the one that ends the piece. */
  lemma NextQuote(ps: seq<string>, i: nat, pos: nat)
    requires QuoteFree(ps) && i < |ps| && Offset(ps, i) <= pos <= Offset(ps, i) + |ps[i]|
    ensures IndexOf(Joined(ps), '"', pos) == if i < |ps| - 1 then Some(Offset(ps, i + 1) - 1) else None
  {
    var t, o := Joined(ps), Offset(ps, i);
    PieceAt(ps, i);
    if i < |ps| - 1 {
      QuoteEnds(t, o, ps[i], pos);
    } else {
      PieceChars(t, o, ps[i], true);
      NotFound(t, '"', pos);
    }
  }

  /** A character that piece i contains is found inside piece i. */
  lemma CharInPiece(ps: seq<string>, i: nat, c: char, k: nat)
    requires i < |ps| && k < |ps[i]| && ps[i][k] == c && forall j :: 0 <= j < k ==> ps[i][j] != c
    ensures IndexOf(Joined(ps), c, Offset(ps, i)) == Some(Offset(ps, i) + k)
  {
    PieceAt(ps, i);
    PieceChars(Joined(ps), Offset(ps, i), ps[i], i == |ps| - 1);
    FirstIs(Joined(ps), c, Offset(ps, i), Offset(ps, i) + k);
  }

  // ---- searching for a quoted key -------------------------------------------------------

  function InQuotes(key: string): string { "\"" + (key + "\"") }

  /** The first piece between two quotes that equals the key, if any. */
  function KeyPiece(ps: seq<string>, key: string): (r: Option<nat>)
    ensures r.Some? ==> 1 <= r.value < |ps| - 1
    decreases |ps|
  {
    if |ps| < 3 then None
    else if ps[1] == key then Some(1)
    else
      match KeyPiece(ps[1..], key)
      case None => None
      case Some(i) => Some(i + 1)
  }

  lemma {:induction false} FirstKeyPiece(ps: seq<string>, key: string, i: nat)
    requires 1 <= i < |ps| - 1 && ps[i] == key && forall j :: 1 <= j < i ==> ps[j] != key
    ensures KeyPiece(ps, key) == Some(i)
    decreases i
  {
    if i > 1 {
      assert forall j :: 1 <= j < i - 1 ==> ps[1..][j] == ps[j + 1];
      FirstKeyPiece(ps[1..], key, i - 1);
    }
  }

  lemma {:induction false} KeyPieceFacts(ps: seq<string>, key: string)
    ensures var r := KeyPiece(ps, key);
            && (r.Some? ==> ps[r.value] == key && forall i :: 1 <= i < r.value ==> ps[i] != key)
            && (r.None? ==> forall i :: 1 <= i < |ps| - 1 ==> ps[i] != key)
    decreases |ps|
  {
    if |ps| >= 3 && ps[1] != key {
      KeyPieceFacts(ps[1..], key);
      assert forall i :: 2 <= i < |ps| ==> ps[i] == ps[1..][i - 1];
    }
  }

  lemma NoKeyPiece(ps: seq<string>, key: string)
    requires forall i :: 1 <= i < |ps| - 1 ==> ps[i] != key
    ensures KeyPiece(ps, key) == None
  {
    KeyPieceFacts(ps, key);
  }

  lemma MatchShape(t: string, key: string, pos: nat)
    ensures MatchAt(t, InQuotes(key), pos) <==>
            pos + 1 + |key| < |t| && t[pos] == '"' && t[pos + 1..pos + 1 + |key|] == key && t[pos + 1 + |key|] == '"'
  {
    var pat := InQuotes(key);
    assert pat[0] == '"' && pat[1..1 + |key|] == key && pat[1 + |key|] == '"';
    if pos + 1 + |key| < |t| {
      var m := t[pos..pos + |pat|];
      assert m == [t[pos]] + (t[pos + 1..pos + 1 + |key|] + [t[pos + 1 + |key|]]);
      assert m[1..1 + |key|] == t[pos + 1..pos + 1 + |key|];
    }
  }

  /** If a quote-free stretch of length n up to a quote or the end starts where the key
      starts, the key is that stretch. */
  lemma KeyFillsPiece(t: string, o: nat, p: string, last: bool, key: string)
    requires HasPiece(t, o, p, last) && '"' !in p && '"' !in key
    ensures o + |key| < |t| && t[o..o + |key|] == key && t[o + |key|] == '"' <==> !last && p == key
  {
    PieceChars(t, o, p, last);
    if o + |key| < |t| && t[o..o + |key|] == key && t[o + |key|] == '"' {
      forall k | 0 <= k < |key| ensures t[o + k] == key[k] {
        assert t[o + k] == t[o..o + |key|][k];
      }
    }
  }

  lemma NoMatchInPiece(t: string, key: string, o: nat, p: string, last: bool, pos: nat)
    requires HasPiece(t, o, p, last) && '"' !in p && o <= pos <= o + |p|
    requires pos < o + |p| || last
    ensures !MatchAt(t, InQuotes(key), pos)
  {
    MatchShape(t, key, pos);
    PieceChars(t, o, p, last);
  }

  lemma MatchAtQuote(t: string, key: string, q: nat, o: nat, p: string, last: bool)
    requires HasPiece(t, o, p, last) && '"' !in p && '"' !in key && o == q + 1 && q < |t| && t[q] == '"'
    ensures MatchAt(t, InQuotes(key), q) <==> !last && p == key
  {
    MatchShape(t, key, q);
    KeyFillsPiece(t, o, p, last, key);
  }

  /** A match can only start at a quote, and then it spans exactly one whole piece. */
  lemma MatchIsAligned(ps: seq<string>, key: string, i: nat, pos: nat)
    requires QuoteFree(ps) && '"' !in key && i < |ps|
    requires Offset(ps, i) <= pos <= Offset(ps, i) + |ps[i]|
    ensures MatchAt(Joined(ps), InQuotes(key), pos) <==>
            pos == Offset(ps, i) + |ps[i]| && i + 1 < |ps| - 1 && ps[i + 1] == key
  {
    var t, o := Joined(ps), Offset(ps, i);
    PieceAt(ps, i);
    if pos < o + |ps[i]| || i == |ps| - 1 {
      NoMatchInPiece(t, key, o, ps[i], i == |ps| - 1, pos);
    } else {
      PieceAt(ps, i + 1);
      MatchAtQuote(t, key, pos, Offset(ps, i + 1), ps[i + 1], i + 1 == |ps| - 1);
    }
  }

  lemma {:induction false} NoMatchBefore(ps: seq<string>, key: string, i: nat)
    requires QuoteFree(ps) && '"' !in key && i < |ps|
    requires forall j :: 1 <= j <= i && j < |ps| - 1 ==> ps[j] != key
    ensures MatchFree(Joined(ps), InQuotes(key), 0, Offset(ps, i))
    decreases i
  {
    if i > 0 {
      NoMatchBefore(ps, key, i - 1);
      forall pos | Offset(ps, i - 1) <= pos < Offset(ps, i) ensures !MatchAt(Joined(ps), InQuotes(key), pos) {
        MatchIsAligned(ps, key, i - 1, pos);
      }
    }
  }

  /** The key search finds exactly the first whole quoted piece that equals the key; no
      other text can match, because quotes must align. */
  lemma KeySearch(ps: seq<string>, key: string)
    requires QuoteFree(ps) && ps != [] && '"' !in key
    ensures var r := KeyPiece(ps, key);
            FindSub(Joined(ps), InQuotes(key), 0) == if r.Some? then Some(Offset(ps, r.value) - 1) else None
  {
    KeyPieceFacts(ps, key);
    if KeyPiece(ps, key).Some? {
      var i := KeyPiece(ps, key).value;
      KeyFound(ps, key, i - 1, i, Offset(ps, i) - 1);
    } else {
      KeyAbsent(ps, key);
    }
  }

  /** No match starts from a on and before b. */
  ghost predicate MatchFree(t: string, pat: string, a: nat, b: nat) {
    forall pos :: a <= pos < b ==> !MatchAt(t, pat, pos)
  }

  /** The first piece that equals the key is found at the quote q before it. */
  lemma KeyFound(ps: seq<string>, key: string, h: nat, i: nat, q: nat)
    requires QuoteFree(ps) && '"' !in key && i == h + 1 < |ps| - 1 && q + 1 == Offset(ps, i)
    requires ps[i] == key && forall j :: 1 <= j < i ==> ps[j] != key
    ensures FindSub(Joined(ps), InQuotes(key), 0) == Some(q)
  {
    OffsetStep(ps, h, i);
    NoMatchBefore(ps, key, h);
    NoMatchInside(ps, key, h);
    MatchIsAligned(ps, key, h, q);
    FirstMatchBehind(Joined(ps), InQuotes(key), Offset(ps, h), q);
  }

  lemma OffsetStep(ps: seq<string>, h: nat, i: nat)
    requires i == h + 1 <= |ps|
    ensures Offset(ps, i) == Offset(ps, h) + |ps[h]| + 1
  {
  }

  lemma FirstMatchBehind(t: string, pat: string, o: nat, q: nat)
    requires MatchFree(t, pat, 0, o) && MatchFree(t, pat, o, q) && MatchAt(t, pat, q)
    ensures FindSub(t, pat, 0) == Some(q)
  {
    FirstMatchIs(t, pat, 0, q);
  }

  lemma NoMatchInside(ps: seq<string>, key: string, i: nat)
    requires QuoteFree(ps) && '"' !in key && i < |ps|
    ensures MatchFree(Joined(ps), InQuotes(key), Offset(ps, i), Offset(ps, i) + |ps[i]|)
  {
    forall pos | Offset(ps, i) <= pos < Offset(ps, i) + |ps[i]| ensures !MatchAt(Joined(ps), InQuotes(key), pos) {
      MatchIsAligned(ps, key, i, pos);
    }
  }

  lemma KeyAbsent(ps: seq<string>, key: string)
    requires QuoteFree(ps) && ps != [] && '"' !in key && forall i :: 1 <= i < |ps| - 1 ==> ps[i] != key
    ensures FindSub(Joined(ps), InQuotes(key), 0) == None
  {
    var t, pat, n := Joined(ps), InQuotes(key), |ps| - 1;
    NoMatchBefore(ps, key, n);
    PieceAt(ps, n);
    forall pos: nat ensures !MatchAt(t, pat, pos) {
      if Offset(ps, n) <= pos <= |t| {
        MatchIsAligned(ps, key, n, pos);
      }
    }
    NoMatch(t, pat, 0);
  }
}
